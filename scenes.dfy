/**
 * Scene objects as loaded from the scene file (raytracer/scene.go): here
 * children are held by value. The hierarchy is flattened by concatenating
 * keys and composing matrices, vertices are moved to absolute coordinates,
 * and the homogeneous coordinates are fixed up.
 */
module Scenes {
  import opened Vectors
  import opened Matrices
  import opened Meshes

  /** A material entry of the scene file; its faces are index triples. */
  datatype SceneMaterial = SceneMaterial(Color: Vector, Display: int, Texture: string, Opacity: real, Indices: seq<(int, int, int)>)

  datatype SceneObject = SceneObject(
    Vertices: seq<Vector>,
    Normals: seq<Vector>,
    TexCoords: seq<Vector>,
    Matrix: Matrix,
    Materials: map<string, SceneMaterial>,
    Children: map<string, SceneObject>)

  /** The largest element of a finite set of naturals, 0 for the empty set. */
  ghost function SetMax(s: set<nat>): (m: nat)
    ensures forall x :: x in s ==> x <= m
    decreases s
  {
    if s == {} then 0
    else
      var x :| x in s;
      var rest := SetMax(s - {x});
      assert forall y :: y in s ==> y == x || y in s - {x};
      if x > rest then x else rest
  }

  /** The number of levels of an object's hierarchy. */
  ghost function Height(o: SceneObject): nat
    decreases o
  {
    1 + SetMax(set k | k in o.Children :: Height(o.Children[k]))
  }

  /** The number of levels of a map of objects. */
  ghost function MapHeight(objects: map<string, SceneObject>): nat
  {
    SetMax(set k | k in objects :: Height(objects[k]))
  }

  /** The children of any object of a map sit lower than the map. */
  lemma ChildrenLower(objects: map<string, SceneObject>, k: string)
    requires k in objects
    ensures MapHeight(objects[k].Children) < MapHeight(objects)
  {
    var o := objects[k];
    var below := set name | name in o.Children :: Height(o.Children[name]);
    assert Height(o) == 1 + SetMax(below);
    assert MapHeight(o.Children) == SetMax(below);
    var level := set k | k in objects :: Height(objects[k]);
    assert Height(o) in level;
    assert MapHeight(objects) == SetMax(level);
  }

  /**
   * Every (key, object) pair flattenSceneObjects can store: each top-level
   * object under its key, and each flattened descendant under the parent
   * key followed by its own key, its matrix composed with the parent's.
   */
  ghost function Flat(objects: map<string, SceneObject>): set<(string, SceneObject)>
    decreases MapHeight(objects)
  {
    (set k | k in objects :: (k, objects[k])) +
    (set k, e | k in objects && e in FlatBelow(objects, k) :: (k + e.0, e.1.(Matrix := MultiplyMatrix(e.1.Matrix, objects[k].Matrix))))
  }

  ghost function FlatBelow(objects: map<string, SceneObject>, k: string): set<(string, SceneObject)>
    requires k in objects
    decreases MapHeight(objects), 0
  {
    ChildrenLower(objects, k);
    Flat(objects[k].Children)
  }

  /**
   * flattenSceneObjects: the keys are visited in an unspecified order, as
   * Go's map iteration is. Every stored pair is one Flat allows, and every
   * key Flat produces is stored; where two pairs share a key, the one
   * written last is kept.
   */
  method FlattenSceneObjects(objects: map<string, SceneObject>) returns (result: map<string, SceneObject>)
    decreases MapHeight(objects), 1
    ensures forall key :: key in result ==> (key, result[key]) in Flat(objects)
    ensures forall e :: e in Flat(objects) ==> e.0 in result
  {
    result := map[];
    var keys := objects.Keys;
    ghost var processed: set<string> := {};
    while keys != {}
      invariant keys <= objects.Keys && processed <= objects.Keys
      invariant forall k :: k in objects ==> k in keys || k in processed
      invariant forall key :: key in result ==> (key, result[key]) in Flat(objects)
      invariant forall k :: k in processed ==> k in result
      invariant forall k, e :: k in processed && e in FlatBelow(objects, k) ==> k + e.0 in result
      decreases |keys|
    {
      var k :| k in keys;
      result := FlattenKey(objects, k, result);
      keys := keys - {k};
      processed := processed + {k};
    }
    forall e | e in Flat(objects)
      ensures e.0 in result
    {
      if e !in (set k | k in objects :: (k, objects[k])) {
        var k, d :| k in objects && d in FlatBelow(objects, k) && e == (k + d.0, d.1.(Matrix := MultiplyMatrix(d.1.Matrix, objects[k].Matrix)));
      }
    }
  }

  /** One turn of flattenSceneObjects' loop: stores `k` and then its flattened children under k + their keys. */
  method FlattenKey(objects: map<string, SceneObject>, k: string, result0: map<string, SceneObject>) returns (result: map<string, SceneObject>)
    requires k in objects
    requires forall key :: key in result0 ==> (key, result0[key]) in Flat(objects)
    decreases MapHeight(objects), 0
    ensures forall key :: key in result0 ==> key in result
    ensures forall key :: key in result ==> (key, result[key]) in Flat(objects)
    ensures k in result
    ensures forall e :: e in FlatBelow(objects, k) ==> k + e.0 in result
  {
    result := StoreTop(objects, k, result0);
    if |objects[k].Children| > 0 {
      ChildrenLower(objects, k);
      var flatList := FlattenSceneObjects(objects[k].Children);
      assert FlatBelow(objects, k) == Flat(objects[k].Children);
      result := AddFlattened(objects, k, flatList, result);
    } else {
      NoChildrenNothingBelow(objects, k);
    }
  }

  /** The first step of a loop turn: the object itself is stored under its key. */
  method StoreTop(objects: map<string, SceneObject>, k: string, result0: map<string, SceneObject>) returns (result: map<string, SceneObject>)
    requires k in objects
    requires forall key :: key in result0 ==> (key, result0[key]) in Flat(objects)
    ensures result == result0[k := objects[k]]
    ensures forall key :: key in result ==> (key, result[key]) in Flat(objects)
  {
    TopInFlat(objects, k);
    result := result0[k := objects[k]];
  }

  /** Every top-level object is in the flattening under its own key. */
  lemma TopInFlat(objects: map<string, SceneObject>, k: string)
    requires k in objects
    ensures (k, objects[k]) in Flat(objects)
  {
    assert (k, objects[k]) in (set k | k in objects :: (k, objects[k]));
  }

  /** The children of a map never yield anything once there are none. */
  lemma NoChildrenNothingBelow(objects: map<string, SceneObject>, k: string)
    requires k in objects && |objects[k].Children| == 0
    ensures FlatBelow(objects, k) == {}
  {
    ChildrenLower(objects, k);
    assert objects[k].Children == map[];
  }

  /** The inner loop of flattenSceneObjects: stores each flattened child of `k` under k + its key. */
  method AddFlattened(objects: map<string, SceneObject>, k: string, flatList: map<string, SceneObject>,
                      result0: map<string, SceneObject>) returns (result: map<string, SceneObject>)
    requires k in objects
    requires forall key :: key in flatList ==> (key, flatList[key]) in FlatBelow(objects, k)
    requires forall e :: e in FlatBelow(objects, k) ==> e.0 in flatList
    requires forall key :: key in result0 ==> (key, result0[key]) in Flat(objects)
    ensures forall key :: key in result0 ==> key in result
    ensures forall key :: key in result ==> (key, result[key]) in Flat(objects)
    ensures forall e :: e in FlatBelow(objects, k) ==> k + e.0 in result
  {
    result := result0;
    var subKeys := flatList.Keys;
    while subKeys != {}
      invariant subKeys <= flatList.Keys
      invariant forall key :: key in result0 ==> key in result
      invariant forall key :: key in result ==> (key, result[key]) in Flat(objects)
      invariant forall subKey :: subKey in flatList && subKey !in subKeys ==> k + subKey in result
      decreases |subKeys|
    {
      var subKey :| subKey in subKeys;
      result := StoreLifted(objects, k, subKey, flatList[subKey], result);
      subKeys := subKeys - {subKey};
    }
  }

  /** One step of the inner loop: the descendant stored under the prefixed key, with k's matrix applied. */
  method StoreLifted(objects: map<string, SceneObject>, k: string, subKey: string, sub: SceneObject,
                     result0: map<string, SceneObject>) returns (result: map<string, SceneObject>)
    requires k in objects && (subKey, sub) in FlatBelow(objects, k)
    requires forall key :: key in result0 ==> (key, result0[key]) in Flat(objects)
    ensures result == result0[k + subKey := sub.(Matrix := MultiplyMatrix(sub.Matrix, objects[k].Matrix))]
    ensures forall key :: key in result ==> (key, result[key]) in Flat(objects)
  {
    var subObj := sub.(Matrix := MultiplyMatrix(sub.Matrix, objects[k].Matrix));
    FlatBelowLifted(objects, k, (subKey, sub));
    result := result0[k + subKey := subObj];
  }

  /** A flattened descendant of `k`, with `k`'s key prefixed and matrix applied, is in Flat. */
  lemma FlatBelowLifted(objects: map<string, SceneObject>, k: string, e: (string, SceneObject))
    requires k in objects && e in FlatBelow(objects, k)
    ensures (k + e.0, e.1.(Matrix := MultiplyMatrix(e.1.Matrix, objects[k].Matrix))) in Flat(objects)
  {
  }

  /** A top-level key that no flattened descendant produces keeps its object unchanged. */
  lemma TopLevelKept(objects: map<string, SceneObject>, result: map<string, SceneObject>, k: string)
    requires k in objects
    requires forall key :: key in result ==> (key, result[key]) in Flat(objects)
    requires forall e :: e in Flat(objects) ==> e.0 in result
    requires forall p, e :: p in objects && e in FlatBelow(objects, p) ==> p + e.0 != k
    ensures k in result && result[k] == objects[k]
  {
    assert (k, objects[k]) in Flat(objects);
    var v := result[k];
    assert (k, v) in Flat(objects);
    assert (k, v) !in (set p, e | p in objects && e in FlatBelow(objects, p) :: (p + e.0, e.1.(Matrix := MultiplyMatrix(e.1.Matrix, objects[p].Matrix))));
  }

  /**
   * A descendant's prefixed key that is no top-level key and that no other
   * flattened descendant produces holds that descendant, with its parent's
   * matrix applied.
   */
  lemma DescendantKept(objects: map<string, SceneObject>, result: map<string, SceneObject>, p: string, e: (string, SceneObject))
    requires p in objects && e in FlatBelow(objects, p)
    requires forall key :: key in result ==> (key, result[key]) in Flat(objects)
    requires forall x :: x in Flat(objects) ==> x.0 in result
    requires p + e.0 !in objects
    requires forall q, d :: q in objects && d in FlatBelow(objects, q) && q + d.0 == p + e.0 ==> q == p && d == e
    ensures p + e.0 in result && result[p + e.0] == e.1.(Matrix := MultiplyMatrix(e.1.Matrix, objects[p].Matrix))
  {
    FlatBelowLifted(objects, p, e);
    var v := result[p + e.0];
    assert (p + e.0, v) in Flat(objects);
    assert (p + e.0, v) !in (set k | k in objects :: (k, objects[k]));
    var q, d :| q in objects && d in FlatBelow(objects, q) && (p + e.0, v) == (q + d.0, d.1.(Matrix := MultiplyMatrix(d.1.Matrix, objects[q].Matrix)));
  }

  /** The vertices transformed by a matrix (transformObjectToAbsolute). */
  method TransformObjectToAbsolute(vertices: seq<Vector>, matrix: Matrix) returns (result: seq<Vector>)
    ensures RewrittenFrom(result, vertices, v => VectorTransform(v, matrix))
  {
    result := [];
    for i := 0 to |vertices|
      invariant |result| == i
      invariant forall k :: 0 <= k < i ==> result[k] == VectorTransform(vertices[k], matrix)
    {
      result := result + [VectorTransform(vertices[i], matrix)];
    }
  }

  /** The identity matrix leaves every vertex where it is. */
  lemma IdentityLeavesVertices(vertices: seq<Vector>, result: seq<Vector>)
    requires RewrittenFrom(result, vertices, v => VectorTransform(v, Identity))
    ensures result == vertices
  {
    forall k | 0 <= k < |vertices|
      ensures result[k] == vertices[k]
    {
      TransformIdentity(vertices[k]);
    }
  }

  /**
   * A flattened child's absolute vertices are where the nested transforms
   * put them: by the child's matrix, then by the parent's.
   */
  lemma FlattenedTransformNests(vertices: seq<Vector>, child: Matrix, parent: Matrix, result: seq<Vector>)
    requires RewrittenFrom(result, vertices, v => VectorTransform(v, MultiplyMatrix(child, parent)))
    ensures forall k :: 0 <= k < |vertices| ==> result[k] == VectorTransform(VectorTransform(vertices[k], child), parent)
  {
    forall k | 0 <= k < |vertices|
      ensures result[k] == VectorTransform(VectorTransform(vertices[k], child), parent)
    {
      TransformMultiply(vertices[k], child, parent);
    }
  }

  /**
   * transformObjectsToAbsolute: each object's vertices are replaced by
   * their transform by its own matrix; keys, counts and every other field
   * stay as they were.
   */
  method TransformObjectsToAbsolute(objects: map<string, SceneObject>) returns (result: map<string, SceneObject>)
    ensures result.Keys == objects.Keys
    ensures forall k :: k in objects ==>
              RewrittenFrom(result[k].Vertices, objects[k].Vertices, v => VectorTransform(v, objects[k].Matrix)) &&
              result[k] == objects[k].(Vertices := result[k].Vertices)
  {
    result := objects;
    var keys := objects.Keys;
    while keys != {}
      invariant keys <= objects.Keys && result.Keys == objects.Keys
      invariant forall k :: k in objects && k !in keys ==>
                  RewrittenFrom(result[k].Vertices, objects[k].Vertices, v => VectorTransform(v, objects[k].Matrix)) &&
                  result[k] == objects[k].(Vertices := result[k].Vertices)
      invariant forall k :: k in keys ==> result[k] == objects[k]
      decreases |keys|
    {
      var k :| k in keys;
      var absoluteVertices := TransformObjectToAbsolute(result[k].Vertices, result[k].Matrix);
      var vertices := result[k].Vertices;
      for i := 0 to |absoluteVertices|
        invariant |vertices| == |absoluteVertices|
        invariant forall j :: 0 <= j < i ==> vertices[j] == absoluteVertices[j]
      {
        vertices := vertices[i := absoluteVertices[i]];
      }
      assert vertices == absoluteVertices;
      result := result[k := result[k].(Vertices := vertices)];
      keys := keys - {k};
    }
  }

  /** `now` is `before` with every object of its hierarchy fixed up, and nothing else changed. */
  ghost predicate FixedTree(now: SceneObject, before: SceneObject)
    decreases before
  {
    RewrittenFrom(now.Vertices, before.Vertices, AsPoint) &&
    RewrittenFrom(now.Normals, before.Normals, AsDirection) &&
    RewrittenFrom(now.TexCoords, before.TexCoords, AsTexCoord) &&
    now.Matrix == before.Matrix && now.Materials == before.Materials &&
    now.Children.Keys == before.Children.Keys &&
    forall name :: name in before.Children ==> FixedTree(now.Children[name], before.Children[name])
  }

  /**
   * The scene.go fixObjectVectorW: the same fix-up as for mesh objects;
   * each child is a copy that is fixed up and written back under its name.
   */
  method FixSceneObjectW(o: SceneObject) returns (result: SceneObject)
    decreases o
    ensures FixedTree(result, o)
  {
    var vertices := Rewrite(o.Vertices, AsPoint);
    var normals := Rewrite(o.Normals, AsDirection);
    var texCoords := Rewrite(o.TexCoords, AsTexCoord);
    result := o.(Vertices := vertices, Normals := normals, TexCoords := texCoords);
    var names := o.Children.Keys;
    while names != {}
      invariant names <= o.Children.Keys && result.Children.Keys == o.Children.Keys
      invariant RewrittenFrom(result.Vertices, o.Vertices, AsPoint) &&
                RewrittenFrom(result.Normals, o.Normals, AsDirection) &&
                RewrittenFrom(result.TexCoords, o.TexCoords, AsTexCoord)
      invariant result.Matrix == o.Matrix && result.Materials == o.Materials
      invariant forall name :: name in o.Children && name !in names ==> FixedTree(result.Children[name], o.Children[name])
      invariant forall name :: name in names ==> result.Children[name] == o.Children[name]
      decreases |names|
    {
      var name :| name in names;
      var obj := FixSceneObjectW(result.Children[name]);
      result := result.(Children := result.Children[name := obj]);
      names := names - {name};
    }
  }
}
