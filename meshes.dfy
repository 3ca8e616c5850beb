/**
 * Mesh preprocessing on loaded objects (raytracer/object.go): face indices
 * become triangles with consecutive ids, the homogeneous coordinate of
 * every vertex, normal and texture coordinate is fixed up through the
 * child hierarchy, and a KD tree is built over the triangles.
 */
module Meshes {
  import opened Vectors
  import opened Matrices
  import opened Triangles
  import opened KdTree

  /** A position: w = 1. */
  function AsPoint(v: Vector): Vector
  {
    Vector(v.x, v.y, v.z, 1.0)
  }

  /** A direction: w = 0. */
  function AsDirection(v: Vector): Vector
  {
    Vector(v.x, v.y, v.z, 0.0)
  }

  /** A texture coordinate: only u and v are kept, z = w = 0. */
  function AsTexCoord(v: Vector): Vector
  {
    Vector(v.x, v.y, 0.0, 0.0)
  }

  /** `now` is `before` with `f` applied to every element, in place. */
  predicate RewrittenFrom(now: seq<Vector>, before: seq<Vector>, f: Vector -> Vector)
  {
    |now| == |before| && forall k :: 0 <= k < |now| ==> now[k] == f(before[k])
  }

  /** The in-place loop over one vector list. */
  method Rewrite(vs: seq<Vector>, f: Vector -> Vector) returns (result: seq<Vector>)
    ensures RewrittenFrom(result, vs, f)
  {
    result := vs;
    for i := 0 to |vs|
      invariant |result| == |vs|
      invariant forall k :: 0 <= k < i ==> result[k] == f(vs[k])
      invariant forall k :: i <= k < |vs| ==> result[k] == vs[k]
    {
      result := result[i := f(result[i])];
    }
  }

  /** The fix-up keeps x, y (and z for points and directions) and sets the rest. */
  lemma FixUpKeepsCoordinates(v: Vector)
    ensures AsPoint(v).w == 1.0 && AsDirection(v).w == 0.0 && AsTexCoord(v).z == 0.0 && AsTexCoord(v).w == 0.0
    ensures Spatial(AsPoint(v)) == Spatial(v) && Spatial(AsDirection(v)) == Spatial(v)
    ensures AsTexCoord(v).x == v.x && AsTexCoord(v).y == v.y
  {
  }

  /** Fixing up twice is fixing up once, so a child reached through two links ends up fixed up once. */
  lemma {:induction false} RewriteTwice(a: seq<Vector>, b: seq<Vector>, c: seq<Vector>, f: Vector -> Vector)
    requires forall v :: f(f(v)) == f(v)
    requires RewrittenFrom(b, a, f)
    requires RewrittenFrom(c, b, f)
    ensures RewrittenFrom(c, a, f)
  {
    forall k | 0 <= k < |c|
      ensures c[k] == f(a[k])
    {
      assert c[k] == f(b[k]) && b[k] == f(a[k]);
      assert f(f(a[k])) == f(a[k]);
    }
  }

  /** The triangle a face of a material becomes, with the given id. */
  function FaceTriangle(vertices: seq<Vector>, normals: seq<Vector>, texCoords: seq<Vector>,
                        material: Material, face: Indice, id: int): Triangle
    requires FaceInRange(face, vertices, normals, texCoords)
  {
    Triangle(id,
      vertices[face.i0], vertices[face.i1], vertices[face.i2],
      normals[face.i0], normals[face.i1], normals[face.i2],
      if |texCoords| > 0 then texCoords[face.i0] else Zero,
      if |texCoords| > 0 then texCoords[face.i1] else Zero,
      if |texCoords| > 0 then texCoords[face.i2] else Zero,
      material, [], face.i3 == 1)
  }

  /** The face's three indices select a vertex and a normal, and a texture coordinate if there are any. */
  predicate FaceInRange(face: Indice, vertices: seq<Vector>, normals: seq<Vector>, texCoords: seq<Vector>)
  {
    0 <= face.i0 < |vertices| && 0 <= face.i1 < |vertices| && 0 <= face.i2 < |vertices| &&
    face.i0 < |normals| && face.i1 < |normals| && face.i2 < |normals| &&
    (|texCoords| > 0 ==> face.i0 < |texCoords| && face.i1 < |texCoords| && face.i2 < |texCoords|)
  }

  /** The faces of one material, each paired with the material's name. */
  function MaterialFaces(name: string, indices: seq<Indice>): (r: seq<(string, Indice)>)
    ensures |r| == |indices| && forall j :: 0 <= j < |r| ==> r[j] == (name, indices[j])
  {
    seq(|indices|, j requires 0 <= j < |indices| => (name, indices[j]))
  }

  /** Every face of the materials named in `order`, material after material, each with its material's name. */
  function FacesOf(materials: map<string, Material>, order: seq<string>): seq<(string, Indice)>
    requires forall k :: 0 <= k < |order| ==> order[k] in materials
  {
    if |order| == 0 then []
    else
      var name := order[|order| - 1];
      FacesOf(materials, order[..|order| - 1]) + MaterialFaces(name, materials[name].Indices)
  }

  /** Naming one more material appends its faces. */
  lemma FacesOfAppend(materials: map<string, Material>, order: seq<string>, name: string)
    requires forall k :: 0 <= k < |order| ==> order[k] in materials
    requires name in materials
    ensures FacesOf(materials, order + [name]) == FacesOf(materials, order) + MaterialFaces(name, materials[name].Indices)
  {
    assert (order + [name])[..|order|] == order;
  }

  /** Each listed face names a material and is one of that material's faces. */
  lemma {:induction false} FacesOfBelong(materials: map<string, Material>, order: seq<string>)
    requires forall k :: 0 <= k < |order| ==> order[k] in materials
    ensures forall j :: 0 <= j < |FacesOf(materials, order)| ==>
              FacesOf(materials, order)[j].0 in materials &&
              FacesOf(materials, order)[j].1 in materials[FacesOf(materials, order)[j].0].Indices
  {
    if |order| > 0 {
      FacesOfBelong(materials, order[..|order| - 1]);
    }
  }

  /** A mesh object as loaded; Children point at further objects. */
  class Object {
    var Vertices: seq<Vector>
    var Normals: seq<Vector>
    var TexCoords: seq<Vector>
    var Matrix: Matrix
    var Materials: map<string, Material>
    const Children: map<string, Object>
    var Triangles: seq<Triangle>
    var Root: Node
    ghost const Repr: set<Object>
    ghost const height: nat

    /**
     * The child links form a hierarchy: Repr is this object and everything
     * below it, and every child sits strictly lower. Children may be shared.
     */
    ghost predicate Valid()
      decreases height
    {
      this in Repr &&
      (forall name :: name in Children ==>
        Children[name] in Repr && Children[name].Repr <= Repr && this !in Children[name].Repr &&
        Children[name].height < height && Children[name].Valid()) &&
      Repr == {this} + (set name, x | name in Children && x in Children[name].Repr :: x)
    }

    /**
     * UnifyTriangles: appends one triangle per face of every material, in
     * some order of the materials (`order`), the j-th new one taking id
     * idCounter + 1 + j, and then drops the vertex, normal and texture
     * coordinate lists. The global idCounter comes in and goes out.
     */
    method UnifyTriangles(idCounter: int) returns (next: int, ghost order: seq<string>, ghost faces: seq<(string, Indice)>)
      modifies this
      requires forall name, k :: name in Materials && 0 <= k < |Materials[name].Indices| ==>
                 FaceInRange(Materials[name].Indices[k], Vertices, Normals, TexCoords)
      ensures Vertices == [] && Normals == [] && TexCoords == []
      ensures Materials == old(Materials) && Matrix == old(Matrix) && Root == old(Root)
      ensures |order| == |Materials| && (forall name :: name in Materials <==> name in order)
      ensures forall a, b :: 0 <= a < b < |order| ==> order[a] != order[b]
      ensures (forall k :: 0 <= k < |order| ==> order[k] in Materials) && faces == FacesOf(Materials, order)
      ensures next == idCounter + |faces|
      ensures |Triangles| == |old(Triangles)| + |faces| && Triangles[..|old(Triangles)|] == old(Triangles)
      ensures forall j :: 0 <= j < |faces| ==>
                faces[j].0 in Materials && FaceInRange(faces[j].1, old(Vertices), old(Normals), old(TexCoords)) &&
                Triangles[|old(Triangles)| + j] ==
                  FaceTriangle(old(Vertices), old(Normals), old(TexCoords), Materials[faces[j].0], faces[j].1, idCounter + 1 + j)
    {
      next, order, faces := AppendMaterials(idCounter);
      Vertices := [];
      Normals := [];
      TexCoords := [];
    }

    /** The material loop of UnifyTriangles, over the materials in some order. */
    method AppendMaterials(idCounter: int) returns (next: int, ghost order: seq<string>, ghost faces: seq<(string, Indice)>)
      modifies this`Triangles
      requires forall name, k :: name in Materials && 0 <= k < |Materials[name].Indices| ==>
                 FaceInRange(Materials[name].Indices[k], Vertices, Normals, TexCoords)
      ensures |order| == |Materials| && (forall name :: name in Materials <==> name in order)
      ensures forall a, b :: 0 <= a < b < |order| ==> order[a] != order[b]
      ensures (forall k :: 0 <= k < |order| ==> order[k] in Materials) && faces == FacesOf(Materials, order)
      ensures next == idCounter + |faces|
      ensures |Triangles| == |old(Triangles)| + |faces| && Triangles[..|old(Triangles)|] == old(Triangles)
      ensures forall j :: 0 <= j < |faces| ==> faces[j].0 in Materials && FaceInRange(faces[j].1, Vertices, Normals, TexCoords)
      ensures forall j :: 0 <= j < |faces| ==>
                Triangles[|old(Triangles)| + j] ==
                  FaceTriangle(Vertices, Normals, TexCoords, Materials[faces[j].0], faces[j].1, idCounter + 1 + j)
    {
      next := idCounter;
      order := [];
      faces := [];
      var names := Materials.Keys;
      while names != {}
        invariant names <= Materials.Keys
        invariant forall name :: name in Materials <==> name in order || name in names
        invariant forall k :: 0 <= k < |order| ==> order[k] in Materials && order[k] !in names
        invariant forall a, b :: 0 <= a < b < |order| ==> order[a] != order[b]
        invariant |order| + |names| == |Materials|
        invariant faces == FacesOf(Materials, order)
        invariant next == idCounter + |faces|
        invariant |Triangles| == |old(Triangles)| + |faces| && Triangles[..|old(Triangles)|] == old(Triangles)
        invariant forall j :: 0 <= j < |faces| ==> faces[j].0 in Materials && FaceInRange(faces[j].1, Vertices, Normals, TexCoords)
        invariant forall j :: 0 <= j < |faces| ==>
                    Triangles[|old(Triangles)| + j] ==
                      FaceTriangle(Vertices, Normals, TexCoords, Materials[faces[j].0], faces[j].1, idCounter + 1 + j)
        decreases |names|
      {
        var matName :| matName in names;
        next, faces := AppendMaterialFaces(matName, next, faces, old(Triangles), idCounter);
        FacesOfAppend(Materials, order, matName);
        order := order + [matName];
        names := names - {matName};
      }
    }

    /**
     * One step of the material loop: the triangles of material `matName`
     * follow those of the materials before it (`faces0`, appended after
     * `base`), with ids continuing from idCounter + |faces0|.
     */
    method AppendMaterialFaces(matName: string, next0: int, ghost faces0: seq<(string, Indice)>, ghost base: seq<Triangle>, ghost idCounter: int)
      returns (next: int, ghost faces: seq<(string, Indice)>)
      modifies this`Triangles
      requires matName in Materials
      requires forall name, k :: name in Materials && 0 <= k < |Materials[name].Indices| ==>
                 FaceInRange(Materials[name].Indices[k], Vertices, Normals, TexCoords)
      requires next0 == idCounter + |faces0|
      requires |Triangles| == |base| + |faces0| && Triangles[..|base|] == base
      requires forall j :: 0 <= j < |faces0| ==> faces0[j].0 in Materials && FaceInRange(faces0[j].1, Vertices, Normals, TexCoords)
      requires forall j :: 0 <= j < |faces0| ==>
                 Triangles[|base| + j] ==
                   FaceTriangle(Vertices, Normals, TexCoords, Materials[faces0[j].0], faces0[j].1, idCounter + 1 + j)
      ensures faces == faces0 + MaterialFaces(matName, Materials[matName].Indices)
      ensures next == idCounter + |faces|
      ensures |Triangles| == |base| + |faces| && Triangles[..|base|] == base
      ensures forall j :: 0 <= j < |faces| ==> faces[j].0 in Materials && FaceInRange(faces[j].1, Vertices, Normals, TexCoords)
      ensures forall j :: 0 <= j < |faces| ==>
                Triangles[|base| + j] ==
                  FaceTriangle(Vertices, Normals, TexCoords, Materials[faces[j].0], faces[j].1, idCounter + 1 + j)
    {
      ghost var count := |Triangles|;
      next := AppendMaterial(matName, next0);
      assert Triangles[..count] == old(Triangles);
      assert Triangles[..|base|] == Triangles[..count][..|base|];
      var indices := Materials[matName].Indices;
      faces := faces0 + MaterialFaces(matName, indices);
      forall j | 0 <= j < |faces|
        ensures faces[j].0 in Materials && FaceInRange(faces[j].1, Vertices, Normals, TexCoords)
        ensures Triangles[|base| + j] ==
                  FaceTriangle(Vertices, Normals, TexCoords, Materials[faces[j].0], faces[j].1, idCounter + 1 + j)
      {
        if j < |faces0| {
          assert faces[j] == faces0[j];
          assert Triangles[|base| + j] == old(Triangles)[|base| + j];
        } else {
          var k := j - |faces0|;
          assert faces[j] == (matName, indices[k]);
          assert |base| + j == count + k;
        }
      }
    }

    /** The inner loop of UnifyTriangles: one triangle per face of material `matName`, ids from idCounter + 1. */
    method AppendMaterial(matName: string, idCounter: int) returns (next: int)
      modifies this`Triangles
      requires matName in Materials
      requires forall k :: 0 <= k < |Materials[matName].Indices| ==> FaceInRange(Materials[matName].Indices[k], Vertices, Normals, TexCoords)
      ensures next == idCounter + |Materials[matName].Indices|
      ensures |Triangles| == |old(Triangles)| + |Materials[matName].Indices| && Triangles[..|old(Triangles)|] == old(Triangles)
      ensures forall j :: 0 <= j < |Materials[matName].Indices| ==>
                Triangles[|old(Triangles)| + j] ==
                  FaceTriangle(Vertices, Normals, TexCoords, Materials[matName], Materials[matName].Indices[j], idCounter + 1 + j)
    {
      next := idCounter;
      var material := Materials[matName];
      for indice := 0 to |material.Indices|
        invariant next == idCounter + indice
        invariant |Triangles| == |old(Triangles)| + indice && Triangles[..|old(Triangles)|] == old(Triangles)
        invariant forall j :: 0 <= j < indice ==>
                    Triangles[|old(Triangles)| + j] ==
                      FaceTriangle(Vertices, Normals, TexCoords, material, material.Indices[j], idCounter + 1 + j)
      {
        var face := material.Indices[indice];
        var t1, t2, t3 := Zero, Zero, Zero;
        if |TexCoords| > 0 {
          t1, t2, t3 := TexCoords[face.i0], TexCoords[face.i1], TexCoords[face.i2];
        }
        var triangle := Triangle(next + 1,
          Vertices[face.i0], Vertices[face.i1], Vertices[face.i2],
          Normals[face.i0], Normals[face.i1], Normals[face.i2],
          t1, t2, t3, material, [], face.i3 == 1);
        next := next + 1;
        Triangles := Triangles + [triangle];
      }
    }

    /** KDTree: the root is generateNode over the triangles at depth 0. */
    method KDTree()
      modifies this`Root
      ensures Root.TriangleCount == |Triangles| && Root.depth == 0
      ensures Shaped(Root) && DepthAtMost(Root, 50)
      ensures |Triangles| < 10000 ==> LeafTriangles(Root) == multiset(Triangles)
    {
      Root := GenerateNode(Triangles, 0);
    }
  }

  /** Every child of a well-formed hierarchy heads a well-formed hierarchy below it. */
  lemma ChildValid(o: Object, name: string)
    requires o.Valid() && name in o.Children
    ensures o.Children[name].Valid() && o.Children[name].Repr <= o.Repr && o !in o.Children[name].Repr
    ensures o.Children[name].height < o.height
  {
  }

  /** The object's three vector lists are the given ones, fixed up. */
  ghost predicate FixedUp(x: Object, vs: seq<Vector>, ns: seq<Vector>, ts: seq<Vector>)
    reads x
  {
    RewrittenFrom(x.Vertices, vs, AsPoint) && RewrittenFrom(x.Normals, ns, AsDirection) && RewrittenFrom(x.TexCoords, ts, AsTexCoord)
  }

  /** The three vector lists of every object in `objs`, as they are now. */
  ghost function Snapshot(objs: set<Object>): map<Object, (seq<Vector>, seq<Vector>, seq<Vector>)>
    reads objs
  {
    map x | x in objs :: (x.Vertices, x.Normals, x.TexCoords)
  }

  /** The objects of `done` are fixed up relative to `orig`; the rest of `objs` are as in `orig`. */
  ghost predicate FixedSoFar(objs: set<Object>, done: set<Object>, orig: map<Object, (seq<Vector>, seq<Vector>, seq<Vector>)>)
    reads objs
  {
    done <= objs && objs <= orig.Keys &&
    (forall x :: x in done ==> FixedUp(x, orig[x].0, orig[x].1, orig[x].2)) &&
    (forall x :: x in objs && x !in done ==> (x.Vertices, x.Normals, x.TexCoords) == orig[x])
  }

  /**
   * fixObjectVectorW: every object of the hierarchy gets w = 1 on its
   * vertices, w = 0 on its normals and z = w = 0 on its texture
   * coordinates; nothing else changes.
   */
  method FixObjectVectorW(o: Object)
    modifies o.Repr`Vertices, o.Repr`Normals, o.Repr`TexCoords
    requires o.Valid()
    decreases o.height, 2
    ensures forall x :: x in o.Repr ==> FixedUp(x, old(x.Vertices), old(x.Normals), old(x.TexCoords))
  {
    ghost var orig := Snapshot(o.Repr);
    o.Vertices := Rewrite(o.Vertices, AsPoint);
    o.Normals := Rewrite(o.Normals, AsDirection);
    o.TexCoords := Rewrite(o.TexCoords, AsTexCoord);
    assert FixedSoFar(o.Repr, {o}, orig);
    FixChildren(o, orig);
    forall x | x in o.Repr
      ensures FixedUp(x, old(x.Vertices), old(x.Normals), old(x.TexCoords))
    {
      assert orig[x] == (old(x.Vertices), old(x.Normals), old(x.TexCoords));
    }
  }

  /** The children loop of fixObjectVectorW, once the object's own lists are done. */
  method FixChildren(o: Object, ghost orig: map<Object, (seq<Vector>, seq<Vector>, seq<Vector>)>)
    modifies o.Repr`Vertices, o.Repr`Normals, o.Repr`TexCoords
    requires o.Valid() && FixedSoFar(o.Repr, {o}, orig)
    decreases o.height, 1
    ensures FixedSoFar(o.Repr, o.Repr, orig)
  {
    ghost var done: set<Object> := {o};
    var names := o.Children.Keys;
    while names != {}
      invariant names <= o.Children.Keys
      invariant o in done && FixedSoFar(o.Repr, done, orig)
      invariant forall name :: name in o.Children && name !in names ==> o.Children[name].Repr <= done
      decreases |names|
    {
      var child :| child in names;
      ghost var before, doneBefore := names, done;
      done := FixChild(o, child, orig, done);
      names := names - {child};
      CoverStep(o.Children, before, child, doneBefore);
    }
    ReprCovered(o, done);
  }

  /** Once `child` is done as well, every child not left in `names` is covered. */
  lemma CoverStep(children: map<string, Object>, names: set<string>, child: string, done: set<Object>)
    requires child in children
    requires forall name :: name in children && name !in names ==> children[name].Repr <= done
    ensures forall name :: name in children && name !in names - {child} ==> children[name].Repr <= done + children[child].Repr
  {
  }

  /** An object and the hierarchies of all its children make up its whole hierarchy. */
  lemma ReprCovered(o: Object, done: set<Object>)
    requires o.Valid() && o in done
    requires forall name :: name in o.Children ==> o.Children[name].Repr <= done
    ensures o.Repr <= done
  {
    forall x | x in o.Repr
      ensures x in done
    {
      if x != o {
        var name :| name in o.Children && x in o.Children[name].Repr;
      }
    }
  }

  /** One pass of the children loop: fixes up the child's hierarchy, which may be partly done already. */
  method FixChild(o: Object, name: string, ghost orig: map<Object, (seq<Vector>, seq<Vector>, seq<Vector>)>, ghost done: set<Object>)
    returns (ghost done': set<Object>)
    modifies o.Repr`Vertices, o.Repr`Normals, o.Repr`TexCoords
    requires o.Valid() && name in o.Children && FixedSoFar(o.Repr, done, orig)
    decreases o.height, 0
    ensures done' == done + o.Children[name].Repr && FixedSoFar(o.Repr, done', orig)
  {
    var obj := o.Children[name];
    ChildValid(o, name);
    label BeforeChild:
    FixObjectVectorW(obj);
    forall x | x in obj.Repr
      ensures FixedUp(x, orig[x].0, orig[x].1, orig[x].2)
    {
      if x in done {
        RewriteTwice(orig[x].0, old@BeforeChild(x.Vertices), x.Vertices, AsPoint);
        RewriteTwice(orig[x].1, old@BeforeChild(x.Normals), x.Normals, AsDirection);
        RewriteTwice(orig[x].2, old@BeforeChild(x.TexCoords), x.TexCoords, AsTexCoord);
      }
    }
    done' := done + obj.Repr;
  }
}
