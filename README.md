# raylar core in Dafny

This project models the core of raylar, a CPU ray tracer. A scene is a tree of objects,
each a list of triangles with materials. raylar flattens the tree into world coordinates
and indexes every object's triangles in a k-d tree. It casts one ray per pixel and shades
each hit with point and directional lights, ambient occlusion, ambient colour sharing,
a photon map for caustics, and recursive reflection and refraction. It then normalises
depths and antialiases the pixels whose neighbourhood shows an edge.

The model is written one Dafny module per Go file:

| Dafny file | Module | Go source |
|---|---|---|
| vectors.dfy | Vectors | raytracer/vector.go |
| matrices.dfy | Matrices | raytracer/matrix.go |
| boxes.dfy | Boxes | raytracer/kdtree.go (bounding boxes) |
| triangles.dfy | Triangles | raytracer/intersection.go (triangle helpers) |
| kdtree.dfy | KdTree | raytracer/kdtree.go (tree) |
| raycast.dfy | Raycast | raytracer/raycast.go |
| shading.dfy | Shading | raytracer/intersection.go (texture, bump and normals) |
| config.dfy, world.dfy | Config, Context | the configuration and the unseen helpers |
| ambient.dfy | Ambient | raytracer/ambient.go |
| sampling.dfy | Sampling | raytracer/sampling.go |
| lighting.dfy | DirectLighting | raytracer/direct_lighting.go |
| photons.dfy | Photons | raytracer/photon.go, raytracer/photon_map.go |
| render.dfy | Rendering | raytracer/intersection.go (`render`) |
| pixels.dfy, imaging.dfy | Pixels, Imaging | raytracer/imaging.go |
| antialias.dfy | Antialias | raytracer/antialias.go |
| core.dfy | Core | raytracer/core.go |
| meshes.dfy | Meshes | raytracer/object.go |
| scenes.dfy | Scenes | raytracer/scene.go |

Floating-point numbers are Dafny `real`s.

Some values and helpers do not live in these files:
- helpers such as square root, `sameSideTest`, `reflectVector`, `refractVector`, `limitVector`,
  `vectorSum`, `sampleSphere`, `sampleTriangle` and the three-argument `createSamples` (the field `spread`);
- the scene ray cast that the lighting code calls;
- the environment map.

These are function-valued fields of a `World` value. `Ready(w)` states the two facts the model
assumes about them: images are rectangular and non-empty, and the scene cast returns a resolved
intersection.

Objects whose Go methods update fields in place are classes:
- a bounding box;
- the sample cache;
- the photon store;
- a mesh object.

The pixel grid is an `array2`. Everything else is a value.

## Model

| member | source | states |
|---|---|---|
| Vectors.SubVector | raytracer/vector.go:10-17 | the difference of two vectors is always a point (w = 1) |
| Vectors.SubVectorIsCombine | raytracer/vector.go:10-17 | the spatial part of a difference equals `Combine(v1, v2, 1, -1)` |
| Vectors.CrossProduct | raytracer/vector.go:20-26 | the cross product is a direction (w = 0) orthogonal to both arguments |
| Vectors.DotIgnoresW | raytracer/vector.go:32-34 | the dot product ignores the w components and is symmetric |
| Vectors.Combine | raytracer/vector.go:37-43 | a combination is the sum of the two scaled vectors |
| Vectors.NormalizeVector | raytracer/vector.go:46-58 | w is kept; a zero-length vector comes back unchanged; otherwise x, y and z are divided by the length |
| Vectors.NormalizedIsUnit | raytracer/vector.go:46-58 | with an exact square root, a non-zero vector normalises to unit length |
| Vectors.NormalizedIsParallel | raytracer/vector.go:46-58 | a normalised vector is parallel to the original (zero cross product) |
| Vectors.AbsVector | raytracer/vector.go:76-83 | every component of the result is non-negative |
| Vectors.BarycentricCoordinates | raytracer/vector.go:86-120 | the weights sum to 1; success holds exactly when the triangle is non-degenerate, u ≥ DIFF, v ≥ DIFF and u + v ≤ 1 + DIFF |
| Vectors.BarycentricRecoversWeights | raytracer/vector.go:86-120 | for a point `P3 + u0·(P1−P3) + v0·(P2−P3)` of a non-degenerate triangle the weights returned are (u0, v0, 1 − u0 − v0) |
| Vectors.MinMaxAtBounds | raytracer/vector.go:122-139 | the running minimum and maximum bound every element, and both are attained by some element |
| Vectors.CalculateBounds | raytracer/vector.go:122-139 | an empty list gives two zero vectors; otherwise each component is the list's least and greatest value |
| Matrices.TransformIdentity | raytracer/vector.go:61-68 | transforming by the identity leaves a vector unchanged |
| Matrices.TransformIsDotColumn | raytracer/vector.go:61-68 | each component of a transformed vector is its dot product with one matrix column |
| Matrices.MultiplyIsRowByColumn | raytracer/matrix.go:138-157 | entry (i, j) of a product is row i of the left factor dotted with column j of the right |
| Matrices.MultiplyIdentity | raytracer/matrix.go:138-157 | the identity is a left and right unit of multiplication |
| Matrices.TransformMultiply | raytracer/matrix.go:138-157 | transforming by a product equals transforming by the left factor, then by the right |
| Matrices.DeterminantIsLeibniz | raytracer/matrix.go:56-71 | the cofactor expansion equals the 24-term Leibniz determinant |
| Matrices.DeterminantIdentity | raytracer/matrix.go:56-66 | the identity has determinant 1 |
| Matrices.MultiplyAdjoint | raytracer/matrix.go:74-113 | a matrix times its adjoint is its determinant times the identity |
| Matrices.ScaleMatrix | raytracer/matrix.go:116-124 | every entry of the result is the original entry times the factor |
| Matrices.InvertMatrix | raytracer/matrix.go:127-135 | when \|det\| < 1e-40 the result is the identity; otherwise it is the adjoint divided by the determinant |
| Matrices.InvertIsRightInverse | raytracer/matrix.go:127-135 | when \|det\| ≥ 1e-40 the matrix times its inverse is the identity |
| Matrices.ViewMatrix | raytracer/matrix.go:40-52 | the columns hold the side, up and negated forward axes; the bottom row holds the eye's dot products; the last column is (0, 0, 0, 1) |
| Matrices.ViewAxesOrthogonal | raytracer/matrix.go:40-46 | whatever the square root, the side, up and forward axes are mutually orthogonal |
| Boxes.BoundingBox.Extend | raytracer/kdtree.go:19-28 | each spatial component of the box becomes the componentwise min or max with the other box; w is untouched |
| Boxes.BoundingBox.ExtendVector | raytracer/kdtree.go:30-39 | the box grows to cover the vector, and everything it covered before is still covered |
| Boxes.ChosenAxis | raytracer/kdtree.go:41-52 | the chosen axis is 2 exactly when z is longer than x, and 1 exactly when y is longer than x and z is not |
| Boxes.BoundingBox.LongestAxis | raytracer/kdtree.go:41-52 | the method returns the chosen axis of the box's current extents |
| Boxes.ChosenAxisLongestIff | raytracer/kdtree.go:41-52 | the chosen axis is the longest exactly unless the extents satisfy y > z > x |
| Boxes.BoundingBox.Center | raytracer/kdtree.go:54-61 | each spatial component is half the extent (max − min), and w = 1 |
| Boxes.CenterIsMidpointIff | raytracer/kdtree.go:54-61 | the centre is the geometric midpoint exactly when the minimum corner is at the origin on all three axes |
| Boxes.InsideTolerates | raytracer/kdtree.go:63-67 | a point within DIFF of a covered point counts as inside |
| Boxes.OutsideBeyondTolerance | raytracer/kdtree.go:63-67 | a point more than DIFF outside one face is not inside |
| Triangles.MidPointIsMean | raytracer/intersection.go:43-49 | the midpoint is the mean of the three vertices, on every component |
| Triangles.TriangleBoxTight | raytracer/intersection.go:51-58 | the triangle's box covers all three vertices, and each face touches a vertex |
| Triangles.TriangleBox | raytracer/intersection.go:51-58 | a fresh box whose corners are the triangle's tight corners |
| KdTree.ListBoxCovers | raytracer/kdtree.go:69-86 | the box of a triangle list covers every vertex of every triangle in it |
| KdTree.GetBoundingBox | raytracer/kdtree.go:69-86 | a cached box is returned as is; an empty node gets a zero box; otherwise the box of all its triangles, stored in the node |
| KdTree.NodeMidPoint | raytracer/kdtree.go:88-97 | the node's midpoint is the centroid of its triangles' midpoints |
| KdTree.MeanAboveLeast | raytracer/kdtree.go:88-97 | the mean of the midpoints is at least their least value on every axis |
| KdTree.RightSideNeverEmpty | raytracer/kdtree.go:121-133 | some triangle's midpoint lies at or beyond the centroid on the split axis, so the right side is never empty |
| KdTree.SidesPartition | raytracer/kdtree.go:121-133 | the two sides together are a permutation of the node's triangles, split by the side test |
| KdTree.Partition | raytracer/kdtree.go:121-133 | the loop builds exactly the left and right sides |
| KdTree.WithFallback | raytracer/kdtree.go:135-140 | an empty side is replaced by the whole list, so neither side is empty |
| KdTree.CountMatches | raytracer/kdtree.go:142-153 | the nested loop counts all matching (left, right) pairs |
| KdTree.SelfFailsRatio | raytracer/kdtree.go:142-153 | a list matched against itself never passes the below-half ratio test |
| KdTree.SplitSides | raytracer/kdtree.go:121-153 | both sides are non-empty; the ratio flag holds exactly for 10000 or more triangles or a below-half match ratio |
| KdTree.SplitIsPartition | raytracer/kdtree.go:126-160 | below 10000 triangles, whenever the split is taken its two sides are a permutation of the node's triangles |
| KdTree.GenerateNode | raytracer/kdtree.go:99-166 | the tree keeps the triangle count and depth and stops by depth 50; every leaf triangle comes from the input; below 10000 triangles the leaves hold exactly the input |
| KdTree.SplitOrLeaf | raytracer/kdtree.go:155-164 | a node either becomes a leaf or splits with both children built, keeping the same leaf content guarantees |
| Raycast.ScreenToNdc | raytracer/raycast.go:12-13 | pixel coordinates map into [−1, 1) horizontally and (−1, 1] vertically, and the mapping is invertible |
| Raycast.NdcBound | raytracer/raycast.go:12-13 | the scaled pixel index lies in [0, 2) |
| Raycast.RaycastTriangleIntersect | raytracer/raycast.go:25-62 | a near-zero determinant gives no hit; a hit is reported exactly when the Möller–Trumbore conditions hold; the hit point lies on the ray at distance t and the normal faces the ray |
| Raycast.TriangleHitInside | raytracer/raycast.go:36-53 | a reported hit has u ≥ 0, v > 0 and u + v ≤ 1, and its point is the point of the triangle with those weights |
| Raycast.ClassifyAxes | raytracer/raycast.go:96-112 | the quadrants and candidate planes are computed per axis, and the inside flag holds exactly when the start lies in the box |
| Raycast.PlaneDistances | raytracer/raycast.go:114-120 | the per-axis distances to the candidate planes |
| Raycast.LatestPlane | raytracer/raycast.go:121-126 | the chosen plane has the largest distance, and the first such plane is kept |
| Raycast.WhichPlane | raytracer/raycast.go:121-126 | the chosen axis's distance is at least every other axis's distance |
| Raycast.WithinOtherAxes | raytracer/raycast.go:127-140 | succeeds exactly when the ray point lies within the box on the other two axes |
| Raycast.RaycastBoxIntersect | raytracer/raycast.go:86-141 | the result is Woo's slab test; a start inside the box always hits; from outside, a negative distance to the chosen plane never does |
| Raycast.WooHitMeetsBox | raytracer/raycast.go:86-141 | for a proper box, a reported hit means some forward point of the ray lies in the box |
| Raycast.EntryPointCovered | raytracer/raycast.go:127-140 | from outside, the entry point found by the test lies in the box |
| Raycast.ImprovesTransitive | raytracer/raycast.go:165-171 | "closer hit or unchanged" is transitive, so traversal only improves the record |
| Raycast.CountHits | raytracer/raycast.go:154-176 | the number of triangle hits never exceeds the number of triangles |
| Raycast.IntersectTriangle | raytracer/raycast.go:154-176 | the hit count rises by one exactly on a triangle hit; the record is kept or replaced by a closer hit |
| Raycast.IntersectTriangles | raytracer/raycast.go:154-176 | the hit count rises by the number of hits; the record ends no farther than any positive hit in the leaf |
| Raycast.RaycastNodeIntersect | raytracer/raycast.go:143-177 | a node whose box the ray misses leaves the record unchanged; hits never decrease; the record only improves |
| Raycast.RaycastObjectIntersect | raytracer/raycast.go:179-183 | a miss is the unset record with its hit count; a hit means the distance is set |
| Raycast.BestDistIsLeast | raytracer/raycast.go:201-216 | −1 means no result was kept; otherwise the distance belongs to a kept result and is no larger than any other |
| Raycast.SelectBest | raytracer/raycast.go:200-221 | the best result has the least kept distance and the total hit count; a miss has distance −1 |
| Raycast.RaycastSceneIntersect | raytracer/raycast.go:185-222 | exactly one result per object, named after its key and satisfying that object's cast from the corrected start; the best hit is at distance ≥ DIFF, and `Hit` holds exactly when a distance was found |
| Raycast.CastObjects | raytracer/raycast.go:192-199 | every object is cast once: the results' names are distinct and are exactly the keys, and each result is what raycastObjectIntersect promises for its object |
| Raycast.CastOne | raytracer/raycast.go:193-197 | the named object's cast is appended and the results so far are kept, their names still distinct |
| Shading.Frac | raytracer/intersection.go:324-343 | the fractional part lies in [0, 1) |
| Shading.Trunc | raytracer/intersection.go:345-347 | the integer part of x: for x ≥ 0 the largest integer not above x, for x < 0 the smallest integer not below x (Go's truncating conversion) |
| Shading.WrapBack | raytracer/intersection.go:324-343 | the wrapped coordinate lies in [0, 1] |
| Shading.WrapUIsFrac | raytracer/intersection.go:324-333 | wrapping u gives its fractional part |
| Shading.WrapVIsFracOfNegation | raytracer/intersection.go:334-343 | wrapping v (after the flip) gives the fractional part of −v |
| Shading.NegativeWrap | raytracer/intersection.go:85-104 | a negative coordinate wraps to one minus the fractional part of its magnitude |
| Shading.FracOfNegation | raytracer/intersection.go:85-104 | the fractional parts of s and −s sum to 1 unless they are 0 |
| Shading.TexelIndex | raytracer/intersection.go:345-347 | a coordinate in [0, 1) gives an index within the image |
| Shading.TexelBound | raytracer/intersection.go:106-109 | truncating `len · s` for s in [0, 1) stays within [0, len) |
| Shading.TexCoords | raytracer/intersection.go:60-67 | the texture coordinate is a 2-D value (z = w = 0) |
| Shading.TexCoordsInterpolate | raytracer/intersection.go:60-67 | at a point with weights (u0, v0) the coordinate is the weighted mix of the vertex coordinates |
| Shading.Texel | raytracer/intersection.go:345-350 | the texel read is some pixel of the image |
| Shading.TexelOfFracs | raytracer/intersection.go:324-350 | the texel read is the one indexed by the fractional parts of the wrapped coordinates |
| Shading.GetColor | raytracer/intersection.go:309-351 | colours off gives white; no texture or an unknown texture gives the material colour; otherwise the texel at the wrapped coordinates |
| Shading.TangentFrameOrthogonal | raytracer/intersection.go:79-122 | the tangent and bitangent are orthogonal to the normal and to each other |
| Shading.NormalizedOrthogonal | raytracer/intersection.go:79-122 | normalising keeps orthogonality |
| Shading.GetBumpNormal | raytracer/intersection.go:79-122 | without a texture the normal is kept; with a bump map the result is a direction (w = 0) |
| Shading.SmoothNormalOfFlatFace | raytracer/intersection.go:124-151 | when the three vertex normals are equal, smoothing returns that normal |
| Shading.WeightsSumToOne | raytracer/intersection.go:124-151 | mixing one normal with weights summing to 1 returns it |
| Shading.GetNormal | raytracer/intersection.go:124-151 | only the normal changes; a miss, or a flat face without an active bump map, is left unchanged |
| Ambient.OcclusionRadius | raytracer/ambient.go:6-9 | a positive configured radius wins; otherwise the scene's short radius |
| Ambient.ClampedDistancesBounds | raytracer/ambient.go:11-18 | the sum of clamped distances lies between 0 and count × radius |
| Ambient.SumClamped | raytracer/ambient.go:11-18 | the loop sums each sample distance clamped to the radius |
| Ambient.AmbientLightCalc | raytracer/ambient.go:4-23 | no samples gives 1; otherwise the occlusion ratio of the samples under the configured radius |
| Ambient.OcclusionRatioOfTotal | raytracer/ambient.go:19-22 | the final division equals the occlusion ratio: misses count as a full radius |
| Ambient.OcclusionInUnitRange | raytracer/ambient.go:10-22 | with non-negative distances and at most `totalDirs` samples the ratio lies in [0, 1] |
| Ambient.AmbientColor | raytracer/ambient.go:25-45 | a miss gives zero; otherwise the mean of the colours of the sample hits |
| Ambient.MeanOfUniformColors | raytracer/ambient.go:25-45 | the mean of equal colours is that colour |
| Ambient.UniformSum | raytracer/ambient.go:25-45 | the sum of n equal colours is n times the colour |
| Ambient.OtherHitsFiltered | raytracer/ambient.go:47-64 | the kept samples are hits on a different triangle, in order, and no more than were cast |
| Ambient.AmbientSampling | raytracer/ambient.go:47-64 | the samples are the other-triangle hits of the casts along the sample directions |
| Sampling.CacheRow | raytracer/sampling.go:11-25 | a cache row holds one normalised, centred random sample per index |
| Sampling.PassingFiltered | raytracer/sampling.go:26-39 | the kept directions are on the normal's side, in order, and no more than the row |
| Sampling.PassingOfPrefix | raytracer/sampling.go:26-39 | filtering a prefix gives a prefix of the filtered row |
| Sampling.SelectedLength | raytracer/sampling.go:26-39 | with limit ≥ 2 at most `limit` directions are returned, the normal included |
| Sampling.SampleCache.Build | raytracer/sampling.go:11-25 | every cache row is filled with its sample row |
| Sampling.SampleCache.CreateSamples | raytracer/sampling.go:10-40 | the cache is built once and then kept; the result starts with the normal, is followed by the passing directions of the chosen row, and respects the limit |
| DirectLighting.CalculateLight | raytracer/direct_lighting.go:84-158 | a miss or a back-facing point gives zero; a light surface emits (taking the light's strength when its own is 0); an unblocked point gets the inverse-square lit colour; a blocked point not behind glass gets zero; and in every case the result is PointLight, which behind glass is the light coming through the pane while it is stronger than DIFF |
| DirectLighting.FollowPointGlass | raytracer/direct_lighting.go:147-155 | the recursive call on the light behind the pane gives that light's point-light result |
| DirectLighting.PointIntensityNonNegative | raytracer/direct_lighting.go:120-132 | the point-light intensity is never negative |
| DirectLighting.FartherIsDimmer | raytracer/direct_lighting.go:120-132 | a farther point receives no more light |
| DirectLighting.MulMono | raytracer/direct_lighting.go:120-121 | multiplying by a non-negative factor keeps the order, the step behind the inverse-square comparison |
| DirectLighting.InverseDecreases | raytracer/direct_lighting.go:120-132 | the reciprocal of a larger square is smaller |
| DirectLighting.TimesIsScale | raytracer/direct_lighting.go:28-74 | adding a colour n times is scaling it by n |
| DirectLighting.CalculateDirectionalLight | raytracer/direct_lighting.go:11-80 | a miss or a back-facing point gives zero; a blocked sample gives zero; otherwise the sampled colour times the hit count times the hit ratio; and in every case the result is DirectionalLight, which at a glass sample is the light coming through the pane |
| DirectLighting.FirstStop | raytracer/direct_lighting.go:28-74 | the first sample from `from` on whose shadow ray is blocked or passes glass, with every sample before it plain |
| DirectLighting.FirstStopIs | raytracer/direct_lighting.go:28-74 | a stopping sample after plain ones is the first stop, and with all samples plain the first stop is the end |
| DirectLighting.DirectionalLightAt | raytracer/direct_lighting.go:28-79 | once the sample the loop ends at is known: the end gives the hit-ratio formula, a blocked sample or no fuel gives zero, a glass sample gives the light behind the pane |
| DirectLighting.DirectionalLightMeans | raytracer/direct_lighting.go:28-79 | any blocked sample after plain ones makes the light zero; all samples plain gives the hit-ratio formula |
| DirectLighting.Stopped | raytracer/direct_lighting.go:36-72 | the loop's early return is the directional light: zero when blocked, the light behind the glass otherwise |
| DirectLighting.FollowGlass | raytracer/direct_lighting.go:71 | the recursive call on the light behind the pane gives that light's directional result |
| DirectLighting.BlockedStops | raytracer/direct_lighting.go:28-74 | the first blocking sample ends the loop |
| DirectLighting.GlassStops | raytracer/direct_lighting.go:28-74 | a sample passing through glass ends the loop |
| DirectLighting.SamplePass | raytracer/direct_lighting.go:28-74 | one sample iteration: it stops exactly when the ray is blocked or passes glass; a reaching ray adds one hit and the sample light; a blocked ray has no light behind it; a glass ray hands over the light behind the pane |
| DirectLighting.DirectionalSquareLaw | raytracer/direct_lighting.go:75-79 | the result is the sample colour scaled by hits²/samples |
| DirectLighting.GlassLightIsUndirected | raytracer/direct_lighting.go:65-72 | the light passed on through glass has no direction, so its facing term is 0 |
| DirectLighting.UndirectedLight | raytracer/direct_lighting.go:147-155 | a light with zero direction faces nothing and samples with w = 0 |
| DirectLighting.SumLitPositive | raytracer/direct_lighting.go:183-188 | the sum's w is non-negative, and positive exactly when some light reached the point |
| DirectLighting.DistantPhotonsAddNothing | raytracer/direct_lighting.go:190-198 | photons no closer than the spacing add no caustic light |
| DirectLighting.Glow | raytracer/direct_lighting.go:190-198 | the caustics loop adds up the exposure-scaled colours of the photons closer than the spacing, as PhotonGlow states |
| DirectLighting.LightsAt | raytracer/direct_lighting.go:172-180 | one result per light of the scene, directional or point as the light says |
| DirectLighting.BackFacingLightsGiveNothing | raytracer/direct_lighting.go:172-180 | a point light the surface faces away from contributes zero |
| DirectLighting.OneLight | raytracer/direct_lighting.go:174-178 | one light's turn is the directional or the point calculation, by the light's kind |
| DirectLighting.CalculateTotalLight | raytracer/direct_lighting.go:160-202 | a miss or too deep gives zero; a light surface gives its colour × strength; otherwise the per-light results are exactly LightsAt (each light's own calculation), and the result is their sum over positive w plus caustics, with back-facing point lights giving zero |
| Photons.PhotonsOnPrefix | raytracer/photon.go:40-49 | a longer log holds at least the photons of a shorter one, triangle by triangle |
| Photons.PhotonStore.Deposit | raytracer/photon.go:40-49 | the photon is appended to the log and to its triangle's list; nothing else changes |
| Photons.Followed | raytracer/photon.go:51-70 | at most two photons are followed, each one level deeper and starting at the hit point |
| Photons.FollowedOrDeposited | raytracer/photon.go:51-70 | a photon is followed exactly when the surface is not matte; the followers' intensity never exceeds the attenuated intensity |
| Photons.Deposits | raytracer/photon.go:14-71 | every deposit a traced photon leaves, at any depth, is on a matte triangle with zero intensity; a photon that does not arrive leaves none |
| Photons.DepositsBounded | raytracer/photon.go:18-20 | a photon traced past the maximum reflection depth leaves no deposit |
| Photons.MatteHitDepositsOnce | raytracer/photon.go:40-49 | an arriving photon on a matte triangle leaves exactly its attenuated copy at the hit point |
| Photons.TracePhoton | raytracer/photon.go:14-71 | the log grows by exactly `Deposits` of the photon, in order; a photon that does not arrive changes nothing; on a matte surface it is deposited with zero intensity; the photons it follows are exactly the followed ones |
| Photons.Scatter | raytracer/photon.go:35-70 | an arriving photon leaves its matte deposit, then the reflected photon's deposits, then the refracted photon's, which is `Deposits` of the photon |
| Photons.FollowReflected | raytracer/photon.go:51-60 | on a glossy hit the log grows by exactly the reflected photon's deposits one level deeper, otherwise not at all |
| Photons.FollowRefracted | raytracer/photon.go:61-70 | on a transmissive hit the log grows by exactly the refracted photon's deposits one level deeper, otherwise not at all |
| Photons.MatteTrianglesGiveNoLocations | raytracer/photon_map.go:14-19 | a scene without glossy or transmissive triangles gives no caustic locations |
| Photons.CollectLocations | raytracer/photon_map.go:14-19 | the loop gathers the sample locations of every glossy or transmissive triangle |
| Photons.BatchInBounds | raytracer/photon_map.go:25-32 | every batch lies within the location list, and batches are contiguous |
| Photons.LastLocationUntraced | raytracer/photon_map.go:25-32 | with at least `workCount` locations the final batch's locations are never traced |
| Photons.SeedsAppend | raytracer/photon_map.go:35-43 | seeding distributes over concatenation |
| Photons.AllSeedsLength | raytracer/photon_map.go:22-48 | one photon per light and location |
| Photons.SeedsLength | raytracer/photon_map.go:35-43 | every light seeds one photon per location |
| Photons.SeedsCount | raytracer/photon_map.go:35-43 | one light seeds one photon per location |
| Photons.AllDeposits | raytracer/photon_map.go:35-44 | the deposits of photons traced one after another are all on matte triangles with zero intensity |
| Photons.AllDepositsAppend | raytracer/photon_map.go:22-48 | tracing two runs of photons in turn deposits the first run's photons, then the second's |
| Photons.TraceBatch | raytracer/photon_map.go:34-46 | the batch traces exactly its seed photons, and the log grows by their deposits in seed order |
| Photons.TraceLight | raytracer/photon_map.go:22-48 | one light traces the seeds of the batched prefix of locations, and the log grows by their deposits in order |
| Photons.TraceLights | raytracer/photon_map.go:22-49 | every light in turn traces the seeds of the batched prefix, and the log grows by their deposits, light by light |
| Photons.BuildPhotonMap | raytracer/photon_map.go:10-51 | all lights trace the seeds of the batched prefix of the caustic locations, and the log grows by exactly their deposits, light by light and seed by seed |
| Rendering.Render | raytracer/intersection.go:153-303 | a miss gives the transparent colour or the environment colour; too deep gives the surface colour; otherwise the limited shade is blended with the reflected and refracted colours; the colour is RenderColor, so each traced colour is the render of the cast ray one level deeper |
| Rendering.TracedColors | raytracer/intersection.go:254-290 | one traced colour per traced direction |
| Rendering.HitLight | raytracer/intersection.go:175-199 | the light at a hit is the direct light (calculateTotalLight at depth 0) plus the occlusion term, as configured |
| Rendering.GetDirectLight | raytracer/intersection.go:305-307 | the direct light of a hit is calculateTotalLight at depth 0 |
| Rendering.OcclusionOfSamples | raytracer/intersection.go:186-188 | the occlusion used is the ambient occlusion ratio of the shared samples |
| Rendering.AddOcclusion | raytracer/intersection.go:186-199 | the occlusion rate is added to each colour channel and w becomes 1 |
| Rendering.TraceHit | raytracer/intersection.go:251-300 | the colour is the traced blend; the reflected and refracted colours are the renders of the rays cast one level deeper along the traced directions |
| Rendering.TracedDirections | raytracer/intersection.go:237-249 | the directions are the normal when roughness is 0, else ⌊10·roughness⌋ spread samples; none when the surface neither reflects nor transmits |
| Rendering.TraceRays | raytracer/intersection.go:254-290 | one colour per direction, each the render of the ray cast from the hit along the reflected or refracted direction, and the mean of those colours |
| Rendering.BlendEndpoints | raytracer/intersection.go:269-274 | blending with factor 0 keeps the base; factor 1 takes the other colour |
| Rendering.BlendBetween | raytracer/intersection.go:269-274 | a blend lies between its two inputs |
| Rendering.BlendInUnitCube | raytracer/intersection.go:269-299 | blending two colours of the unit cube stays in it |
| Rendering.SumInBox | raytracer/intersection.go:263-267 | the sum of n unit-cube colours lies in the cube of side n |
| Rendering.MeanInUnitCube | raytracer/intersection.go:263-267 | the mean of unit-cube colours is in the unit cube |
| Rendering.TracedInUnitCube | raytracer/intersection.go:251-300 | when the shade and all traced colours are in the unit cube, so is the result |
| Rendering.UntracedKeepsShade | raytracer/intersection.go:237-300 | a surface that neither reflects nor transmits keeps its shade and traces nothing |
| Imaging.BouncesLowerDepth | raytracer/imaging.go:25-42 | a missed bounce adds −1 to the depth, so a pixel's depth drops by at most 2 |
| Imaging.RenderPixel | raytracer/imaging.go:11-45 | the pixel keeps its position and stores the bounce-adjusted depth; a miss gets the transparent or environment colour and a hit at the depth limit its surface colour; the colour is the render of the stored hit at depth 0; no other pixel changes |
| Imaging.NormalizedDepth | raytracer/imaging.go:57-64 | the normalised depth times the maximum is the depth; a zero maximum gives 0 |
| Imaging.NormalizedInUnitRange | raytracer/imaging.go:57-64 | depths between 0 and the maximum normalise into [0, 1], the maximum to 1 |
| Imaging.NormalizedMissMarker | raytracer/imaging.go:57-64 | the miss marker −1 survives normalisation only when the maximum depth is 1 |
| Imaging.To8BitInRange | raytracer/imaging.go:73-78 | a channel in [0, 1] becomes the floor of 255·c, in [0, 255] |
| Imaging.MaxDepth | raytracer/imaging.go:48-56 | the maximum bounds every pixel depth and is attained |
| Imaging.NormalizeDepths | raytracer/imaging.go:57-64 | every depth is divided by the maximum; nothing else changes |
| Imaging.WindowAt | raytracer/imaging.go:96-98 | the window lists the 3×3 neighbourhood row by row |
| Imaging.KeptStep | raytracer/imaging.go:96-104 | adding a pixel to the window adds it to the kept list unless it is a miss |
| Imaging.KeptAll | raytracer/imaging.go:96-104 | all pixels are kept exactly when none is a miss |
| Imaging.HasMissStep | raytracer/imaging.go:96-104 | the transparent flag is set once any pixel of the window is a miss |
| Imaging.Neighbours | raytracer/imaging.go:94-105 | the non-miss neighbours in window order, and whether any neighbour was a miss |
| Imaging.NeighbourColumn | raytracer/imaging.go:96-105 | one outer iteration adds one column of three pixels |
| Imaging.Ranges | raytracer/imaging.go:111-130 | the least and greatest depth and colour sum, each attained |
| Imaging.RangesDetectEdges | raytracer/imaging.go:132 | the threshold test on the ranges holds exactly when some pair of pixels differs by more than the threshold |
| Imaging.GetPixelColor | raytracer/imaging.go:85-143 | resampling happens exactly for an inner pixel of a full render with at least 3 non-miss neighbours, non-negative alpha, and an edge or a missed neighbour; a resampled colour is getPixel's antialiased colour; otherwise the colour is kept |
| Imaging.PaintedMeans | raytracer/imaging.go:65-82 | a painted pixel that is not resampled is the 8-bit conversion of its colour; a resampled one is opaque when samples are taken |
| Imaging.PaintRow | raytracer/imaging.go:69-81 | one row of pixels is painted with getPixelColor's colour, the other rows are kept |
| Imaging.PaintImage | raytracer/imaging.go:65-82 | every pixel is the 8-bit conversion of getPixelColor's colour (the antialiased colour when resampled, its own otherwise) |
| Imaging.RenderImage | raytracer/imaging.go:47-83 | every depth is divided by the attained maximum depth; then every pixel is painted as in PaintImage |
| Antialias.ClampedSamples | raytracer/antialias.go:9-11 | the sample count is capped at 64 |
| Antialias.SubPixelInverse | raytracer/antialias.go:19-22 | the sub-pixel of sample n determines n |
| Antialias.SubPixelInCell | raytracer/antialias.go:19-22 | every sub-pixel lies in the pixel's 8×8 cell |
| Antialias.SubPixelsDistinct | raytracer/antialias.go:19-22 | distinct permutation entries give distinct sub-pixels |
| Antialias.GetPixel | raytracer/antialias.go:8-32 | no samples keeps the pixel colour; otherwise the opaque mean of the colours rendered from the camera through distinct sub-pixels |
| Antialias.SampleColors | raytracer/antialias.go:19-29 | one rendered colour per sample |
| Antialias.SampleLoop | raytracer/antialias.go:19-29 | the loop renders the chosen sub-pixels in order, sums their colours and counts them |
| Antialias.RenderSample | raytracer/antialias.go:21-25 | one sample is the render of the camera ray through sub-pixel n of pixel (x, y) on the eight-times-finer screen |
| Antialias.AntialiasedInUnitCube | raytracer/antialias.go:25-31 | an antialiased colour stays in the unit cube and is opaque |
| Core.Atoi | raytracer/core.go:25-32 | a parsed value is a signed run of digits within 64-bit range |
| Core.AtoiShowInt | raytracer/core.go:25-32 | parsing a printed integer gives it back |
| Core.SplitX | raytracer/core.go:24 | a string without 'x' splits into itself; one with 'x' into at least two parts |
| Core.SplitXJoin | raytracer/core.go:24 | splitting `a + "x" + b` gives a followed by the split of b |
| Core.ParseSize | raytracer/core.go:22-33 | no size or no 'x' keeps the configured size; a bad width is its error, else a bad height is its error, else the parsed (width, height) |
| Core.ParseShownSize | raytracer/core.go:22-33 | a size printed as "WxH" parses back to (W, H) |
| Core.Region | raytracer/core.go:46-54 | without a region the full image; otherwise the width and height between the edges |
| Core.TruncDiv | raytracer/core.go:65 | the quotient of Go's division by a positive divisor: for a ≥ 0, q·b ≤ a < (q+1)·b with q·b ≥ 0; for a < 0, (q−1)·b < a ≤ q·b ≤ 0 |
| Core.PercentageCut | raytracer/core.go:64-68 | a percentage below 100 keeps at most that share of pixels, and fewer than all |
| Core.PixelOfInRegion | raytracer/core.go:71-74 | each list index maps to a pixel inside the region, and back |
| Core.PixelOfInjective | raytracer/core.go:71-74 | distinct indices map to distinct pixels |
| Core.FillIdentity | raytracer/core.go:58-61 | the pixel list starts as 0, 1, …, total − 1 |
| Core.Swap | raytracer/core.go:63 | a swap keeps the length |
| Core.SwapPermutes | raytracer/core.go:63 | a swap is a permutation and keeps elements distinct |
| Core.Shuffle | raytracer/core.go:63 | the shuffle is a permutation of the list |
| Core.PixelList | raytracer/core.go:56-68 | the list holds distinct indices below the total, as many as the percentage allows |
| Core.RenderPixels | raytracer/core.go:71-76 | every listed pixel becomes renderPixel's record of its stored hit, each rendered once, and the others are untouched |
| Core.Render | raytracer/core.go:18-85 | a bad size is an error and changes neither the grid nor the image; otherwise the region's listed pixels are rendered, every pixel is its state after the rendering loop (renderPixel's record when listed) with its depth divided by the attained maximum, and every image pixel is painted as in PaintImage |
| Core.RenderRegion | raytracer/core.go:46-81 | the list holds distinct region indices, as many as the percentage allows; the rendered pixels are the distinct pixels those indices stand for; the grid and image end as Core.Render states |
| Core.RenderAndPaint | raytracer/core.go:71-81 | the listed pixels are rendered, then the depths divided by the attained maximum and the image painted from the final grid |
| Meshes.Rewrite | raytracer/object.go:59-74 | each vector is replaced by its fixed-up form, in order |
| Meshes.FixUpKeepsCoordinates | raytracer/object.go:59-74 | vertices become points, normals directions, texture coordinates 2-D, and the coordinates are kept |
| Meshes.RewriteTwice | raytracer/object.go:59-74 | fixing up twice is the same as fixing up once |
| Meshes.MaterialFaces | raytracer/object.go:29-44 | one face per index of the material, tagged with its name |
| Meshes.FacesOfAppend | raytracer/object.go:24-47 | the faces of one more material are appended after the others |
| Meshes.FacesOfBelong | raytracer/object.go:24-47 | every face comes from a listed material |
| Meshes.Object.UnifyTriangles | raytracer/object.go:23-52 | one triangle per face of every material, with consecutive ids; the vertex lists are emptied |
| Meshes.Object.AppendMaterials | raytracer/object.go:24-47 | every material is visited once, and its faces become triangles |
| Meshes.Object.AppendMaterial | raytracer/object.go:25-46 | one triangle per face of the material, appended with consecutive ids |
| Meshes.Object.KDTree | raytracer/object.go:55-57 | the root holds all triangles at depth 0, shaped and no deeper than 50 |
| Meshes.ChildValid | raytracer/object.go:59-74 | a child object is valid, strictly lower and inside its parent's footprint |
| Meshes.FixObjectVectorW | raytracer/object.go:59-74 | every object of the tree is fixed up from its own old vectors |
| Meshes.FixChildren | raytracer/object.go:70-73 | after the loop every object of the tree is fixed up |
| Meshes.FixChild | raytracer/object.go:70-73 | one child's whole subtree becomes fixed up |
| Scenes.FlattenSceneObjects | raytracer/scene.go:147-161 | every key of the result names an object of the flattened tree, and every object of the tree has a key |
| Scenes.FlattenKey | raytracer/scene.go:148-159 | a top-level object and everything below it are stored under prefixed keys |
| Scenes.StoreTop | raytracer/scene.go:149-150 | the top-level object is stored under its own key |
| Scenes.AddFlattened | raytracer/scene.go:153-157 | each flattened child is stored under its parent's key plus its own, with the parent's matrix applied |
| Scenes.StoreLifted | raytracer/scene.go:153-157 | one child is stored with its matrix multiplied by the parent's |
| Scenes.FlatBelowLifted | raytracer/scene.go:153-157 | a lifted child is an element of the flattened tree |
| Scenes.TopLevelKept | raytracer/scene.go:149-150 | a top-level key that no child key collides with keeps its own object |
| Scenes.DescendantKept | raytracer/scene.go:153-157 | a child key, prefixed by its parent's, that collides with no other key holds that child with the parent's matrix applied |
| Scenes.TransformObjectToAbsolute | raytracer/scene.go:164-170 | every vertex is transformed by the matrix, in order |
| Scenes.IdentityLeavesVertices | raytracer/scene.go:164-170 | the identity leaves the vertices unchanged |
| Scenes.FlattenedTransformNests | raytracer/scene.go:153-170 | transforming by a flattened child's matrix is transforming by the child's matrix, then the parent's |
| Scenes.TransformObjectsToAbsolute | raytracer/scene.go:173-181 | the same keys; every object's vertices transformed by its own matrix |
| Scenes.FixSceneObjectW | raytracer/scene.go:34-49 | every object of the tree has its vertices, normals and texture coordinates fixed up |

## Left out

- I/O: `LoadJSON`, `parseMaterials`, PNG encoding, image decoding, the progress bar and logging are not modelled.
- raytracer/material.go and raytracer/config.go are not part of this model. The configuration is a value with one field per setting the core reads.
- Concurrency: the goroutines of `buildPhotonMap`, `render`, `ambientSampling` and the lighting code are sequential loops. `buildPhotonMap` waits inside its loop anyway, and the order in which a channel delivers colours does not change their sum.
- Floating point: reals are exact. NaN checks and ±Inf are not modelled.
- Division by zero gives 0 in the model: `InvSquare`, `Ratio` and `NormalizedDepth`. Go gives ±Inf or NaN there.
- Vectors.BarycentricCoordinates: a degenerate triangle gives (0, 0, 1, false), where Go divides by zero.
- KdTree.NodeMidPoint: an empty list gives the zero vector, where Go gives NaN. The tree never calls it on an empty list.
- Square root, `atan2`, `tan`, `reflectVector`, `refractVector`, `limitVector`, `sameSideTest`, `vectorSum`, `sampleSphere`, `sampleTriangle`, the three-argument `createSamples` (the field `spread`) and the environment map lookup are opaque function parameters. Their bodies are not in these files.
- `addVector` and `scaleVector` are not in these files. They are assumed to work on all four components.
- Randomness (`rand.Shuffle`, `rand.Perm`, `rand.Intn`, `rand.Float64`) is a parameter: a pick function, a permutation source or a random-sample function.
- `PerspectiveProjection` is a parameter of the camera, and `screenToWorld` composes it with the view matrix.
- `calcRadius` in object.go is not modelled. It only feeds a statistic.
- The `totalNodes` and `maxDepth` statistics of `generateNode` are not modelled.
- Bytes: Go converts `math.Floor(c * 255)` from float64 to `uint8`, and for a channel outside [0, 1] the result of that conversion is implementation-dependent in Go. The model's To8Bit wraps modulo 256 there, and the conversion is stated only for channels in [0, 1].
- Matrices.Adjoint is a single value, not sixteen assignments to a result matrix.
- Boxes.ChosenAxis: `longestAxis` is modelled as written. ChosenAxisLongestIff shows it is not always the longest axis.
- Boxes.BoundingBox.Center: `center` is modelled as written. CenterIsMidpointIff shows it is the midpoint only for boxes whose minimum corner is at the origin.
- DirectLighting.FollowGlass and DirectLighting.FollowPointGlass: light passing through glass recurses with a fuel bound (`glassDepth` panes) instead of Go's unbounded recursion. PointLight and DirectionalLight give zero once the fuel is spent.
- Rendering.TracedDirections: `0 < roughness < 0.1` gives no directions and a NaN mean in Go. The model divides by zero as 0.
- Raycast.RaycastNodeIntersect: states only that hits never decrease, not their exact count over the tree.
- Shading.GetBumpNormal: a bump-mapped normal is stated only to be a direction (w = 0). Its value depends on the opaque normalisation.
- KdTree.GenerateNode: with 10000 or more triangles, leaves are stated to hold input triangles, not an exact permutation.
- Meshes.Object.KDTree: the same for 10000 or more triangles.
- Go nil slices and empty slices are the same value in the model.
- The photon map's link to the scene: the lighting code reads each triangle's own `Photons` slice, and the world's triangles are taken to carry the store's photons for their id (PhotonsOn). No lemma states that link.
- Panics: the inputs on which Go panics are excluded by a `requires` or given a value. A negative `percent` makes a negative slice bound (core.go:65-66), a region with a negative area a negative `make` length (core.go:58), and a region past the image an index out of range; Core.Render requires none of these. An empty grid makes renderImage read `Pixels[0][0]` (imaging.go:48); Imaging.RenderImage requires a pixel. A negative `AntialiasSamples` makes `p[:n]` panic (antialias.go:20); Antialias.GetPixel requires n ≥ 0. A face index outside the vertex lists panics (object.go:30-41); Meshes.Object.UnifyTriangles requires the indices in range. A negative roughness makes `make` panic on every hit below the depth limit (intersection.go:228); Rendering.Directions gives no traced directions instead, so Rendering.Render returns a colour there.
- scene.go copies child objects by value, but the copies share backing arrays. The model writes the updated children back into the map.
