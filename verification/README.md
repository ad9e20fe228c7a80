# GLTFRenderableMesh in Dafny

A model of `GLTFRenderableMesh`, the WorldWind Java class that turns a decoded
glTF mesh into something the mesh renderer can draw. It has three jobs:

- **Geometry assembly** (`assembleRenderableGeometries`). The glTF mesh holds a
  vertex array, an optional normal array and an index array. Assembly walks the
  indices in order. For each index it puts the referenced vertex's x, y and z,
  narrowed to `float`, into a direct float buffer sized `3 * indices`. When
  normals exist it does the same for the normal at the same index. The result is
  one triangle-list geometry. An index outside an array raises an
  `ArrayIndexOutOfBoundsException`.
- **Lazy assembly** (`renderOriented`). The geometry list is null until the
  first render call, which assembles it. Later calls reuse it.
- **Attribute selection** (the constructor). Without a material the render
  context's attributes object is shared as is. With a material, a copy is made
  and adjusted for the material. `isDoubleSided` is always true.

Modules:

- `Buffers` (`buffers.dfy`): `Vec4`, the float buffer with capacity and relative
  `Put`, and `Expand`, the pure reference definition of index expansion. Its
  lemmas cover the slot-by-slot layout, order preservation and uniqueness.
- `Assembly` (`assembly.dfy`): the source mesh, the assembled geometry and the
  two out-of-range errors. `Assemble` is the total specification with its error
  path. `AssembleBuffers` is the imperative loop, proved equal to it.
- `Attributes` (`attributes.dfy`): an explicit heap of attributes objects. It
  lets the model say "the same object" versus "a fresh copy".
- `RenderableMesh` (`renderable_mesh.dfy`): the mesh as a state machine. It
  covers construction, assembly, render calls, runs of render calls and
  `IsDoubleSided`.
- `Scenarios` (`scenarios.dfy`): a triangle assembled in order and in reverse,
  and an index past the end.
- `Wrappers` (`wrappers.dfy`): `Option` stands for `null` and `Result` for an
  escaping exception.

Doubles are `real`. A Java `float` is `Float32`, its 32-bit pattern. The
`(float)` cast is the parameter `narrow: real -> Float32`, so the model says
nothing about rounding. `GLTFUtil.computeMaterialAttrs` is the parameter
`computeMaterialAttrs: (A, MaterialId) -> A`. Attributes objects have the type
parameter `A`, and a material is known only by an id.

Behaviour of the code worth knowing:

- The geometry list is created empty at line 69, before the loop. An
  out-of-range index therefore leaves it non-null, and the next render call
  neither assembles nor raises again. It draws with whatever the base renderer
  holds. `FailedAssemblyIsNotRetried` states this.
- An empty index array gives empty buffers.
- Index counts that are not a multiple of 3 are accepted.

## Model

| member | source | states |
|---|---|---|
| Buffers.Expand | src/gov/nasa/worldwind/ogc/gltf/impl/GLTFRenderableMesh.java:73-84 | the expanded buffer has exactly three entries per index |
| Buffers.ExpandSlots | src/gov/nasa/worldwind/ogc/gltf/impl/GLTFRenderableMesh.java:79-84 | entries 3i, 3i+1, 3i+2 are the narrowed x, y, z of the element that index i refers to, so a repeated index gives repeated entries |
| Buffers.ExpandConcat | src/gov/nasa/worldwind/ogc/gltf/impl/GLTFRenderableMesh.java:79-84 | expanding a concatenation of index lists gives the concatenation of their expansions: output order follows index order, nothing is sorted or shared |
| Buffers.ExpansionIsUnique | src/gov/nasa/worldwind/ogc/gltf/impl/GLTFRenderableMesh.java:79-84 | a buffer meets the slot-by-slot specification exactly when it equals the expansion |
| Assembly.FirstError | src/gov/nasa/worldwind/ogc/gltf/impl/GLTFRenderableMesh.java:79-86 | finds the first iteration whose vertex or normal read fails, with the vertex read reported first; none exactly when all reads succeed |
| Assembly.Assemble | src/gov/nasa/worldwind/ogc/gltf/impl/GLTFRenderableMesh.java:70-92 | succeeds exactly when every index is in range; the vertex buffer has capacity 3 * indices, is full and holds each index's vertex in order; a normal buffer exists exactly when the source normals do, with the same capacity and the normal of the same index; otherwise fails at the first bad iteration |
| Assembly.AssembleFailsAt | src/gov/nasa/worldwind/ogc/gltf/impl/GLTFRenderableMesh.java:79-86 | when the first unreadable index is at position i, assembly fails with the error of position i |
| Assembly.PutIndex | src/gov/nasa/worldwind/ogc/gltf/impl/GLTFRenderableMesh.java:80-90 | iteration i succeeds exactly when its own vertex and normal reads succeed; it then extends both buffers by the referenced vertex and normal within capacity, and otherwise raises the error of position i, which is the error assembly reports |
| Assembly.AssembleBuffers | src/gov/nasa/worldwind/ogc/gltf/impl/GLTFRenderableMesh.java:70-92 | the imperative allocate-then-put loop produces exactly the result of the specification `Assemble`, including the error of the first bad index |
| Attributes.Allocate | src/gov/nasa/worldwind/ogc/gltf/impl/GLTFRenderableMesh.java:61 | a new object gets a reference not in use, and no existing object changes |
| Attributes.ResolveAttributes | src/gov/nasa/worldwind/ogc/gltf/impl/GLTFRenderableMesh.java:59-64 | without a material the defaults reference itself is returned and the heap is untouched; with one, a fresh object holds the material's adjustment of a copy of the defaults, and every existing object, the defaults included, is unchanged |
| RenderableMesh.NewMesh | src/gov/nasa/worldwind/ogc/gltf/impl/GLTFRenderableMesh.java:54-65 | a new mesh keeps its source, has a null geometry list and no assembly yet, and renders with the attributes selected as above |
| RenderableMesh.AssembleGeometries | src/gov/nasa/worldwind/ogc/gltf/impl/GLTFRenderableMesh.java:67-94 | verts-per-shape becomes 3 and the list is created; on success it holds exactly one geometry, the assembled one, which is handed to the base renderer; on failure the list stays empty and the error is returned |
| RenderableMesh.Render | src/gov/nasa/worldwind/ogc/gltf/impl/GLTFRenderableMesh.java:100-106 | with an existing list nothing changes and the held geometries are drawn; with a null list assembly runs once and source and attributes stay as they were; the call then draws the one assembled geometry, handed to the base renderer, or raises the assembly error, leaving the list empty and the base renderer's geometries as they were |
| RenderableMesh.AssembledIsStable | src/gov/nasa/worldwind/ogc/gltf/impl/GLTFRenderableMesh.java:101-105 | once the list exists, any number of render calls leave the mesh unchanged and draw the same geometries |
| RenderableMesh.AssemblesOnce | src/gov/nasa/worldwind/ogc/gltf/impl/GLTFRenderableMesh.java:100-106 | any run of n >= 1 render calls from a null list assembles exactly once, in the first call, and the later calls reuse its result |
| RenderableMesh.NewMeshAssemblesAtMostOnce | src/gov/nasa/worldwind/ogc/gltf/impl/GLTFRenderableMesh.java:100-106 | a newly constructed mesh has assembled 0 times after no render call and exactly once after any positive number of them |
| RenderableMesh.FailedAssemblyIsNotRetried | src/gov/nasa/worldwind/ogc/gltf/impl/GLTFRenderableMesh.java:67-106 | after a failed assembly the list is empty but not null, so the next call draws instead of assembling or raising again |
| RenderableMesh.IsDoubleSided | src/gov/nasa/worldwind/ogc/gltf/impl/GLTFRenderableMesh.java:108-111 | every geometry of the mesh is double-sided |
| Scenarios.AssemblesTo | src/gov/nasa/worldwind/ogc/gltf/impl/GLTFRenderableMesh.java:73-92 | a well-indexed mesh without normals assembles to any buffer that meets the slot-by-slot specification, and there is no normal buffer |
| Scenarios.TriangleInOrder | src/gov/nasa/worldwind/ogc/gltf/impl/GLTFRenderableMesh.java:79-84 | indices 0, 1, 2 of the unit triangle give its vertices in order and no normal buffer |
| Scenarios.TriangleReversed | src/gov/nasa/worldwind/ogc/gltf/impl/GLTFRenderableMesh.java:79-84 | indices 2, 1, 0 give the vertices in reverse order, not sorted |
| Scenarios.IndexPastEnd | src/gov/nasa/worldwind/ogc/gltf/impl/GLTFRenderableMesh.java:80-81 | index 5 into three vertices fails at the vertex read of the first iteration |

## Left out

- Helper lemmas `Buffers.ExpandSnoc`, `Buffers.InRangeConcat` and `Assembly.WellIndexedIff` are proof steps that unfold definitions; they have no row above.
- `KMLLocation`: it only reads and writes named fields of a property bag. There is nothing algorithmic to model.
- `setAltitudeMode` and `setElementType` in the constructor: they only store settings in the `Mesh3D` base, which is not part of this model.
- `super.renderOriented`, the `DrawContext` and the transform: the base renderer is external. A render call that reaches it is recorded as `Drawn` with the geometry list the base holds.
- The rounding of the `(float)` cast: it is the opaque parameter `narrow`.
- `GLTFUtil.computeMaterialAttrs` and the copy constructor of `BasicShapeAttributes`: their source is not part of this model. The adjustment is an opaque parameter, and the copy is taken to copy the value.
- Direct-buffer allocation (`Buffers.newDirectFloatBuffer`): a buffer is a capacity and a sequence of values.
- The 32-bit product `bufferIndices.length * 3`: it overflows only past 715,827,882 indices. Lengths are unbounded in the model.
- Null vertex or index arrays, and null elements inside them: in the model the vertex and index arrays are always present sequences. Only the normal array may be absent.
- The base's default verts-per-shape before assembly: it is `None` in the model.
- Thread safety of the lazy geometry list: render calls are taken one at a time.
