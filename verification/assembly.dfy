/**
 * Geometry assembly of a glTF mesh (GLTFRenderableMesh.assembleRenderableGeometries):
 * the indexed vertex and normal arrays are expanded into flat triangle-list
 * float buffers, one xyz triple per index.
 */
module Assembly {
  import opened Wrappers
  import opened Buffers

  /** A material descriptor of the asset, known only by identity. */
  type MaterialId = nat

  /**
   * The decoded glTF mesh: vertex array, optional normal array (`None` is a
   * null normal buffer), index array and optional material.
   */
  datatype SourceMesh = SourceMesh(
    vertices: seq<Vec4>,
    normals: Option<seq<Vec4>>,
    indices: seq<int>,
    material: Option<MaterialId>)

  /** The renderable geometry built from a mesh: a vertex buffer and an optional normal buffer. */
  datatype MeshGeometry = MeshGeometry(vertices: FloatBuffer, normals: Option<FloatBuffer>)

  /**
   * The array access that fails in the assembly loop: `position` is the loop
   * counter and `index` the offending entry of the index array.
   */
  datatype AssemblyError =
    | VertexIndexOutOfRange(position: nat, index: int)
    | NormalIndexOutOfRange(position: nat, index: int)

  /** The `k`-th index can be read from the vertex array and, when there is one, from the normal array. */
  predicate IndexOk(mesh: SourceMesh, k: nat)
    requires k < |mesh.indices|
  {
    var idx := mesh.indices[k];
    && 0 <= idx < |mesh.vertices|
    && (mesh.normals.Some? ==> idx < |mesh.normals.value|)
  }

  /** Every index of the mesh lies within the vertex array and, when there is one, the normal array. */
  predicate WellIndexed(mesh: SourceMesh) {
    && InRange(mesh.indices, |mesh.vertices|)
    && (mesh.normals.Some? ==> InRange(mesh.indices, |mesh.normals.value|))
  }

  /** A mesh is well indexed exactly when each of its indices can be read. */
  lemma WellIndexedIff(mesh: SourceMesh)
    ensures WellIndexed(mesh) <==> forall k :: 0 <= k < |mesh.indices| ==> IndexOk(mesh, k)
  {
    if forall k :: 0 <= k < |mesh.indices| ==> IndexOk(mesh, k) {
      forall k | 0 <= k < |mesh.indices|
        ensures 0 <= mesh.indices[k] < |mesh.vertices|
        ensures mesh.normals.Some? ==> mesh.indices[k] < |mesh.normals.value|
      {
        assert IndexOk(mesh, k);
      }
    }
  }

  /**
   * The failure raised at the `k`-th index: the vertex access comes first,
   * so it is the one reported when both arrays are too short.
   */
  function ErrorAt(mesh: SourceMesh, k: nat): AssemblyError
    requires k < |mesh.indices| && !IndexOk(mesh, k)
  {
    var idx := mesh.indices[k];
    if 0 <= idx < |mesh.vertices| then NormalIndexOutOfRange(k, idx)
    else VertexIndexOutOfRange(k, idx)
  }

  /** The first position at or after `from` whose index cannot be read, as the error it raises. */
  function FirstError(mesh: SourceMesh, from: nat): (r: Option<AssemblyError>)
    requires from <= |mesh.indices|
    ensures r.None? <==> forall k :: from <= k < |mesh.indices| ==> IndexOk(mesh, k)
    ensures r.Some? ==>
      && from <= r.value.position < |mesh.indices|
      && !IndexOk(mesh, r.value.position)
      && r.value == ErrorAt(mesh, r.value.position)
      && forall k :: from <= k < r.value.position ==> IndexOk(mesh, k)
    decreases |mesh.indices| - from
  {
    if from == |mesh.indices| then None
    else if !IndexOk(mesh, from) then Some(ErrorAt(mesh, from))
    else FirstError(mesh, from + 1)
  }

  /**
   * What assembling a mesh yields: the expanded buffers, or the error of the
   * first index that cannot be read.
   */
  function Assemble(mesh: SourceMesh, narrow: real -> Float32): (r: Result<MeshGeometry, AssemblyError>)
    ensures r.Success? <==> WellIndexed(mesh)
    ensures r.Success? ==>
      var g := r.value;
      && g.vertices.capacity == 3 * |mesh.indices| && g.vertices.Full()
      && (forall i :: 0 <= i < |mesh.indices| ==>
            Slot(g.vertices.data, i) == Components(mesh.vertices[mesh.indices[i]], narrow))
      && (g.normals.Some? <==> mesh.normals.Some?)
      && (g.normals.Some? ==>
            && g.normals.value.capacity == g.vertices.capacity && g.normals.value.Full()
            && forall i :: 0 <= i < |mesh.indices| ==>
                 Slot(g.normals.value.data, i) == Components(mesh.normals.value[mesh.indices[i]], narrow))
    ensures r.Failure? ==>
      var p := r.error.position;
      && p < |mesh.indices|
      && !IndexOk(mesh, p)
      && r.error == ErrorAt(mesh, p)
      && forall k :: 0 <= k < p ==> IndexOk(mesh, k)
  {
    WellIndexedIff(mesh);
    match FirstError(mesh, 0)
    case Some(e) => Failure(e)
    case None =>
      var capacity := 3 * |mesh.indices|;
      ExpandSlots(mesh.vertices, mesh.indices, narrow);
      var vertices := FloatBuffer(capacity, Expand(mesh.vertices, mesh.indices, narrow));
      if mesh.normals.Some? then
        ExpandSlots(mesh.normals.value, mesh.indices, narrow);
        var normals := FloatBuffer(capacity, Expand(mesh.normals.value, mesh.indices, narrow));
        Success(MeshGeometry(vertices, Some(normals)))
      else
        Success(MeshGeometry(vertices, None))
  }

  /** The loop stops at position `i` exactly when `i` is the first index that cannot be read. */
  lemma AssembleFailsAt(mesh: SourceMesh, i: nat, narrow: real -> Float32)
    requires i < |mesh.indices| && !IndexOk(mesh, i)
    requires forall k :: 0 <= k < i ==> IndexOk(mesh, k)
    ensures Assemble(mesh, narrow) == Failure(ErrorAt(mesh, i))
  {
  }

  /**
   * The state of the assembly loop after `i` indices: each of them could be
   * read, and the buffers, allocated for all indices, hold the expansion of
   * the first `i`.
   */
  ghost predicate Filled(mesh: SourceMesh, i: nat, vertices: FloatBuffer, normals: Option<FloatBuffer>, narrow: real -> Float32)
    requires i <= |mesh.indices|
  {
    var done := mesh.indices[..i];
    && (forall k :: 0 <= k < i ==> IndexOk(mesh, k))
    && InRange(done, |mesh.vertices|)
    && vertices == FloatBuffer(3 * |mesh.indices|, Expand(mesh.vertices, done, narrow))
    && (normals.Some? <==> mesh.normals.Some?)
    && (normals.Some? ==>
          && InRange(done, |mesh.normals.value|)
          && normals.value == FloatBuffer(3 * |mesh.indices|, Expand(mesh.normals.value, done, narrow)))
  }

  /**
   * One iteration of the assembly loop: read the `i`-th index, put the
   * vertex's components and then, when normals exist, the normal's. An index
   * that cannot be read ends assembly with the error `Assemble` reports.
   */
  method PutIndex(mesh: SourceMesh, i: nat, vertices: FloatBuffer, normals: Option<FloatBuffer>, narrow: real -> Float32)
    returns (r: Result<(FloatBuffer, Option<FloatBuffer>), AssemblyError>)
    requires i < |mesh.indices| && Filled(mesh, i, vertices, normals, narrow)
    ensures r.Success? <==> IndexOk(mesh, i)
    ensures r.Success? ==> Filled(mesh, i + 1, r.value.0, r.value.1, narrow)
    ensures r.Failure? ==> r.error == ErrorAt(mesh, i) && Assemble(mesh, narrow) == Failure(r.error)
  {
    var idx := mesh.indices[i];
    var done := mesh.indices[..i];
    assert mesh.indices[..i + 1] == done + [idx];
    if !(0 <= idx < |mesh.vertices|) {
      AssembleFailsAt(mesh, i, narrow);
      return Failure(VertexIndexOutOfRange(i, idx));
    }
    var vtx := mesh.vertices[idx];
    ExpandSnoc(mesh.vertices, done, idx, narrow);
    var vertices' := PutComponents(vertices, vtx, narrow);
    var normals' := normals;
    if normals.Some? {
      var normalBuffer := mesh.normals.value;
      if !(idx < |normalBuffer|) {
        AssembleFailsAt(mesh, i, narrow);
        return Failure(NormalIndexOutOfRange(i, idx));
      }
      var normal := normalBuffer[idx];
      ExpandSnoc(normalBuffer, done, idx, narrow);
      normals' := Some(PutComponents(normals.value, normal, narrow));
    }
    assert IndexOk(mesh, i);
    return Success((vertices', normals'));
  }

  /**
   * The assembly loop itself: allocate the buffers, then for each index in
   * order put the vertex's x, y, z and, when normals exist, the normal's.
   * Every put stays within the buffer's capacity.
   */
  method AssembleBuffers(mesh: SourceMesh, narrow: real -> Float32) returns (r: Result<MeshGeometry, AssemblyError>)
    ensures r == Assemble(mesh, narrow)
  {
    var n := |mesh.indices|;
    var vertices := NewBuffer(n * 3);
    var normals: Option<FloatBuffer> := None;
    if mesh.normals.Some? {
      normals := Some(NewBuffer(n * 3));
    }
    var i := 0;
    while i < n
      invariant 0 <= i <= n
      invariant Filled(mesh, i, vertices, normals, narrow)
    {
      var step := PutIndex(mesh, i, vertices, normals, narrow);
      if step.Failure? {
        return Failure(step.error);
      }
      vertices, normals := step.value.0, step.value.1;
      i := i + 1;
    }
    assert mesh.indices[..n] == mesh.indices;
    WellIndexedIff(mesh);
    return Success(MeshGeometry(vertices, normals));
  }
}
