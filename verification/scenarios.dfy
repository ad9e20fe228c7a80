/** Concrete meshes: a triangle expanded in index order and in reverse, and an index past the end. */
module Scenarios {
  import opened Wrappers
  import opened Buffers
  import opened Assembly
  import opened RenderableMesh

  /** The unit triangle (0,0,0), (1,0,0), (0,1,0), without normals. */
  function Triangle(indices: seq<int>): SourceMesh {
    SourceMesh([Vec4(0.0, 0.0, 0.0, 1.0), Vec4(1.0, 0.0, 0.0, 1.0), Vec4(0.0, 1.0, 0.0, 1.0)], None, indices, None)
  }

  /** A well-indexed mesh without normals assembles to exactly the buffer `expected` when that buffer meets the pointwise specification. */
  lemma AssemblesTo(mesh: SourceMesh, expected: seq<Float32>, narrow: real -> Float32)
    requires WellIndexed(mesh) && mesh.normals.None?
    requires IsExpansion(expected, mesh.vertices, mesh.indices, narrow)
    ensures Assemble(mesh, narrow) == Success(MeshGeometry(FloatBuffer(3 * |mesh.indices|, expected), None))
  {
    var r := Assemble(mesh, narrow);
    ExpansionIsUnique(r.value.vertices.data, mesh.vertices, mesh.indices, narrow);
    ExpansionIsUnique(expected, mesh.vertices, mesh.indices, narrow);
  }

  /** Indices 0, 1, 2 give the three vertices in order and no normal buffer. */
  lemma TriangleInOrder(narrow: real -> Float32)
    ensures Assemble(Triangle([0, 1, 2]), narrow) == Success(MeshGeometry(FloatBuffer(9,
      [narrow(0.0), narrow(0.0), narrow(0.0), narrow(1.0), narrow(0.0), narrow(0.0), narrow(0.0), narrow(1.0), narrow(0.0)]), None))
  {
    var mesh := Triangle([0, 1, 2]);
    var expected := [narrow(0.0), narrow(0.0), narrow(0.0), narrow(1.0), narrow(0.0), narrow(0.0), narrow(0.0), narrow(1.0), narrow(0.0)];
    assert Slot(expected, 0) == Components(mesh.vertices[0], narrow);
    assert Slot(expected, 1) == Components(mesh.vertices[1], narrow);
    assert Slot(expected, 2) == Components(mesh.vertices[2], narrow);
    AssemblesTo(mesh, expected, narrow);
  }

  /** Indices 2, 1, 0 give the vertices in reverse: index order is kept, not re-sorted. */
  lemma TriangleReversed(narrow: real -> Float32)
    ensures Assemble(Triangle([2, 1, 0]), narrow) == Success(MeshGeometry(FloatBuffer(9,
      [narrow(0.0), narrow(1.0), narrow(0.0), narrow(1.0), narrow(0.0), narrow(0.0), narrow(0.0), narrow(0.0), narrow(0.0)]), None))
  {
    var mesh := Triangle([2, 1, 0]);
    var expected := [narrow(0.0), narrow(1.0), narrow(0.0), narrow(1.0), narrow(0.0), narrow(0.0), narrow(0.0), narrow(0.0), narrow(0.0)];
    assert Slot(expected, 0) == Components(mesh.vertices[2], narrow);
    assert Slot(expected, 1) == Components(mesh.vertices[1], narrow);
    assert Slot(expected, 2) == Components(mesh.vertices[0], narrow);
    AssemblesTo(mesh, expected, narrow);
  }

  /** Index 5 into three vertices fails at the vertex access of the first iteration. */
  lemma IndexPastEnd(narrow: real -> Float32)
    ensures Assemble(Triangle([5]), narrow) == Failure(VertexIndexOutOfRange(0, 5))
  {
  }
}
