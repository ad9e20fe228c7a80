/**
 * GLTFRenderableMesh as a state machine: construction resolves the shape
 * attributes, the first render call assembles the geometry list, and every
 * later call reuses it.
 */
module RenderableMesh {
  import opened Wrappers
  import opened Buffers
  import opened Assembly
  import opened Attributes

  /** Vertices per primitive of a triangle list. */
  const TriangleVertices: nat := 3

  /** The mesh's own geometry list: `Unassembled` is the null list, before the first render. */
  datatype GeometryCache = Unassembled | Assembled(geometries: seq<MeshGeometry>)

  /**
   * The mesh: its glTF source, the attributes it renders with, its geometry
   * list, the list handed to the base renderer (`None` until one is handed
   * over), the verts-per-shape setting (`None` until set) and the number of
   * times assembly has run.
   */
  datatype MeshState = MeshState(
    source: SourceMesh,
    attributes: Ref,
    cache: GeometryCache,
    rendered: Option<seq<MeshGeometry>>,
    vertsPerShape: Option<nat>,
    assemblies: nat)

  /** What a render call does: draw through the base renderer, or raise an assembly error. */
  datatype RenderOutcome = Drawn(geometries: Option<seq<MeshGeometry>>) | Raised(error: AssemblyError)

  /** The mesh after a render call, and what the call did. */
  datatype RenderStep = RenderStep(state: MeshState, outcome: RenderOutcome)

  /** The mesh after a run of render calls, and what each call did, in order. */
  datatype RenderRun = RenderRun(state: MeshState, outcomes: seq<RenderOutcome>)

  /**
   * The constructor: keeps the source mesh, selects the attributes and
   * leaves the geometry list null, so nothing is assembled yet.
   */
  function NewMesh<A>(source: SourceMesh, h: Heap<A>, defaults: Ref, computeMaterialAttrs: (A, MaterialId) -> A)
    : (r: (MeshState, Heap<A>))
    requires h.Valid()
    requires source.material.Some? ==> defaults in h.objects
    ensures r.0.source == source
    ensures r.0.cache == Unassembled && r.0.rendered == None && r.0.assemblies == 0
    ensures r.1.Valid()
    ensures source.material.None? ==> r.0.attributes == defaults && r.1 == h
    ensures source.material.Some? ==>
      && r.0.attributes !in h.objects
      && r.0.attributes in r.1.objects
      && r.1.objects[r.0.attributes] == computeMaterialAttrs(h.objects[defaults], source.material.value)
    ensures forall q :: q in h.objects ==> q in r.1.objects && r.1.objects[q] == h.objects[q]
  {
    var (attributes, h') := ResolveAttributes(h, defaults, source.material, computeMaterialAttrs);
    (MeshState(source, attributes, Unassembled, None, None, 0), h')
  }

  /**
   * Assembly of the geometry list: verts-per-shape becomes 3 and the list
   * is created empty before the loop runs. On success it holds the one
   * assembled geometry and is handed to the base renderer; on failure it
   * stays empty, and the error is returned.
   */
  function AssembleGeometries(s: MeshState, narrow: real -> Float32): (r: (MeshState, Option<AssemblyError>))
    ensures r.0.source == s.source && r.0.attributes == s.attributes
    ensures r.0.vertsPerShape == Some(TriangleVertices)
    ensures r.0.assemblies == s.assemblies + 1
    ensures r.0.cache.Assembled?
    ensures r.1.None? <==> WellIndexed(s.source)
    ensures r.1.None? ==>
      && |r.0.cache.geometries| == 1
      && Success(r.0.cache.geometries[0]) == Assemble(s.source, narrow)
      && r.0.rendered == Some(r.0.cache.geometries)
    ensures r.1.Some? ==>
      && r.0.cache == Assembled([])
      && r.0.rendered == s.rendered
      && Failure(r.1.value) == Assemble(s.source, narrow)
  {
    var started := s.(vertsPerShape := Some(TriangleVertices), cache := Assembled([]), assemblies := s.assemblies + 1);
    match Assemble(s.source, narrow)
    case Success(g) => (started.(cache := Assembled([g]), rendered := Some([g])), None)
    case Failure(e) => (started, Some(e))
  }

  /**
   * A render call: assembles only while the geometry list is null, then
   * draws through the base renderer. An assembly error escapes the call
   * before anything is drawn.
   */
  function Render(s: MeshState, narrow: real -> Float32): (r: RenderStep)
    ensures s.cache.Assembled? ==> r.state == s && r.outcome == Drawn(s.rendered)
    ensures s.cache.Unassembled? ==>
      && r.state.cache.Assembled?
      && r.state.assemblies == s.assemblies + 1
      && r.state.vertsPerShape == Some(TriangleVertices)
      && r.state.source == s.source && r.state.attributes == s.attributes
      && (r.outcome.Raised? <==> !WellIndexed(s.source))
      && (r.outcome.Drawn? ==>
            && r.outcome == Drawn(r.state.rendered)
            && |r.state.cache.geometries| == 1
            && r.state.rendered == Some(r.state.cache.geometries)
            && Success(r.state.cache.geometries[0]) == Assemble(s.source, narrow))
      && (r.outcome.Raised? ==>
            && Failure(r.outcome.error) == Assemble(s.source, narrow)
            && r.state.cache == Assembled([])
            && r.state.rendered == s.rendered)
  {
    match s.cache
    case Assembled(_) => RenderStep(s, Drawn(s.rendered))
    case Unassembled =>
      var (s', err) := AssembleGeometries(s, narrow);
      match err
      case Some(e) => RenderStep(s', Raised(e))
      case None => RenderStep(s', Drawn(s'.rendered))
  }

  /** `n` consecutive render calls. */
  function Renders(s: MeshState, n: nat, narrow: real -> Float32): (r: RenderRun)
    ensures |r.outcomes| == n
    decreases n
  {
    if n == 0 then RenderRun(s, [])
    else
      var step := Render(s, narrow);
      var rest := Renders(step.state, n - 1, narrow);
      RenderRun(rest.state, [step.outcome] + rest.outcomes)
  }

  /** Once the geometry list exists, render calls change nothing and draw the same geometries. */
  lemma {:induction false} AssembledIsStable(s: MeshState, n: nat, narrow: real -> Float32)
    requires s.cache.Assembled?
    ensures Renders(s, n, narrow).state == s
    ensures forall k :: 0 <= k < n ==> Renders(s, n, narrow).outcomes[k] == Drawn(s.rendered)
  {
    if n > 0 {
      AssembledIsStable(s, n - 1, narrow);
    }
  }

  /**
   * Any run of `n >= 1` render calls on a mesh whose list is still null
   * assembles exactly once, in the first call; the later calls leave the
   * mesh as the first call left it and draw what it cached.
   */
  lemma AssemblesOnce(s: MeshState, n: nat, narrow: real -> Float32)
    requires s.cache.Unassembled? && n >= 1
    ensures Renders(s, n, narrow).state.assemblies == s.assemblies + 1
    ensures Renders(s, n, narrow).state == Render(s, narrow).state
    ensures Renders(s, n, narrow).outcomes[0] == Render(s, narrow).outcome
    ensures forall k :: 1 <= k < n ==> Renders(s, n, narrow).outcomes[k] == Drawn(Render(s, narrow).state.rendered)
  {
    var first := Render(s, narrow);
    AssembledIsStable(first.state, n - 1, narrow);
    var rest := Renders(first.state, n - 1, narrow);
    assert Renders(s, n, narrow).outcomes == [first.outcome] + rest.outcomes;
  }

  /** A newly constructed mesh has assembled once after any positive number of render calls, and never before. */
  lemma NewMeshAssemblesAtMostOnce<A>(source: SourceMesh, h: Heap<A>, defaults: Ref,
                                          computeMaterialAttrs: (A, MaterialId) -> A, n: nat, narrow: real -> Float32)
    requires h.Valid()
    requires source.material.Some? ==> defaults in h.objects
    ensures Renders(NewMesh<A>(source, h, defaults, computeMaterialAttrs).0, n, narrow).state.assemblies
            == if n == 0 then 0 else 1
  {
    if n > 0 {
      AssemblesOnce(NewMesh<A>(source, h, defaults, computeMaterialAttrs).0, n, narrow);
    }
  }

  /**
   * A failed assembly is not retried: the geometry list already exists
   * (empty), so the next call draws with whatever the base renderer held
   * instead of raising the error again.
   */
  lemma FailedAssemblyIsNotRetried(s: MeshState, narrow: real -> Float32)
    requires s.cache.Unassembled? && !WellIndexed(s.source)
    ensures Renders(s, 2, narrow).outcomes[0].Raised?
    ensures Renders(s, 2, narrow).outcomes[1] == Drawn(s.rendered)
    ensures Renders(s, 2, narrow).state.cache == Assembled([])
    ensures Renders(s, 2, narrow).state.assemblies == s.assemblies + 1
  {
  }

  /** Back-face culling is always off for glTF meshes: every geometry is drawn double-sided. */
  function IsDoubleSided(geometry: MeshGeometry): (r: bool)
    ensures r
  {
    true
  }
}
