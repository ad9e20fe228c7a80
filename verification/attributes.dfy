/**
 * Shape attributes as heap objects, so that "the same object" and "a fresh
 * copy" can be told apart: the constructor of GLTFRenderableMesh either
 * shares the render context's attributes or works on a copy of them.
 */
module Attributes {
  import opened Wrappers

  /** A reference to an attributes object. */
  type Ref = nat

  /** The attributes objects allocated so far; `next` is the next unused reference. */
  datatype Heap<A> = Heap(objects: map<Ref, A>, next: Ref)
  {
    /** Every allocated reference lies below `next`. */
    predicate Valid() {
      forall q :: q in objects ==> q < next
    }
  }

  /** Allocates a new object holding `value`; nothing already allocated changes. */
  function Allocate<A>(h: Heap<A>, value: A): (r: (Ref, Heap<A>))
    requires h.Valid()
    ensures r.1.Valid()
    ensures r.0 !in h.objects
    ensures r.1.objects == h.objects[r.0 := value]
  {
    (h.next, Heap(h.objects[h.next := value], h.next + 1))
  }

  /**
   * The attributes a mesh renders with. Without a material the context's
   * defaults object itself is used. With one, the defaults are copied into a
   * new object which `computeMaterialAttrs` then adjusts for the material;
   * the defaults object is left as it was.
   */
  function ResolveAttributes<A, M>(h: Heap<A>, defaults: Ref, material: Option<M>, computeMaterialAttrs: (A, M) -> A): (r: (Ref, Heap<A>))
    requires h.Valid()
    requires material.Some? ==> defaults in h.objects
    ensures r.1.Valid()
    ensures material.None? ==> r.0 == defaults && r.1 == h
    ensures material.Some? ==>
      && r.0 != defaults
      && r.0 !in h.objects
      && r.0 in r.1.objects
      && r.1.objects[r.0] == computeMaterialAttrs(h.objects[defaults], material.value)
    ensures forall q :: q in h.objects ==> q in r.1.objects && r.1.objects[q] == h.objects[q]
  {
    match material
    case None => (defaults, h)
    case Some(m) =>
      var copy := h.objects[defaults];
      Allocate(h, computeMaterialAttrs(copy, m))
  }
}
