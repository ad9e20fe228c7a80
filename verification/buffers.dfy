/**
 * Index expansion over flat float buffers: the pure reference definition of
 * what the assembly loop of GLTFRenderableMesh writes into its vertex and
 * normal buffers.
 */
module Buffers {

  /**
   * A Java `float`, as its 32-bit pattern. Nothing here computes with
   * floats: they are only produced by the narrowing cast and stored.
   */
  datatype Float32 = Float32(bits: bv32)

  /** A homogeneous vector of doubles, as decoded from the glTF asset. */
  datatype Vec4 = Vec4(x: real, y: real, z: real, w: real)

  /**
   * A direct float buffer: a fixed capacity fixed at allocation and the
   * values put so far (its position is `|data|`).
   */
  datatype FloatBuffer = FloatBuffer(capacity: nat, data: seq<Float32>)
  {
    /** True when every slot of the buffer has been written. */
    predicate Full() {
      |data| == capacity
    }
  }

  // NewBuffer and Put define the external NIO buffer operations; their
  // ensures are those definitions, not properties derived from them.

  /** A freshly allocated buffer with nothing put yet. */
  function NewBuffer(capacity: nat): (b: FloatBuffer)
    ensures b.capacity == capacity && |b.data| == 0
  {
    FloatBuffer(capacity, [])
  }

  /** Relative put: writes one value at the position and advances it. */
  function Put(b: FloatBuffer, value: Float32): (r: FloatBuffer)
    requires |b.data| < b.capacity
    ensures r.capacity == b.capacity && r.data == b.data + [value]
  {
    FloatBuffer(b.capacity, b.data + [value])
  }

  /** The x, y and z of a vector narrowed to floats; w is dropped. */
  function Components(v: Vec4, narrow: real -> Float32): seq<Float32> {
    [narrow(v.x), narrow(v.y), narrow(v.z)]
  }

  /** Three relative puts: the x, y and z of `v`, narrowed, in that order. */
  function PutComponents(b: FloatBuffer, v: Vec4, narrow: real -> Float32): (r: FloatBuffer)
    requires |b.data| + 3 <= b.capacity
    ensures r.capacity == b.capacity && r.data == b.data + Components(v, narrow)
  {
    Put(Put(Put(b, narrow(v.x)), narrow(v.y)), narrow(v.z))
  }

  /** The three buffer entries written for the `i`-th index. */
  function Slot(buf: seq<Float32>, i: nat): seq<Float32>
    requires 3 * i + 3 <= |buf|
  {
    buf[3 * i .. 3 * i + 3]
  }

  /** Every index refers to an element of a buffer of length `n`. */
  predicate InRange(indices: seq<int>, n: nat) {
    forall k :: 0 <= k < |indices| ==> 0 <= indices[k] < n
  }

  /**
   * The pointwise specification of an expanded buffer: three entries per
   * index, and slot `i` holds the components of `source[indices[i]]`.
   */
  ghost predicate IsExpansion(buf: seq<Float32>, source: seq<Vec4>, indices: seq<int>, narrow: real -> Float32)
    requires InRange(indices, |source|)
  {
    && |buf| == 3 * |indices|
    && forall i :: 0 <= i < |indices| ==> Slot(buf, i) == Components(source[indices[i]], narrow)
  }

  /**
   * Index expansion: walks `indices` in order and appends the components of
   * the referenced element for each one.
   */
  function Expand(source: seq<Vec4>, indices: seq<int>, narrow: real -> Float32): (r: seq<Float32>)
    requires InRange(indices, |source|)
    ensures |r| == 3 * |indices|
  {
    if |indices| == 0 then []
    else Expand(source, indices[..|indices| - 1], narrow) + Components(source[indices[|indices| - 1]], narrow)
  }

  /**
   * Slot `i` of the expansion holds the components of the element that the
   * `i`-th index refers to. Repeated indices are repeated in the output;
   * nothing is sorted or shared.
   */
  lemma {:induction false} ExpandSlots(source: seq<Vec4>, indices: seq<int>, narrow: real -> Float32)
    requires InRange(indices, |source|)
    ensures IsExpansion(Expand(source, indices, narrow), source, indices, narrow)
  {
    if |indices| > 0 {
      var front := indices[..|indices| - 1];
      var p := Expand(source, front, narrow);
      var r := Expand(source, indices, narrow);
      ExpandSlots(source, front, narrow);
      forall i | 0 <= i < |indices|
        ensures Slot(r, i) == Components(source[indices[i]], narrow)
      {
        if i < |front| {
          assert Slot(r, i) == Slot(p, i);
          assert front[i] == indices[i];
        }
      }
    }
  }

  /** Expanding one more index appends exactly that index's three components. */
  lemma ExpandSnoc(source: seq<Vec4>, indices: seq<int>, k: int, narrow: real -> Float32)
    requires InRange(indices, |source|) && 0 <= k < |source|
    ensures InRange(indices + [k], |source|)
    ensures Expand(source, indices + [k], narrow) == Expand(source, indices, narrow) + Components(source[k], narrow)
  {
  }

  /** Concatenating two in-range index lists keeps them in range. */
  lemma InRangeConcat(a: seq<int>, b: seq<int>, n: nat)
    requires InRange(a, n) && InRange(b, n)
    ensures InRange(a + b, n)
  {
  }

  /**
   * Expansion distributes over concatenation of index lists, so the output
   * keeps the order of the indices (and hence the triangle winding).
   */
  lemma {:induction false} ExpandConcat(source: seq<Vec4>, a: seq<int>, b: seq<int>, narrow: real -> Float32)
    requires InRange(a, |source|) && InRange(b, |source|)
    ensures InRange(a + b, |source|)
    ensures Expand(source, a + b, narrow) == Expand(source, a, narrow) + Expand(source, b, narrow)
  {
    InRangeConcat(a, b, |source|);
    if |b| == 0 {
      assert a + b == a;
    } else {
      var front := b[..|b| - 1];
      var last := b[|b| - 1];
      assert b == front + [last];
      assert InRange(front, |source|);
      assert a + b == (a + front) + [last];
      InRangeConcat(a, front, |source|);
      var c := Components(source[last], narrow);
      calc {
        Expand(source, a + b, narrow);
        { ExpandSnoc(source, a + front, last, narrow); }
        Expand(source, a + front, narrow) + c;
        { ExpandConcat(source, a, front, narrow); }
        Expand(source, a, narrow) + Expand(source, front, narrow) + c;
        { ExpandSnoc(source, front, last, narrow); }
        Expand(source, a, narrow) + Expand(source, b, narrow);
      }
    }
  }

  /**
   * The pointwise specification determines the buffer: a buffer satisfies
   * it exactly when it is the expansion.
   */
  lemma ExpansionIsUnique(buf: seq<Float32>, source: seq<Vec4>, indices: seq<int>, narrow: real -> Float32)
    requires InRange(indices, |source|)
    ensures IsExpansion(buf, source, indices, narrow) <==> buf == Expand(source, indices, narrow)
  {
    var e := Expand(source, indices, narrow);
    ExpandSlots(source, indices, narrow);
    if IsExpansion(buf, source, indices, narrow) {
      forall j | 0 <= j < |buf|
        ensures buf[j] == e[j]
      {
        var i := j / 3;
        assert 3 * i <= j < 3 * i + 3;
        assert Slot(buf, i) == Slot(e, i);
        assert buf[j] == Slot(buf, i)[j - 3 * i];
        assert e[j] == Slot(e, i)[j - 3 * i];
      }
    }
  }
}
