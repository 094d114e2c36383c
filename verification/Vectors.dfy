/** Flat vector storage and the distances taken over it. */
module Vectors {
  import opened Order
  import opened Outcomes

  /** A float32 by its bit pattern. */
  type Float32 = x: int | 0 <= x < 0x1_0000_0000
  type Vector = seq<Float32>

  /**
   * The numeric kernel: the distance of a metric, whether a vector has norm zero, and one coordinate
   * of its unit-length copy.
   */
  datatype Kernel = Kernel(
    distance: (int, Vector, Vector) -> real,
    isZero: Vector -> bool,
    unit: (Vector, int) -> Float32)

  const COSINE := 1

  /** The stored or queried form of a vector: itself for L2, normalised for cosine. */
  function Prepare(kernel: Kernel, metric: int, v: Vector): (r: Option<Vector>)
    ensures r.Some? ==> |r.value| == |v|
  {
    if metric != COSINE then Some(v)
    else if kernel.isZero(v) then None
    else Some(seq(|v|, i => kernel.unit(v, i)))
  }

  function VectorAt(flat: seq<Float32>, dim: int, id: int): Vector
    requires 0 <= id * dim && id * dim + dim <= |flat| && dim >= 0
  {
    flat[id * dim..id * dim + dim]
  }

  /** Vector `id` lies inside storage for n vectors. */
  lemma SlotInside(dim: int, id: int, n: int)
    requires dim >= 0 && 0 <= id < n
    ensures 0 <= id * dim && id * dim + dim <= n * dim
    ensures (id + 1) * dim == id * dim + dim
  {
    ScaleMonotone(dim, 0, id);
    ScaleMonotone(dim, id + 1, n);
  }

  lemma {:induction false} ScaleMonotone(dim: int, a: int, b: int)
    requires dim >= 0 && a <= b
    ensures a * dim <= b * dim
    decreases b - a
  {
    if a < b {
      ScaleMonotone(dim, a, b - 1);
      assert b * dim == (b - 1) * dim + dim;
    }
  }

  /** Distances from every stored vector to a query; out-of-range ids are never scored. */
  function QueryScore(kernel: Kernel, metric: int, flat: seq<Float32>, dim: int, query: Vector): int -> real {
    (id: int) =>
      if dim >= 0 && 0 <= id * dim && id * dim + dim <= |flat|
      then kernel.distance(metric, VectorAt(flat, dim, id), query) else 0.0
  }

  /** Distances between stored vectors. */
  function StoredDistance(kernel: Kernel, metric: int, flat: seq<Float32>, dim: int): (int, int) -> real {
    (a: int, b: int) =>
      if dim >= 0 && 0 <= a * dim && a * dim + dim <= |flat| && 0 <= b * dim && b * dim + dim <= |flat|
      then kernel.distance(metric, VectorAt(flat, dim, a), VectorAt(flat, dim, b)) else 0.0
  }

  // ---------- flattening ----------

  predicate SameLength(vectors: seq<Vector>, dim: int) {
    forall i :: 0 <= i < |vectors| ==> |vectors[i]| == dim
  }

  predicate AllPrepared(kernel: Kernel, metric: int, vectors: seq<Vector>) {
    forall i :: 0 <= i < |vectors| ==> Prepare(kernel, metric, vectors[i]).Some?
  }

  function Concat(parts: seq<Vector>): Vector {
    if parts == [] then [] else Concat(parts[..|parts| - 1]) + parts[|parts| - 1]
  }

  lemma {:induction false} ConcatLength(parts: seq<Vector>, dim: int)
    requires dim >= 0 && SameLength(parts, dim)
    ensures |Concat(parts)| == |parts| * dim
  {
    if parts != [] {
      var n := |parts|;
      ConcatLength(parts[..n - 1], dim);
      assert n * dim == (n - 1) * dim + dim;
    }
  }

  /** Concatenation keeps every vector at its slot. */
  lemma {:induction false} ConcatAt(parts: seq<Vector>, dim: int, i: nat)
    requires dim >= 0 && SameLength(parts, dim) && i < |parts|
    ensures 0 <= i * dim && i * dim + dim <= |Concat(parts)|
    ensures VectorAt(Concat(parts), dim, i) == parts[i]
  {
    var n := |parts|;
    var front := parts[..n - 1];
    ConcatLength(parts, dim);
    ConcatLength(front, dim);
    SlotInside(dim, i, n);
    if i < n - 1 {
      ConcatAt(front, dim, i);
      assert Concat(parts)[i * dim..i * dim + dim] == Concat(front)[i * dim..i * dim + dim];
    } else {
      assert i * dim == |Concat(front)|;
    }
  }

  /** The dimension the dataset is read with: configured, or that of the first vector. */
  function DatasetDim(vectors: seq<Vector>, configuredDim: int): int
    requires vectors != []
  {
    if configuredDim == 0 then |vectors[0]| else configuredDim
  }

  method ValidateVectors(vectors: seq<Vector>, configuredDim: int) returns (out: Outcome<int>)
    ensures out.Ok? <==> vectors != [] && DatasetDim(vectors, configuredDim) > 0 &&
                         SameLength(vectors, DatasetDim(vectors, configuredDim))
    ensures out.Ok? ==> out.value == DatasetDim(vectors, configuredDim)
  {
    if |vectors| == 0 {
      return Err(EmptyVectors);
    }
    var dim := configuredDim;
    if dim == 0 {
      dim := |vectors[0]|;
    }
    if dim <= 0 {
      return Err(BadDimension);
    }
    for i := 0 to |vectors|
      invariant SameLength(vectors[..i], dim)
    {
      if |vectors[i]| != dim {
        return Err(BadDimension);
      }
      assert vectors[..i + 1] == vectors[..i] + [vectors[i]];
    }
    assert vectors[..|vectors|] == vectors;
    return Ok(dim);
  }

  /** The prepared vectors of an acceptable dataset. */
  function Prepared(kernel: Kernel, metric: int, vectors: seq<Vector>): (r: seq<Vector>)
    requires AllPrepared(kernel, metric, vectors)
    ensures |r| == |vectors|
    ensures forall i :: 0 <= i < |r| ==> r[i] == Prepare(kernel, metric, vectors[i]).value
  {
    seq(|vectors|, i requires 0 <= i < |vectors| => Prepare(kernel, metric, vectors[i]).value)
  }

  /** Validates, prepares and lays out a dataset; every stored vector is the prepared input vector. */
  method FlattenVectors(kernel: Kernel, vectors: seq<Vector>, configuredDim: int, metric: int)
    returns (out: Outcome<(seq<Float32>, int)>)
    ensures out.Ok? <==> vectors != [] && DatasetDim(vectors, configuredDim) > 0 &&
                         SameLength(vectors, DatasetDim(vectors, configuredDim)) &&
                         AllPrepared(kernel, metric, vectors)
    ensures out.Ok? ==> out.value.1 == DatasetDim(vectors, configuredDim) &&
                        out.value.0 == Concat(Prepared(kernel, metric, vectors))
  {
    var valid := ValidateVectors(vectors, configuredDim);
    match valid {
      case Err(error) => return Err(error);
      case Ok(dim) =>
        var flat := PrepareAll(kernel, vectors, metric);
        if flat.None? {
          return Err(ZeroVector);
        }
        return Ok((flat.value, dim));
    }
  }

  method PrepareAll(kernel: Kernel, vectors: seq<Vector>, metric: int) returns (flat: Option<seq<Float32>>)
    ensures flat.Some? <==> AllPrepared(kernel, metric, vectors)
    ensures flat.Some? ==> flat.value == Concat(Prepared(kernel, metric, vectors))
  {
    var data: seq<Float32> := [];
    for i := 0 to |vectors|
      invariant AllPrepared(kernel, metric, vectors[..i])
      invariant data == Concat(Prepared(kernel, metric, vectors[..i]))
    {
      var next := Prepare(kernel, metric, vectors[i]);
      if next.None? {
        return None;
      }
      assert vectors[..i + 1] == vectors[..i] + [vectors[i]];
      assert AllPrepared(kernel, metric, vectors[..i + 1]);
      assert Prepared(kernel, metric, vectors[..i + 1]) == Prepared(kernel, metric, vectors[..i]) + [next.value];
      data := data + next.value;
    }
    assert vectors[..|vectors|] == vectors;
    return Some(data);
  }

  lemma FlatShape(kernel: Kernel, metric: int, vectors: seq<Vector>, dim: int)
    requires dim > 0 && SameLength(vectors, dim) && AllPrepared(kernel, metric, vectors)
    ensures |Concat(Prepared(kernel, metric, vectors))| == |vectors| * dim
  {
    ConcatLength(Prepared(kernel, metric, vectors), dim);
  }

  // ---------- the construction copy ----------

  function Gather(flat: seq<Float32>, dim: int, labels: seq<int>): (parts: seq<Vector>)
    requires dim >= 0 && forall i :: 0 <= i < |labels| ==> 0 <= labels[i] * dim && labels[i] * dim + dim <= |flat|
    ensures |parts| == |labels| && SameLength(parts, dim)
    ensures forall i :: 0 <= i < |labels| ==> parts[i] == VectorAt(flat, dim, labels[i])
  {
    seq(|labels|, i requires 0 <= i < |labels| => VectorAt(flat, dim, labels[i]))
  }

  method CopyLayoutVectors(labels: seq<int>, flat: seq<Float32>, dim: int) returns (out: seq<Float32>)
    requires dim >= 0 && forall i :: 0 <= i < |labels| ==> 0 <= labels[i] * dim && labels[i] * dim + dim <= |flat|
    ensures out == Concat(Gather(flat, dim, labels))
  {
    out := [];
    for i := 0 to |labels|
      invariant out == Concat(Gather(flat, dim, labels[..i]))
    {
      assert Gather(flat, dim, labels[..i + 1])[..i] == Gather(flat, dim, labels[..i]);
      out := out + VectorAt(flat, dim, labels[i]);
    }
    assert labels[..|labels|] == labels;
  }

  /** A prefix of the labels has its vectors in a prefix of the copy. */
  lemma {:induction false} CopyPrefix(flat: seq<Float32>, dim: int, labels: seq<int>, n: nat)
    requires dim >= 0 && forall i :: 0 <= i < |labels| ==> 0 <= labels[i] * dim && labels[i] * dim + dim <= |flat|
    requires n <= |labels|
    ensures 0 <= n * dim <= |Concat(Gather(flat, dim, labels))|
    ensures Concat(Gather(flat, dim, labels))[..n * dim] == Concat(Gather(flat, dim, labels[..n]))
    decreases |labels|
  {
    var parts := Gather(flat, dim, labels);
    ConcatLength(parts, dim);
    if n == |labels| {
      assert labels[..n] == labels;
    } else {
      var front := labels[..|labels| - 1];
      CopyPrefix(flat, dim, front, n);
      assert front[..n] == labels[..n];
      assert parts[..|labels| - 1] == Gather(flat, dim, front);
    }
  }

  /** Relabelling keeps distances: local ids of the copy are as far apart as the nodes they stand for. */
  lemma CopyKeepsDistances(kernel: Kernel, metric: int, flat: seq<Float32>, dim: int, labels: seq<int>, a: nat, b: nat)
    requires dim >= 0 && forall i :: 0 <= i < |labels| ==> 0 <= labels[i] * dim && labels[i] * dim + dim <= |flat|
    requires a < |labels| && b < |labels|
    ensures StoredDistance(kernel, metric, Concat(Gather(flat, dim, labels)), dim)(a, b) ==
            StoredDistance(kernel, metric, flat, dim)(labels[a], labels[b])
  {
    ConcatAt(Gather(flat, dim, labels), dim, a);
    ConcatAt(Gather(flat, dim, labels), dim, b);
  }
}
