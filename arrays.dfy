/**
 * Rectangular arrays of rank 2..6 filled with the sentinel (array_utils.cpp).
 *
 * The source builds a rank-N array as a vector of separately allocated
 * rank-(N-1) arrays, down to rows filled with VIE_INF. Here an array of
 * shape `dims` is one buffer of Product(dims) cells laid out row-major:
 * slice i of the outermost dimension is the block of cells
 * [i * Product(dims[1..]), (i + 1) * Product(dims[1..])), and creating the
 * array fills slice after slice, recursively, down to single rows.
 */
module NdArrays {
  import opened Alphabet

  /** Number of cells of an array of the given shape. */
  function Product(dims: seq<nat>): nat
  {
    if |dims| == 0 then 1 else dims[0] * Product(dims[1..])
  }

  /** idx addresses a cell of an array of shape dims. */
  predicate InRange(dims: seq<nat>, idx: seq<int>)
  {
    |idx| == |dims| && forall k :: 0 <= k < |idx| ==> 0 <= idx[k] < dims[k]
  }

  lemma MulLeft(a: int, b: int, c: nat)
    requires a <= b
    ensures a * c <= b * c
  {
  }

  /** Row-major position of a cell; distinct cells get distinct positions. */
  function Offset(dims: seq<nat>, idx: seq<int>): (r: nat)
    requires InRange(dims, idx)
    ensures r < Product(dims)
  {
    if |dims| == 0 then 0
    else
      assert InRange(dims[1..], idx[1..]);
      var stride, rest := Product(dims[1..]), Offset(dims[1..], idx[1..]);
      BlockOrder(idx[0], dims[0], stride, rest, 0);
      idx[0] * stride + rest
  }

  /** Product written out for the ranks the tables use. */
  lemma {:induction false} ProductUnrolled(dims: seq<nat>)
    requires 1 <= |dims| <= 6
    ensures |dims| == 1 ==> Product(dims) == dims[0]
    ensures |dims| == 2 ==> Product(dims) == dims[0] * dims[1]
    ensures |dims| == 3 ==> Product(dims) == dims[0] * (dims[1] * dims[2])
    ensures |dims| == 4 ==> Product(dims) == dims[0] * (dims[1] * (dims[2] * dims[3]))
    ensures |dims| == 5 ==> Product(dims) == dims[0] * (dims[1] * (dims[2] * (dims[3] * dims[4])))
    ensures |dims| == 6 ==> Product(dims) == dims[0] * (dims[1] * (dims[2] * (dims[3] * (dims[4] * dims[5]))))
    decreases |dims|
  {
    var tail := dims[1..];
    if |dims| == 1 {
      assert Product(tail) == 1;
    } else {
      ProductUnrolled(tail);
      assert forall k :: 0 <= k < |tail| ==> tail[k] == dims[k + 1];
    }
  }

  /** Strict lexicographic order on index tuples of equal length. */
  predicate LexLess(a: seq<int>, b: seq<int>)
    requires |a| == |b|
    decreases |a|
  {
    |a| > 0 && (a[0] < b[0] || (a[0] == b[0] && LexLess(a[1..], b[1..])))
  }

  /** Positions in a lower slice come before positions in a higher slice. */
  lemma BlockOrder(i: nat, j: nat, stride: nat, ri: nat, rj: nat)
    requires i < j && ri < stride
    ensures i * stride + ri < j * stride + rj
  {
    MulLeft(i + 1, j, stride);
    assert (i + 1) * stride == i * stride + stride;
  }

  /**
   * Row-major position order is lexicographic order of the index tuples:
   * this is the order in which nested loops over the dimensions visit cells.
   */
  lemma {:induction false} OffsetLexOrder(dims: seq<nat>, a: seq<int>, b: seq<int>)
    requires InRange(dims, a) && InRange(dims, b)
    ensures Offset(dims, a) < Offset(dims, b) <==> LexLess(a, b)
    decreases |dims|
  {
    if |dims| > 0 {
      assert InRange(dims[1..], a[1..]) && InRange(dims[1..], b[1..]);
      var stride := Product(dims[1..]);
      var ra, rb := Offset(dims[1..], a[1..]), Offset(dims[1..], b[1..]);
      assert Offset(dims, a) == a[0] * stride + ra;
      assert Offset(dims, b) == b[0] * stride + rb;
      if a[0] < b[0] {
        BlockOrder(a[0], b[0], stride, ra, rb);
      } else if a[0] > b[0] {
        BlockOrder(b[0], a[0], stride, rb, ra);
      } else {
        OffsetLexOrder(dims[1..], a[1..], b[1..]);
      }
    }
  }

  /** Distinct cells never share storage: writing one cell leaves every other cell alone. */
  lemma {:induction false} OffsetInjective(dims: seq<nat>, a: seq<int>, b: seq<int>)
    requires InRange(dims, a) && InRange(dims, b)
    ensures Offset(dims, a) == Offset(dims, b) <==> a == b
    decreases |dims|
  {
    if |dims| > 0 && a != b {
      OffsetLexOrder(dims, a, b);
      OffsetLexOrder(dims, b, a);
      LexTotal(a, b);
    }
  }

  lemma {:induction false} LexTotal(a: seq<int>, b: seq<int>)
    requires |a| == |b| && a != b
    ensures LexLess(a, b) || LexLess(b, a)
    decreases |a|
  {
    if a[0] == b[0] {
      assert a == [a[0]] + a[1..] && b == [b[0]] + b[1..];
      LexTotal(a[1..], b[1..]);
    }
  }

  /**
   * Slice i of the outermost dimension is a block of Product(dims[1..])
   * consecutive cells laid out as an array of shape dims[1..].
   */
  lemma SliceBlock(dims: seq<nat>, idx: seq<int>)
    requires |dims| > 0 && InRange(dims, idx)
    ensures InRange(dims[1..], idx[1..])
    ensures Offset(dims, idx) == idx[0] * Product(dims[1..]) + Offset(dims[1..], idx[1..])
    ensures idx[0] * Product(dims[1..]) <= Offset(dims, idx) < (idx[0] + 1) * Product(dims[1..])
  {
    assert InRange(dims[1..], idx[1..]);
  }

  /** std::fill_n(row, len, VIE_INF) on the row starting at `start`. */
  method FillRow(a: array<int>, start: nat, len: nat)
    requires start + len <= a.Length
    modifies a
    ensures forall k :: start <= k < start + len ==> a[k] == VIE_INF
    ensures forall k :: 0 <= k < a.Length && !(start <= k < start + len) ==> a[k] == old(a[k])
  {
    var k := start;
    while k < start + len
      invariant start <= k <= start + len
      invariant forall m :: start <= m < k ==> a[m] == VIE_INF
      invariant forall m :: 0 <= m < a.Length && !(start <= m < k) ==> a[m] == old(a[m])
    {
      a[k] := VIE_INF;
      k := k + 1;
    }
  }

  /**
   * Fills the block of shape dims starting at `base` slice by slice: a rank-2
   * block row by row (create2DArray), a higher rank block by filling each
   * of its rank-(N-1) slices (create3DArray .. create6DArray).
   */
  method FillSlices(a: array<int>, base: nat, dims: seq<nat>)
    requires |dims| >= 2
    requires base + Product(dims) <= a.Length
    modifies a
    ensures forall k :: base <= k < base + Product(dims) ==> a[k] == VIE_INF
    ensures forall k :: 0 <= k < a.Length && !(base <= k < base + Product(dims)) ==> a[k] == old(a[k])
    decreases |dims|
  {
    var stride := Product(dims[1..]);
    var i, start := 0, base;
    while i < dims[0]
      invariant 0 <= i <= dims[0]
      invariant start == base + i * stride
      invariant forall k :: base <= k < start ==> a[k] == VIE_INF
      invariant forall k :: 0 <= k < a.Length && !(base <= k < base + Product(dims)) ==> a[k] == old(a[k])
    {
      NextSlice(i, dims[0], stride);
      if |dims| == 2 {
        assert stride == dims[1] * Product(dims[2..]) && Product(dims[2..]) == 1;
        FillRow(a, start, stride);
      } else {
        FillSlices(a, start, dims[1..]);
      }
      i, start := i + 1, start + stride;
    }
  }

  /** The slice after slice i still lies inside the d slices of the block. */
  lemma NextSlice(i: nat, d: nat, stride: nat)
    requires i < d
    ensures (i + 1) * stride == i * stride + stride <= d * stride
  {
    MulLeft(i + 1, d, stride);
  }

  /**
   * createNDArray for N = |dims| in 2..6: a fresh array of exactly
   * d1 * ... * dN cells, every one of them VIE_INF.
   */
  method Create(dims: seq<nat>) returns (a: array<int>)
    requires 2 <= |dims| <= 6
    ensures fresh(a) && a.Length == Product(dims)
    ensures forall k :: 0 <= k < a.Length ==> a[k] == VIE_INF
  {
    a := new int[Product(dims)];
    FillSlices(a, 0, dims);
  }
}
