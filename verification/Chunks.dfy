/** How push_parallel and run_parallel of benchmarks/streaming_tasks.cpp cut a span of n elements into pieces. */
module Chunks {
  function Lo(n: nat, pieces: nat, k: nat): nat
    requires pieces > 0
  {
    k * (n / pieces)
  }

  /** The last piece takes the remainder. */
  function Hi(n: nat, pieces: nat, k: nat): nat
    requires pieces > 0
  {
    if k == pieces - 1 then n else (k + 1) * (n / pieces)
  }

  lemma MulMonotone(a: nat, b: nat, c: nat)
    requires a <= b
    ensures a * c <= b * c
  {
  }

  lemma PieceBounds(n: nat, pieces: nat, k: nat)
    requires k < pieces
    ensures Lo(n, pieces, k) <= Hi(n, pieces, k) <= n
    ensures k + 1 < pieces ==> Hi(n, pieces, k) == Lo(n, pieces, k + 1)
    ensures k + 1 == pieces ==> Hi(n, pieces, k) == n
    ensures k == 0 ==> Lo(n, pieces, k) == 0
  {
    var stride := n / pieces;
    assert pieces * stride <= n;
    MulMonotone(k, k + 1, stride);
    MulMonotone(k + 1, pieces, stride);
  }

  /** The piece that has element x. */
  function PieceOf(n: nat, pieces: nat, x: nat): (k: nat)
    requires pieces > 0
    ensures k < pieces
  {
    var stride := n / pieces;
    if stride == 0 || x / stride >= pieces then pieces - 1 else x / stride
  }

  /** q = x / stride exactly when x lies in the q-th stretch. */
  lemma Stretch(x: nat, stride: nat, k: nat)
    requires stride > 0
    ensures k * stride <= x <==> k <= x / stride
  {
    var q := x / stride;
    assert q * stride <= x < (q + 1) * stride;
    if k <= q { MulMonotone(k, q, stride); } else { MulMonotone(q + 1, k, stride); }
  }

  /** The pieces tile the span: each element is in exactly one of them. */
  lemma PiecesTile(n: nat, pieces: nat, x: nat, k: nat)
    requires x < n && k < pieces
    ensures Lo(n, pieces, k) <= x < Hi(n, pieces, k) <==> k == PieceOf(n, pieces, x)
  {
    var stride := n / pieces;
    if stride > 0 {
      Stretch(x, stride, k);
      Stretch(x, stride, k + 1);
    }
  }

  lemma SpansApart(n: nat, pieces: nat, k: nat, j: nat)
    requires k < pieces && j < pieces && k != j
    ensures Hi(n, pieces, k) <= Lo(n, pieces, j) || Hi(n, pieces, j) <= Lo(n, pieces, k)
  {
    if k < j { MulMonotone(k + 1, j, n / pieces); } else { MulMonotone(j + 1, k, n / pieces); }
  }
}
