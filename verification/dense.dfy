/**
 * Dense square matrices and the local dense kernel: the reference product
 * (Σ over the inner index), block extraction, and the block
 * multiply-accumulate that np.dot and `+=` perform on one worker.
 */
module Dense {
  import opened Arith

  /** A matrix given by its rows. Integer entries stand for float64. */
  type Matrix = seq<seq<int>>

  /** A b x b sub-matrix held by one worker. */
  type Block = Matrix

  predicate IsSquare(M: Matrix, n: nat) {
    |M| == n && forall i :: 0 <= i < n ==> |M[i]| == n
  }

  /** Σ_{lo <= m < hi} A[i][m] * B[m][j], accumulated in ascending m. */
  function Dot(A: Matrix, B: Matrix, n: nat, i: nat, j: nat, lo: nat, hi: nat): int
    requires IsSquare(A, n) && IsSquare(B, n)
    requires i < n && j < n && lo <= hi <= n
    decreases hi - lo
  {
    if lo == hi then 0 else Dot(A, B, n, i, j, lo, hi - 1) + A[i][hi - 1] * B[hi - 1][j]
  }

  /** The full product A·B of two n x n matrices: the reference result. */
  function MatMul(A: Matrix, B: Matrix, n: nat): (C: Matrix)
    requires IsSquare(A, n) && IsSquare(B, n)
    ensures IsSquare(C, n)
  {
    seq(n, i requires 0 <= i < n => seq(n, j requires 0 <= j < n => Dot(A, B, n, i, j, 0, n)))
  }

  /** The all-zero b x b block (np.zeros). */
  function Zero(b: nat): (Z: Block)
    ensures IsSquare(Z, b)
  {
    seq(b, _ => seq(b, _ => 0))
  }

  /** Element-wise sum of two blocks (the `+=` of numpy). */
  function Add(X: Block, Y: Block, b: nat): (S: Block)
    requires IsSquare(X, b) && IsSquare(Y, b)
    ensures IsSquare(S, b)
  {
    seq(b, x requires 0 <= x < b => seq(b, y requires 0 <= y < b => X[x][y] + Y[x][y]))
  }

  /** A sum of products splits at any middle index. */
  lemma {:induction false} DotSplit(A: Matrix, B: Matrix, n: nat, i: nat, j: nat, lo: nat, mid: nat, hi: nat)
    requires IsSquare(A, n) && IsSquare(B, n)
    requires i < n && j < n && lo <= mid <= hi <= n
    ensures Dot(A, B, n, i, j, lo, hi) == Dot(A, B, n, i, j, lo, mid) + Dot(A, B, n, i, j, mid, hi)
    decreases hi - mid
  {
    if hi > mid {
      DotSplit(A, B, n, i, j, lo, mid, hi - 1);
    }
  }

  /** Block (i, j) of A: rows i*b .. i*b+b-1 and columns j*b .. j*b+b-1. */
  function BlockOf(A: Matrix, n: nat, b: nat, i: nat, j: nat): (X: Block)
    requires IsSquare(A, n) && Off(i, b) + b <= n && Off(j, b) + b <= n
    ensures IsSquare(X, b)
  {
    seq(b, r requires 0 <= r < b => seq(b, c requires 0 <= c < b => A[Off(i, b) + r][Off(j, b) + c]))
  }

  /**
   * One chunk of an inner product of A and B is an inner product of two of
   * their blocks: block (r, t) of A times block (t, c) of B holds, at (x, y),
   * the sum over the indices t*b .. t*b+len-1 of row r*b+x and column c*b+y.
   */
  lemma {:induction false} BlockDot(A: Matrix, B: Matrix, n: nat, q: nat, b: nat, r: nat, t: nat, c: nat,
                                    x: nat, y: nat, len: nat)
    requires IsSquare(A, n) && IsSquare(B, n) && Tiled(n, q, b)
    requires r < q && t < q && c < q && x < b && y < b && len <= b
    ensures Off(r, b) + x < n && Off(c, b) + y < n && Off(t, b) + len <= n
    ensures Dot(BlockOf(A, n, b, r, t), BlockOf(B, n, b, t, c), b, x, y, 0, len)
         == Dot(A, B, n, Off(r, b) + x, Off(c, b) + y, Off(t, b), Off(t, b) + len)
  {
    if len > 0 {
      BlockDot(A, B, n, q, b, r, t, c, x, y, len - 1);
    }
  }

  /** Entry (x, y) of the product of block (r, t) of A and block (t, c) of B. */
  lemma BlockProductAt(A: Matrix, B: Matrix, n: nat, q: nat, b: nat, r: nat, t: nat, c: nat, x: nat, y: nat)
    requires IsSquare(A, n) && IsSquare(B, n) && Tiled(n, q, b)
    requires r < q && t < q && c < q && x < b && y < b
    ensures Off(r, b) + x < n && Off(c, b) + y < n && Off(t, b) + b <= n
    ensures MatMul(BlockOf(A, n, b, r, t), BlockOf(B, n, b, t, c), b)[x][y]
         == Dot(A, B, n, Off(r, b) + x, Off(c, b) + y, Off(t, b), Off(t, b) + b)
  {
    BlockDot(A, B, n, q, b, r, t, c, x, y, b);
  }

  /**
   * Σ_{s' < s} A_{r,t}·B_{t,c} with t = (start + s') mod q, accumulated from
   * the zero block in ascending s': what a worker that owns block (r, c) of
   * the result has summed after s multiply steps that begin at block index
   * `start`.
   */
  function BlockSum(A: Matrix, B: Matrix, n: nat, q: nat, b: nat, r: nat, c: nat, start: nat, s: nat): (S: Block)
    requires IsSquare(A, n) && IsSquare(B, n) && Tiled(n, q, b) && r < q && c < q
    ensures IsSquare(S, b)
  {
    if s == 0 || q == 0 then Zero(b)
    else
      Add(BlockSum(A, B, n, q, b, r, c, start, s - 1),
          MatMul(BlockOf(A, n, b, r, (start + s - 1) % q), BlockOf(B, n, b, (start + s - 1) % q, c), b), b)
  }

  /** A block sum grows by one block product per step, that of inner block index (start + s) mod q. */
  lemma BlockSumNext(A: Matrix, B: Matrix, n: nat, q: nat, b: nat, r: nat, c: nat, start: nat, s: nat, t: nat)
    requires IsSquare(A, n) && IsSquare(B, n) && Tiled(n, q, b) && r < q && c < q && t == (start + s) % q
    ensures t < q
    ensures BlockSum(A, B, n, q, b, r, c, start, s + 1)
         == Add(BlockSum(A, B, n, q, b, r, c, start, s), MatMul(BlockOf(A, n, b, r, t), BlockOf(B, n, b, t, c), b), b)
  {
    assert start + (s + 1) - 1 == start + s;
  }

  /** The inner product over the chunks start .. start+s-1, wrapping around after chunk q-1. */
  function WrappedDot(A: Matrix, B: Matrix, n: nat, q: nat, b: nat, i: nat, j: nat, start: nat, s: nat): int
    requires IsSquare(A, n) && IsSquare(B, n) && Tiled(n, q, b) && i < n && j < n
    requires start < q && s <= q
  {
    if start + s <= q then Dot(A, B, n, i, j, Off(start, b), Off(start + s, b))
    else Dot(A, B, n, i, j, Off(start, b), n) + Dot(A, B, n, i, j, 0, Off(start + s - q, b))
  }

  /** (start + s) mod q for start, s below q. */
  lemma WrapIndex(start: nat, s: nat, q: nat)
    requires start < q && s < q
    ensures (start + s) % q == if start + s < q then start + s else start + s - q
  {
    if start + s < q {
      ModSmall(start + s, q);
    } else {
      DivModUnique(start + s, q, 1, start + s - q);
    }
  }

  /**
   * Entry (x, y) of BlockSum, summed as integers: Σ_{s' < s} of the inner
   * product of row r*b+x and column c*b+y over the chunk (start + s') mod q.
   */
  function BlockSumEntry(A: Matrix, B: Matrix, n: nat, q: nat, b: nat, r: nat, c: nat,
                         start: nat, s: nat, x: nat, y: nat): int
    requires IsSquare(A, n) && IsSquare(B, n) && Tiled(n, q, b) && r < q && c < q && x < b && y < b
  {
    if s == 0 || q == 0 then 0
    else
      BlockSumEntry(A, B, n, q, b, r, c, start, s - 1, x, y)
        + Dot(A, B, n, Off(r, b) + x, Off(c, b) + y, Off((start + s - 1) % q, b), Off((start + s - 1) % q, b) + b)
  }

  lemma {:induction false} BlockSumAt(A: Matrix, B: Matrix, n: nat, q: nat, b: nat, r: nat, c: nat,
                                      start: nat, s: nat, x: nat, y: nat)
    requires IsSquare(A, n) && IsSquare(B, n) && Tiled(n, q, b) && r < q && c < q && x < b && y < b
    ensures BlockSum(A, B, n, q, b, r, c, start, s)[x][y] == BlockSumEntry(A, B, n, q, b, r, c, start, s, x, y)
  {
    if s > 0 && q > 0 {
      BlockSumAt(A, B, n, q, b, r, c, start, s - 1, x, y);
      BlockSumUnfold(A, B, n, q, b, r, c, start, s, x, y, (start + s - 1) % q);
    }
  }

  /** Entry (x, y) of a block sum is the inner product over the chunks it has visited. */
  lemma {:induction false} BlockSumEntryIsDot(A: Matrix, B: Matrix, n: nat, q: nat, b: nat, r: nat, c: nat,
                                              start: nat, s: nat, x: nat, y: nat)
    requires IsSquare(A, n) && IsSquare(B, n) && Tiled(n, q, b) && r < q && c < q
    requires start < q && s <= q && x < b && y < b
    ensures Off(r, b) + x < n && Off(c, b) + y < n
    ensures BlockSumEntry(A, B, n, q, b, r, c, start, s, x, y)
         == WrappedDot(A, B, n, q, b, Off(r, b) + x, Off(c, b) + y, start, s)
  {
    if s > 0 {
      BlockSumEntryIsDot(A, B, n, q, b, r, c, start, s - 1, x, y);
      WrapIndex(start, s - 1, q);
      BlockSumStep(A, B, n, q, b, r, c, start, s, x, y, (start + s - 1) % q);
    }
  }

  /** Entry (x, y) of the last step of a block sum, which multiplies blocks (r, t) and (t, c). */
  lemma BlockSumUnfold(A: Matrix, B: Matrix, n: nat, q: nat, b: nat, r: nat, c: nat,
                       start: nat, s: nat, x: nat, y: nat, t: nat)
    requires IsSquare(A, n) && IsSquare(B, n) && Tiled(n, q, b) && r < q && c < q
    requires 0 < s && x < b && y < b && t == (start + s - 1) % q
    ensures Off(r, b) + x < n && Off(c, b) + y < n && t < q
    ensures BlockSum(A, B, n, q, b, r, c, start, s)[x][y]
         == BlockSum(A, B, n, q, b, r, c, start, s - 1)[x][y]
          + Dot(A, B, n, Off(r, b) + x, Off(c, b) + y, Off(t, b), Off(t, b) + b)
  {
    BlockProductAt(A, B, n, q, b, r, t, c, x, y);
  }

  /** The step of BlockSumAt: adding chunk t extends the visited range by one chunk. */
  lemma BlockSumStep(A: Matrix, B: Matrix, n: nat, q: nat, b: nat, r: nat, c: nat,
                     start: nat, s: nat, x: nat, y: nat, t: nat)
    requires IsSquare(A, n) && IsSquare(B, n) && Tiled(n, q, b) && r < q && c < q
    requires start < q && 0 < s <= q && x < b && y < b
    requires t == if start + s - 1 < q then start + s - 1 else start + s - 1 - q
    ensures Off(r, b) + x < n && Off(c, b) + y < n && t < q
    ensures WrappedDot(A, B, n, q, b, Off(r, b) + x, Off(c, b) + y, start, s)
         == WrappedDot(A, B, n, q, b, Off(r, b) + x, Off(c, b) + y, start, s - 1)
          + Dot(A, B, n, Off(r, b) + x, Off(c, b) + y, Off(t, b), Off(t, b) + b)
  {
    OffStep(t, b);
    OffMonotone(start, q, b);
    if start + s <= q {
      OffMonotone(start, t, b);
      DotSplit(A, B, n, Off(r, b) + x, Off(c, b) + y, Off(start, b), Off(t, b), Off(t + 1, b));
    } else if start + s - 1 == q {
      DotSplit(A, B, n, Off(r, b) + x, Off(c, b) + y, 0, 0, b);
    } else {
      DotSplit(A, B, n, Off(r, b) + x, Off(c, b) + y, 0, Off(t, b), Off(t + 1, b));
    }
  }

  /** The wrapped inner product over all q chunks is the whole inner product, wherever it starts. */
  lemma WrappedDotFull(A: Matrix, B: Matrix, n: nat, q: nat, b: nat, i: nat, j: nat, start: nat)
    requires IsSquare(A, n) && IsSquare(B, n) && Tiled(n, q, b) && i < n && j < n && start < q
    ensures WrappedDot(A, B, n, q, b, i, j, start, q) == Dot(A, B, n, i, j, 0, n)
  {
    if start > 0 {
      OffMonotone(start, q, b);
      DotSplit(A, B, n, i, j, 0, Off(start, b), n);
    }
  }

  lemma BlockSumIsProductAt(A: Matrix, B: Matrix, n: nat, q: nat, b: nat, r: nat, c: nat, start: nat, x: nat, y: nat)
    requires IsSquare(A, n) && IsSquare(B, n) && Tiled(n, q, b) && r < q && c < q && start < q
    requires x < b && y < b
    ensures BlockSum(A, B, n, q, b, r, c, start, q)[x][y] == BlockOf(MatMul(A, B, n), n, b, r, c)[x][y]
  {
    BlockSumAt(A, B, n, q, b, r, c, start, q, x, y);
    BlockSumEntryIsDot(A, B, n, q, b, r, c, start, q, x, y);
    WrappedDotFull(A, B, n, q, b, Off(r, b) + x, Off(c, b) + y, start);
  }

  /**
   * After q steps, whatever block index it starts from, a block sum is block
   * (r, c) of the product A·B: every chunk of the inner index is visited once.
   */
  lemma BlockSumIsProduct(A: Matrix, B: Matrix, n: nat, q: nat, b: nat, r: nat, c: nat, start: nat)
    requires IsSquare(A, n) && IsSquare(B, n) && Tiled(n, q, b) && r < q && c < q && start < q
    ensures BlockSum(A, B, n, q, b, r, c, start, q) == BlockOf(MatMul(A, B, n), n, b, r, c)
  {
    forall x | 0 <= x < b
      ensures BlockSum(A, B, n, q, b, r, c, start, q)[x] == BlockOf(MatMul(A, B, n), n, b, r, c)[x]
    {
      forall y | 0 <= y < b
        ensures BlockSum(A, B, n, q, b, r, c, start, q)[x][y] == BlockOf(MatMul(A, B, n), n, b, r, c)[x][y]
      {
        BlockSumIsProductAt(A, B, n, q, b, r, c, start, x, y);
      }
    }
  }
}
