/**
 * Cannon's algorithm on a q x q periodic grid, run with all workers in step:
 * the root partitions and scatters A and B, the blocks of A are skewed left
 * by their row index and those of B up by their column index, then q rounds
 * of multiply-accumulate each followed by a shift of A left and of B up, and
 * finally the blocks of C are gathered and reassembled on the root.
 */
module Cannon {
  import opened Arith
  import opened Dense
  import opened Grid
  import opened Wrappers

  /**
   * One Sendrecv_replace of the local A blocks towards the left, made by the
   * workers of grid rows from .. q-1: each sends its block to its left
   * neighbour and takes the block of its right neighbour in its place. The
   * rows above `from` keep their blocks.
   */
  function ShiftLeft<T>(g: seq<seq<T>>, q: nat, from: nat): (h: seq<seq<T>>)
    requires IsGrid(g, q)
    ensures IsGrid(h, q)
  {
    seq(q, r requires 0 <= r < q => seq(q, c requires 0 <= c < q =>
      if r < from then g[r][c] else g[r][Right(Coord(r, c), q).col]))
  }

  /**
   * One Sendrecv_replace of the local B blocks upwards, made by the workers
   * of grid columns from .. q-1: each sends its block to the neighbour above
   * and takes the block of the neighbour below in its place.
   */
  function ShiftUp<T>(g: seq<seq<T>>, q: nat, from: nat): (h: seq<seq<T>>)
    requires IsGrid(g, q)
    ensures IsGrid(h, q)
  {
    seq(q, r requires 0 <= r < q => seq(q, c requires 0 <= c < q =>
      if c < from then g[r][c] else g[Down(Coord(r, c), q).row][c]))
  }

  /** In a left shift, the block a taking part worker sends arrives at its left neighbour. */
  lemma ShiftLeftDelivers<T>(g: seq<seq<T>>, q: nat, from: nat, p: Coord)
    requires IsGrid(g, q) && InGrid(p, q) && from <= p.row
    ensures ShiftLeft(g, q, from)[p.row][Left(p, q).col] == g[p.row][p.col]
  {
    NeighboursInverse(p, q);
  }

  /** In an upward shift, the block a taking part worker sends arrives at the neighbour above. */
  lemma ShiftUpDelivers<T>(g: seq<seq<T>>, q: nat, from: nat, p: Coord)
    requires IsGrid(g, q) && InGrid(p, q) && from <= p.col
    ensures ShiftUp(g, q, from)[Up(p, q).row][p.col] == g[p.row][p.col]
  {
    NeighboursInverse(p, q);
  }

  /** local_C += np.dot(local_A, local_B) on every worker. */
  function Accumulate(gC: Tiles, gA: Tiles, gB: Tiles, q: nat, b: nat): (h: Tiles)
    requires IsTiles(gC, q, b) && IsTiles(gA, q, b) && IsTiles(gB, q, b)
    ensures IsTiles(h, q, b)
  {
    seq(q, r requires 0 <= r < q => seq(q, c requires 0 <= c < q =>
      Add(gC[r][c], MatMul(gA[r][c], gB[r][c], b), b)))
  }

  /** The zero block np.zeros on every worker. */
  function ZeroTiles(q: nat, b: nat): (g: Tiles)
    ensures IsTiles(g, q, b)
  {
    seq(q, _ => seq(q, _ => Zero(b)))
  }

  /** How many shifts the workers of grid row (or column) r have made after `step` skew steps. */
  function Taken(r: nat, step: nat): nat {
    if r < step then r else step
  }

  /** Index c moved k places round a ring of q; no move at all leaves it as it is. */
  function Rot(c: nat, k: nat, q: nat): nat
    requires q > 0
  {
    if k == 0 then c else (k + c) % q
  }

  /** One place round the ring after k places is k + 1 places. */
  lemma RotNext(c: nat, k: nat, q: nat)
    requires q > 0 && c < q
    ensures Rot((c + 1) % q, k, q) == Rot(c, k + 1, q)
  {
    if k > 0 {
      ModAddMod(k, c + 1, q);
      assert k + (c + 1) == k + 1 + c;
    }
  }

  /** The A blocks after `step` steps of the skew: row r has moved Taken(r, step) places left. */
  function SkewedRows<T>(g: seq<seq<T>>, q: nat, step: nat): (h: seq<seq<T>>)
    requires IsGrid(g, q)
    ensures IsGrid(h, q)
  {
    seq(q, r requires 0 <= r < q => seq(q, c requires 0 <= c < q => g[r][Rot(c, Taken(r, step), q)]))
  }

  /** The B blocks after `step` steps of the skew: column c has moved Taken(c, step) places up. */
  function SkewedCols<T>(g: seq<seq<T>>, q: nat, step: nat): (h: seq<seq<T>>)
    requires IsGrid(g, q)
    ensures IsGrid(h, q)
  {
    seq(q, r requires 0 <= r < q => seq(q, c requires 0 <= c < q => g[Rot(r, Taken(c, step), q)][c]))
  }

  /** Skew step `step` of A moves exactly the rows below `step` one place further left. */
  lemma SkewRowsStep<T>(g: seq<seq<T>>, q: nat, step: nat)
    requires IsGrid(g, q)
    ensures ShiftLeft(SkewedRows(g, q, step), q, step + 1) == SkewedRows(g, q, step + 1)
  {
    var h0 := SkewedRows(g, q, step);
    var h := ShiftLeft(h0, q, step + 1);
    forall r | 0 <= r < q
      ensures h[r] == SkewedRows(g, q, step + 1)[r]
    {
      forall c | 0 <= c < q
        ensures h[r][c] == SkewedRows(g, q, step + 1)[r][c]
      {
        if step + 1 <= r {
          RotNext(c, step, q);
        }
      }
    }
  }

  /** Skew step `step` of B moves exactly the columns right of `step` one place further up. */
  lemma SkewColsStep<T>(g: seq<seq<T>>, q: nat, step: nat)
    requires IsGrid(g, q)
    ensures ShiftUp(SkewedCols(g, q, step), q, step + 1) == SkewedCols(g, q, step + 1)
  {
    var h0 := SkewedCols(g, q, step);
    var h := ShiftUp(h0, q, step + 1);
    forall r | 0 <= r < q
      ensures h[r] == SkewedCols(g, q, step + 1)[r]
    {
      forall c | 0 <= c < q
        ensures h[r][c] == SkewedCols(g, q, step + 1)[r][c]
      {
        if step + 1 <= c {
          RotNext(r, step, q);
        }
      }
    }
  }

  /** Before the skew nothing has moved. */
  lemma SkewStart<T>(g: seq<seq<T>>, q: nat)
    requires IsGrid(g, q)
    ensures SkewedRows(g, q, 0) == g && SkewedCols(g, q, 0) == g
  {
    assert forall r | 0 <= r < q :: SkewedRows(g, q, 0)[r] == g[r];
    assert forall r | 0 <= r < q :: SkewedCols(g, q, 0)[r] == g[r];
  }

  /**
   * The initial skew of A: the workers of grid row r make r left shifts
   * (step runs over range(coords[0]) on each of them, and step s is made by
   * the rows below s), so that the worker at (r, c) ends up holding the
   * block from column (r + c) mod q.
   */
  method SkewA<T>(gA: seq<seq<T>>, q: nat) returns (h: seq<seq<T>>)
    requires IsGrid(gA, q)
    ensures IsGrid(h, q)
    ensures forall r, c :: 0 <= r < q && 0 <= c < q ==> h[r][c] == gA[r][(r + c) % q]
  {
    SkewStart(gA, q);
    h := gA;
    for step := 0 to q
      invariant h == SkewedRows(gA, q, step)
    {
      SkewRowsStep(gA, q, step);
      h := ShiftLeft(h, q, step + 1);
    }
    forall c | 0 <= c < q {
      ModSmall(c, q);
    }
  }

  /**
   * The initial skew of B: the workers of grid column c make c upward
   * shifts, so that the worker at (r, c) ends up holding the block from row
   * (r + c) mod q.
   */
  method SkewB<T>(gB: seq<seq<T>>, q: nat) returns (h: seq<seq<T>>)
    requires IsGrid(gB, q)
    ensures IsGrid(h, q)
    ensures forall r, c :: 0 <= r < q && 0 <= c < q ==> h[r][c] == gB[(c + r) % q][c]
  {
    SkewStart(gB, q);
    h := gB;
    for step := 0 to q
      invariant h == SkewedCols(gB, q, step)
    {
      SkewColsStep(gB, q, step);
      h := ShiftUp(h, q, step + 1);
    }
    forall r | 0 <= r < q {
      ModSmall(r, q);
    }
  }

  /** x mod q: an index taken round the ring of q workers. */
  function Wrap(x: nat, q: nat): (t: nat)
    requires q > 0
    ensures t < q && t == x % q
  {
    x % q
  }

  /** The block index the worker at (r, c) multiplies in round s, counted from its starting index. */
  lemma RoundIndex(r: nat, c: nat, s: nat, q: nat)
    requires q > 0
    ensures (Wrap(r + c, q) + s) % q == Wrap(r + c + s, q)
  {
    ModAddMod(s, r + c, q);
    assert (r + c) % q + s == s + (r + c) % q;
    assert s + (r + c) == r + c + s;
  }

  /** Taking the block of the right neighbour advances the inner index by one. */
  lemma LeftIndex(r: nat, c: nat, s: nat, q: nat)
    requires q > 0
    ensures Wrap(r + (c + 1) % q + s, q) == Wrap(r + c + (s + 1), q)
  {
    ModAddMod(r + s, c + 1, q);
    assert r + (c + 1) % q + s == r + s + (c + 1) % q;
    assert r + s + (c + 1) == r + c + (s + 1);
  }

  /** Taking the block of the neighbour below advances the inner index by one. */
  lemma UpIndex(r: nat, c: nat, s: nat, q: nat)
    requires q > 0
    ensures Wrap((r + 1) % q + c + s, q) == Wrap(r + c + (s + 1), q)
  {
    ModAddMod(c + s, r + 1, q);
    assert (r + 1) % q + c + s == c + s + (r + 1) % q;
    assert c + s + (r + 1) == r + c + (s + 1);
  }

  /** The A blocks at the start of round s: the worker at (r, c) holds A_{r, (r+c+s) mod q}. */
  function RoundA(A: Matrix, n: nat, q: nat, b: nat, s: nat): (g: Tiles)
    requires IsSquare(A, n) && Tiled(n, q, b)
    ensures IsTiles(g, q, b)
  {
    var T := Tiling(A, n, q, b);
    var g := seq(q, r requires 0 <= r < q => seq(q, c requires 0 <= c < q => T[r][Wrap(r + c + s, q)]));
    assert forall r, c :: 0 <= r < q && 0 <= c < q ==> g[r][c] == T[r][Wrap(r + c + s, q)];
    g
  }

  /** The B blocks at the start of round s: the worker at (r, c) holds B_{(r+c+s) mod q, c}. */
  function RoundB(B: Matrix, n: nat, q: nat, b: nat, s: nat): (g: Tiles)
    requires IsSquare(B, n) && Tiled(n, q, b)
    ensures IsTiles(g, q, b)
  {
    var T := Tiling(B, n, q, b);
    var g := seq(q, r requires 0 <= r < q => seq(q, c requires 0 <= c < q => T[Wrap(r + c + s, q)][c]));
    assert forall r, c :: 0 <= r < q && 0 <= c < q ==> g[r][c] == T[Wrap(r + c + s, q)][c];
    g
  }

  /** The C blocks after s rounds: the worker at (r, c) has summed s products, from index (r + c) mod q on. */
  function RoundC(A: Matrix, B: Matrix, n: nat, q: nat, b: nat, s: nat): (g: Tiles)
    requires IsSquare(A, n) && IsSquare(B, n) && Tiled(n, q, b)
    ensures IsTiles(g, q, b)
  {
    var g := seq(q, r requires 0 <= r < q => seq(q, c requires 0 <= c < q => BlockSum(A, B, n, q, b, r, c, Wrap(r + c, q), s)));
    assert forall r, c :: 0 <= r < q && 0 <= c < q ==> g[r][c] == BlockSum(A, B, n, q, b, r, c, Wrap(r + c, q), s);
    g
  }

  /** Shifting the A blocks left takes every worker to the next inner index. */
  lemma ShiftLeftRound(A: Matrix, n: nat, q: nat, b: nat, s: nat)
    requires IsSquare(A, n) && Tiled(n, q, b)
    ensures ShiftLeft(RoundA(A, n, q, b, s), q, 0) == RoundA(A, n, q, b, s + 1)
  {
    var g := ShiftLeft(RoundA(A, n, q, b, s), q, 0);
    var h := RoundA(A, n, q, b, s + 1);
    forall r | 0 <= r < q
      ensures g[r] == h[r]
    {
      forall c | 0 <= c < q
        ensures g[r][c] == h[r][c]
      {
        ShiftLeftRoundAt(A, n, q, b, s, r, c);
      }
    }
  }

  /** ShiftLeftRound at the worker (r, c). */
  lemma ShiftLeftRoundAt(A: Matrix, n: nat, q: nat, b: nat, s: nat, r: nat, c: nat)
    requires IsSquare(A, n) && Tiled(n, q, b) && r < q && c < q
    ensures ShiftLeft(RoundA(A, n, q, b, s), q, 0)[r][c] == RoundA(A, n, q, b, s + 1)[r][c]
  {
    var T := Tiling(A, n, q, b);
    var c1 := Right(Coord(r, c), q).col;
    assert ShiftLeft(RoundA(A, n, q, b, s), q, 0)[r][c] == RoundA(A, n, q, b, s)[r][c1];
    assert RoundA(A, n, q, b, s)[r][c1] == T[r][Wrap(r + c1 + s, q)];
    LeftIndex(r, c, s, q);
  }

  /** Shifting the B blocks up takes every worker to the next inner index. */
  lemma ShiftUpRound(B: Matrix, n: nat, q: nat, b: nat, s: nat)
    requires IsSquare(B, n) && Tiled(n, q, b)
    ensures ShiftUp(RoundB(B, n, q, b, s), q, 0) == RoundB(B, n, q, b, s + 1)
  {
    var g := ShiftUp(RoundB(B, n, q, b, s), q, 0);
    var h := RoundB(B, n, q, b, s + 1);
    forall r | 0 <= r < q
      ensures g[r] == h[r]
    {
      forall c | 0 <= c < q
        ensures g[r][c] == h[r][c]
      {
        ShiftUpRoundAt(B, n, q, b, s, r, c);
      }
    }
  }

  /** ShiftUpRound at the worker (r, c). */
  lemma ShiftUpRoundAt(B: Matrix, n: nat, q: nat, b: nat, s: nat, r: nat, c: nat)
    requires IsSquare(B, n) && Tiled(n, q, b) && r < q && c < q
    ensures ShiftUp(RoundB(B, n, q, b, s), q, 0)[r][c] == RoundB(B, n, q, b, s + 1)[r][c]
  {
    var T := Tiling(B, n, q, b);
    var r1 := Down(Coord(r, c), q).row;
    assert ShiftUp(RoundB(B, n, q, b, s), q, 0)[r][c] == RoundB(B, n, q, b, s)[r1][c];
    assert RoundB(B, n, q, b, s)[r1][c] == T[Wrap(r1 + c + s, q)][c];
    UpIndex(r, c, s, q);
  }

  /** In round s every worker multiplies A_{r,t} by B_{t,c} for the same t, the next term of its block sum. */
  lemma AccumulateRound(A: Matrix, B: Matrix, n: nat, q: nat, b: nat, s: nat)
    requires IsSquare(A, n) && IsSquare(B, n) && Tiled(n, q, b)
    ensures Accumulate(RoundC(A, B, n, q, b, s), RoundA(A, n, q, b, s), RoundB(B, n, q, b, s), q, b)
            == RoundC(A, B, n, q, b, s + 1)
  {
    var g := Accumulate(RoundC(A, B, n, q, b, s), RoundA(A, n, q, b, s), RoundB(B, n, q, b, s), q, b);
    forall r | 0 <= r < q
      ensures g[r] == RoundC(A, B, n, q, b, s + 1)[r]
    {
      forall c | 0 <= c < q
        ensures g[r][c] == RoundC(A, B, n, q, b, s + 1)[r][c]
      {
        RoundIndex(r, c, s, q);
        BlockSumNext(A, B, n, q, b, r, c, Wrap(r + c, q), s, Wrap(r + c + s, q));
      }
    }
  }

  /** Before the first round every local C is the zero block. */
  lemma RoundCStart(A: Matrix, B: Matrix, n: nat, q: nat, b: nat)
    requires IsSquare(A, n) && IsSquare(B, n) && Tiled(n, q, b)
    ensures RoundC(A, B, n, q, b, 0) == ZeroTiles(q, b)
  {
    forall r | 0 <= r < q
      ensures RoundC(A, B, n, q, b, 0)[r] == ZeroTiles(q, b)[r]
    {
      forall c | 0 <= c < q
        ensures RoundC(A, B, n, q, b, 0)[r][c] == ZeroTiles(q, b)[r][c]
      {
        assert RoundC(A, B, n, q, b, 0)[r][c] == BlockSum(A, B, n, q, b, r, c, Wrap(r + c, q), 0);
        assert BlockSum(A, B, n, q, b, r, c, Wrap(r + c, q), 0) == Zero(b);
      }
    }
  }

  /** After q rounds the worker at (r, c) holds block (r, c) of A·B. */
  lemma RoundCFinal(A: Matrix, B: Matrix, n: nat, q: nat, b: nat)
    requires IsSquare(A, n) && IsSquare(B, n) && Tiled(n, q, b)
    ensures RoundC(A, B, n, q, b, q) == Tiling(MatMul(A, B, n), n, q, b)
  {
    forall r | 0 <= r < q
      ensures RoundC(A, B, n, q, b, q)[r] == Tiling(MatMul(A, B, n), n, q, b)[r]
    {
      forall c | 0 <= c < q
        ensures RoundC(A, B, n, q, b, q)[r][c] == Tiling(MatMul(A, B, n), n, q, b)[r][c]
      {
        BlockSumIsProduct(A, B, n, q, b, r, c, Wrap(r + c, q));
      }
    }
  }

  /** The skewed blocks of A are those of round 0. */
  lemma SkewedIsRoundA(A: Matrix, n: nat, q: nat, b: nat, h: Tiles)
    requires IsSquare(A, n) && Tiled(n, q, b) && IsGrid(h, q)
    requires forall r, c :: 0 <= r < q && 0 <= c < q ==> h[r][c] == Tiling(A, n, q, b)[r][(r + c) % q]
    ensures h == RoundA(A, n, q, b, 0)
  {
    forall r | 0 <= r < q
      ensures h[r] == RoundA(A, n, q, b, 0)[r]
    {
      forall c | 0 <= c < q
        ensures h[r][c] == RoundA(A, n, q, b, 0)[r][c]
      {
        assert Wrap(r + c + 0, q) == (r + c) % q;
      }
    }
  }

  /** The skewed blocks of B are those of round 0. */
  lemma SkewedIsRoundB(B: Matrix, n: nat, q: nat, b: nat, h: Tiles)
    requires IsSquare(B, n) && Tiled(n, q, b) && IsGrid(h, q)
    requires forall r, c :: 0 <= r < q && 0 <= c < q ==> h[r][c] == Tiling(B, n, q, b)[(c + r) % q][c]
    ensures h == RoundB(B, n, q, b, 0)
  {
    forall r | 0 <= r < q
      ensures h[r] == RoundB(B, n, q, b, 0)[r]
    {
      forall c | 0 <= c < q
        ensures h[r][c] == RoundB(B, n, q, b, 0)[r][c]
      {
        assert Wrap(r + c + 0, q) == (c + r) % q;
      }
    }
  }

  /**
   * The q rounds of multiply-and-shift: every worker adds the product of
   * its A and B blocks to its C block, then passes A to the left and B up.
   */
  method Rounds(gA: Tiles, gB: Tiles, ghost A: Matrix, ghost B: Matrix, n: nat, q: nat, b: nat) returns (gC: Tiles)
    requires IsSquare(A, n) && IsSquare(B, n) && Tiled(n, q, b)
    requires gA == RoundA(A, n, q, b, 0) && gB == RoundB(B, n, q, b, 0)
    ensures gC == Tiling(MatMul(A, B, n), n, q, b)
  {
    var a, bb := gA, gB;
    RoundCStart(A, B, n, q, b);
    gC := ZeroTiles(q, b);
    for s := 0 to q
      invariant a == RoundA(A, n, q, b, s) && bb == RoundB(B, n, q, b, s)
      invariant gC == RoundC(A, B, n, q, b, s)
    {
      AccumulateRound(A, B, n, q, b, s);
      ShiftLeftRound(A, n, q, b, s);
      ShiftUpRound(B, n, q, b, s);
      gC := Accumulate(gC, a, bb, q, b);
      a := ShiftLeft(a, q, 0);
      bb := ShiftUp(bb, q, 0);
    }
    RoundCFinal(A, B, n, q, b);
  }

  /**
   * cannon_matrix_multiply on a world of `size` processes: the two asserts,
   * partition and scatter of A and B, the skew, the q rounds, the gather
   * of the C blocks and their reassembly. The root gets A·B, every other
   * rank None.
   */
  method CannonMultiply(A: Matrix, B: Matrix, n: nat, size: nat) returns (res: Result<seq<Option<array2<int>>>, GridError>)
    requires size >= 1 && IsSquare(A, n) && IsSquare(B, n)
    ensures CheckShape(size, n).Err? ==> res == Err(CheckShape(size, n).error)
    ensures CheckShape(size, n).Ok? ==> res.Ok? && |res.value| == size
    ensures res.Ok? ==> res.value[0].Some? && fresh(res.value[0].value) && Holds(res.value[0].value, MatMul(A, B, n), n)
    ensures res.Ok? ==> forall w :: 1 <= w < |res.value| ==> res.value[w] == None
  {
    var shape := CheckShape(size, n);
    if shape.Err? {
      return Err(shape.error);
    }
    var q, b := shape.value.q, shape.value.b;
    var aBlocks := Partition(A, n, q, b);
    var bBlocks := Partition(B, n, q, b);
    var gA := Scatter(aBlocks, q, b);
    var gB := Scatter(bBlocks, q, b);
    var skA := SkewA(gA, q);
    var skB := SkewB(gB, q);
    SkewedIsRoundA(A, n, q, b, skA);
    SkewedIsRoundB(B, n, q, b, skB);
    var gC := Rounds(skA, skB, A, B, n, q, b);
    var collected := Gather(gC, q, b);
    var result := Reassemble(collected, n, q, b);
    AssembleTiling(MatMul(A, B, n), n, q, b);
    res := Ok(RootOnly(result, size));
  }
}
