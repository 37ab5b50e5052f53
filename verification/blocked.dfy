/**
 * The blocked (SUMMA-like) multiply: after the root partitions and scatters
 * A and B, the grid is split into row and column sub-communicators, every
 * worker all-gathers the A blocks of its grid row and the B blocks of its
 * grid column, sums the q block products locally, and the root gathers and
 * reassembles the C blocks.
 */
module Blocked {
  import opened Arith
  import opened Dense
  import opened Grid
  import opened Wrappers

  /** Every rank of grid row r sits at (r, k) for its own k. */
  lemma RowRanks(q: nat, r: nat)
    requires r < q
    ensures forall k :: 0 <= k < q ==> CartCoords(CartRank(Coord(r, k), q), q) == Coord(r, k)
  {
    forall k | 0 <= k < q
      ensures CartCoords(CartRank(Coord(r, k), q), q) == Coord(r, k)
    {
      CoordsOfRank(Coord(r, k), q);
    }
  }

  /** Every rank of grid column c sits at (k, c) for its own k. */
  lemma ColRanks(q: nat, c: nat)
    requires c < q
    ensures forall k :: 0 <= k < q ==> CartCoords(CartRank(Coord(k, c), q), q) == Coord(k, c)
  {
    forall k | 0 <= k < q
      ensures CartCoords(CartRank(Coord(k, c), q), q) == Coord(k, c)
    {
      CoordsOfRank(Coord(k, c), q);
    }
  }

  /**
   * Split(color=coords[0], key=coords[1]): the row communicator of grid row
   * r lists the ranks of that row, the member of key k (its rank within the
   * communicator) being the worker in column k.
   */
  function RowComm(q: nat, r: nat): (m: seq<nat>)
    requires r < q
    ensures |m| == q
    ensures forall k :: 0 <= k < q ==> m[k] < Off(q, q) && CartCoords(m[k], q) == Coord(r, k)
  {
    RowRanks(q, r);
    seq(q, k requires 0 <= k < q => CartRank(Coord(r, k), q))
  }

  /**
   * Split(color=coords[1], key=coords[0]): the column communicator of grid
   * column c, the member of key k being the worker in row k.
   */
  function ColComm(q: nat, c: nat): (m: seq<nat>)
    requires c < q
    ensures |m| == q
    ensures forall k :: 0 <= k < q ==> m[k] < Off(q, q) && CartCoords(m[k], q) == Coord(k, c)
  {
    ColRanks(q, c);
    seq(q, k requires 0 <= k < q => CartRank(Coord(k, c), q))
  }

  /** A row communicator holds exactly the ranks whose colour, their grid row, is r. */
  lemma RowCommMembers(q: nat, r: nat, w: nat)
    requires r < q && w < Off(q, q)
    ensures w in RowComm(q, r) <==> CartCoords(w, q).row == r
  {
    var m := RowComm(q, r);
    var p := CartCoords(w, q);
    if p.row == r {
      assert m[p.col] == w by {
        CoordsOfRank(Coord(r, p.col), q);
      }
    }
  }

  /** A column communicator holds exactly the ranks whose colour, their grid column, is c. */
  lemma ColCommMembers(q: nat, c: nat, w: nat)
    requires c < q && w < Off(q, q)
    ensures w in ColComm(q, c) <==> CartCoords(w, q).col == c
  {
    var m := ColComm(q, c);
    var p := CartCoords(w, q);
    if p.col == c {
      assert m[p.row] == w by {
        CoordsOfRank(Coord(p.row, c), q);
      }
    }
  }

  /**
   * Allgather over a communicator: every member receives the local blocks
   * of all members, entry k being the block of the member of key k.
   */
  function Allgather(locals: seq<Block>, members: seq<nat>): (got: seq<Block>)
    requires forall k :: 0 <= k < |members| ==> members[k] < |locals|
    ensures |got| == |members|
  {
    seq(|members|, k requires 0 <= k < |members| => locals[members[k]])
  }

  /**
   * The row of A blocks a worker of grid row r all-gathers: entry k is
   * block (r, k) of A.
   */
  lemma RowGathered(A: Matrix, n: nat, q: nat, b: nat, aBlocks: seq<Block>, r: nat)
    requires IsSquare(A, n) && Tiled(n, q, b) && r < q
    requires aBlocks == Gather(Tiling(A, n, q, b), q, b)
    ensures forall k :: 0 <= k < q ==> Allgather(aBlocks, RowComm(q, r))[k] == BlockOf(A, n, b, r, k)
  {
  }

  /**
   * The column of B blocks a worker of grid column c all-gathers: entry k
   * is block (k, c) of B.
   */
  lemma ColGathered(B: Matrix, n: nat, q: nat, b: nat, bBlocks: seq<Block>, c: nat)
    requires IsSquare(B, n) && Tiled(n, q, b) && c < q
    requires bBlocks == Gather(Tiling(B, n, q, b), q, b)
    ensures forall k :: 0 <= k < q ==> Allgather(bBlocks, ColComm(q, c))[k] == BlockOf(B, n, b, k, c)
  {
  }

  /**
   * The local loop of the worker at (r, c): local_C starts at zero and
   * gets np.dot(row_A_blocks[k], col_B_blocks[k]) added for k = 0 .. q-1.
   * Given the blocks of its row of A and its column of B, it computes
   * block (r, c) of A·B.
   */
  method LocalProduct(rowA: seq<Block>, colB: seq<Block>, ghost A: Matrix, ghost B: Matrix,
                      n: nat, q: nat, b: nat, r: nat, c: nat) returns (localC: Block)
    requires IsSquare(A, n) && IsSquare(B, n) && Tiled(n, q, b) && r < q && c < q
    requires |rowA| == q && forall k :: 0 <= k < q ==> rowA[k] == BlockOf(A, n, b, r, k)
    requires |colB| == q && forall k :: 0 <= k < q ==> colB[k] == BlockOf(B, n, b, k, c)
    ensures localC == BlockOf(MatMul(A, B, n), n, b, r, c)
  {
    localC := Zero(b);
    for k := 0 to q
      invariant localC == BlockSum(A, B, n, q, b, r, c, 0, k)
    {
      ModSmall(k, q);
      BlockSumNext(A, B, n, q, b, r, c, 0, k, k);
      localC := Add(localC, MatMul(rowA[k], colB[k], b), b);
    }
    BlockSumIsProduct(A, B, n, q, b, r, c, 0);
  }

  /**
   * blocked_matrix_multiply on a world of `size` processes: the two asserts
   * and the partition, then on every rank in turn the row and column
   * all-gathers and the local loop, whose local_C the root gathers by rank
   * and reassembles. The root gets A·B, every other rank None. The scatter
   * is not a separate step: each all-gather reads the root's rank-indexed
   * buffer directly, which gives the blocks the scatter would have handed
   * out (ScatterGather).
   */
  method BlockedMultiply(A: Matrix, B: Matrix, n: nat, size: nat) returns (res: Result<seq<Option<array2<int>>>, GridError>)
    requires size >= 1 && IsSquare(A, n) && IsSquare(B, n)
    ensures CheckShape(size, n).Err? ==> res == Err(CheckShape(size, n).error)
    ensures CheckShape(size, n).Ok? ==> res.Ok? && |res.value| == size
    ensures res.Ok? ==> res.value[0].Some? && fresh(res.value[0].value) && Holds(res.value[0].value, MatMul(A, B, n), n)
    ensures res.Ok? ==> forall w :: 1 <= w < |res.value| ==> res.value[w] == None
  {
    var shape := CheckShape(size, n);
    if shape.Err? {
      return Err(shape.error);
    }
    var q, b := shape.value.q, shape.value.b;
    var aBlocks := Partition(A, n, q, b);
    var bBlocks := Partition(B, n, q, b);
    ghost var C := MatMul(A, B, n);
    var collected: seq<Block> := [];
    for w := 0 to Off(q, q)
      invariant |collected| == w
      invariant forall v :: 0 <= v < w ==> collected[v] == Gather(Tiling(C, n, q, b), q, b)[v]
    {
      var p := CartCoords(w, q);
      RowGathered(A, n, q, b, aBlocks, p.row);
      ColGathered(B, n, q, b, bBlocks, p.col);
      var rowA := Allgather(aBlocks, RowComm(q, p.row));
      var colB := Allgather(bBlocks, ColComm(q, p.col));
      var localC := LocalProduct(rowA, colB, A, B, n, q, b, p.row, p.col);
      collected := collected + [localC];
    }
    var result := Reassemble(collected, n, q, b);
    AssembleTiling(C, n, q, b);
    res := Ok(RootOnly(result, size));
  }
}
