/**
 * The q x q process grid shared by the blocked and the Cannon multiply: the
 * checks on the world size and the matrix order, Cartesian ranks and
 * coordinates, the periodic neighbours, the partition of a matrix into
 * blocks on the root, the scatter and gather of one block per rank, and the
 * reassembly of the gathered blocks into the result matrix.
 */
module Grid {
  import opened Arith
  import opened Dense
  import opened Wrappers

  /** Why a multiply stops before any communication (its two asserts). */
  datatype GridError = NotPerfectSquare(size: nat) | NotDivisible(n: nat, q: nat)

  /** The side q of the process grid and the side b of one block. */
  datatype Shape = Shape(q: nat, b: nat)

  /** The integer square root: int(np.sqrt(size)) taken exactly. */
  function IntSqrt(n: nat): (r: nat)
    ensures r * r <= n < (r + 1) * (r + 1)
  {
    if n == 0 then 0
    else
      var r := IntSqrt(n - 1);
      if (r + 1) * (r + 1) <= n then
        assert (r + 1) * (r + 1) < (r + 2) * (r + 2) by { MulMonotone(r + 2, r + 1, r + 1); }
        r + 1
      else r
  }

  lemma SquareMonotone(a: nat, c: nat)
    requires a >= c
    ensures a * a >= c * c
  {
    MulMonotone(a, c, a);
    MulMonotone(a, c, c);
  }

  /** The square root of a perfect square p * p is p. */
  lemma IntSqrtOfSquare(p: nat)
    ensures IntSqrt(p * p) == p
  {
    var r := IntSqrt(p * p);
    assert (p + 1) * (p + 1) == p * p + 2 * p + 1;
    if r > p {
      SquareMonotone(r, p + 1);
    } else if r < p {
      SquareMonotone(p, r + 1);
    }
  }

  /**
   * The two asserts at the top of both multiplies: the world size must be
   * the square of q = int(sqrt(size)), and q must divide n; the block side is
   * then n // q.
   */
  function CheckShape(size: nat, n: nat): (res: Result<Shape, GridError>)
    requires size >= 1
    ensures res.Ok? <==> IntSqrt(size) * IntSqrt(size) == size && n % IntSqrt(size) == 0
    ensures res.Ok? ==> res.value.q >= 1 && res.value.q * res.value.q == size
    ensures res.Ok? ==> Tiled(n, res.value.q, res.value.b) && Tiled(size, res.value.q, res.value.q)
    ensures res.Err? ==> res.error == if IntSqrt(size) * IntSqrt(size) != size then NotPerfectSquare(size)
                                      else NotDivisible(n, IntSqrt(size))
  {
    var q := IntSqrt(size);
    if q * q != size then Err(NotPerfectSquare(size))
    else if n % q != 0 then Err(NotDivisible(n, q))
    else
      TiledOff(q, n / q);
      TiledOff(q, q);
      Ok(Shape(q, n / q))
  }

  /** Every q x q world and every order n = q * b pass both asserts, with that shape. */
  lemma CheckShapeAccepts(q: nat, b: nat)
    requires q >= 1
    ensures CheckShape(q * q, Off(q, b)) == Ok(Shape(q, b))
  {
    IntSqrtOfSquare(q);
    DivModUnique(Off(q, b), q, b, 0);
  }

  /** A grid position (coords[0], coords[1]). */
  datatype Coord = Coord(row: nat, col: nat)

  predicate InGrid(p: Coord, q: nat) {
    p.row < q && p.col < q
  }

  /** Get_cart_rank: the row-major rank of a grid position. */
  function CartRank(p: Coord, q: nat): (w: nat)
    requires InGrid(p, q)
    ensures w < Off(q, q)
  {
    OffFits(p.row, q, q);
    Off(p.row, q) + p.col
  }

  /** Get_coords: the grid position of a rank. */
  function CartCoords(w: nat, q: nat): (p: Coord)
    requires w < Off(q, q)
    ensures InGrid(p, q) && CartRank(p, q) == w
  {
    BlockIndex(w, q, q);
    Coord(w / q, w % q)
  }

  /** Get_coords undoes Get_cart_rank. */
  lemma CoordsOfRank(p: Coord, q: nat)
    requires InGrid(p, q)
    ensures CartCoords(CartRank(p, q), q) == p
  {
    InBlock(p.row, q, p.col);
  }

  /** The periodic neighbour to the left: (row, (col - 1) % q). */
  function Left(p: Coord, q: nat): (l: Coord)
    requires InGrid(p, q)
    ensures InGrid(l, q) && l.row == p.row
  {
    Coord(p.row, (p.col - 1) % q)
  }

  /** The periodic neighbour to the right: (row, (col + 1) % q). */
  function Right(p: Coord, q: nat): (r: Coord)
    requires InGrid(p, q)
    ensures InGrid(r, q) && r.row == p.row
  {
    Coord(p.row, (p.col + 1) % q)
  }

  /** The periodic neighbour above: ((row - 1) % q, col). */
  function Up(p: Coord, q: nat): (u: Coord)
    requires InGrid(p, q)
    ensures InGrid(u, q) && u.col == p.col
  {
    Coord((p.row - 1) % q, p.col)
  }

  /** The periodic neighbour below: ((row + 1) % q, col). */
  function Down(p: Coord, q: nat): (d: Coord)
    requires InGrid(p, q)
    ensures InGrid(d, q) && d.col == p.col
  {
    Coord((p.row + 1) % q, p.col)
  }

  lemma StepBack(x: nat, q: nat)
    requires x < q
    ensures ((x - 1) % q + 1) % q == x && ((x + 1) % q - 1) % q == x
  {
    ModAddMod(1, x - 1, q);
    ModSmall(x, q);
    ModAddMod(-1, x + 1, q);
  }

  /**
   * Left and Right are inverse, as are Up and Down: in every
   * Sendrecv_replace the block a worker receives from its source is the one
   * that source sent to it as its destination.
   */
  lemma NeighboursInverse(p: Coord, q: nat)
    requires InGrid(p, q)
    ensures Right(Left(p, q), q) == p && Left(Right(p, q), q) == p
    ensures Down(Up(p, q), q) == p && Up(Down(p, q), q) == p
  {
    StepBack(p.col, q);
    StepBack(p.row, q);
  }

  /** One block per grid position, indexed [row][col]: the local blocks of all workers. */
  type Tiles = seq<seq<Block>>

  /** A q x q grid holding one value per worker, indexed [row][col]. */
  predicate IsGrid<T>(g: seq<seq<T>>, q: nat) {
    |g| == q && forall r :: 0 <= r < q ==> |g[r]| == q
  }

  predicate IsTiles(g: Tiles, q: nat, b: nat) {
    IsGrid(g, q) && forall r, c :: 0 <= r < q && 0 <= c < q ==> IsSquare(g[r][c], b)
  }

  /** The blocks of M laid out on the grid: position (i, j) holds block (i, j). */
  function Tiling(M: Matrix, n: nat, q: nat, b: nat): (g: Tiles)
    requires IsSquare(M, n) && Tiled(n, q, b)
    ensures IsTiles(g, q, b)
  {
    seq(q, i requires 0 <= i < q => seq(q, j requires 0 <= j < q => BlockOf(M, n, b, i, j)))
  }

  /** A buffer on the root holding one b x b block per rank (A_blocks, collected_C). */
  predicate IsRankBuffer(buf: seq<Block>, q: nat, b: nat) {
    |buf| == Off(q, q) && forall w :: 0 <= w < |buf| ==> IsSquare(buf[w], b)
  }

  /** Scatter from the root: the worker at grid position p receives entry CartRank(p) of the buffer. */
  function Scatter(buf: seq<Block>, q: nat, b: nat): (g: Tiles)
    requires IsRankBuffer(buf, q, b)
    ensures IsTiles(g, q, b)
  {
    seq(q, r requires 0 <= r < q => seq(q, c requires 0 <= c < q => buf[CartRank(Coord(r, c), q)]))
  }

  /** Gather to the root: entry w of the root's buffer is the block of the worker of rank w. */
  function Gather(g: Tiles, q: nat, b: nat): (buf: seq<Block>)
    requires IsTiles(g, q, b)
    ensures IsRankBuffer(buf, q, b)
  {
    seq(Off(q, q), w requires 0 <= w < Off(q, q) => g[CartCoords(w, q).row][CartCoords(w, q).col])
  }

  /** Gathering what was scattered restores the root's buffer. */
  lemma GatherScatter(buf: seq<Block>, q: nat, b: nat)
    requires IsRankBuffer(buf, q, b)
    ensures Gather(Scatter(buf, q, b), q, b) == buf
  {
  }

  /** Scattering what was gathered restores every worker's block. */
  lemma ScatterGather(g: Tiles, q: nat, b: nat)
    requires IsTiles(g, q, b)
    ensures Scatter(Gather(g, q, b), q, b) == g
  {
    forall r | 0 <= r < q
      ensures Scatter(Gather(g, q, b), q, b)[r] == g[r]
    {
      forall c | 0 <= c < q
        ensures Scatter(Gather(g, q, b), q, b)[r][c] == g[r][c]
      {
        CoordsOfRank(Coord(r, c), q);
      }
    }
  }

  /** The block the root stores for rank w: block CartCoords(w) of M. */
  function RankBlock(M: Matrix, n: nat, q: nat, b: nat, w: nat): (X: Block)
    requires IsSquare(M, n) && Tiled(n, q, b) && w < Off(q, q)
    ensures IsSquare(X, b)
  {
    BlockOf(M, n, b, CartCoords(w, q).row, CartCoords(w, q).col)
  }

  /**
   * The root's partition loop: A_blocks[idx] is block (i, j) of M for
   * idx = i * q + j, filled in row-major order. It is what the root would
   * gather from workers holding the blocks of M, and scattered it gives
   * every worker its own block.
   */
  method Partition(M: Matrix, n: nat, q: nat, b: nat) returns (blocks: seq<Block>)
    requires IsSquare(M, n) && Tiled(n, q, b)
    ensures IsRankBuffer(blocks, q, b)
    ensures blocks == Gather(Tiling(M, n, q, b), q, b)
    ensures Scatter(blocks, q, b) == Tiling(M, n, q, b)
  {
    var buf := new Block[Off(q, q)];
    var idx := 0;
    for i := 0 to q
      invariant idx == Off(i, q) && idx <= Off(q, q)
      invariant forall w :: 0 <= w < idx ==> buf[w] == RankBlock(M, n, q, b, w)
    {
      OffStep(i, q);
      OffFits(i, q, q);
      for j := 0 to q
        invariant idx == Off(i, q) + j
        invariant forall w :: 0 <= w < idx ==> buf[w] == RankBlock(M, n, q, b, w)
      {
        CoordsOfRank(Coord(i, j), q);
        buf[idx] := BlockOf(M, n, b, i, j);
        idx := idx + 1;
      }
    }
    blocks := buf[..];
    ScatterGather(Tiling(M, n, q, b), q, b);
  }

  /**
   * The element mapping of the partition: entry (r, c) of the block at
   * index i * q + j is entry (i*b + r, j*b + c) of M.
   */
  lemma PartitionEntry(M: Matrix, n: nat, q: nat, b: nat, i: nat, j: nat, r: nat, c: nat)
    requires IsSquare(M, n) && Tiled(n, q, b) && i < q && j < q && r < b && c < b
    ensures Off(i, q) + j < Off(q, q) && Off(i, b) + r < n && Off(j, b) + c < n
    ensures Gather(Tiling(M, n, q, b), q, b)[Off(i, q) + j][r][c] == M[Off(i, b) + r][Off(j, b) + c]
  {
    OffFits(i, q, q);
    CoordsOfRank(Coord(i, j), q);
  }

  /**
   * Entry (x, y) of the matrix reassembled from a rank buffer: entry
   * (x % b, y % b) of the block of the rank at grid position (x / b, y / b).
   * Positions outside the grid, which the model never reads, give 0.
   */
  function Cell(buf: seq<Block>, q: nat, b: nat, x: nat, y: nat): int {
    if b > 0 && x / b < q && y / b < q && CartRank(Coord(x / b, y / b), q) < |buf|
       && x % b < |buf[CartRank(Coord(x / b, y / b), q)]|
       && y % b < |buf[CartRank(Coord(x / b, y / b), q)][x % b]|
    then buf[CartRank(Coord(x / b, y / b), q)][x % b][y % b]
    else 0
  }

  /** The n x n matrix whose block (i, j) is the buffer entry of rank i * q + j. */
  function Assemble(buf: seq<Block>, n: nat, q: nat, b: nat): (M: Matrix)
    ensures IsSquare(M, n)
  {
    seq(n, x requires 0 <= x < n => seq(n, y requires 0 <= y < n => Cell(buf, q, b, x, y)))
  }

  /** Inside block (i, j), the assembled matrix holds the buffer entry of the rank at (i, j). */
  lemma AssembleRegion(buf: seq<Block>, n: nat, q: nat, b: nat, i: nat, j: nat)
    requires IsRankBuffer(buf, q, b) && Tiled(n, q, b) && i < q && j < q
    ensures forall x, y :: Off(i, b) <= x < Off(i, b) + b && Off(j, b) <= y < Off(j, b) + b ==>
              Assemble(buf, n, q, b)[x][y] == buf[CartRank(Coord(i, j), q)][x - Off(i, b)][y - Off(j, b)]
  {
    forall x, y | Off(i, b) <= x < Off(i, b) + b && Off(j, b) <= y < Off(j, b) + b
      ensures Assemble(buf, n, q, b)[x][y] == buf[CartRank(Coord(i, j), q)][x - Off(i, b)][y - Off(j, b)]
    {
      InBlock(i, b, x - Off(i, b));
      InBlock(j, b, y - Off(j, b));
    }
  }

  /** Block (i, j) of the assembled matrix is the buffer entry of the rank at (i, j). */
  lemma AssembleBlock(buf: seq<Block>, n: nat, q: nat, b: nat, i: nat, j: nat)
    requires IsRankBuffer(buf, q, b) && Tiled(n, q, b) && i < q && j < q
    ensures BlockOf(Assemble(buf, n, q, b), n, b, i, j) == buf[CartRank(Coord(i, j), q)]
  {
    AssembleRegion(buf, n, q, b, i, j);
    forall x | 0 <= x < b
      ensures BlockOf(Assemble(buf, n, q, b), n, b, i, j)[x] == buf[CartRank(Coord(i, j), q)][x]
    {
      forall y | 0 <= y < b
        ensures BlockOf(Assemble(buf, n, q, b), n, b, i, j)[x][y] == buf[CartRank(Coord(i, j), q)][x][y]
      {
        assert Assemble(buf, n, q, b)[Off(i, b) + x][Off(j, b) + y] == buf[CartRank(Coord(i, j), q)][x][y];
      }
    }
  }

  /** Two n x n matrices with the same blocks are equal. */
  lemma BlocksDetermine(M1: Matrix, M2: Matrix, n: nat, q: nat, b: nat)
    requires IsSquare(M1, n) && IsSquare(M2, n) && Tiled(n, q, b)
    requires forall i, j :: 0 <= i < q && 0 <= j < q ==> BlockOf(M1, n, b, i, j) == BlockOf(M2, n, b, i, j)
    ensures M1 == M2
  {
    forall x | 0 <= x < n
      ensures M1[x] == M2[x]
    {
      forall y | 0 <= y < n
        ensures M1[x][y] == M2[x][y]
      {
        BlockIndex(x, q, b);
        BlockIndex(y, q, b);
        assert BlockOf(M1, n, b, x / b, y / b)[x % b][y % b] == BlockOf(M2, n, b, x / b, y / b)[x % b][y % b];
      }
    }
  }

  /** Reassembling the gathered blocks of M gives M back. */
  lemma AssembleTiling(M: Matrix, n: nat, q: nat, b: nat)
    requires IsSquare(M, n) && Tiled(n, q, b)
    ensures Assemble(Gather(Tiling(M, n, q, b), q, b), n, q, b) == M
  {
    forall i, j | 0 <= i < q && 0 <= j < q
      ensures BlockOf(Assemble(Gather(Tiling(M, n, q, b), q, b), n, q, b), n, b, i, j) == BlockOf(M, n, b, i, j)
    {
      AssembleBlock(Gather(Tiling(M, n, q, b), q, b), n, q, b, i, j);
      CoordsOfRank(Coord(i, j), q);
    }
    BlocksDetermine(Assemble(Gather(Tiling(M, n, q, b), q, b), n, q, b), M, n, q, b);
  }

  /** The root's n x n result array holds the matrix C. */
  predicate Holds(result: array2<int>, C: Matrix, n: nat)
    reads result
  {
    result.Length0 == n && result.Length1 == n && IsSquare(C, n)
    && forall x, y :: 0 <= x < n && 0 <= y < n ==> result[x, y] == C[x][y]
  }

  /**
   * What a multiply returns on each of the `size` ranks: the root (rank 0)
   * returns the result array, every other rank returns None.
   */
  function RootOnly(result: array2<int>, size: nat): (rets: seq<Option<array2<int>>>)
    requires size >= 1
    ensures |rets| == size && rets[0] == Some(result)
    ensures forall w :: 1 <= w < size ==> rets[w] == None
  {
    [Some(result)] + seq(size - 1, _ => None)
  }

  /** Entry (x, y) of block (i, j) of M, stated over the positions of M. */
  lemma BlockOfRegion(M: Matrix, n: nat, b: nat, i: nat, j: nat)
    requires IsSquare(M, n) && Off(i, b) + b <= n && Off(j, b) + b <= n
    ensures forall x, y :: Off(i, b) <= x < Off(i, b) + b && Off(j, b) <= y < Off(j, b) + b ==>
              M[x][y] == BlockOf(M, n, b, i, j)[x - Off(i, b)][y - Off(j, b)]
  {
  }

  /**
   * The slice assignment result[i*b:(i+1)*b, j*b:(j+1)*b] = blk, where blk
   * is block (i, j) of M: that region of result then agrees with M, and
   * every other cell is unchanged.
   */
  method CopyBlock(result: array2<int>, blk: Block, ghost M: Matrix, n: nat, b: nat, i: nat, j: nat)
    requires IsSquare(M, n) && Off(i, b) + b <= n && Off(j, b) + b <= n
    requires blk == BlockOf(M, n, b, i, j)
    requires result.Length0 == n && result.Length1 == n
    modifies result
    ensures forall x, y :: Off(i, b) <= x < Off(i, b) + b && Off(j, b) <= y < Off(j, b) + b ==> result[x, y] == M[x][y]
    ensures forall x, y :: 0 <= x < n && 0 <= y < n && !(Off(i, b) <= x < Off(i, b) + b && Off(j, b) <= y < Off(j, b) + b)
              ==> result[x, y] == old(result[x, y])
  {
    var x0, y0 := Off(i, b), Off(j, b);
    BlockOfRegion(M, n, b, i, j);
    forall x, y | x0 <= x < x0 + b && y0 <= y < y0 + b {
      result[x, y] := blk[x - x0][y - y0];
    }
  }

  /**
   * One pass of the root's inner reassembly loop: the blocks of grid row i,
   * result[i*b:(i+1)*b, j*b:(j+1)*b] = collected[i * q + j] for every j,
   * where those are the blocks of row i of M.
   */
  method PlaceRow(result: array2<int>, collected: seq<Block>, ghost M: Matrix, n: nat, q: nat, b: nat, i: nat)
    requires IsRankBuffer(collected, q, b) && IsSquare(M, n) && Tiled(n, q, b) && i < q
    requires forall j :: 0 <= j < q ==> collected[CartRank(Coord(i, j), q)] == BlockOf(M, n, b, i, j)
    requires result.Length0 == n && result.Length1 == n
    modifies result
    ensures forall x, y :: Off(i, b) <= x < Off(i, b) + b && 0 <= y < n ==> result[x, y] == M[x][y]
    ensures forall x, y :: 0 <= x < n && 0 <= y < n && !(Off(i, b) <= x < Off(i, b) + b) ==> result[x, y] == old(result[x, y])
  {
    OffFits(i, q, q);
    var x0 := Off(i, b);
    var idx := Off(i, q);
    var y0 := 0;
    for j := 0 to q
      invariant idx == Off(i, q) + j && y0 == Off(j, b) && y0 <= n && x0 + b <= n
      invariant forall x, y :: x0 <= x < x0 + b && 0 <= y < y0 ==> result[x, y] == M[x][y]
      invariant forall x, y :: 0 <= x < n && 0 <= y < n && !(x0 <= x < x0 + b) ==> result[x, y] == old(result[x, y])
    {
      OffStep(j, b);
      assert idx == CartRank(Coord(i, j), q);
      CopyBlock(result, collected[idx], M, n, b, i, j);
      assert forall x, y :: x0 <= x < x0 + b && 0 <= y < y0 ==> result[x, y] == M[x][y];
      idx := idx + 1;
      y0 := y0 + b;
    }
  }

  /** The root's reassembly loop over the grid rows, into a fresh n x n result. */
  method Reassemble(collected: seq<Block>, n: nat, q: nat, b: nat) returns (result: array2<int>)
    requires IsRankBuffer(collected, q, b) && Tiled(n, q, b)
    ensures fresh(result) && result.Length0 == n && result.Length1 == n
    ensures forall x, y :: 0 <= x < n && 0 <= y < n ==> result[x, y] == Assemble(collected, n, q, b)[x][y]
  {
    ghost var M := Assemble(collected, n, q, b);
    forall i, j | 0 <= i < q && 0 <= j < q
      ensures collected[CartRank(Coord(i, j), q)] == BlockOf(M, n, b, i, j)
    {
      AssembleBlock(collected, n, q, b, i, j);
    }
    result := new int[n, n];
    for i := 0 to q
      invariant Off(i, b) <= n
      invariant forall x, y :: 0 <= x < Off(i, b) && 0 <= y < n ==> result[x, y] == M[x][y]
    {
      OffStep(i, b);
      PlaceRow(result, collected, M, n, q, b, i);
    }
  }
}
