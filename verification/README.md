# MPI matrix-multiplication workshop, modelled in Dafny

The repository is a teaching workshop on distributed matrix multiplication
with MPI. Its solutions hold four pieces of sequential logic behind the MPI
calls, and this project models each of them in imperative Dafny:

- **Sparse kernel.** `coo_spgemm` in `solutions/spgemm.py`:
  - it flattens the all-gathered B shards;
  - it groups the (row, col, val) triples of A and B into per-row dictionaries;
  - it builds every row of C in a hash-and-scan accumulation;
  - it emits C's triples ordered by (row, col).

  `csr_spgemm` always raises.
- **Dense block schedules.** Both run on a simulated q x q grid of workers:
  - `cannon_matrix_multiply` (`solutions/cannon_sol.py`): the two asserts, the row-major partition and scatter, the skew, q multiply-and-shift rounds, and the gather and reassembly on the root;
  - `blocked_matrix_multiply` (`solutions/blocked.py`): the row and column sub-communicators, the two all-gathers and the local sum over k.
- **Driver helpers.** From `main.py`:
  - the line-driven parser `read_sparse_matrix_file`;
  - `convert_to_matrix`;
  - the construction of the weighted adjacency list and its transpose, both sorted by (row, col);
  - `distribute_coo`, which always raises.

The dense schedules are each proved to return A·B on rank 0 and None on every
other rank. The sparse kernel is proved to return, strictly ascending by
(row, col), exactly the structurally non-zero entries of A·B, each with its
sum of products. It fails exactly when an A column names a row that B lacks.

## Layout

| file | module | models |
|---|---|---|
| wrappers.dfy | Wrappers | `Option` and `Result` |
| arith.dfy | Arith | Euclidean `/` and `%`, the block offset `t * b` |
| dense.dfy | Dense | integer matrices, `np.dot`, blocks, block sums |
| grid.dfy | Grid | shape check, Cartesian ranks and neighbours, partition, scatter, gather, reassembly |
| cannon.dfy | Cannon | `cannon_matrix_multiply` |
| blocked.dfy | Blocked | `blocked_matrix_multiply` |
| sorting.dfy | Sorting | `list.sort(key=...)` and `sorted` over dictionary keys |
| spgemm.dfy | SpGemm | `coo_spgemm`, `csr_spgemm` |
| driver.dfy | Driver | `read_sparse_matrix_file`, `convert_to_matrix`, lines 72-80 of `main.py`, `distribute_coo` |

**How MPI is simulated.**
- Each collective is a function over the state of all workers at once. A grid-wide `Sendrecv_replace` is one rotation of a `seq<seq<Block>>` indexed [row][col]. `Scatter`, `Gather`, `Allgather` and `Split` are index maps between the root's rank buffer and that grid.
- The Cartesian rank of grid position (i, j) is i * q + j, i.e. row-major order as in chapter 7 of the MPI 3.1 standard. `reorder=True` is taken to keep the world rank.
- Results that the source fills in place are `array2<int>`: the reassembled `result` and `convert_to_matrix`'s matrix. Input matrices are values (`seq<seq<int>>`).

**Error paths.**
- `coo_spgemm` indexes `matrix_B[k]` with no default, so a missing row of B raises `KeyError`; the model returns `Err(MissingRow(k))`.
- Both schedules assert `n % q == 0`; the model returns `Err(NotDivisible(n, q))`.

## Model

| member | source | states |
|---|---|---|
| Dense.MatMul | solutions/cannon_sol.py:86 | `np.dot` on n x n integer matrices; the result is n x n |
| Dense.Zero | solutions/blocked.py:32 | `np.zeros((b, b))` is a b x b block |
| Dense.Add | solutions/blocked.py:75 | `+=` of two b x b blocks is a b x b block |
| Dense.BlockOf | solutions/cannon_sol.py:51 | the slice `A[i*b:(i+1)*b, j*b:(j+1)*b]` is a b x b block |
| Dense.DotSplit | solutions/blocked.py:73 | an inner product over [lo, hi) is the sum of those over [lo, mid) and [mid, hi) |
| Dense.BlockDot | solutions/blocked.py:75 | the inner product of row x of block (r, t) of A and column y of block (t, c) of B is the slice [t*b, t*b+len) of the inner product of row r*b+x of A and column c*b+y of B |
| Dense.BlockProductAt | solutions/blocked.py:75 | entry (x, y) of `np.dot(A_{r,t}, B_{t,c})` is that slice of the full inner product |
| Dense.BlockSumNext | solutions/blocked.py:74-75 | a block sum of s+1 terms is the sum of s terms plus the product for index (start+s) mod q |
| Dense.BlockSumAt | solutions/cannon_sol.py:84-86 | an entry of a block sum is the sum of the entries of its terms |
| Dense.BlockSumEntryIsDot | solutions/cannon_sol.py:84-86 | that entry is an inner product taken in chunks of b, from chunk `start` round the ring |
| Dense.WrappedDotFull | solutions/cannon_sol.py:84-86 | summing all q chunks from any starting chunk gives the whole inner product |
| Dense.BlockSumIsProductAt | solutions/cannon_sol.py:84-86 | entry (x, y) of the q-term block sum from any start is entry (x, y) of block (r, c) of A·B |
| Dense.BlockSumIsProduct | solutions/blocked.py:72-75 | the q-term block sum from any start is block (r, c) of A·B |
| Grid.IntSqrt | solutions/cannon_sol.py:11 | `int(np.sqrt(size))` as the exact floor square root: r·r <= size < (r+1)·(r+1) |
| Grid.IntSqrtOfSquare | solutions/cannon_sol.py:11 | the square root of p·p is p |
| Grid.CheckShape | solutions/cannon_sol.py:11-17 | Ok exactly when size is a perfect square q·q and q divides n, with b = n / q; otherwise the error of the first failing assert |
| Grid.CheckShapeAccepts | solutions/blocked.py:11-17 | every size q·q with n = q·b passes with shape (q, b) |
| Grid.CartRank | solutions/cannon_sol.py:68 | `Get_cart_rank` of a grid position is a rank below q·q |
| Grid.CartCoords | solutions/cannon_sol.py:41 | `Get_coords` of a rank is a grid position whose rank is that rank |
| Grid.CoordsOfRank | solutions/cannon_sol.py:40-41 | `Get_coords(Get_cart_rank(p)) == p` |
| Grid.Left | solutions/cannon_sol.py:66 | (row, (col-1) mod q) stays on the grid, in the same row |
| Grid.Right | solutions/cannon_sol.py:67 | (row, (col+1) mod q) stays on the grid, in the same row |
| Grid.Up | solutions/cannon_sol.py:76 | ((row-1) mod q, col) stays on the grid, in the same column |
| Grid.Down | solutions/cannon_sol.py:77 | ((row+1) mod q, col) stays on the grid, in the same column |
| Grid.NeighboursInverse | solutions/cannon_sol.py:66-77 | left and right are mutual inverses, and so are up and down |
| Grid.Tiling | solutions/cannon_sol.py:48-53 | the q x q grid of b x b blocks of a matrix |
| Grid.Scatter | solutions/cannon_sol.py:58-59 | the worker at p receives buffer entry `CartRank(p)`; every worker gets a b x b block |
| Grid.Gather | solutions/cannon_sol.py:104-107 | the root's buffer holds, at rank w, the block of the worker at `CartCoords(w)` |
| Grid.GatherScatter | solutions/cannon_sol.py:58-59 | gathering what was scattered gives the root's buffer back |
| Grid.ScatterGather | solutions/cannon_sol.py:104-107 | scattering what was gathered gives every worker its block back |
| Grid.RankBlock | solutions/cannon_sol.py:51 | the block the partition stores for rank w is b x b |
| Grid.Partition | solutions/cannon_sol.py:44-53 | the root's `A_blocks` is the gathered tiling of the matrix; scattered, it gives worker (i, j) block (i, j) |
| Grid.PartitionEntry | solutions/blocked.py:47-53 | `A_blocks[i*q+j][r][c] == A[i*b+r][j*b+c]` for all i, j < q and r, c < b |
| Grid.Assemble | solutions/blocked.py:86-90 | the matrix assembled from a rank buffer is n x n |
| Grid.AssembleRegion | solutions/cannon_sol.py:115 | rows i*b.. and columns j*b.. of the assembled matrix hold buffer entry i*q+j |
| Grid.AssembleBlock | solutions/cannon_sol.py:113-116 | block (i, j) of the assembled matrix is buffer entry i*q+j |
| Grid.BlocksDetermine | solutions/cannon_sol.py:113-116 | two n x n matrices with the same q x q blocks are equal |
| Grid.AssembleTiling | solutions/cannon_sol.py:44-117 | reassembling the partition of M gives M back |
| Grid.RootOnly | solutions/cannon_sol.py:110-118 | rank 0 returns the result and every other rank None |
| Grid.BlockOfRegion | solutions/cannon_sol.py:115 | entry (x, y) of M in the region of block (i, j) is that block's entry (x - i*b, y - j*b) |
| Grid.CopyBlock | solutions/cannon_sol.py:115 | the slice assignment of block (i, j) of M makes that region of `result` agree with M and changes nothing else |
| Grid.PlaceRow | solutions/cannon_sol.py:114-116 | the inner loop over j makes rows i*b..i*b+b-1 of `result` agree with M and changes no other row |
| Grid.Reassemble | solutions/blocked.py:85-90 | the root's loops produce a fresh n x n `result` equal to the matrix assembled from `collected_C` |
| Cannon.ShiftLeft | solutions/cannon_sol.py:89-94 | one `Sendrecv_replace` to the left by the rows from `from` on; every worker keeps one block |
| Cannon.ShiftUp | solutions/cannon_sol.py:97-101 | one `Sendrecv_replace` upwards by the columns from `from` on; every worker keeps one block |
| Cannon.ShiftLeftDelivers | solutions/cannon_sol.py:66-70 | the block a taking-part worker sends arrives at its left neighbour |
| Cannon.ShiftUpDelivers | solutions/cannon_sol.py:76-80 | the block a taking-part worker sends arrives at the neighbour above |
| Cannon.Accumulate | solutions/cannon_sol.py:86 | `local_C += np.dot(local_A, local_B)` on every worker keeps b x b blocks |
| Cannon.ZeroTiles | solutions/cannon_sol.py:32 | every worker's `local_C` starts as a b x b zero block |
| Cannon.RotNext | solutions/cannon_sol.py:67 | taking the right neighbour's index after k moves is k + 1 moves |
| Cannon.SkewedRows | solutions/cannon_sol.py:63-70 | the A grid after `step` steps of the skew |
| Cannon.SkewedCols | solutions/cannon_sol.py:73-80 | the B grid after `step` steps of the skew |
| Cannon.SkewRowsStep | solutions/cannon_sol.py:63-70 | skew step `step` (shift by rows below it) leads from the grid after `step` steps to the one after `step + 1` |
| Cannon.SkewColsStep | solutions/cannon_sol.py:73-80 | the same for the columns of B |
| Cannon.SkewStart | solutions/cannon_sol.py:63 | before the skew nothing has moved |
| Cannon.SkewA | solutions/cannon_sol.py:63-70 | after the A skew, worker (r, c) holds the block from column (r + c) mod q |
| Cannon.SkewB | solutions/cannon_sol.py:73-80 | after the B skew, worker (r, c) holds the block from row (r + c) mod q |
| Cannon.Wrap | solutions/cannon_sol.py:67 | an index taken round the ring of q is below q |
| Cannon.RoundIndex | solutions/cannon_sol.py:84 | s steps from (r + c) mod q is (r + c + s) mod q |
| Cannon.LeftIndex | solutions/cannon_sol.py:89-94 | the right neighbour's index in round s is this worker's index in round s + 1 |
| Cannon.UpIndex | solutions/cannon_sol.py:97-101 | the lower neighbour's index in round s is this worker's index in round s + 1 |
| Cannon.RoundA | solutions/cannon_sol.py:84 | in round s worker (r, c) holds A_{r,(r+c+s) mod q} |
| Cannon.RoundB | solutions/cannon_sol.py:84 | in round s worker (r, c) holds B_{(r+c+s) mod q, c} |
| Cannon.RoundC | solutions/cannon_sol.py:84-86 | after s rounds `local_C` is the sum of the first s products from index (r + c) mod q |
| Cannon.ShiftLeftRound | solutions/cannon_sol.py:88-94 | shifting the round-s A grid left gives the round-(s+1) A grid |
| Cannon.ShiftLeftRoundAt | solutions/cannon_sol.py:88-94 | the same at one worker |
| Cannon.ShiftUpRound | solutions/cannon_sol.py:96-101 | shifting the round-s B grid up gives the round-(s+1) B grid |
| Cannon.ShiftUpRoundAt | solutions/cannon_sol.py:96-101 | the same at one worker |
| Cannon.AccumulateRound | solutions/cannon_sol.py:86 | adding the round-s products to the round-s C grid gives the round-(s+1) C grid |
| Cannon.RoundCStart | solutions/cannon_sol.py:32 | the zero C grid is the C grid of round 0 |
| Cannon.RoundCFinal | solutions/cannon_sol.py:84-101 | after q rounds worker (r, c) holds block (r, c) of A·B |
| Cannon.SkewedIsRoundA | solutions/cannon_sol.py:63-70 | the skewed A grid is the round-0 A grid |
| Cannon.SkewedIsRoundB | solutions/cannon_sol.py:73-80 | the skewed B grid is the round-0 B grid |
| Cannon.Rounds | solutions/cannon_sol.py:84-101 | the q multiply-and-shift rounds, started from the skewed grids, leave every worker with its block of A·B |
| Cannon.CannonMultiply | solutions/cannon_sol.py:4-118 | a failing assert gives its error; otherwise there is one result per rank, rank 0's a fresh n x n array equal to A·B, every other None |
| Blocked.RowRanks | solutions/blocked.py:62 | each rank of grid row r sits at (r, k) for its own k |
| Blocked.ColRanks | solutions/blocked.py:63 | each rank of grid column c sits at (k, c) for its own k |
| Blocked.RowComm | solutions/blocked.py:62 | `Split(color=row, key=col)`: q members, the member of key k being the worker at (r, k) |
| Blocked.ColComm | solutions/blocked.py:63 | `Split(color=col, key=row)`: q members, the member of key k being the worker at (k, c) |
| Blocked.RowCommMembers | solutions/blocked.py:62 | a rank is in row r's communicator exactly when its grid row is r |
| Blocked.ColCommMembers | solutions/blocked.py:63 | a rank is in column c's communicator exactly when its grid column is c |
| Blocked.Allgather | solutions/blocked.py:66-70 | every member receives one block per member, in key order |
| Blocked.RowGathered | solutions/blocked.py:66-67 | `row_A_blocks[k]` is A_{r,k} |
| Blocked.ColGathered | solutions/blocked.py:69-70 | `col_B_blocks[k]` is B_{k,c} |
| Blocked.LocalProduct | solutions/blocked.py:72-75 | `local_C`, zero and then summed over ascending k, is block (r, c) of A·B |
| Blocked.BlockedMultiply | solutions/blocked.py:4-92 | a failing assert gives its error; otherwise there is one result per rank, rank 0's a fresh n x n array equal to A·B, every other None |
| Sorting.KeyTotal | solutions/spgemm.py:56 | the tuple order is total |
| Sorting.InsertBy | solutions/spgemm.py:56 | one insertion keeps the list sorted by key and adds exactly the new element |
| Sorting.SortBy | main.py:79-80 | `list.sort(key=...)`: sorted by key and a permutation of the input |
| Sorting.Minimum | solutions/spgemm.py:38 | a finite non-empty set of keys has a least element |
| Sorting.SortedKeys | solutions/spgemm.py:38 | `sorted(d.items())`: every key exactly once, strictly increasing |
| SpGemm.Flatten | solutions/spgemm.py:10 | `fullB`'s length is the sum of the shard lengths |
| SpGemm.FlattenShard | solutions/spgemm.py:9-10 | shard w sits in `fullB` at offset (sum of the lengths of shards 0..w-1), unchanged and in worker order |
| SpGemm.FlattenMembers | solutions/spgemm.py:10 | a triple is in `fullB` exactly when it is in some shard |
| SpGemm.RowPairs | solutions/spgemm.py:26-30 | the pairs of row i are no more than the triples |
| SpGemm.RowPairsCount | solutions/spgemm.py:26-35 | (c, v) occurs in row i's list exactly as often as (i, c, v) occurs among the triples |
| SpGemm.RowPairsMember | solutions/spgemm.py:26-35 | (c, v) is in row i's list exactly when (i, c, v) is a triple |
| SpGemm.RowPairsEmpty | solutions/spgemm.py:26-35 | row i's list is empty exactly when no triple has row i |
| SpGemm.GroupByRow | solutions/spgemm.py:24-35 | the dictionary's keys are exactly the rows present, and each maps to its row's pairs in input order |
| SpGemm.SumColSnoc | solutions/spgemm.py:52 | appending a pair adds its value to its column's sum |
| SpGemm.HasColSnoc | solutions/spgemm.py:52 | appending a pair adds its column |
| SpGemm.CountColPositive | solutions/spgemm.py:47-48 | a column is counted exactly when the list has it |
| SpGemm.LastColFresh | solutions/spgemm.py:51-52 | in a list with distinct columns the last column is not in the rest |
| SpGemm.CountColDistinct | solutions/spgemm.py:47-50 | with distinct columns, a column occurs at most once |
| SpGemm.DistinctSumCol | solutions/spgemm.py:47-50 | with distinct columns, the column sum of a pair's column is that pair's value |
| SpGemm.SumColAbsent | solutions/spgemm.py:51-52 | an absent column sums to 0 |
| SpGemm.PermutedDistinct | solutions/spgemm.py:56 | sorting a row list keeps its columns distinct |
| SpGemm.Mapped | solutions/spgemm.py:47-50 | the scan of lines 47-50 keeps the list's length |
| SpGemm.Bump | solutions/spgemm.py:43-52 | the row after adding `val` at column j grows by one exactly when j was absent |
| SpGemm.MappedSnoc | solutions/spgemm.py:47-50 | the scan treats each pair on its own |
| SpGemm.MappedSum | solutions/spgemm.py:47-50 | the scan adds `val` once per pair of column j |
| SpGemm.BumpSum | solutions/spgemm.py:43-52 | with distinct columns, column j's sum grows by `val` and every other column's sum is unchanged |
| SpGemm.BumpCols | solutions/spgemm.py:43-52 | the row gains column j and no other |
| SpGemm.BumpDistinct | solutions/spgemm.py:43-52 | a repeated j is summed in place, not appended, so columns stay distinct |
| SpGemm.AddToRow | solutions/spgemm.py:46-52 | the scan with `find_cij` computes `Bump` |
| SpGemm.SumColRowPairs | solutions/spgemm.py:41 | column j's sum in B's row k is Σ of the weights of the B triples (k, j, _) |
| SpGemm.HasColRowPairs | solutions/spgemm.py:41 | B's row k has column j exactly when B has a triple (k, j, _) |
| SpGemm.RowDotSnoc | solutions/spgemm.py:40-42 | one more A pair adds wA·Σ b over its B row |
| SpGemm.RowDotRowPairs | solutions/spgemm.py:38-42 | over A's row i, the accumulated value at j is Σ a·b over A triples (i, k, a) and B triples (k, j, b) |
| SpGemm.RowReachesRowPairs | solutions/spgemm.py:38-41 | A's row i reaches column j exactly when some A triple (i, k, _) meets a B triple (k, j, _) |
| SpGemm.RowReachesSnoc | solutions/spgemm.py:40-41 | one more A pair adds the columns of its B row |
| SpGemm.PartialStart | solutions/spgemm.py:40-41 | before a B row is scanned, the row state after the earlier A pairs is a partial state |
| SpGemm.PartialStep | solutions/spgemm.py:41-52 | adding wA·wB at column j extends the partial state by one B pair |
| SpGemm.RowDoneStep | solutions/spgemm.py:40-52 | a whole B row scanned completes the row for one more A pair |
| SpGemm.AddScaledRow | solutions/spgemm.py:41-52 | the loop over B's row k adds wA·wB at each j, creates row i when absent, and leaves every other row unchanged |
| SpGemm.AccumulateRow | solutions/spgemm.py:39-52 | fails exactly when a pair's k has no B row, naming such a k; otherwise only row i changes, and it has distinct columns, the right sums, and exactly the reachable columns |
| SpGemm.EmitRow | solutions/spgemm.py:56-58 | sorting a row by column and appending it keeps the output strictly ascending and adds exactly that row's pairs |
| SpGemm.EmitSorted | solutions/spgemm.py:54-59 | the output is strictly ascending by (row, col); each triple comes from a pair of matrix_C; (i, j) is present exactly when row i has column j |
| SpGemm.MultiplyRows | solutions/spgemm.py:37-52 | fails exactly when an A column has no B row, naming such a column; otherwise matrix_C has exactly A's rows, each complete |
| SpGemm.BuiltStep | solutions/spgemm.py:38-52 | a completed row extends the finished rows |
| SpGemm.BuiltFindsAll | solutions/spgemm.py:38-41 | once every row of A is done, every A column had a B row |
| SpGemm.MissingFromRow | solutions/spgemm.py:41 | a missing k in row i's pairs is a missing k of A |
| SpGemm.AllRowsFound | solutions/spgemm.py:38-52 | every row of A with all B rows present reaches some column, so it is never dropped |
| SpGemm.CooSpGemm | solutions/spgemm.py:5-59 | fails exactly when an A column has no B row; otherwise the output is strictly ascending, each value is Σ a·b, and (i, j) is present exactly when some (i, k, _) of A meets some (k, j, _) of B, zero sums included |
| SpGemm.CsrSpGemm | solutions/spgemm.py:62-63 | always fails with NotImplemented |
| Driver.EdgesOf | main.py:22-25 | the edges of a well-formed file number `EdgeCount` |
| Driver.EntriesOf | main.py:29-32 | the result triples of a well-formed file number `EntryCount` |
| Driver.EdgesReadStep | main.py:22-25 | appending the next edge line keeps the edges read in order |
| Driver.EdgesReadAll | main.py:22-25 | the edges read in order, as many as the file has, are `EdgesOf` |
| Driver.EntriesReadStep | main.py:29-32 | appending the next entry line keeps the triples read in order |
| Driver.EntriesReadAll | main.py:29-32 | the triples read in order, as many as the file has, are `EntriesOf` |
| Driver.ReadSparseMatrix | main.py:10-33 | succeeds exactly when every line has the tokens its role needs, else fails at the first line that lacks them; line 0 gives `num_nodes` and `src_node`, line 1 `num_edges`, then the edges in order, `result_num_nnz`, and the triples in order; later lines are ignored |
| Driver.CountsBounded | main.py:22-32 | at most `num_edges` edges and at most `result_num_nnz` triples are read |
| Driver.PyIndex | main.py:47 | an index is accepted exactly when -n <= x < n and lands in [0, n), counting from the end when negative |
| Driver.LastWriteUnlisted | main.py:44-47 | a cell no triple names stays 0 |
| Driver.LastWriteListed | main.py:44-47 | a cell holds the weight of the last triple naming it |
| Driver.ConvertToMatrix | main.py:35-48 | a negative size fails; a triple with an index outside [-n, n) fails at the first such triple; otherwise a fresh n x n array whose cell (x, y) is the last weight written there, else 0 |
| Driver.Weighted | main.py:75-77 | one weighted triple per edge |
| Driver.Transposed | main.py:78 | one flipped triple per triple |
| Driver.TransposedTwice | main.py:78 | transposing twice gives the list back |
| Driver.TransposedCount | main.py:78 | [v, u, w] occurs in the transpose as often as [u, v, w] in the original |
| Driver.BuildOperands | main.py:72-80 | `matrix_A` and `matrix_A_transpose` are sorted by (row, col) and are permutations of the weighted edges and their flips; [v, u, w] occurs in the transpose as often as [u, v, w] in `matrix_A`; every weight is 1 |
| Driver.DistributeCoo | main.py:50-51 | always fails with NotImplemented |

## Left out

- MPI: communication is simulated sequentially and deterministically over the whole grid. Concurrency, deadlock and message tags are not modelled.
- The dtype broadcast (`solutions/cannon_sol.py:19-27`, `solutions/blocked.py:19-27`) is not modelled.
- The cart-rank reordering of `Create_cart(..., reorder=True)` is taken as the identity.
- Floating point: matrices hold unbounded integers instead of float64.
- Floating point, continued: `int(np.sqrt(size))` is the exact integer square root.
- Python exceptions (`AssertionError`, `KeyError`, `IndexError`, `ValueError`, `NotImplementedError`) become `Err` values of a `Result`.
- File I/O, `argparse`, the mode dispatch and printing of `main.py` are not modelled.
- The commented-out distribution code of `main.py` is not modelled.
- The `m`, `h`, `n` parameters of `coo_spgemm` and `csr_spgemm` are unused by the source and absent from the model.
- Driver.ReadSparseMatrix: works on lines already split into integer tokens. It does not model `split(' ')` on repeated spaces or `int()` on a non-numeric token. Every such failure is folded into "the line lacks the tokens its role needs".
- Driver.BuildOperands: `edge.append(1)` mutates the parser's lists in place. The aliasing between `edge_list`, `matrix_A` and the transpose is not modelled; the model builds new triples.
- SpGemm.CooSpGemm: on failure it names some column of A with no B row. It does not state that this is the first one the source's (row, pair) order meets.
- SpGemm.AccumulateRow: on failure it names some column of A with no B row. It does not state that this is the first one the source's (row, pair) order meets.
- SpGemm.MultiplyRows: on failure it names some column of A with no B row. It does not state that this is the first one the source's (row, pair) order meets.
- Sorting.SortBy: does not state stability, i.e. that equal keys keep their input order.
- `np.dot` of a block is the mathematical product. Its floating-point summation order is not modelled.
- Zero-padding for n not divisible by q: the source does not implement it.
- `problems/`, `hello_world.py` and the `0-mpi-intro` exercises are not part of this model.
