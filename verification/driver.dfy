/**
 * The driver's sequential helpers: the line parser of the input file, the
 * conversion of coordinate triples to a dense matrix, the construction of
 * the weighted adjacency matrix and its transpose, and the unimplemented
 * COO distribution.
 */
module Driver {
  import opened Wrappers
  import opened Sorting
  import opened SpGemm

  /** One [u, v] edge of the input graph. */
  datatype Edge = Edge(u: int, v: int)

  /** What read_sparse_matrix_file returns. */
  datatype SparseFile = SparseFile(numNodes: int, srcNode: int, numEdges: int, edges: seq<Edge>, entries: seq<Triple>)

  datatype DriverError =
    | Malformed(line: nat)          // a line lacks a token, or a count line is not one integer
    | NegativeDimension(n: int)     // np.zeros with a negative size
    | IndexOutOfRange(entry: nat)   // the IndexError of square_matrix[row][col]
    | Unimplemented                 // NotImplementedError

  // ---------------------------------------------------------------------
  // read_sparse_matrix_file (main.py lines 10-33)
  // ---------------------------------------------------------------------

  /** The role of a line in the parser's if/elif chain. */
  datatype LineKind = Header | EdgeTotal | EdgeLine | EntryTotal | EntryLine | Ignored

  /** The if/elif chain: the role of line idx given num_edges and result_num_nnz. */
  function Kind(idx: nat, numEdges: int, resultNnz: int): LineKind
  {
    if idx == 0 then Header
    else if idx == 1 then EdgeTotal
    else if idx < 2 + numEdges then EdgeLine
    else if idx == 2 + numEdges then EntryTotal
    else if idx <= 2 + numEdges + resultNnz then EntryLine
    else Ignored
  }

  /** Whether the tokens of a line are enough for its role. */
  predicate Fits(kind: LineKind, tokens: seq<int>)
  {
    match kind
    case Header => |tokens| >= 2
    case EdgeTotal => |tokens| == 1
    case EdgeLine => |tokens| >= 2
    case EntryTotal => |tokens| == 1
    case EntryLine => |tokens| >= 3
    case Ignored => true
  }

  /** num_edges as line 1 gives it (0 when there is no line 1). */
  function EdgeTotalOf(lines: seq<seq<int>>): int
  {
    if |lines| > 1 && |lines[1]| == 1 then lines[1][0] else 0
  }

  /** result_num_nnz as line 2 + num_edges gives it (0 when no line plays that role). */
  function EntryTotalOf(lines: seq<seq<int>>): int
  {
    var ne := EdgeTotalOf(lines);
    if 0 <= ne && 2 + ne < |lines| && |lines[2 + ne]| == 1 then lines[2 + ne][0] else 0
  }

  /** num_nodes and src_node as line 0 gives them (0 when there is no such line). */
  function NumNodesOf(lines: seq<seq<int>>): int
  {
    if |lines| > 0 && |lines[0]| >= 2 then lines[0][0] else 0
  }

  function SrcNodeOf(lines: seq<seq<int>>): int
  {
    if |lines| > 0 && |lines[0]| >= 2 then lines[0][1] else 0
  }

  function KindAt(lines: seq<seq<int>>, idx: nat): LineKind
  {
    Kind(idx, EdgeTotalOf(lines), EntryTotalOf(lines))
  }

  predicate LineOk(lines: seq<seq<int>>, idx: nat)
    requires idx < |lines|
  {
    Fits(KindAt(lines, idx), lines[idx])
  }

  predicate WellFormed(lines: seq<seq<int>>)
  {
    forall idx :: 0 <= idx < |lines| ==> LineOk(lines, idx)
  }

  /** max(0, min(x, bound)) */
  function Clamp(x: int, bound: int): nat
  {
    if x <= 0 || bound <= 0 then 0 else if x < bound then x else bound
  }

  /** How many edge lines a file has: num_edges of them, or as many as there are lines. */
  function EdgeCount(lines: seq<seq<int>>): nat
  {
    Clamp(|lines| - 2, EdgeTotalOf(lines))
  }

  /** How many entry lines a file has: result_num_nnz of them, or as many as there are lines. */
  function EntryCount(lines: seq<seq<int>>): nat
  {
    var ne := EdgeTotalOf(lines);
    if ne < 0 then 0 else Clamp(|lines| - 3 - ne, EntryTotalOf(lines))
  }

  /** The edges a well-formed file lists: lines 2, 3, ... in file order. */
  function EdgesOf(lines: seq<seq<int>>): (edges: seq<Edge>)
    requires WellFormed(lines)
    ensures |edges| == EdgeCount(lines)
  {
    seq(EdgeCount(lines), e requires 0 <= e < EdgeCount(lines) =>
      assert KindAt(lines, 2 + e) == EdgeLine && LineOk(lines, 2 + e);
      Edge(lines[2 + e][0], lines[2 + e][1]))
  }

  /** The result triples a well-formed file lists: the lines after the nnz line, in file order. */
  function EntriesOf(lines: seq<seq<int>>): (entries: seq<Triple>)
    requires WellFormed(lines)
    ensures |entries| == EntryCount(lines)
  {
    var ne := EdgeTotalOf(lines);
    seq(EntryCount(lines), e requires 0 <= e < EntryCount(lines) =>
      assert KindAt(lines, 3 + ne + e) == EntryLine && LineOk(lines, 3 + ne + e);
      Triple(lines[3 + ne + e][0], lines[3 + ne + e][1], lines[3 + ne + e][2]))
  }

  /** The edges read so far are lines 2, 3, ... in order. */
  ghost predicate EdgesRead(lines: seq<seq<int>>, edges: seq<Edge>)
  {
    forall i :: 2 <= i < 2 + |edges| ==>
      i < |lines| && |lines[i]| >= 2 && edges[i - 2] == Edge(lines[i][0], lines[i][1])
  }

  lemma EdgesReadStep(lines: seq<seq<int>>, edges: seq<Edge>)
    requires EdgesRead(lines, edges)
    requires 2 + |edges| < |lines| && |lines[2 + |edges|]| >= 2
    ensures EdgesRead(lines, edges + [Edge(lines[2 + |edges|][0], lines[2 + |edges|][1])])
  {
  }

  lemma EdgesReadAll(lines: seq<seq<int>>, edges: seq<Edge>)
    requires WellFormed(lines) && EdgesRead(lines, edges) && |edges| == EdgeCount(lines)
    ensures edges == EdgesOf(lines)
  {
  }

  /** The result triples read so far are the lines after line 2 + ne, in order. */
  ghost predicate EntriesRead(lines: seq<seq<int>>, ne: int, entries: seq<Triple>)
  {
    forall i :: 3 + ne <= i < 3 + ne + |entries| ==>
      0 <= i < |lines| && |lines[i]| >= 3 && entries[i - 3 - ne] == Triple(lines[i][0], lines[i][1], lines[i][2])
  }

  lemma EntriesReadStep(lines: seq<seq<int>>, ne: int, entries: seq<Triple>)
    requires EntriesRead(lines, ne, entries)
    requires 0 <= 3 + ne + |entries| < |lines| && |lines[3 + ne + |entries|]| >= 3
    ensures EntriesRead(lines, ne, entries + [Triple(lines[3 + ne + |entries|][0], lines[3 + ne + |entries|][1], lines[3 + ne + |entries|][2])])
  {
  }

  lemma EntriesReadAll(lines: seq<seq<int>>, entries: seq<Triple>)
    requires WellFormed(lines) && EntriesRead(lines, EdgeTotalOf(lines), entries) && |entries| == EntryCount(lines)
    ensures entries == EntriesOf(lines)
  {
  }

  /**
   * The parser, over the file's lines already split into integer tokens. It
   * fails at the first line whose tokens do not suit its role; otherwise
   * line 0 gives num_nodes and src_node, line 1 num_edges, the next
   * num_edges lines the edges in order, the line after them result_num_nnz,
   * the next result_num_nnz lines the result triples in order, and any later
   * line is ignored.
   */
  method ReadSparseMatrix(lines: seq<seq<int>>) returns (res: Result<SparseFile, DriverError>)
    ensures res.Ok? <==> WellFormed(lines)
    ensures res.Err? ==> res.error.Malformed? && res.error.line < |lines| && !LineOk(lines, res.error.line)
    ensures res.Err? ==> forall idx :: 0 <= idx < res.error.line ==> LineOk(lines, idx)
    ensures res.Ok? ==> res.value.numNodes == NumNodesOf(lines) && res.value.srcNode == SrcNodeOf(lines)
    ensures res.Ok? ==> res.value.numEdges == EdgeTotalOf(lines)
    ensures res.Ok? ==> res.value.edges == EdgesOf(lines) && res.value.entries == EntriesOf(lines)
  {
    var numNodes, srcNode, numEdges, resultNnz := 0, 0, 0, 0;
    var edges: seq<Edge> := [];
    var entries: seq<Triple> := [];
    ghost var ne := EdgeTotalOf(lines);
    ghost var nnz := EntryTotalOf(lines);
    for idx := 0 to |lines|
      invariant forall k :: 0 <= k < idx ==> LineOk(lines, k)
      invariant numNodes == NumNodesOf(lines[..idx]) && srcNode == SrcNodeOf(lines[..idx])
      invariant numEdges == (if idx >= 2 then ne else 0)
      invariant resultNnz == (if ne >= 0 && idx > 2 + ne then nnz else 0)
      invariant |edges| == Clamp(idx - 2, ne)
      invariant EdgesRead(lines, edges)
      invariant |entries| == (if ne < 0 then 0 else Clamp(idx - 3 - ne, nnz))
      invariant EntriesRead(lines, ne, entries)
    {
      var tokens := lines[idx];
      assert Kind(idx, numEdges, resultNnz) == KindAt(lines, idx);
      if idx == 0 {
        if |tokens| < 2 {
          assert !LineOk(lines, idx);
          return Err(Malformed(idx));
        }
        numNodes, srcNode := tokens[0], tokens[1];
      } else if idx == 1 {
        if |tokens| != 1 {
          assert !LineOk(lines, idx);
          return Err(Malformed(idx));
        }
        numEdges := tokens[0];
      } else if idx > 1 && idx < 2 + numEdges {
        if |tokens| < 2 {
          assert !LineOk(lines, idx);
          return Err(Malformed(idx));
        }
        assert |edges| == idx - 2;
        EdgesReadStep(lines, edges);
        edges := edges + [Edge(tokens[0], tokens[1])];
      } else if idx == 2 + numEdges {
        if |tokens| != 1 {
          assert !LineOk(lines, idx);
          return Err(Malformed(idx));
        }
        resultNnz := tokens[0];
        assert resultNnz == nnz && |entries| == 0;
      } else if idx > 2 + numEdges && idx <= 2 + numEdges + resultNnz {
        if |tokens| < 3 {
          assert !LineOk(lines, idx);
          return Err(Malformed(idx));
        }
        assert ne >= 0 && |entries| == idx - 3 - ne;
        EntriesReadStep(lines, ne, entries);
        entries := entries + [Triple(tokens[0], tokens[1], tokens[2])];
      }
    }
    assert lines[..|lines|] == lines;
    EdgesReadAll(lines, edges);
    EntriesReadAll(lines, entries);
    return Ok(SparseFile(numNodes, srcNode, numEdges, edges, entries));
  }

  /** At most num_edges edges are read, and at most result_num_nnz triples. */
  lemma CountsBounded(lines: seq<seq<int>>)
    requires WellFormed(lines)
    ensures |EdgesOf(lines)| <= (if EdgeTotalOf(lines) < 0 then 0 else EdgeTotalOf(lines))
    ensures |EntriesOf(lines)| <= (if EntryTotalOf(lines) < 0 then 0 else EntryTotalOf(lines))
  {
  }

  // ---------------------------------------------------------------------
  // convert_to_matrix (main.py lines 35-48)
  // ---------------------------------------------------------------------

  /** numpy's reading of index x on an axis of size n: a negative index counts from the end. */
  function PyIndex(x: int, n: nat): (r: Option<nat>)
    ensures r.Some? <==> -(n as int) <= x < n
    ensures r.Some? ==> r.value < n && (r.value == x || r.value == x + n)
  {
    if 0 <= x < n then Some(x) else if -(n as int) <= x < 0 then Some(x + n) else None
  }

  predicate InRange(t: Triple, n: nat)
  {
    PyIndex(t.row, n).Some? && PyIndex(t.col, n).Some?
  }

  predicate Targets(t: Triple, n: nat, x: nat, y: nat)
  {
    PyIndex(t.row, n) == Some(x) && PyIndex(t.col, n) == Some(y)
  }

  /** The value cell (x, y) holds after the triples are written in order onto zeros. */
  function LastWrite(entries: seq<Triple>, n: nat, x: nat, y: nat): int
  {
    if |entries| == 0 then 0
    else if Targets(entries[|entries| - 1], n, x, y) then entries[|entries| - 1].val
    else LastWrite(entries[..|entries| - 1], n, x, y)
  }

  /** A cell no triple names stays zero. */
  lemma {:induction false} LastWriteUnlisted(entries: seq<Triple>, n: nat, x: nat, y: nat)
    requires forall e :: 0 <= e < |entries| ==> !Targets(entries[e], n, x, y)
    ensures LastWrite(entries, n, x, y) == 0
  {
    if |entries| > 0 {
      LastWriteUnlisted(entries[..|entries| - 1], n, x, y);
    }
  }

  /** A cell holds the weight of the last triple that names it. */
  lemma {:induction false} LastWriteListed(entries: seq<Triple>, n: nat, x: nat, y: nat, e: nat)
    requires e < |entries| && Targets(entries[e], n, x, y)
    requires forall e' :: e < e' < |entries| ==> !Targets(entries[e'], n, x, y)
    ensures LastWrite(entries, n, x, y) == entries[e].val
  {
    if e < |entries| - 1 {
      LastWriteListed(entries[..|entries| - 1], n, x, y, e);
    }
  }

  /**
   * convert_to_matrix: an n x n matrix of zeros into which every triple's
   * weight is written at its (row, col). Negative indices count from the
   * end; an index outside [-n, n) raises, at the first triple that has one.
   */
  method ConvertToMatrix(numNodes: int, entries: seq<Triple>) returns (res: Result<array2<int>, DriverError>)
    ensures numNodes < 0 <==> res == Err(NegativeDimension(numNodes))
    ensures numNodes >= 0 ==> (res.Ok? <==> forall e :: 0 <= e < |entries| ==> InRange(entries[e], numNodes))
    ensures numNodes >= 0 && res.Err? ==>
      res.error.IndexOutOfRange? && res.error.entry < |entries| &&
      !InRange(entries[res.error.entry], numNodes) &&
      forall e :: 0 <= e < res.error.entry ==> InRange(entries[e], numNodes)
    ensures res.Ok? ==> fresh(res.value) && res.value.Length0 == numNodes && res.value.Length1 == numNodes
    ensures res.Ok? ==> forall x, y :: 0 <= x < numNodes && 0 <= y < numNodes ==>
      res.value[x, y] == LastWrite(entries, numNodes, x, y)
  {
    if numNodes < 0 {
      return Err(NegativeDimension(numNodes));
    }
    var m := new int[numNodes, numNodes]((x, y) => 0);
    for e := 0 to |entries|
      invariant forall e' :: 0 <= e' < e ==> InRange(entries[e'], numNodes)
      invariant forall x, y :: 0 <= x < numNodes && 0 <= y < numNodes ==> m[x, y] == LastWrite(entries[..e], numNodes, x, y)
    {
      var t := entries[e];
      var row := PyIndex(t.row, numNodes);
      if row.None? {
        return Err(IndexOutOfRange(e));
      }
      var col := PyIndex(t.col, numNodes);
      if col.None? {
        return Err(IndexOutOfRange(e));
      }
      assert entries[..e + 1][..e] == entries[..e];
      m[row.value, col.value] := t.val;
    }
    assert entries[..|entries|] == entries;
    return Ok(m);
  }

  // ---------------------------------------------------------------------
  // The adjacency matrix and its transpose (main.py lines 72-80)
  // ---------------------------------------------------------------------

  /** Each edge [u, v] with weight 1 appended. */
  function Weighted(edges: seq<Edge>): (ts: seq<Triple>)
    ensures |ts| == |edges|
  {
    seq(|edges|, e requires 0 <= e < |edges| => Triple(edges[e].u, edges[e].v, 1))
  }

  function Flip(t: Triple): Triple {
    Triple(t.col, t.row, t.val)
  }

  function Transposed(ts: seq<Triple>): (r: seq<Triple>)
    ensures |r| == |ts|
  {
    seq(|ts|, k requires 0 <= k < |ts| => Flip(ts[k]))
  }

  /** Transposing twice gives the triples back. */
  lemma TransposedTwice(ts: seq<Triple>)
    ensures Transposed(Transposed(ts)) == ts
  {
  }

  /** [v, u, w] occurs in the transpose as often as [u, v, w] in the original. */
  lemma {:induction false} TransposedCount(ts: seq<Triple>, t: Triple)
    ensures multiset(Transposed(ts))[Flip(t)] == multiset(ts)[t]
  {
    if |ts| > 0 {
      var pre := ts[..|ts| - 1];
      TransposedCount(pre, t);
      assert ts == pre + [ts[|ts| - 1]];
      assert Transposed(ts) == Transposed(pre) + [Flip(ts[|ts| - 1])];
    }
  }

  /**
   * The loop over edge_list and the two sorts: matrix_A holds every edge
   * with weight 1 and matrix_A_transpose its flipped copy, both sorted by
   * (row, col) and each a permutation of what the loop built.
   */
  method BuildOperands(edges: seq<Edge>) returns (matrixA: seq<Triple>, matrixAT: seq<Triple>)
    ensures SortedBy(matrixA, EntryKey) && multiset(matrixA) == multiset(Weighted(edges))
    ensures SortedBy(matrixAT, EntryKey) && multiset(matrixAT) == multiset(Transposed(Weighted(edges)))
    ensures forall t :: multiset(matrixAT)[Flip(t)] == multiset(matrixA)[t]
    ensures forall t :: t in matrixA ==> t.val == 1
  {
    var unsortedA: seq<Triple> := [];
    var unsortedAT: seq<Triple> := [];
    for e := 0 to |edges|
      invariant unsortedA == Weighted(edges[..e])
      invariant unsortedAT == Transposed(unsortedA)
    {
      var edge := Triple(edges[e].u, edges[e].v, 1);
      unsortedA := unsortedA + [edge];
      unsortedAT := unsortedAT + [Triple(edge.col, edge.row, edge.val)];
    }
    assert edges[..|edges|] == edges;
    matrixA := SortBy(unsortedA, EntryKey);
    matrixAT := SortBy(unsortedAT, EntryKey);
    forall t
      ensures multiset(matrixAT)[Flip(t)] == multiset(matrixA)[t]
    {
      TransposedCount(unsortedA, t);
    }
    forall t | t in matrixA
      ensures t.val == 1
    {
      assert t in multiset(unsortedA);
    }
  }

  /** distribute_coo is not implemented: every call raises. */
  function DistributeCoo(edges: seq<Triple>): (res: Result<seq<seq<Triple>>, DriverError>)
    ensures res.Err? && res.error == Unimplemented
  {
    Err(Unimplemented)
  }
}
