/**
 * The local COO sparse-matrix product `coo_spgemm`: each worker
 * all-gathers the B shards, groups its A triples and all of B by row,
 * multiplies row by row into a per-row list of (column, value) pairs that
 * sums repeated columns in place, and emits the result triples ordered by
 * (row, col). `csr_spgemm` is a stub that always raises.
 */
module SpGemm {
  import opened Wrappers
  import opened Sorting

  /** One stored entry [row, col, val] of a matrix in coordinate form. */
  datatype Triple = Triple(row: int, col: int, val: int)

  /** One (col, val) element of a row list. */
  datatype Pair = Pair(col: int, val: int)

  datatype SpGemmError =
    | MissingRow(k: int)   // the KeyError of matrix_B[k]
    | NotImplemented       // NotImplementedError

  /** A dictionary from a row index to the list of that row's pairs. */
  type Rows = map<int, seq<Pair>>

  // ---------------------------------------------------------------------
  // The all-gathered B (spgemm.py line 10)
  // ---------------------------------------------------------------------

  function TotalLength(shards: seq<seq<Triple>>): nat
  {
    if |shards| == 0 then 0 else TotalLength(shards[..|shards| - 1]) + |shards[|shards| - 1]|
  }

  /** The flattened list of the shards received from every worker. */
  function Flatten(shards: seq<seq<Triple>>): (flat: seq<Triple>)
    ensures |flat| == TotalLength(shards)
  {
    if |shards| == 0 then [] else Flatten(shards[..|shards| - 1]) + shards[|shards| - 1]
  }

  /**
   * The shard of worker w sits, unchanged, right after the shards of the
   * workers before it.
   */
  lemma {:induction false} FlattenShard(shards: seq<seq<Triple>>, w: nat)
    requires w < |shards|
    ensures TotalLength(shards[..w]) + |shards[w]| <= |Flatten(shards)|
    ensures Flatten(shards)[TotalLength(shards[..w])..TotalLength(shards[..w]) + |shards[w]|] == shards[w]
  {
    var last := |shards| - 1;
    var pre := shards[..last];
    if w == last {
      assert shards[..w] == pre;
    } else {
      FlattenShard(pre, w);
      assert pre[..w] == shards[..w];
      var lo := TotalLength(shards[..w]);
      var hi := lo + |shards[w]|;
      assert Flatten(shards)[lo..hi] == Flatten(pre)[lo..hi];
    }
  }

  /** A triple is in the flattened B exactly when some worker's shard holds it. */
  lemma {:induction false} FlattenMembers(shards: seq<seq<Triple>>, t: Triple)
    ensures t in Flatten(shards) <==> exists w :: 0 <= w < |shards| && t in shards[w]
  {
    if |shards| > 0 {
      var last := |shards| - 1;
      var pre := shards[..last];
      FlattenMembers(pre, t);
      if t in Flatten(shards) {
        if t !in shards[last] {
          var w :| 0 <= w < |pre| && t in pre[w];
          assert t in shards[w];
        }
      }
      if exists w :: 0 <= w < |shards| && t in shards[w] {
        var w :| 0 <= w < |shards| && t in shards[w];
        if w < last {
          assert t in pre[w];
        }
      }
    }
  }

  // ---------------------------------------------------------------------
  // Grouping triples by row (spgemm.py lines 24-35)
  // ---------------------------------------------------------------------

  predicate HasRow(ts: seq<Triple>, i: int) {
    exists t :: t in ts && t.row == i
  }

  /** The (col, val) pairs of the triples of row i, in input order. */
  function RowPairs(ts: seq<Triple>, i: int): (ps: seq<Pair>)
    ensures |ps| <= |ts|
  {
    if |ts| == 0 then []
    else
      var t := ts[|ts| - 1];
      RowPairs(ts[..|ts| - 1], i) + (if t.row == i then [Pair(t.col, t.val)] else [])
  }

  /** Every triple of row i reaches row i's list exactly as often as it occurs. */
  lemma {:induction false} RowPairsCount(ts: seq<Triple>, i: int, c: int, v: int)
    ensures multiset(RowPairs(ts, i))[Pair(c, v)] == multiset(ts)[Triple(i, c, v)]
  {
    if |ts| > 0 {
      var pre := ts[..|ts| - 1];
      RowPairsCount(pre, i, c, v);
      assert ts == pre + [ts[|ts| - 1]];
    }
  }

  lemma RowPairsMember(ts: seq<Triple>, i: int, p: Pair)
    ensures p in RowPairs(ts, i) <==> Triple(i, p.col, p.val) in ts
  {
    RowPairsCount(ts, i, p.col, p.val);
    assert p in RowPairs(ts, i) <==> p in multiset(RowPairs(ts, i));
    assert Triple(i, p.col, p.val) in ts <==> Triple(i, p.col, p.val) in multiset(ts);
  }

  lemma RowPairsEmpty(ts: seq<Triple>, i: int)
    ensures RowPairs(ts, i) == [] <==> !HasRow(ts, i)
  {
    var ps := RowPairs(ts, i);
    if ps != [] {
      RowPairsMember(ts, i, ps[0]);
    }
    if HasRow(ts, i) {
      var t :| t in ts && t.row == i;
      RowPairsMember(ts, i, Pair(t.col, t.val));
    }
  }

  /**
   * The loop that fills matrix_A (or matrix_B): a row is a key exactly when
   * some triple lies in it, and its list holds that row's pairs in input
   * order.
   */
  method GroupByRow(ts: seq<Triple>) returns (rows: Rows)
    ensures forall i :: i in rows <==> HasRow(ts, i)
    ensures forall i :: i in rows ==> rows[i] == RowPairs(ts, i)
  {
    rows := map[];
    for m := 0 to |ts|
      invariant forall i :: i in rows <==> HasRow(ts[..m], i)
      invariant forall i :: i in rows ==> rows[i] == RowPairs(ts[..m], i)
    {
      var t := ts[m];
      assert ts[..m + 1][..m] == ts[..m];
      assert ts[..m + 1] == ts[..m] + [t];
      if t.row in rows {
        rows := rows[t.row := rows[t.row] + [Pair(t.col, t.val)]];
      } else {
        RowPairsEmpty(ts[..m], t.row);
        rows := rows[t.row := [Pair(t.col, t.val)]];
      }
    }
    assert ts[..|ts|] == ts;
  }

  // ---------------------------------------------------------------------
  // The product the kernel is meant to compute
  // ---------------------------------------------------------------------

  /** Σ b over the B triples (k, j, b). */
  function ColSum(B: seq<Triple>, k: int, j: int): int
  {
    if |B| == 0 then 0
    else
      var t := B[|B| - 1];
      ColSum(B[..|B| - 1], k, j) + (if t.row == k && t.col == j then t.val else 0)
  }

  /** Σ a·b over the A triples (i, k, a) and the B triples (k, j, b). */
  function ProductEntry(A: seq<Triple>, B: seq<Triple>, i: int, j: int): int
  {
    if |A| == 0 then 0
    else
      var t := A[|A| - 1];
      ProductEntry(A[..|A| - 1], B, i, j) + (if t.row == i then t.val * ColSum(B, t.col, j) else 0)
  }

  predicate Links(B: seq<Triple>, k: int, j: int) {
    exists t :: t in B && t.row == k && t.col == j
  }

  /** Some A triple (i, k, _) meets some B triple (k, j, _): (i, j) is structurally nonzero. */
  predicate Reaches(A: seq<Triple>, B: seq<Triple>, i: int, j: int) {
    exists t :: t in A && t.row == i && Links(B, t.col, j)
  }

  // ---------------------------------------------------------------------
  // Row lists
  // ---------------------------------------------------------------------

  /** Σ val over the pairs of a row list with column j. */
  function SumCol(ps: seq<Pair>, j: int): int
  {
    if |ps| == 0 then 0
    else
      var p := ps[|ps| - 1];
      SumCol(ps[..|ps| - 1], j) + (if p.col == j then p.val else 0)
  }

  /** How many pairs of a row list have column j. */
  function CountCol(ps: seq<Pair>, j: int): nat
  {
    if |ps| == 0 then 0
    else CountCol(ps[..|ps| - 1], j) + (if ps[|ps| - 1].col == j then 1 else 0)
  }

  predicate HasCol(ps: seq<Pair>, j: int) {
    exists p :: p in ps && p.col == j
  }

  predicate DistinctCols(ps: seq<Pair>) {
    forall a, b :: 0 <= a < b < |ps| ==> ps[a].col != ps[b].col
  }

  lemma SumColSnoc(ps: seq<Pair>, p: Pair, j: int)
    ensures SumCol(ps + [p], j) == SumCol(ps, j) + (if p.col == j then p.val else 0)
  {
    assert (ps + [p])[..|ps|] == ps;
  }

  lemma HasColSnoc(ps: seq<Pair>, p: Pair, j: int)
    ensures HasCol(ps + [p], j) <==> HasCol(ps, j) || p.col == j
  {
    if HasCol(ps + [p], j) && p.col != j {
      var x :| x in ps + [p] && x.col == j;
      assert x in ps;
    }
    if HasCol(ps, j) {
      var x :| x in ps && x.col == j;
      assert x in ps + [p];
    }
  }

  /** A column occurs in a row list exactly when it is counted there. */
  lemma {:induction false} CountColPositive(ps: seq<Pair>, j: int)
    ensures CountCol(ps, j) > 0 <==> HasCol(ps, j)
  {
    if |ps| > 0 {
      var pre := ps[..|ps| - 1];
      CountColPositive(pre, j);
      assert ps == pre + [ps[|ps| - 1]];
      HasColSnoc(pre, ps[|ps| - 1], j);
    }
  }

  /** In a row list with distinct columns the last pair's column occurs nowhere before it. */
  lemma LastColFresh(ps: seq<Pair>)
    requires DistinctCols(ps) && |ps| > 0
    ensures DistinctCols(ps[..|ps| - 1])
    ensures !HasCol(ps[..|ps| - 1], ps[|ps| - 1].col)
  {
    var pre := ps[..|ps| - 1];
    forall x | x in pre
      ensures x.col != ps[|ps| - 1].col
    {
      var a :| 0 <= a < |pre| && pre[a] == x;
      assert ps[a] == x;
    }
  }

  /** In a row list with distinct columns every column is counted at most once. */
  lemma {:induction false} CountColDistinct(ps: seq<Pair>, j: int)
    requires DistinctCols(ps)
    ensures CountCol(ps, j) <= 1
  {
    if |ps| > 0 {
      var pre := ps[..|ps| - 1];
      var last := ps[|ps| - 1];
      CountColDistinct(pre, j);
      LastColFresh(ps);
      CountColPositive(pre, j);
    }
  }

  /** In a row list with distinct columns a pair's value is its column's whole sum. */
  lemma {:induction false} DistinctSumCol(ps: seq<Pair>, p: Pair)
    requires DistinctCols(ps) && p in ps
    ensures SumCol(ps, p.col) == p.val
  {
    var pre := ps[..|ps| - 1];
    var last := ps[|ps| - 1];
    assert ps == pre + [last];
    LastColFresh(ps);
    if p == last {
      SumColAbsent(pre, p.col);
    } else {
      assert p in pre;
      DistinctSumCol(pre, p);
      var a :| 0 <= a < |pre| && pre[a] == p;
      assert ps[a].col != ps[|ps| - 1].col;
    }
  }

  lemma {:induction false} SumColAbsent(ps: seq<Pair>, j: int)
    requires !HasCol(ps, j)
    ensures SumCol(ps, j) == 0
  {
    if |ps| > 0 {
      var pre := ps[..|ps| - 1];
      assert ps == pre + [ps[|ps| - 1]];
      HasColSnoc(pre, ps[|ps| - 1], j);
      SumColAbsent(pre, j);
    }
  }

  /** An element found twice in a sequence is counted at least twice. */
  lemma TwiceCounted<T>(s: seq<T>, a: nat, b: nat)
    requires a < b < |s| && s[a] == s[b]
    ensures multiset(s)[s[a]] >= 2
  {
    assert s == s[..b] + s[b..];
    assert s[a] in s[..b];
    assert s[b] in s[b..];
  }

  /** An element counted twice sits at two different positions. */
  lemma TwoPositions<T>(s: seq<T>, x: T) returns (a: nat, b: nat)
    requires multiset(s)[x] >= 2
    ensures a < |s| && b < |s| && a != b && s[a] == x && s[b] == x
  {
    assert x in multiset(s);
    a :| 0 <= a < |s| && s[a] == x;
    assert s == s[..a] + [x] + s[a + 1..];
    assert multiset(s[..a] + s[a + 1..])[x] >= 1;
    if x in s[..a] {
      b :| 0 <= b < a && s[b] == x;
    } else {
      assert x in s[a + 1..];
      var k :| 0 <= k < |s[a + 1..]| && s[a + 1..][k] == x;
      b := a + 1 + k;
    }
  }

  /** Reordering a row list with distinct columns keeps them distinct. */
  lemma PermutedDistinct(s: seq<Pair>, t: seq<Pair>)
    requires multiset(s) == multiset(t) && DistinctCols(t)
    ensures DistinctCols(s)
  {
    forall a, b | 0 <= a < b < |s|
      ensures s[a].col != s[b].col
    {
      var a', b': nat;
      if s[a] == s[b] {
        TwiceCounted(s, a, b);
        a', b' := TwoPositions(t, s[a]);
      } else {
        assert s[a] in multiset(t) && s[b] in multiset(t);
        a' :| 0 <= a' < |t| && t[a'] == s[a];
        b' :| 0 <= b' < |t| && t[b'] == s[b];
      }
      assert t[a'] == s[a] && t[b'] == s[b] && a' != b';
    }
  }

  // ---------------------------------------------------------------------
  // Adding one product into c_i (spgemm.py lines 43-52)
  // ---------------------------------------------------------------------

  function Bumped(p: Pair, j: int, val: int): Pair {
    if p.col == j then Pair(j, p.val + val) else p
  }

  function Mapped(row: seq<Pair>, j: int, val: int): (r: seq<Pair>)
    ensures |r| == |row|
  {
    seq(|row|, m requires 0 <= m < |row| => Bumped(row[m], j, val))
  }

  /**
   * The row list after adding val at column j: every pair of column j gets
   * val added in place, and a new pair (j, val) is appended only when there
   * was none, so the list grows only for a new column.
   */
  function Bump(row: seq<Pair>, j: int, val: int): (r: seq<Pair>)
    ensures |r| == (if HasCol(row, j) then |row| else |row| + 1)
  {
    Mapped(row, j, val) + (if HasCol(row, j) then [] else [Pair(j, val)])
  }

  lemma MappedSnoc(row: seq<Pair>, p: Pair, j: int, val: int)
    ensures Mapped(row + [p], j, val) == Mapped(row, j, val) + [Bumped(p, j, val)]
  {
  }

  /** Adding in place shifts column j's sum by val once per pair of column j. */
  lemma {:induction false} MappedSum(row: seq<Pair>, j: int, val: int, j': int)
    ensures SumCol(Mapped(row, j, val), j') == SumCol(row, j') + (if j' == j then val * CountCol(row, j) else 0)
  {
    if |row| > 0 {
      var pre := row[..|row| - 1];
      var last := row[|row| - 1];
      assert row == pre + [last];
      MappedSum(pre, j, val, j');
      MappedSnoc(pre, last, j, val);
      SumColSnoc(Mapped(pre, j, val), Bumped(last, j, val), j');
      var c := CountCol(pre, j);
      if last.col == j {
        assert CountCol(row, j) == c + 1;
        assert val * (c + 1) == val * c + val;
      } else {
        assert CountCol(row, j) == c;
      }
    }
  }

  /** On a list with distinct columns the update adds val to column j's sum and to nothing else. */
  lemma BumpSum(row: seq<Pair>, j: int, val: int, j': int)
    requires DistinctCols(row)
    ensures SumCol(Bump(row, j, val), j') == SumCol(row, j') + (if j' == j then val else 0)
  {
    MappedSum(row, j, val, j');
    CountColDistinct(row, j);
    CountColPositive(row, j);
    if HasCol(row, j) {
      assert Bump(row, j, val) == Mapped(row, j, val);
    } else {
      SumColSnoc(Mapped(row, j, val), Pair(j, val), j');
    }
  }

  /** The update's columns are the old ones plus j. */
  lemma BumpCols(row: seq<Pair>, j: int, val: int, j': int)
    ensures HasCol(Bump(row, j, val), j') <==> HasCol(row, j') || j' == j
  {
    var m := Mapped(row, j, val);
    assert forall k :: 0 <= k < |row| ==> m[k].col == row[k].col;
    if HasCol(row, j') {
      var x :| x in row && x.col == j';
      var k :| 0 <= k < |row| && row[k] == x;
      assert Bump(row, j, val)[k] == m[k];
    }
    if HasCol(Bump(row, j, val), j') && j' != j {
      var x :| x in Bump(row, j, val) && x.col == j';
      var k :| 0 <= k < |Bump(row, j, val)| && Bump(row, j, val)[k] == x;
      assert row[k].col == j';
    }
    if HasCol(row, j) {
      var x :| x in row && x.col == j;
      var k :| 0 <= k < |row| && row[k] == x;
      assert Bump(row, j, val)[k].col == j;
    } else {
      assert Bump(row, j, val)[|row|] == Pair(j, val);
    }
  }

  /** The update keeps the columns of a row list distinct. */
  lemma BumpDistinct(row: seq<Pair>, j: int, val: int)
    requires DistinctCols(row)
    ensures DistinctCols(Bump(row, j, val))
  {
    var r := Bump(row, j, val);
    forall a, b | 0 <= a < b < |r|
      ensures r[a].col != r[b].col
    {
      assert r[a].col == row[a].col;
      if b == |row| {
        assert !HasCol(row, j);
        assert row[a] in row;
      } else {
        assert r[b].col == row[b].col;
      }
    }
  }

  /**
   * The scan of c_i for column j: the pair of column j gets val added in
   * place; when the scan found none, (j, val) is appended.
   */
  method AddToRow(rowC: seq<Pair>, j: int, val: int) returns (updated: seq<Pair>)
    ensures updated == Bump(rowC, j, val)
  {
    updated := rowC;
    var found := false;
    for idx := 0 to |rowC|
      invariant |updated| == |rowC|
      invariant forall m :: 0 <= m < idx ==> updated[m] == Bumped(rowC[m], j, val)
      invariant forall m :: idx <= m < |rowC| ==> updated[m] == rowC[m]
      invariant found <==> exists m :: 0 <= m < idx && rowC[m].col == j
    {
      if updated[idx].col == j {
        updated := updated[idx := Pair(j, updated[idx].val + val)];
        found := true;
      }
    }
    if found {
      var m :| 0 <= m < |rowC| && rowC[m].col == j;
      assert rowC[m] in rowC;
    } else {
      assert !HasCol(rowC, j);
      updated := updated + [Pair(j, val)];
    }
  }

  // ---------------------------------------------------------------------
  // One row of C (spgemm.py lines 38-52)
  // ---------------------------------------------------------------------

  /** Σ a · ColSum(B, k, j) over the pairs (k, a) of an A row list. */
  function RowDot(aRow: seq<Pair>, B: seq<Triple>, j: int): int
  {
    if |aRow| == 0 then 0
    else
      var p := aRow[|aRow| - 1];
      RowDot(aRow[..|aRow| - 1], B, j) + p.val * ColSum(B, p.col, j)
  }

  predicate RowReaches(aRow: seq<Pair>, B: seq<Triple>, j: int) {
    exists p :: p in aRow && Links(B, p.col, j)
  }

  lemma {:induction false} SumColRowPairs(B: seq<Triple>, k: int, j: int)
    ensures SumCol(RowPairs(B, k), j) == ColSum(B, k, j)
  {
    if |B| > 0 {
      var pre := B[..|B| - 1];
      var t := B[|B| - 1];
      SumColRowPairs(pre, k, j);
      if t.row == k {
        SumColSnoc(RowPairs(pre, k), Pair(t.col, t.val), j);
      } else {
        assert RowPairs(B, k) == RowPairs(pre, k);
      }
    }
  }

  lemma HasColRowPairs(B: seq<Triple>, k: int, j: int)
    ensures HasCol(RowPairs(B, k), j) <==> Links(B, k, j)
  {
    if HasCol(RowPairs(B, k), j) {
      var p :| p in RowPairs(B, k) && p.col == j;
      RowPairsMember(B, k, p);
    }
    if Links(B, k, j) {
      var t :| t in B && t.row == k && t.col == j;
      RowPairsMember(B, k, Pair(t.col, t.val));
    }
  }

  lemma RowDotSnoc(aRow: seq<Pair>, p: Pair, B: seq<Triple>, j: int)
    ensures RowDot(aRow + [p], B, j) == RowDot(aRow, B, j) + p.val * ColSum(B, p.col, j)
  {
    assert (aRow + [p])[..|aRow|] == aRow;
  }

  /** Summing over row i's list of A is summing over A's triples of row i. */
  lemma {:induction false} RowDotRowPairs(A: seq<Triple>, B: seq<Triple>, i: int, j: int)
    ensures RowDot(RowPairs(A, i), B, j) == ProductEntry(A, B, i, j)
  {
    if |A| > 0 {
      var pre := A[..|A| - 1];
      var t := A[|A| - 1];
      RowDotRowPairs(pre, B, i, j);
      if t.row == i {
        RowDotSnoc(RowPairs(pre, i), Pair(t.col, t.val), B, j);
      } else {
        assert RowPairs(A, i) == RowPairs(pre, i);
      }
    }
  }

  lemma RowReachesRowPairs(A: seq<Triple>, B: seq<Triple>, i: int, j: int)
    ensures RowReaches(RowPairs(A, i), B, j) <==> Reaches(A, B, i, j)
  {
    if RowReaches(RowPairs(A, i), B, j) {
      var p :| p in RowPairs(A, i) && Links(B, p.col, j);
      RowPairsMember(A, i, p);
      assert Triple(i, p.col, p.val) in A;
    }
    if Reaches(A, B, i, j) {
      var t :| t in A && t.row == i && Links(B, t.col, j);
      RowPairsMember(A, i, Pair(t.col, t.val));
    }
  }

  lemma RowReachesSnoc(aRow: seq<Pair>, p: Pair, B: seq<Triple>, j: int)
    ensures RowReaches(aRow + [p], B, j) <==> RowReaches(aRow, B, j) || Links(B, p.col, j)
  {
    if RowReaches(aRow + [p], B, j) && !Links(B, p.col, j) {
      var x :| x in aRow + [p] && Links(B, x.col, j);
      assert x in aRow;
    }
    if RowReaches(aRow, B, j) {
      var x :| x in aRow && Links(B, x.col, j);
      assert x in aRow + [p];
    }
  }

  /** c_i after the A pairs aRow: its columns and sums are those of the product row. */
  ghost predicate RowDone(row: seq<Pair>, aRow: seq<Pair>, B: seq<Triple>) {
    && DistinctCols(row)
    && (forall j :: SumCol(row, j) == RowDot(aRow, B, j))
    && (forall j :: HasCol(row, j) <==> RowReaches(aRow, B, j))
  }

  /** c_i after the A pairs aRow and the first pairs bRow of b_k for the next pair (k, wA). */
  ghost predicate Partial(row: seq<Pair>, aRow: seq<Pair>, wA: int, bRow: seq<Pair>, B: seq<Triple>) {
    && DistinctCols(row)
    && (forall j :: SumCol(row, j) == RowDot(aRow, B, j) + wA * SumCol(bRow, j))
    && (forall j :: HasCol(row, j) <==> RowReaches(aRow, B, j) || HasCol(bRow, j))
  }

  lemma PartialStart(row: seq<Pair>, aRow: seq<Pair>, wA: int, B: seq<Triple>)
    requires RowDone(row, aRow, B)
    ensures Partial(row, aRow, wA, [], B)
  {
  }

  lemma PartialStep(row: seq<Pair>, aRow: seq<Pair>, wA: int, bRow: seq<Pair>, x: Pair, B: seq<Triple>)
    requires Partial(row, aRow, wA, bRow, B)
    ensures Partial(Bump(row, x.col, wA * x.val), aRow, wA, bRow + [x], B)
  {
    var r := Bump(row, x.col, wA * x.val);
    BumpDistinct(row, x.col, wA * x.val);
    forall j
      ensures SumCol(r, j) == RowDot(aRow, B, j) + wA * SumCol(bRow + [x], j)
    {
      BumpSum(row, x.col, wA * x.val, j);
      SumColSnoc(bRow, x, j);
      var e := if x.col == j then x.val else 0;
      assert wA * (SumCol(bRow, j) + e) == wA * SumCol(bRow, j) + wA * e;
    }
    forall j
      ensures HasCol(r, j) <==> RowReaches(aRow, B, j) || HasCol(bRow + [x], j)
    {
      BumpCols(row, x.col, wA * x.val, j);
      HasColSnoc(bRow, x, j);
    }
  }

  lemma RowDoneStep(row: seq<Pair>, aRow: seq<Pair>, p: Pair, B: seq<Triple>)
    requires Partial(row, aRow, p.val, RowPairs(B, p.col), B)
    ensures RowDone(row, aRow + [p], B)
  {
    forall j
      ensures SumCol(row, j) == RowDot(aRow + [p], B, j)
    {
      SumColRowPairs(B, p.col, j);
      RowDotSnoc(aRow, p, B, j);
    }
    forall j
      ensures HasCol(row, j) <==> RowReaches(aRow + [p], B, j)
    {
      HasColRowPairs(B, p.col, j);
      RowReachesSnoc(aRow, p, B, j);
    }
  }

  function Cur(mC: Rows, i: int): seq<Pair> {
    if i in mC then mC[i] else []
  }

  /**
   * The loop over (j, wB) in matrix_B[k] for one A pair (k, wA): c_i gets
   * wA·wB at column j for each of them, created when row i is not yet a key
   * of matrix_C. No other key of matrix_C changes.
   */
  method AddScaledRow(mC: Rows, i: int, wA: int, rowB: seq<Pair>, ghost aRow: seq<Pair>, ghost B: seq<Triple>, ghost others: Rows)
    returns (mC': Rows)
    requires mC - {i} == others && (i in mC ==> mC[i] != [])
    requires RowDone(Cur(mC, i), aRow, B)
    ensures mC' - {i} == others && (i in mC' ==> mC'[i] != [])
    ensures Partial(Cur(mC', i), aRow, wA, rowB, B)
  {
    mC' := mC;
    PartialStart(Cur(mC', i), aRow, wA, B);
    for e := 0 to |rowB|
      invariant mC' - {i} == others
      invariant i in mC' ==> mC'[i] != []
      invariant Partial(Cur(mC', i), aRow, wA, rowB[..e], B)
    {
      var j, val := rowB[e].col, wA * rowB[e].val;
      var updated: seq<Pair>;
      if i !in mC' {
        updated := [Pair(j, val)];
        assert updated == Bump([], j, val);
      } else {
        updated := AddToRow(mC'[i], j, val);
      }
      PartialStep(Cur(mC', i), aRow, wA, rowB[..e], rowB[e], B);
      assert rowB[..e + 1] == rowB[..e] + [rowB[e]];
      assert mC'[i := updated] - {i} == mC' - {i};
      mC' := mC'[i := updated];
    }
    assert rowB[..|rowB|] == rowB;
  }

  /**
   * The body of the loop over A's row i: for every (k, wA) of valA and every
   * (j, wB) of matrix_B[k], wA·wB goes into c_i. A k that is not a row of B
   * raises the KeyError. On success only key i of matrix_C is new, and c_i
   * has distinct columns, holds exactly the reachable columns, and sums to
   * the product row.
   */
  method AccumulateRow(matrixC: Rows, i: int, valA: seq<Pair>, matrixB: Rows, ghost B: seq<Triple>)
    returns (res: Result<Rows, SpGemmError>)
    requires i !in matrixC
    requires forall k :: k in matrixB <==> HasRow(B, k)
    requires forall k :: k in matrixB ==> matrixB[k] == RowPairs(B, k)
    ensures res.Err? <==> exists p :: p in valA && !HasRow(B, p.col)
    ensures res.Err? ==> res.error.MissingRow? && !HasRow(B, res.error.k) && exists p :: p in valA && p.col == res.error.k
    ensures res.Ok? ==> res.value - {i} == matrixC
    ensures res.Ok? ==> (i in res.value ==> res.value[i] != []) && RowDone(Cur(res.value, i), valA, B)
  {
    var mC := matrixC;
    for p := 0 to |valA|
      invariant mC - {i} == matrixC
      invariant i in mC ==> mC[i] != []
      invariant forall n :: 0 <= n < p ==> HasRow(B, valA[n].col)
      invariant RowDone(Cur(mC, i), valA[..p], B)
    {
      var k, wA := valA[p].col, valA[p].val;
      if k !in matrixB {
        assert valA[p] in valA;
        return Err(MissingRow(k));
      }
      var rowB := matrixB[k];
      mC := AddScaledRow(mC, i, wA, rowB, valA[..p], B, matrixC);
      RowDoneStep(Cur(mC, i), valA[..p], valA[p], B);
      assert valA[..p + 1] == valA[..p] + [valA[p]];
    }
    assert valA[..|valA|] == valA;
    return Ok(mC);
  }

  // ---------------------------------------------------------------------
  // Emitting C (spgemm.py lines 54-59)
  // ---------------------------------------------------------------------

  function ColKey(p: Pair): Key {
    Key(p.col, 0)
  }

  function EntryKey(t: Triple): Key {
    Key(t.row, t.col)
  }

  /** Strictly ascending by (row, col): in particular no (row, col) twice. */
  predicate Ascending(ts: seq<Triple>) {
    forall a, b :: 0 <= a < b < |ts| ==> KeyLt(EntryKey(ts[a]), EntryKey(ts[b]))
  }

  predicate HasEntry(ts: seq<Triple>, i: int, j: int) {
    exists t :: t in ts && t.row == i && t.col == j
  }

  /**
   * One row of the emission: the row list is sorted by column and each of
   * its pairs appended as a triple of row i. Given a list with distinct
   * columns and earlier output of smaller rows only, the output stays
   * strictly ascending and gains exactly the pairs of row i.
   */
  method EmitRow(out: seq<Triple>, i: int, valC: seq<Pair>) returns (out': seq<Triple>)
    requires Ascending(out) && DistinctCols(valC)
    requires forall t :: t in out ==> t.row < i
    ensures Ascending(out')
    ensures forall t :: t in out' <==> t in out || (t.row == i && Pair(t.col, t.val) in valC)
  {
    var row := SortBy(valC, ColKey);
    PermutedDistinct(row, valC);
    out' := out;
    for m := 0 to |row|
      invariant Ascending(out')
      invariant forall t :: t in out' <==> t in out || (t.row == i && Pair(t.col, t.val) in row[..m])
    {
      var t := Triple(i, row[m].col, row[m].val);
      forall u | u in out'
        ensures KeyLt(EntryKey(u), EntryKey(t))
      {
        if u !in out {
          var m' :| 0 <= m' < m && row[m'] == Pair(u.col, u.val);
        }
      }
      assert row[..m + 1] == row[..m] + [row[m]];
      out' := out' + [t];
    }
    assert row[..|row|] == row;
    assert forall p :: p in row <==> p in multiset(valC);
  }

  /**
   * The emission loop: the rows of matrix_C in sorted order, each row list
   * sorted by column, one [i, j, v] per pair. The output is strictly
   * ascending, every triple comes from a pair of matrix_C, and (i, j) is
   * emitted exactly when row i of matrix_C has column j.
   */
  method EmitSorted(matrixC: Rows) returns (out: seq<Triple>)
    requires forall i :: i in matrixC ==> DistinctCols(matrixC[i])
    ensures Ascending(out)
    ensures forall t :: t in out ==> t.row in matrixC && Pair(t.col, t.val) in matrixC[t.row]
    ensures forall i, j :: HasEntry(out, i, j) <==> i in matrixC && HasCol(matrixC[i], j)
  {
    var keys := SortedKeys(matrixC.Keys);
    out := [];
    for r := 0 to |keys|
      invariant Ascending(out)
      invariant forall t :: t in out ==> t.row in keys[..r] && Pair(t.col, t.val) in matrixC[t.row]
      invariant forall i, j :: HasEntry(out, i, j) <==> i in keys[..r] && HasCol(matrixC[i], j)
    {
      var i := keys[r];
      forall t | t in out
        ensures t.row < i
      {
        var r' :| 0 <= r' < r && keys[r'] == t.row;
      }
      ghost var prev := out;
      out := EmitRow(out, i, matrixC[i]);
      assert keys[..r + 1] == keys[..r] + [i];
      forall i', j
        ensures HasEntry(out, i', j) <==> i' in keys[..r + 1] && HasCol(matrixC[i'], j)
      {
        if HasEntry(out, i', j) {
          var t :| t in out && t.row == i' && t.col == j;
          if t !in prev {
            assert Pair(t.col, t.val) in matrixC[i];
          }
        }
        if i' in keys[..r + 1] && HasCol(matrixC[i'], j) {
          if i' == i {
            var p :| p in matrixC[i] && p.col == j;
            assert Triple(i, p.col, p.val) in out;
          } else {
            assert HasEntry(prev, i', j);
            var t :| t in prev && t.row == i' && t.col == j;
            assert t in out;
          }
        }
      }
    }
    assert keys[..|keys|] == keys;
  }

  // ---------------------------------------------------------------------
  // coo_spgemm and csr_spgemm
  // ---------------------------------------------------------------------

  /** Some A triple names a column k for which B holds no row. */
  predicate Missing(A: seq<Triple>, B: seq<Triple>, k: int) {
    !HasRow(B, k) && exists t :: t in A && t.col == k
  }

  /**
   * The loop over sorted(matrix_A.items()): row by row, c_i is built from
   * row i of A and the rows of B. It fails exactly when an A triple's
   * column is not a row of B; otherwise matrix_C has exactly the rows of A,
   * and each c_i is the product row.
   */
  method MultiplyRows(matrixA: Rows, matrixB: Rows, ghost A: seq<Triple>, ghost B: seq<Triple>)
    returns (res: Result<Rows, SpGemmError>)
    requires forall i :: i in matrixA <==> HasRow(A, i)
    requires forall i :: i in matrixA ==> matrixA[i] == RowPairs(A, i)
    requires forall k :: k in matrixB <==> HasRow(B, k)
    requires forall k :: k in matrixB ==> matrixB[k] == RowPairs(B, k)
    ensures res.Err? <==> exists t :: t in A && !HasRow(B, t.col)
    ensures res.Err? ==> res.error.MissingRow? && Missing(A, B, res.error.k)
    ensures res.Ok? ==> forall i :: i in res.value <==> HasRow(A, i)
    ensures res.Ok? ==> forall i :: i in res.value ==> RowDone(res.value[i], RowPairs(A, i), B)
  {
    var keysA := SortedKeys(matrixA.Keys);
    var matrixC: Rows := map[];
    for r := 0 to |keysA|
      invariant forall i :: i in matrixC <==> i in keysA[..r]
      invariant Built(matrixC, matrixA, B)
    {
      var i := keysA[r];
      assert i !in keysA[..r];
      var acc := AccumulateRow(matrixC, i, matrixA[i], matrixB, B);
      if acc.Err? {
        MissingFromRow(A, B, i, acc.error.k);
        return Err(acc.error);
      }
      var j := AllRowsFound(A, B, i, matrixA[i]);
      if i !in acc.value {
        assert false;
      }
      BuiltStep(matrixC, acc.value, i, matrixA, B);
      matrixC := acc.value;
      assert keysA[..r + 1] == keysA[..r] + [i];
    }
    assert keysA[..|keysA|] == keysA;
    BuiltFindsAll(matrixC, matrixA, A, B);
    return Ok(matrixC);
  }

  /** The rows of matrix_C built so far are product rows of rows of A whose columns B has. */
  ghost predicate Built(matrixC: Rows, matrixA: Rows, B: seq<Triple>) {
    forall i :: i in matrixC ==>
      && i in matrixA
      && RowDone(matrixC[i], matrixA[i], B)
      && (forall p :: p in matrixA[i] ==> HasRow(B, p.col))
  }

  lemma BuiltStep(matrixC: Rows, next: Rows, i: int, matrixA: Rows, B: seq<Triple>)
    requires Built(matrixC, matrixA, B) && i in next && next - {i} == matrixC && i in matrixA
    requires RowDone(next[i], matrixA[i], B)
    requires forall p :: p in matrixA[i] ==> HasRow(B, p.col)
    ensures Built(next, matrixA, B)
  {
    forall i' | i' in next && i' != i
      ensures i' in matrixC && next[i'] == matrixC[i']
    {
      assert i' in next - {i};
    }
  }

  /** When every row of A is built, every column named in A is a row of B. */
  lemma BuiltFindsAll(matrixC: Rows, matrixA: Rows, A: seq<Triple>, B: seq<Triple>)
    requires forall i :: i in matrixA <==> HasRow(A, i)
    requires forall i :: i in matrixA ==> matrixA[i] == RowPairs(A, i) && i in matrixC
    requires Built(matrixC, matrixA, B)
    ensures forall t :: t in A ==> HasRow(B, t.col)
  {
    forall t | t in A
      ensures HasRow(B, t.col)
    {
      assert t.row in matrixA;
      RowPairsMember(A, t.row, Pair(t.col, t.val));
    }
  }

  /** A column k of row i's list that B lacks is a Missing column of A. */
  lemma MissingFromRow(A: seq<Triple>, B: seq<Triple>, i: int, k: int)
    requires !HasRow(B, k) && exists p :: p in RowPairs(A, i) && p.col == k
    ensures Missing(A, B, k)
  {
    var p :| p in RowPairs(A, i) && p.col == k;
    RowPairsMember(A, i, p);
  }

  /**
   * coo_spgemm on one worker, given its A triples and the B shards of all
   * workers in rank order. It fails, with the KeyError, exactly when an A
   * triple's column is not a row of B. Otherwise the output is strictly
   * ascending by (row, col), holds (i, j) exactly when some A triple
   * (i, k, _) meets some B triple (k, j, _) (even when the sum is zero), and
   * its value there is the sum of a·b over those pairs of triples.
   */
  method CooSpGemm(A: seq<Triple>, shards: seq<seq<Triple>>) returns (res: Result<seq<Triple>, SpGemmError>)
    ensures res.Err? <==> exists t :: t in A && !HasRow(Flatten(shards), t.col)
    ensures res.Err? ==> res.error.MissingRow? && Missing(A, Flatten(shards), res.error.k)
    ensures res.Ok? ==> Ascending(res.value)
    ensures res.Ok? ==> forall t :: t in res.value ==> t.val == ProductEntry(A, Flatten(shards), t.row, t.col)
    ensures res.Ok? ==> forall i, j :: HasEntry(res.value, i, j) <==> Reaches(A, Flatten(shards), i, j)
  {
    var fullB := Flatten(shards);
    var matrixA := GroupByRow(A);
    var matrixB := GroupByRow(fullB);
    var product := MultiplyRows(matrixA, matrixB, A, fullB);
    if product.Err? {
      return Err(product.error);
    }
    var matrixC := product.value;
    var out := EmitSorted(matrixC);
    forall t | t in out
      ensures t.val == ProductEntry(A, fullB, t.row, t.col)
    {
      DistinctSumCol(matrixC[t.row], Pair(t.col, t.val));
      RowDotRowPairs(A, fullB, t.row, t.col);
    }
    forall i, j
      ensures HasEntry(out, i, j) <==> Reaches(A, fullB, i, j)
    {
      RowReachesRowPairs(A, fullB, i, j);
      if Reaches(A, fullB, i, j) {
        var t :| t in A && t.row == i && Links(fullB, t.col, j);
      }
    }
    return Ok(out);
  }

  /**
   * Row i of A, when all its columns are rows of B, reaches some column:
   * the row list of C is never left empty.
   */
  lemma AllRowsFound(A: seq<Triple>, B: seq<Triple>, i: int, valA: seq<Pair>) returns (j: int)
    requires valA == RowPairs(A, i) && HasRow(A, i)
    requires forall p :: p in valA ==> HasRow(B, p.col)
    ensures RowReaches(valA, B, j)
  {
    RowPairsEmpty(A, i);
    var p := valA[0];
    assert HasRow(B, p.col);
    var t :| t in B && t.row == p.col;
    j := t.col;
  }

  /** csr_spgemm is not implemented: every call raises. */
  function CsrSpGemm(A: seq<Triple>, B: seq<Triple>): (res: Result<seq<Triple>, SpGemmError>)
    ensures res.Err? && res.error == NotImplemented
  {
    Err(NotImplemented)
  }
}
