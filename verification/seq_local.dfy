/** Smith-Waterman local alignment of two character sequences:
    `__local_cmp`, `__local_align` and `local_align` of src/compbio/seq.py.
    The recurrence is the global one floored at zero; every cell whose score
    reaches the threshold is a candidate, and the candidates are listed by
    descending score, ties in row-major order. */
module SeqLocal {
  import opened SeqMatrix
  import opened Wrappers
  import SeqGlobal

  /** The minimum score `local_align` asks of a candidate by default. */
  const DefaultThreshold: int := 2

  /** The value the local score matrix holds at row i, column j: zero on the
      first row and column, and Best floored at zero inside. */
  function LocalCell(seq1: string, seq2: string, i: nat, j: nat): (r: int)
    requires i <= |seq1| && j <= |seq2|
    decreases i + j
  {
    if i == 0 || j == 0 then 0
    else Max(Best(LocalCell(seq1, seq2, i - 1, j), LocalCell(seq1, seq2, i - 1, j - 1),
                  LocalCell(seq1, seq2, i, j - 1), seq1[i - 1], seq2[j - 1]), 0)
  }

  /** Every local score is non-negative. */
  lemma LocalCellNonNegative(seq1: string, seq2: string, i: nat, j: nat)
    requires i <= |seq1| && j <= |seq2|
    ensures LocalCell(seq1, seq2, i, j) >= 0
  {
  }

  /** The interior cell (a, b) of `score` follows the local recurrence. */
  ghost predicate IsLocalStep(seq1: string, seq2: string, score: array2<int>, a: nat, b: nat)
    reads score
    requires 1 <= a <= |seq1| && 1 <= b <= |seq2|
    requires score.Length0 == |seq1| + 1 && score.Length1 == |seq2| + 1
  {
    score[a, b] == Max(Best(score[a - 1, b], score[a - 1, b - 1], score[a, b - 1], seq1[a - 1], seq2[b - 1]), 0)
  }

  /** The cells of the matrix, (row, column). */
  type Cell = (nat, nat)

  /** c comes before d when the matrix is read row by row. */
  predicate RowMajorBefore(c: Cell, d: Cell) {
    c.0 < d.0 || (c.0 == d.0 && c.1 < d.1)
  }

  /** `score` has the local matrix's shape, a zero first row and column, and
      every interior cell (a, b) that comes before (i, j) row by row follows
      the local recurrence. */
  ghost predicate FilledBefore(seq1: string, seq2: string, score: array2<int>, i: nat, j: nat)
    reads score
  {
    score.Length0 == |seq1| + 1 && score.Length1 == |seq2| + 1 &&
    (forall a :: 0 <= a <= |seq1| ==> score[a, 0] == 0) &&
    (forall b :: 0 <= b <= |seq2| ==> score[0, b] == 0) &&
    forall a, b :: 1 <= a <= |seq1| && 1 <= b <= |seq2| && RowMajorBefore((a, b), (i, j)) ==>
      IsLocalStep(seq1, seq2, score, a, b)
  }

  /** The whole local score matrix follows the recurrence. */
  ghost predicate IsLocalMatrix(seq1: string, seq2: string, score: array2<int>)
    reads score
  {
    FilledBefore(seq1, seq2, score, |seq1| + 1, 1)
  }

  /** A cell of a partly filled matrix that is on the boundary or already
      filled holds LocalCell. */
  lemma {:induction false} FilledCells(seq1: string, seq2: string, score: array2<int>, i: nat, j: nat, a: nat, b: nat)
    requires FilledBefore(seq1, seq2, score, i, j)
    requires a <= |seq1| && b <= |seq2|
    requires a == 0 || b == 0 || RowMajorBefore((a, b), (i, j))
    ensures score[a, b] == LocalCell(seq1, seq2, a, b)
    decreases a + b
  {
    if a > 0 && b > 0 {
      FilledCells(seq1, seq2, score, i, j, a - 1, b);
      FilledCells(seq1, seq2, score, i, j, a - 1, b - 1);
      FilledCells(seq1, seq2, score, i, j, a, b - 1);
      assert IsLocalStep(seq1, seq2, score, a, b);
    }
  }

  predicate IsCell(seq1: string, seq2: string, c: Cell) {
    1 <= c.0 <= |seq1| && 1 <= c.1 <= |seq2|
  }

  /** The local score of an interior cell. */
  function Value(seq1: string, seq2: string, c: Cell): int
    requires IsCell(seq1, seq2, c)
  {
    LocalCell(seq1, seq2, c.0, c.1)
  }

  /** `__local_cmp` keeps an interior cell whose score reaches the threshold. */
  ghost predicate IsCandidate(seq1: string, seq2: string, threshold: int, c: Cell) {
    IsCell(seq1, seq2, c) && Value(seq1, seq2, c) >= threshold
  }

  /** c is listed before d: a higher score, or the same score and earlier
      row by row. */
  ghost predicate Ahead(seq1: string, seq2: string, c: Cell, d: Cell) {
    IsCell(seq1, seq2, c) && IsCell(seq1, seq2, d) &&
    (Value(seq1, seq2, c) > Value(seq1, seq2, d) ||
     (Value(seq1, seq2, c) == Value(seq1, seq2, d) && RowMajorBefore(c, d)))
  }

  /** The candidate `local_align` traces back from: ahead of every other. */
  ghost predicate IsBest(seq1: string, seq2: string, threshold: int, c: Cell) {
    IsCandidate(seq1, seq2, threshold, c) &&
    forall d: Cell :: IsCandidate(seq1, seq2, threshold, d) && d != c ==> Ahead(seq1, seq2, c, d)
  }

  /** The best candidate is unique, so `local_align` is determined. */
  lemma BestUnique(seq1: string, seq2: string, threshold: int, c: Cell, d: Cell)
    requires IsBest(seq1, seq2, threshold, c) && IsBest(seq1, seq2, threshold, d)
    ensures c == d
  {
  }

  ghost predicate SortedRowMajor(s: seq<Cell>) {
    forall p, q :: 0 <= p < q < |s| ==> RowMajorBefore(s[p], s[q])
  }

  /** The cells of row a, before column b, whose local score is v, in
      column order. */
  ghost function RowBucket(seq1: string, seq2: string, v: int, a: nat, b: nat): seq<Cell>
    requires 1 <= a && 1 <= b <= |seq2| + 1 && (b > 1 ==> a <= |seq1|)
    decreases b
  {
    if b == 1 then []
    else RowBucket(seq1, seq2, v, a, b - 1) + (if LocalCell(seq1, seq2, a, b - 1) == v then [(a, b - 1)] else [])
  }

  /** The interior cells of the rows before a whose local score is v, row by
      row. */
  ghost function Bucket(seq1: string, seq2: string, v: int, a: nat): seq<Cell>
    requires 1 <= a <= |seq1| + 1
    decreases a
  {
    if a == 1 then [] else Bucket(seq1, seq2, v, a - 1) + RowBucket(seq1, seq2, v, a - 1, |seq2| + 1)
  }

  /** The cells with score v that come before (i, j), as `__local_cmp`
      holds them in `max_scores[v]` when it reaches (i, j). */
  ghost function Before(seq1: string, seq2: string, v: int, i: nat, j: nat): seq<Cell>
    requires 1 <= i <= |seq1| + 1 && 1 <= j <= |seq2| + 1 && (j > 1 ==> i <= |seq1|)
  {
    Bucket(seq1, seq2, v, i) + RowBucket(seq1, seq2, v, i, j)
  }

  lemma SortedAppend(s: seq<Cell>, t: seq<Cell>)
    requires SortedRowMajor(s) && SortedRowMajor(t)
    requires forall x, y :: x in s && y in t ==> RowMajorBefore(x, y)
    ensures SortedRowMajor(s + t)
  {
    forall p, q | 0 <= p < q < |s + t| ensures RowMajorBefore((s + t)[p], (s + t)[q]) {
      if q < |s| {
      } else if p >= |s| {
        assert (s + t)[p] == t[p - |s|];
      } else {
        assert (s + t)[p] in s && (s + t)[q] in t;
      }
    }
  }

  /** RowBucket holds exactly the cells of row a before column b scoring v,
      in column order. */
  lemma {:induction false} RowBucketSpec(seq1: string, seq2: string, v: int, a: nat, b: nat)
    requires 1 <= a && 1 <= b <= |seq2| + 1 && (b > 1 ==> a <= |seq1|)
    ensures forall c: Cell :: c in RowBucket(seq1, seq2, v, a, b) <==>
      c.0 == a && 1 <= c.1 < b && LocalCell(seq1, seq2, a, c.1) == v
    ensures SortedRowMajor(RowBucket(seq1, seq2, v, a, b))
    decreases b
  {
    if b > 1 {
      RowBucketSpec(seq1, seq2, v, a, b - 1);
      var tail: seq<Cell> := if LocalCell(seq1, seq2, a, b - 1) == v then [(a, b - 1)] else [];
      SortedAppend(RowBucket(seq1, seq2, v, a, b - 1), tail);
    }
  }

  /** Bucket holds exactly the interior cells above row a scoring v, row by
      row. */
  lemma {:induction false} BucketSpec(seq1: string, seq2: string, v: int, a: nat)
    requires 1 <= a <= |seq1| + 1
    ensures forall c: Cell :: c in Bucket(seq1, seq2, v, a) <==>
      IsCell(seq1, seq2, c) && c.0 < a && Value(seq1, seq2, c) == v
    ensures SortedRowMajor(Bucket(seq1, seq2, v, a))
    decreases a
  {
    if a > 1 {
      BucketSpec(seq1, seq2, v, a - 1);
      RowBucketSpec(seq1, seq2, v, a - 1, |seq2| + 1);
      SortedAppend(Bucket(seq1, seq2, v, a - 1), RowBucket(seq1, seq2, v, a - 1, |seq2| + 1));
    }
  }

  /** What `max_scores` holds when `__local_cmp` reaches (i, j): for each
      score at or above the threshold met so far, the cells that scored it,
      row by row; and no key for a score no earlier cell met. */
  ghost predicate Collected(seq1: string, seq2: string, threshold: int, m: map<int, seq<Cell>>, i: nat, j: nat)
    requires 1 <= i <= |seq1| + 1 && 1 <= j <= |seq2| + 1 && (j > 1 ==> i <= |seq1|)
  {
    (forall v :: v in m ==> v >= threshold && m[v] == Before(seq1, seq2, v, i, j)) &&
    (forall v :: v >= threshold && v !in m ==> Before(seq1, seq2, v, i, j) == []) &&
    (forall c: Cell :: IsCell(seq1, seq2, c) && RowMajorBefore(c, (i, j)) && Value(seq1, seq2, c) >= threshold ==>
       Value(seq1, seq2, c) in m)
  }

  /** How `__local_cmp` records cell c of score v in `max_scores`: appended
      to the list under v when v reaches the threshold, which starts the
      list if v is not yet a key. */
  function Record(m: map<int, seq<Cell>>, threshold: int, v: int, c: Cell): map<int, seq<Cell>>
  {
    if v < threshold then m
    else if v in m then m[v := m[v] + [c]]
    else m[v := [c]]
  }

  /** Recording a cell below the threshold changes nothing. At or above
      it the cell is appended to its score's list, a new key is created when
      the score is new, and every other score keeps its list. */
  lemma RecordSpec(m: map<int, seq<Cell>>, threshold: int, v: int, c: Cell)
    ensures v < threshold ==> Record(m, threshold, v, c) == m
    ensures v >= threshold ==> Record(m, threshold, v, c).Keys == m.Keys + {v}
    ensures v >= threshold ==> Record(m, threshold, v, c)[v] == (if v in m then m[v] else []) + [c]
    ensures forall k :: k in m && k != v ==> k in Record(m, threshold, v, c) && Record(m, threshold, v, c)[k] == m[k]
  {
  }

  /** Stepping from (i, j - 1) to (i, j) adds (i, j - 1) to the cells of
      its own score and to no other. */
  lemma BeforeNext(seq1: string, seq2: string, w: int, i: nat, j: nat)
    requires 1 <= i <= |seq1| && 2 <= j <= |seq2| + 1
    ensures Before(seq1, seq2, w, i, j) ==
      Before(seq1, seq2, w, i, j - 1) + (if LocalCell(seq1, seq2, i, j - 1) == w then [(i, j - 1)] else [])
  {
  }

  /** Recording cell (i, j - 1) as `__local_cmp` does keeps Collected. */
  lemma CollectStep(seq1: string, seq2: string, threshold: int, m: map<int, seq<Cell>>, m': map<int, seq<Cell>>, i: nat, j: nat)
    requires 1 <= i <= |seq1| && 2 <= j <= |seq2| + 1
    requires Collected(seq1, seq2, threshold, m, i, j - 1)
    requires m' == Record(m, threshold, LocalCell(seq1, seq2, i, j - 1), (i, j - 1))
    ensures Collected(seq1, seq2, threshold, m', i, j)
  {
    CollectKeys(seq1, seq2, threshold, m, m', i, j);
    CollectMissing(seq1, seq2, threshold, m, m', i, j);
    CollectCells(seq1, seq2, threshold, m, m', i, j);
  }

  lemma CollectKeys(seq1: string, seq2: string, threshold: int, m: map<int, seq<Cell>>, m': map<int, seq<Cell>>, i: nat, j: nat)
    requires 1 <= i <= |seq1| && 2 <= j <= |seq2| + 1
    requires Collected(seq1, seq2, threshold, m, i, j - 1)
    requires m' == Record(m, threshold, LocalCell(seq1, seq2, i, j - 1), (i, j - 1))
    ensures forall w :: w in m' ==> w >= threshold && m'[w] == Before(seq1, seq2, w, i, j)
  {
    forall w | w in m' ensures w >= threshold && m'[w] == Before(seq1, seq2, w, i, j) {
      BeforeNext(seq1, seq2, w, i, j);
    }
  }

  lemma CollectMissing(seq1: string, seq2: string, threshold: int, m: map<int, seq<Cell>>, m': map<int, seq<Cell>>, i: nat, j: nat)
    requires 1 <= i <= |seq1| && 2 <= j <= |seq2| + 1
    requires Collected(seq1, seq2, threshold, m, i, j - 1)
    requires m' == Record(m, threshold, LocalCell(seq1, seq2, i, j - 1), (i, j - 1))
    ensures forall w :: w >= threshold && w !in m' ==> Before(seq1, seq2, w, i, j) == []
  {
    forall w | w >= threshold && w !in m' ensures Before(seq1, seq2, w, i, j) == [] {
      BeforeNext(seq1, seq2, w, i, j);
    }
  }

  lemma CollectCells(seq1: string, seq2: string, threshold: int, m: map<int, seq<Cell>>, m': map<int, seq<Cell>>, i: nat, j: nat)
    requires 1 <= i <= |seq1| && 2 <= j <= |seq2| + 1
    requires Collected(seq1, seq2, threshold, m, i, j - 1)
    requires m' == Record(m, threshold, LocalCell(seq1, seq2, i, j - 1), (i, j - 1))
    ensures forall c: Cell :: IsCell(seq1, seq2, c) && RowMajorBefore(c, (i, j)) && Value(seq1, seq2, c) >= threshold ==>
      Value(seq1, seq2, c) in m'
  {
    forall c: Cell | IsCell(seq1, seq2, c) && RowMajorBefore(c, (i, j)) && Value(seq1, seq2, c) >= threshold
      ensures Value(seq1, seq2, c) in m'
    {
      if c != (i, j - 1) {
        assert RowMajorBefore(c, (i, j - 1));
      }
    }
  }

  /** Passing from the end of row i - 1 to the start of row i keeps
      Collected. */
  lemma NextRow(seq1: string, seq2: string, threshold: int, m: map<int, seq<Cell>>, i: nat)
    requires 2 <= i <= |seq1| + 1
    requires Collected(seq1, seq2, threshold, m, i - 1, |seq2| + 1)
    ensures Collected(seq1, seq2, threshold, m, i, 1)
  {
    forall v | v in m ensures m[v] == Before(seq1, seq2, v, i, 1) {
      assert Before(seq1, seq2, v, i, 1) == Bucket(seq1, seq2, v, i) + [];
    }
    forall v | v >= threshold && v !in m ensures Before(seq1, seq2, v, i, 1) == [] {
      assert Before(seq1, seq2, v, i, 1) == Bucket(seq1, seq2, v, i) + [];
    }
  }

  /** `max_scores` as `__local_cmp` leaves it when it reaches (i, j): every
      interior cell before (i, j), row by row, passed through Record. */
  ghost function Gathered(seq1: string, seq2: string, threshold: int, i: nat, j: nat): map<int, seq<Cell>>
    requires 1 <= i <= |seq1| + 1 && 1 <= j <= |seq2| + 1 && (j > 1 ==> i <= |seq1|)
    decreases i, j
  {
    if j == 1 then
      if i == 1 then map[] else Gathered(seq1, seq2, threshold, i - 1, |seq2| + 1)
    else Record(Gathered(seq1, seq2, threshold, i, j - 1), threshold, LocalCell(seq1, seq2, i, j - 1), (i, j - 1))
  }

  /** Recording cell (i, j) extends the map gathered before it. */
  lemma GatheredNext(seq1: string, seq2: string, threshold: int, i: nat, j: nat)
    requires 1 <= i <= |seq1| && 1 <= j <= |seq2|
    ensures Gathered(seq1, seq2, threshold, i, j + 1) ==
      Record(Gathered(seq1, seq2, threshold, i, j), threshold, LocalCell(seq1, seq2, i, j), (i, j))
  {
  }

  /** The map gathered at the start of row i + 1 is the one at the end of
      row i. */
  lemma GatheredRow(seq1: string, seq2: string, threshold: int, i: nat)
    requires 1 <= i <= |seq1|
    ensures Gathered(seq1, seq2, threshold, i + 1, 1) == Gathered(seq1, seq2, threshold, i, |seq2| + 1)
  {
  }

  /** The map the recording builds holds, under each score at or above
      the threshold, exactly the cells before (i, j) of that score, row by
      row. */
  lemma {:induction false} GatheredCollected(seq1: string, seq2: string, threshold: int, i: nat, j: nat, m: map<int, seq<Cell>>)
    requires 1 <= i <= |seq1| + 1 && 1 <= j <= |seq2| + 1 && (j > 1 ==> i <= |seq1|)
    requires m == Gathered(seq1, seq2, threshold, i, j)
    ensures Collected(seq1, seq2, threshold, m, i, j)
    decreases i, j
  {
    if j == 1 && i == 1 {
      CollectedStart(seq1, seq2, threshold);
    } else if j == 1 {
      GatheredCollected(seq1, seq2, threshold, i - 1, |seq2| + 1, m);
      NextRow(seq1, seq2, threshold, m, i);
    } else {
      var previous := Gathered(seq1, seq2, threshold, i, j - 1);
      GatheredCollected(seq1, seq2, threshold, i, j - 1, previous);
      CollectStep(seq1, seq2, threshold, previous, m, i, j);
    }
  }

  /** Before the first interior cell, no score has a key. */
  lemma CollectedStart(seq1: string, seq2: string, threshold: int)
    ensures Collected(seq1, seq2, threshold, map[], 1, 1)
  {
    forall v ensures Before(seq1, seq2, v, 1, 1) == [] {
      assert Before(seq1, seq2, v, 1, 1) == [] + [];
    }
  }

  /** The largest element of a finite non-empty set of integers. */
  ghost function MaxOf(s: set<int>): (x: int)
    requires s != {}
    ensures x in s && forall y :: y in s ==> y <= x
    decreases |s|
  {
    assert exists u :: u in s by {
      if forall u :: u !in s {
        assert false;
      }
    }
    var y :| y in s;
    var rest := s - {y};
    assert forall u :: u in s ==> u == y || u in rest;
    if rest == {} then y
    else
      var z := MaxOf(rest);
      if y > z then y else z
  }

  /** `sorted(keys, reverse=True)`: the keys in strictly descending order. */
  method SortDescending(keys: set<int>) returns (ks: seq<int>)
    ensures forall k :: k in ks <==> k in keys
    ensures forall p, q :: 0 <= p < q < |ks| ==> ks[p] > ks[q]
  {
    var rest := keys;
    ks := [];
    while rest != {}
      invariant rest <= keys
      invariant forall k :: k in ks <==> k in keys && k !in rest
      invariant forall p, q :: 0 <= p < q < |ks| ==> ks[p] > ks[q]
      invariant forall p, k :: 0 <= p < |ks| && k in rest ==> ks[p] > k
      decreases |rest|
    {
      ghost var largest := MaxOf(rest);
      var top :| top in rest && forall k :: k in rest ==> k <= top;
      ks := ks + [top];
      rest := rest - {top};
    }
  }

  /** The filling loop of `__local_cmp`: computes the local score matrix row
      by row and gathers in `max_scores`, under its score, every cell at or
      above the threshold. */
  method LocalFill(seq1: string, seq2: string, threshold: int) returns (score: array2<int>, maxScores: map<int, seq<Cell>>)
    ensures fresh(score) && score.Length0 == |seq1| + 1 && score.Length1 == |seq2| + 1
    ensures forall a, b :: 0 <= a <= |seq1| && 0 <= b <= |seq2| ==> score[a, b] == LocalCell(seq1, seq2, a, b)
    ensures maxScores == Gathered(seq1, seq2, threshold, |seq1| + 1, 1)
  {
    var dims;
    dims, score := CmpInit(seq1, seq2, 0);
    var rows := dims.0;
    maxScores := map[];
    var i := 1;
    while i < rows
      invariant 1 <= i <= rows
      invariant forall a, b {:trigger score[a, b]} :: 0 <= a <= |seq1| && 0 <= b <= |seq2| && (a < i || b == 0) ==>
        score[a, b] == LocalCell(seq1, seq2, a, b)
      invariant maxScores == Gathered(seq1, seq2, threshold, i, 1)
    {
      maxScores := FillRow(seq1, seq2, threshold, score, i, maxScores);
      i := i + 1;
    }
  }

  /** One pass of the inner loop of `__local_cmp`: fills row i from left to
      right and records in `max_scores` every cell of the row at or above
      the threshold. */
  method FillRow(seq1: string, seq2: string, threshold: int, score: array2<int>, i: nat, m: map<int, seq<Cell>>)
    returns (m': map<int, seq<Cell>>)
    modifies score
    requires score.Length0 == |seq1| + 1 && score.Length1 == |seq2| + 1
    requires 1 <= i <= |seq1|
    requires forall a, b {:trigger score[a, b]} :: 0 <= a <= |seq1| && 0 <= b <= |seq2| && (a < i || b == 0) ==>
      score[a, b] == LocalCell(seq1, seq2, a, b)
    requires m == Gathered(seq1, seq2, threshold, i, 1)
    ensures forall a, b {:trigger score[a, b]} :: 0 <= a <= |seq1| && 0 <= b <= |seq2| && (a <= i || b == 0) ==>
      score[a, b] == LocalCell(seq1, seq2, a, b)
    ensures forall a, b :: i < a <= |seq1| && 0 <= b <= |seq2| ==> score[a, b] == old(score[a, b])
    ensures m' == Gathered(seq1, seq2, threshold, i + 1, 1)
  {
    m' := m;
    var j := 1;
    while j < score.Length1
      invariant 1 <= j <= score.Length1
      invariant forall a, b {:trigger score[a, b]} :: 0 <= a <= |seq1| && 0 <= b <= |seq2| && (a < i || (a == i && b < j) || b == 0) ==>
        score[a, b] == LocalCell(seq1, seq2, a, b)
      invariant forall a, b :: i < a <= |seq1| && 0 <= b <= |seq2| ==> score[a, b] == old(score[a, b])
      invariant m' == Gathered(seq1, seq2, threshold, i, j)
    {
      var value := Max(Max(Max(score[i, j - 1] - Gap, score[i - 1, j - 1] + P(seq1[i - 1], seq2[j - 1])),
                           score[i - 1, j] - Gap), 0);
      LocalStep(seq1, seq2, i, j, score[i - 1, j], score[i - 1, j - 1], score[i, j - 1]);
      score[i, j] := value;
      GatheredNext(seq1, seq2, threshold, i, j);
      m' := Record(m', threshold, value, (i, j));
      j := j + 1;
    }
    GatheredRow(seq1, seq2, threshold, i);
  }

  /** The value the inner loop of `__local_cmp` computes from the three
      neighbours of (i, j), taken in its own order (left, diagonal, up), is
      LocalCell. */
  lemma LocalStep(seq1: string, seq2: string, i: nat, j: nat, up: int, diag: int, left: int)
    requires 1 <= i <= |seq1| && 1 <= j <= |seq2|
    requires up == LocalCell(seq1, seq2, i - 1, j)
    requires diag == LocalCell(seq1, seq2, i - 1, j - 1)
    requires left == LocalCell(seq1, seq2, i, j - 1)
    ensures Max(Max(Max(left - Gap, diag + P(seq1[i - 1], seq2[j - 1])), up - Gap), 0) == LocalCell(seq1, seq2, i, j)
  {
  }

  /** A matrix that holds LocalCell everywhere follows the local recurrence
      in every interior cell. */
  lemma CellsFollowRecurrence(seq1: string, seq2: string, score: array2<int>)
    requires score.Length0 == |seq1| + 1 && score.Length1 == |seq2| + 1
    requires forall a, b :: 0 <= a <= |seq1| && 0 <= b <= |seq2| ==> score[a, b] == LocalCell(seq1, seq2, a, b)
    ensures IsLocalMatrix(seq1, seq2, score)
  {
    forall a, b | 1 <= a <= |seq1| && 1 <= b <= |seq2| && RowMajorBefore((a, b), (|seq1| + 1, 1))
      ensures IsLocalStep(seq1, seq2, score, a, b)
    {
      assert score[a - 1, b] == LocalCell(seq1, seq2, a - 1, b);
      assert score[a - 1, b - 1] == LocalCell(seq1, seq2, a - 1, b - 1);
      assert score[a, b - 1] == LocalCell(seq1, seq2, a, b - 1);
    }
  }

  /** `__local_cmp`: the local score matrix, and the cells at or above the
      threshold listed by descending score, ties row by row. The list holds
      exactly the candidates, each ahead of those after it. */
  method LocalCmp(seq1: string, seq2: string, threshold: int) returns (indices: seq<Cell>, score: array2<int>)
    ensures fresh(score)
    ensures IsLocalMatrix(seq1, seq2, score)
    ensures forall a, b :: 0 <= a <= |seq1| && 0 <= b <= |seq2| ==> score[a, b] == LocalCell(seq1, seq2, a, b)
    ensures forall c: Cell :: c in indices <==> IsCandidate(seq1, seq2, threshold, c)
    ensures forall p, q :: 0 <= p < q < |indices| ==> Ahead(seq1, seq2, indices[p], indices[q])
  {
    var maxScores;
    score, maxScores := LocalFill(seq1, seq2, threshold);
    CellsFollowRecurrence(seq1, seq2, score);
    GatheredCollected(seq1, seq2, threshold, |seq1| + 1, 1, maxScores);
    indices := ListCandidates(seq1, seq2, threshold, maxScores);
  }

  /** The listing loop of `__local_cmp`: the buckets of `max_scores` joined
      in descending order of their key. */
  method ListCandidates(seq1: string, seq2: string, threshold: int, maxScores: map<int, seq<Cell>>) returns (indices: seq<Cell>)
    requires Collected(seq1, seq2, threshold, maxScores, |seq1| + 1, 1)
    ensures forall c: Cell :: c in indices <==> IsCandidate(seq1, seq2, threshold, c)
    ensures forall p, q :: 0 <= p < q < |indices| ==> Ahead(seq1, seq2, indices[p], indices[q])
  {
    var ks := SortDescending(maxScores.Keys);
    indices := [];
    var t := 0;
    while t < |ks|
      invariant 0 <= t <= |ks|
      invariant forall c: Cell :: c in indices <==> IsCell(seq1, seq2, c) && Value(seq1, seq2, c) in ks[..t]
      invariant forall p, q :: 0 <= p < q < |indices| ==> Ahead(seq1, seq2, indices[p], indices[q])
      invariant forall p, u :: 0 <= p < |indices| && t <= u < |ks| ==>
        IsCell(seq1, seq2, indices[p]) && Value(seq1, seq2, indices[p]) > ks[u]
    {
      ExtendCandidates(seq1, seq2, threshold, maxScores, ks, t, indices);
      indices := indices + maxScores[ks[t]];
      t := t + 1;
    }
    assert ks[..t] == ks;
  }

  /** Appending the bucket of the t-th largest key keeps the candidate list
      ordered and complete up to that key. */
  lemma ExtendCandidates(seq1: string, seq2: string, threshold: int, m: map<int, seq<Cell>>,
                         ks: seq<int>, t: nat, indices: seq<Cell>)
    requires Collected(seq1, seq2, threshold, m, |seq1| + 1, 1)
    requires forall k :: k in ks <==> k in m
    requires forall p, q :: 0 <= p < q < |ks| ==> ks[p] > ks[q]
    requires t < |ks|
    requires forall c: Cell :: c in indices <==> IsCell(seq1, seq2, c) && Value(seq1, seq2, c) in ks[..t]
    requires forall p, q :: 0 <= p < q < |indices| ==> Ahead(seq1, seq2, indices[p], indices[q])
    requires forall p, u :: 0 <= p < |indices| && t <= u < |ks| ==>
      IsCell(seq1, seq2, indices[p]) && Value(seq1, seq2, indices[p]) > ks[u]
    ensures ks[t] in m
    ensures var indices' := indices + m[ks[t]];
      (forall c: Cell :: c in indices' <==> IsCell(seq1, seq2, c) && Value(seq1, seq2, c) in ks[..t + 1]) &&
      (forall p, q :: 0 <= p < q < |indices'| ==> Ahead(seq1, seq2, indices'[p], indices'[q])) &&
      (forall p, u :: 0 <= p < |indices'| && t + 1 <= u < |ks| ==>
         IsCell(seq1, seq2, indices'[p]) && Value(seq1, seq2, indices'[p]) > ks[u])
  {
    var k := ks[t];
    assert k in ks;
    var bucket := m[k];
    assert bucket == Bucket(seq1, seq2, k, |seq1| + 1) + [];
    BucketSpec(seq1, seq2, k, |seq1| + 1);
    assert ks[..t + 1] == ks[..t] + [k];
    var indices' := indices + bucket;
    forall p, q | 0 <= p < q < |indices'| ensures Ahead(seq1, seq2, indices'[p], indices'[q]) {
      if q < |indices| {
      } else if p >= |indices| {
        assert indices'[p] == bucket[p - |indices|] && indices'[q] == bucket[q - |indices|];
      } else {
        assert indices'[q] in bucket;
      }
    }
    forall p, u | 0 <= p < |indices'| && t + 1 <= u < |ks|
      ensures IsCell(seq1, seq2, indices'[p]) && Value(seq1, seq2, indices'[p]) > ks[u]
    {
      if p >= |indices| {
        assert indices'[p] in bucket;
      }
    }
  }

  /** The step `__local_align` takes out of the interior cell (i, j) when
      the diagonal cell is not zero: from row i - 1 when that explains the
      score, else the diagonal when that does, else from column j - 1. The
      cell it leads to is interior and scores above zero. */
  function TracebackStep(seq1: string, seq2: string, i: nat, j: nat, score: array2<int>): (m: Move)
    reads score
    requires IsLocalMatrix(seq1, seq2, score)
    requires 1 <= i <= |seq1| && 1 <= j <= |seq2|
    requires score[i, j] > 0 && score[i - 1, j - 1] != 0
    ensures m == Up <==> score[i, j] == score[i - 1, j] - Gap
    ensures m == Diag <==> score[i, j] != score[i - 1, j] - Gap && score[i, j] == score[i - 1, j - 1] + P(seq1[i - 1], seq2[j - 1])
    ensures m == Left ==> score[i, j] == score[i, j - 1] - Gap
    ensures var p := Source(i, j, m); 1 <= p.0 && 1 <= p.1 && score[p.0, p.1] > 0
  {
    assert IsLocalStep(seq1, seq2, score, i, j);
    if score[i, j] == score[i - 1, j] - Gap then Up
    else if score[i, j] == score[i - 1, j - 1] + P(seq1[i - 1], seq2[j - 1]) then
      assert i > 1 && j > 1;
      assert IsLocalStep(seq1, seq2, score, i - 1, j - 1);
      Diag
    else Left
  }

  /** `__local_align`: walks back from (i, j) through the local matrix,
      stopping (after taking seq1's character) when the diagonal cell holds
      zero, and otherwise taking TracebackStep: seq1's character for a step
      from row i - 1 or the diagonal, a space for a step from column j - 1.
      The source's (0, 0) base case is never reached from an interior cell,
      since every cell on the way scores above zero. */
  function LocalTraceback(seq1: string, seq2: string, i: nat, j: nat, score: array2<int>): (r: string)
    reads score
    requires IsLocalMatrix(seq1, seq2, score)
    requires 1 <= i <= |seq1| && 1 <= j <= |seq2|
    requires score[i, j] > 0 || score[i - 1, j - 1] == 0
    ensures r != []
    decreases i + j
  {
    if score[i - 1, j - 1] == 0 then [seq1[i - 1]]
    else
      var m := TracebackStep(seq1, seq2, i, j, score);
      var p := Source(i, j, m);
      LocalTraceback(seq1, seq2, p.0, p.1, score) + [if m == Left then Space else seq1[i - 1]]
  }

  /** A traceback can start at the interior cell c: it scores above zero,
      or its diagonal neighbour holds zero. */
  predicate Traceable(seq1: string, seq2: string, c: Cell) {
    IsCell(seq1, seq2, c) &&
    (LocalCell(seq1, seq2, c.0, c.1) > 0 || LocalCell(seq1, seq2, c.0 - 1, c.1 - 1) == 0)
  }

  /** TracebackStep stated on LocalCell. */
  function LocalMove(seq1: string, seq2: string, i: nat, j: nat): (m: Move)
    requires 1 <= i <= |seq1| && 1 <= j <= |seq2|
    requires LocalCell(seq1, seq2, i, j) > 0 && LocalCell(seq1, seq2, i - 1, j - 1) != 0
    ensures m == Up <==> LocalCell(seq1, seq2, i, j) == LocalCell(seq1, seq2, i - 1, j) - Gap
    ensures m == Diag <==> (LocalCell(seq1, seq2, i, j) != LocalCell(seq1, seq2, i - 1, j) - Gap &&
      LocalCell(seq1, seq2, i, j) == LocalCell(seq1, seq2, i - 1, j - 1) + P(seq1[i - 1], seq2[j - 1]))
    ensures m == Left ==> LocalCell(seq1, seq2, i, j) == LocalCell(seq1, seq2, i, j - 1) - Gap
    ensures var p := Source(i, j, m); Traceable(seq1, seq2, p) && LocalCell(seq1, seq2, p.0, p.1) > 0
  {
    LocalCellNonNegative(seq1, seq2, i - 1, j - 1);
    if LocalCell(seq1, seq2, i, j) == LocalCell(seq1, seq2, i - 1, j) - Gap then Up
    else if LocalCell(seq1, seq2, i, j) == LocalCell(seq1, seq2, i - 1, j - 1) + P(seq1[i - 1], seq2[j - 1]) then Diag
    else Left
  }

  /** The string LocalTraceback reads off the local matrix, stated on
      LocalCell. */
  function LocalPath(seq1: string, seq2: string, i: nat, j: nat): (r: string)
    requires Traceable(seq1, seq2, (i, j))
    ensures r != []
    decreases i + j
  {
    if LocalCell(seq1, seq2, i - 1, j - 1) == 0 then [seq1[i - 1]]
    else
      var m := LocalMove(seq1, seq2, i, j);
      var p := Source(i, j, m);
      LocalPath(seq1, seq2, p.0, p.1) + [if m == Left then Space else seq1[i - 1]]
  }

  /** On the filled local matrix, TracebackStep is LocalMove. */
  lemma SameLocalMove(seq1: string, seq2: string, i: nat, j: nat, score: array2<int>)
    requires IsLocalMatrix(seq1, seq2, score)
    requires 1 <= i <= |seq1| && 1 <= j <= |seq2|
    requires score[i, j] > 0 && score[i - 1, j - 1] != 0
    ensures Traceable(seq1, seq2, (i, j)) && LocalCell(seq1, seq2, i - 1, j - 1) != 0
    ensures TracebackStep(seq1, seq2, i, j, score) == LocalMove(seq1, seq2, i, j)
  {
    PathCells(seq1, seq2, i, j, score);
  }

  /** On the filled local matrix, the traceback is LocalPath. */
  lemma {:induction false} LocalTracebackPath(seq1: string, seq2: string, i: nat, j: nat, score: array2<int>)
    requires IsLocalMatrix(seq1, seq2, score)
    requires 1 <= i <= |seq1| && 1 <= j <= |seq2|
    requires score[i, j] > 0 || score[i - 1, j - 1] == 0
    ensures Traceable(seq1, seq2, (i, j))
    ensures LocalTraceback(seq1, seq2, i, j, score) == LocalPath(seq1, seq2, i, j)
    decreases i + j
  {
    PathCells(seq1, seq2, i, j, score);
    if score[i - 1, j - 1] != 0 {
      SameLocalMove(seq1, seq2, i, j, score);
      var p := Source(i, j, LocalMove(seq1, seq2, i, j));
      LocalTracebackPath(seq1, seq2, p.0, p.1, score);
    }
  }

  /** The cells a traceback step from (i, j) reads hold LocalCell. */
  lemma PathCells(seq1: string, seq2: string, i: nat, j: nat, score: array2<int>)
    requires IsLocalMatrix(seq1, seq2, score)
    requires 1 <= i <= |seq1| && 1 <= j <= |seq2|
    ensures score[i, j] == LocalCell(seq1, seq2, i, j)
    ensures score[i - 1, j] == LocalCell(seq1, seq2, i - 1, j)
    ensures score[i - 1, j - 1] == LocalCell(seq1, seq2, i - 1, j - 1)
    ensures score[i, j - 1] == LocalCell(seq1, seq2, i, j - 1)
  {
    var last := |seq1| + 1;
    FilledCells(seq1, seq2, score, last, 1, i, j);
    FilledCells(seq1, seq2, score, last, 1, i - 1, j);
    FilledCells(seq1, seq2, score, last, 1, i - 1, j - 1);
    FilledCells(seq1, seq2, score, last, 1, i, j - 1);
  }

  /** Taking seq1's character at i - 1 extends a stretch ending at i - 1 to
      one ending at i. */
  lemma SpanSnoc(seq1: string, r: string, k: nat, i: nat)
    requires 0 <= k < i <= |seq1|
    requires Strip(r) == Strip(seq1[k..i - 1])
    ensures Strip(r + [seq1[i - 1]]) == Strip(seq1[k..i])
  {
    SliceSnoc(seq1, k, i);
    StripSnoc(r, seq1[i - 1]);
    StripSnoc(seq1[k..i - 1], seq1[i - 1]);
  }

  lemma SliceSnoc<T>(s: seq<T>, k: nat, i: nat)
    requires k < i <= |s|
    ensures s[k..i] == s[k..i - 1] + [s[i - 1]]
  {
  }

  /** With its spaces removed, the traceback from (i, j) is a non-empty
      stretch of seq1 that ends at position i. */
  lemma {:induction false} LocalTracebackSpan(seq1: string, seq2: string, i: nat, j: nat, score: array2<int>)
    requires IsLocalMatrix(seq1, seq2, score)
    requires 1 <= i <= |seq1| && 1 <= j <= |seq2|
    requires score[i, j] > 0 || score[i - 1, j - 1] == 0
    ensures exists k :: 0 <= k < i && Strip(LocalTraceback(seq1, seq2, i, j, score)) == Strip(seq1[k..i])
    decreases i + j
  {
    var r := LocalTraceback(seq1, seq2, i, j, score);
    if score[i - 1, j - 1] == 0 {
      assert seq1[i - 1..i] == r;
    } else {
      var m := TracebackStep(seq1, seq2, i, j, score);
      var p := Source(i, j, m);
      LocalTracebackSpan(seq1, seq2, p.0, p.1, score);
      var r' := LocalTraceback(seq1, seq2, p.0, p.1, score);
      var k :| 0 <= k < p.0 && Strip(r') == Strip(seq1[k..p.0]);
      if m == Left {
        StripSnoc(r', Space);
      } else {
        SpanSnoc(seq1, r', k, i);
      }
    }
  }

  /** Why `local_align` fails: `indices[0]` of an empty candidate list
      raises IndexError. */
  datatype LocalError = NoCandidate

  /** Each step of the local recurrence bounds a cell from below: by the
      cell above minus Gap, the cell to the left minus Gap, and the diagonal
      cell plus P. */
  lemma LocalCellSteps(seq1: string, seq2: string, i: nat, j: nat)
    requires i <= |seq1| && j <= |seq2|
    ensures i >= 1 ==> LocalCell(seq1, seq2, i, j) >= LocalCell(seq1, seq2, i - 1, j) - Gap
    ensures j >= 1 ==> LocalCell(seq1, seq2, i, j) >= LocalCell(seq1, seq2, i, j - 1) - Gap
    ensures i >= 1 && j >= 1 ==>
      LocalCell(seq1, seq2, i, j) >= LocalCell(seq1, seq2, i - 1, j - 1) + P(seq1[i - 1], seq2[j - 1])
  {
  }

  /** Removing the last column of an alignment of seq1[k..i] and
      seq2[l..j] leaves an alignment of the stretches the column did not
      consume. */
  lemma ShrinkStretch(seq1: string, seq2: string, s: string, t: string, k: nat, i: nat, l: nat, j: nat)
    requires k <= i <= |seq1| && l <= j <= |seq2|
    requires SeqGlobal.IsAlignment(s, t, seq1[k..i], seq2[l..j]) && s != []
    ensures var x, y := s[|s| - 1], t[|t| - 1];
      (x != Space ==> k < i && x == seq1[i - 1]) && (y != Space ==> l < j && y == seq2[j - 1]) &&
      SeqGlobal.IsAlignment(s[..|s| - 1], t[..|t| - 1],
                            seq1[k..if x == Space then i else i - 1],
                            seq2[l..if y == Space then j else j - 1])
  {
    var x, y := s[|s| - 1], t[|t| - 1];
    var s', t' := s[..|s| - 1], t[..|t| - 1];
    assert s == s' + [x] && t == t' + [y];
    StripSnoc(s', x);
    StripSnoc(t', y);
    if x != Space {
      assert |seq1[k..i]| == |Strip(s')| + 1;
      SliceSnoc(seq1, k, i);
      SnocInjective(Strip(s'), x, seq1[k..i - 1], seq1[i - 1]);
    }
    if y != Space {
      assert |seq2[l..j]| == |Strip(t')| + 1;
      SliceSnoc(seq2, l, j);
      SnocInjective(Strip(t'), y, seq2[l..j - 1], seq2[j - 1]);
    }
    forall m | 0 <= m < |s'|
      ensures !(s'[m] == Space && t'[m] == Space)
    {
      assert s'[m] == s[m] && t'[m] == t[m];
    }
  }

  lemma SnocInjective<T>(a: seq<T>, x: T, b: seq<T>, y: T)
    requires a + [x] == b + [y]
    ensures a == b && x == y
  {
    assert a == (a + [x])[..|a|];
    assert b == (b + [y])[..|b|];
  }

  /** No alignment of a stretch seq1[k..i] with a stretch seq2[l..j] scores
      more than the local matrix cell (i, j): the cell is an upper bound, and
      LocalAttained shows that it is reached. */
  lemma {:induction false} LocalOptimal(seq1: string, seq2: string, k: nat, i: nat, l: nat, j: nat, s: string, t: string)
    requires k <= i <= |seq1| && l <= j <= |seq2|
    requires SeqGlobal.IsAlignment(s, t, seq1[k..i], seq2[l..j])
    ensures SeqGlobal.AlignmentScore(s, t) <= LocalCell(seq1, seq2, i, j)
    decreases |s|
  {
    if s == [] {
      LocalCellNonNegative(seq1, seq2, i, j);
    } else {
      var x, y := s[|s| - 1], t[|t| - 1];
      var s', t' := s[..|s| - 1], t[..|t| - 1];
      ShrinkStretch(seq1, seq2, s, t, k, i, l, j);
      var i' := if x == Space then i else i - 1;
      var j' := if y == Space then j else j - 1;
      LocalOptimal(seq1, seq2, k, i', l, j', s', t');
      assert s == s' + [x] && t == t' + [y];
      SeqGlobal.ScoreSnoc(s', t', x, y);
      LocalCellSteps(seq1, seq2, i, j);
    }
  }

  /** Appending one column extends an alignment of seq1[k..i] with
      seq2[l..j] to one of seq1[k..i'] with seq2[l..j'], where each side
      grows by its next letter unless the column is a gap there, and adds
      the column's score. */
  lemma ExtendStretch(seq1: string, seq2: string, s: string, t: string,
                      k: nat, i: nat, i': nat, l: nat, j: nat, j': nat, x: char, y: char)
    requires k <= i <= i' <= |seq1| && l <= j <= j' <= |seq2|
    requires SeqGlobal.IsAlignment(s, t, seq1[k..i], seq2[l..j])
    requires !(x == Space && y == Space)
    requires if x == Space then i' == i else i' == i + 1 && x == seq1[i]
    requires if y == Space then j' == j else j' == j + 1 && y == seq2[j]
    ensures SeqGlobal.IsAlignment(s + [x], t + [y], seq1[k..i'], seq2[l..j'])
    ensures SeqGlobal.AlignmentScore(s + [x], t + [y])
            == SeqGlobal.AlignmentScore(s, t) + SeqGlobal.ColumnScore(x, y)
  {
    StripSnoc(s, x);
    StripSnoc(t, y);
    if x != Space {
      SliceSnoc(seq1, k, i');
    }
    if y != Space {
      SliceSnoc(seq2, l, j');
    }
    forall m | 0 <= m < |s + [x]|
      ensures !((s + [x])[m] == Space && (t + [y])[m] == Space)
    {
      if m < |s| {
        assert (s + [x])[m] == s[m] && (t + [y])[m] == t[m];
      }
    }
    SeqGlobal.ScoreSnoc(s, t, x, y);
  }

  /** A positive interior cell of the local matrix is reached by one of the
      three steps of the recurrence: from cell (i0, j0), writing the column
      (x, y), whose letters are the next ones of each stretch unless the
      column is a gap there. */
  lemma LocalReach(seq1: string, seq2: string, i: nat, j: nat)
    returns (i0: nat, j0: nat, x: char, y: char)
    requires NoSpaces(seq1) && NoSpaces(seq2)
    requires 1 <= i <= |seq1| && 1 <= j <= |seq2|
    requires LocalCell(seq1, seq2, i, j) != 0
    ensures i0 <= i && j0 <= j && i0 + j0 < i + j
    ensures !(x == Space && y == Space)
    ensures if x == Space then i0 == i else i == i0 + 1 && x == seq1[i0]
    ensures if y == Space then j0 == j else j == j0 + 1 && y == seq2[j0]
    ensures LocalCell(seq1, seq2, i, j)
            == LocalCell(seq1, seq2, i0, j0) + SeqGlobal.ColumnScore(x, y)
  {
    var v := LocalCell(seq1, seq2, i, j);
    assert seq1[i - 1] != Space && seq2[j - 1] != Space;
    if v == LocalCell(seq1, seq2, i - 1, j - 1) + P(seq1[i - 1], seq2[j - 1]) {
      i0, j0, x, y := i - 1, j - 1, seq1[i - 1], seq2[j - 1];
    } else if v == LocalCell(seq1, seq2, i - 1, j) - Gap {
      i0, j0, x, y := i - 1, j, seq1[i - 1], Space;
    } else {
      i0, j0, x, y := i, j - 1, Space, seq2[j - 1];
    }
  }

  /** Every local matrix cell is reached: some alignment of a stretch of
      seq1 ending at i with a stretch of seq2 ending at j scores exactly
      the cell. With LocalOptimal, the cell is the best such score. */
  lemma {:induction false} LocalAttained(seq1: string, seq2: string, i: nat, j: nat)
    returns (k: nat, l: nat, s: string, t: string)
    requires NoSpaces(seq1) && NoSpaces(seq2)
    requires i <= |seq1| && j <= |seq2|
    ensures k <= i && l <= j
    ensures SeqGlobal.IsAlignment(s, t, seq1[k..i], seq2[l..j])
    ensures SeqGlobal.AlignmentScore(s, t) == LocalCell(seq1, seq2, i, j)
    decreases i + j
  {
    if i == 0 || j == 0 || LocalCell(seq1, seq2, i, j) == 0 {
      k, l, s, t := i, j, "", "";
      return;
    }
    var i0, j0, x, y := LocalReach(seq1, seq2, i, j);
    var s', t';
    k, l, s', t' := LocalAttained(seq1, seq2, i0, j0);
    ExtendStretch(seq1, seq2, s', t', k, i0, i, l, j0, j, x, y);
    s, t := s' + [x], t' + [y];
  }

  /** The score of the cell `local_align` traces back from is reached by an
      alignment of a stretch of seq1 with a stretch of seq2 ending at that
      cell; with BestOptimal, it is the optimal local alignment score. */
  lemma BestAttained(seq1: string, seq2: string, threshold: int, c: Cell)
    returns (k: nat, l: nat, s: string, t: string)
    requires NoSpaces(seq1) && NoSpaces(seq2)
    requires IsBest(seq1, seq2, threshold, c)
    ensures k <= c.0 && l <= c.1
    ensures SeqGlobal.IsAlignment(s, t, seq1[k..c.0], seq2[l..c.1])
    ensures SeqGlobal.AlignmentScore(s, t) == Value(seq1, seq2, c)
  {
    k, l, s, t := LocalAttained(seq1, seq2, c.0, c.1);
  }

  /** The cell `local_align` traces back from scores at least as much as
      any alignment of a stretch of seq1 with a stretch of seq2. */
  lemma BestOptimal(seq1: string, seq2: string, threshold: int, c: Cell,
                    k: nat, i: nat, l: nat, j: nat, s: string, t: string)
    requires IsBest(seq1, seq2, threshold, c)
    requires k <= i <= |seq1| && l <= j <= |seq2|
    requires SeqGlobal.IsAlignment(s, t, seq1[k..i], seq2[l..j])
    ensures SeqGlobal.AlignmentScore(s, t) <= Value(seq1, seq2, c)
  {
    LocalOptimal(seq1, seq2, k, i, l, j, s, t);
    LocalCellNonNegative(seq1, seq2, c.0, c.1);
    if i >= 1 && j >= 1 && (i, j) != c {
      if IsCandidate(seq1, seq2, threshold, (i, j)) {
        assert Ahead(seq1, seq2, c, (i, j));
      }
    }
  }

  /** `local_align`: the traceback from the first listed candidate, which
      is the best one; it fails exactly when no cell reaches the threshold. */
  method LocalAlign(seq1: string, seq2: string, threshold: int) returns (r: Result<string, LocalError>)
    ensures r.Err? <==> forall c: Cell :: !IsCandidate(seq1, seq2, threshold, c)
    ensures r.Ok? ==> exists c: Cell :: (IsBest(seq1, seq2, threshold, c) && Traceable(seq1, seq2, c) &&
      r.value == LocalPath(seq1, seq2, c.0, c.1) &&
      exists k :: 0 <= k < c.0 && Strip(r.value) == Strip(seq1[k..c.0]))
  {
    var indices, score := LocalCmp(seq1, seq2, threshold);
    if indices == [] {
      return Err(NoCandidate);
    }
    var c := indices[0];
    assert c in indices;
    forall d | IsCandidate(seq1, seq2, threshold, d) && d != c ensures Ahead(seq1, seq2, c, d) {
      assert d in indices;
      var q :| 0 <= q < |indices| && indices[q] == d;
    }
    assert IsBest(seq1, seq2, threshold, c);
    LocalCellNonNegative(seq1, seq2, 1, 1);
    LocalCellNonNegative(seq1, seq2, c.0, c.1);
    if Value(seq1, seq2, c) == 0 {
      // Every cell then scores zero and the first listed one is (1, 1).
      assert IsCandidate(seq1, seq2, threshold, (1, 1));
    }
    LocalTracebackSpan(seq1, seq2, c.0, c.1, score);
    LocalTracebackPath(seq1, seq2, c.0, c.1, score);
    r := Ok(LocalTraceback(seq1, seq2, c.0, c.1, score));
  }
}
