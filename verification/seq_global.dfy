/** Needleman-Wunsch global alignment of two character sequences:
    `__global_cmp`, `global_cmp`, `__global_align` and `global_align` of
    src/compbio/seq.py. Scores are maximised: a match adds 1, a mismatch
    subtracts 1 and a gap subtracts 2. */
module SeqGlobal {
  import opened SeqMatrix

  /** The value the global score matrix holds at row i, column j: the
      boundary carries the accumulated gap cost and every interior cell
      follows Best. */
  function GlobalCell(seq1: string, seq2: string, i: nat, j: nat): int
    requires i <= |seq1| && j <= |seq2|
    decreases i + j
  {
    if i == 0 then -Gap * j
    else if j == 0 then -Gap * i
    else Best(GlobalCell(seq1, seq2, i - 1, j), GlobalCell(seq1, seq2, i - 1, j - 1),
              GlobalCell(seq1, seq2, i, j - 1), seq1[i - 1], seq2[j - 1])
  }

  /** `score` has the shape of the global matrix, its first row and column
      carry the accumulated gap cost, and each interior cell follows Best as
      `__global_cmp` computes it. */
  ghost predicate IsScoreMatrix(seq1: string, seq2: string, score: array2<int>)
    reads score
  {
    score.Length0 == |seq1| + 1 && score.Length1 == |seq2| + 1 &&
    (forall a :: 0 <= a <= |seq1| ==> score[a, 0] == -Gap * a) &&
    (forall b :: 0 <= b <= |seq2| ==> score[0, b] == -Gap * b) &&
    forall a, b :: 1 <= a <= |seq1| && 1 <= b <= |seq2| ==> IsStep(seq1, seq2, score, a, b)
  }

  /** The interior cell (a, b) of `score` follows Best. */
  ghost predicate IsStep(seq1: string, seq2: string, score: array2<int>, a: nat, b: nat)
    reads score
    requires 1 <= a <= |seq1| && 1 <= b <= |seq2|
    requires score.Length0 == |seq1| + 1 && score.Length1 == |seq2| + 1
  {
    score[a, b] == Best(score[a - 1, b], score[a - 1, b - 1], score[a, b - 1], seq1[a - 1], seq2[b - 1])
  }

  /** A matrix that follows the recurrence holds GlobalCell everywhere. */
  lemma {:induction false} ScoreMatrixCells(seq1: string, seq2: string, score: array2<int>, i: nat, j: nat)
    requires IsScoreMatrix(seq1, seq2, score)
    requires i <= |seq1| && j <= |seq2|
    ensures score[i, j] == GlobalCell(seq1, seq2, i, j)
    decreases i + j
  {
    if i > 0 && j > 0 {
      ScoreMatrixCells(seq1, seq2, score, i - 1, j);
      ScoreMatrixCells(seq1, seq2, score, i - 1, j - 1);
      ScoreMatrixCells(seq1, seq2, score, i, j - 1);
      assert IsStep(seq1, seq2, score, i, j);
    }
  }

  /** The score of one column of an alignment: a gap on either side costs
      Gap, otherwise the characters are compared by P. */
  function ColumnScore(x: char, y: char): int {
    if x == Space || y == Space then -Gap else P(x, y)
  }

  /** The total score of an alignment given as two rows of equal length. */
  function AlignmentScore(s: string, t: string): int
    requires |s| == |t|
  {
    if s == [] then 0
    else AlignmentScore(s[..|s| - 1], t[..|t| - 1]) + ColumnScore(s[|s| - 1], t[|t| - 1])
  }

  /** (s, t) aligns a with b: equal lengths, removing the spaces gives a and
      b back, and no column is a gap on both sides. */
  ghost predicate IsAlignment(s: string, t: string, a: string, b: string) {
    |s| == |t| && Strip(s) == a && Strip(t) == b &&
    forall k :: 0 <= k < |s| ==> !(s[k] == Space && t[k] == Space)
  }

  /** `__global_cmp`: fills the (|seq1| + 1) x (|seq2| + 1) score matrix
      row by row. */
  method GlobalCmpMatrix(seq1: string, seq2: string) returns (score: array2<int>)
    ensures fresh(score)
    ensures IsScoreMatrix(seq1, seq2, score)
    ensures forall a, b :: 0 <= a <= |seq1| && 0 <= b <= |seq2| ==> score[a, b] == GlobalCell(seq1, seq2, a, b)
  {
    var dims;
    dims, score := CmpInit(seq1, seq2, -Gap);
    var rows, cols := dims.0, dims.1;
    var i := 1;
    while i < rows
      invariant 1 <= i <= rows
      invariant forall a, b {:trigger score[a, b]} :: 0 <= a <= |seq1| && 0 <= b <= |seq2| && (a < i || b == 0) ==>
        score[a, b] == GlobalCell(seq1, seq2, a, b)
    {
      var j := 1;
      while j < cols
        invariant 1 <= j <= cols
        invariant forall a, b {:trigger score[a, b]} :: 0 <= a <= |seq1| && 0 <= b <= |seq2| && (a < i || (a == i && b < j) || b == 0) ==>
          score[a, b] == GlobalCell(seq1, seq2, a, b)
      {
        var value := Max(Max(score[i - 1, j] - Gap, score[i - 1, j - 1] + P(seq1[i - 1], seq2[j - 1])),
                         score[i, j - 1] - Gap);
        assert value == GlobalCell(seq1, seq2, i, j);
        score[i, j] := value;
        j := j + 1;
      }
      i := i + 1;
    }
    forall a, b | 1 <= a <= |seq1| && 1 <= b <= |seq2| ensures IsStep(seq1, seq2, score, a, b) {
      assert score[a - 1, b] == GlobalCell(seq1, seq2, a - 1, b);
      assert score[a - 1, b - 1] == GlobalCell(seq1, seq2, a - 1, b - 1);
      assert score[a, b - 1] == GlobalCell(seq1, seq2, a, b - 1);
    }
    assert forall a :: 0 <= a <= |seq1| ==> score[a, 0] == GlobalCell(seq1, seq2, a, 0);
    assert forall b :: 0 <= b <= |seq2| ==> score[0, b] == GlobalCell(seq1, seq2, 0, b);
  }

  /** `global_cmp`: the bottom-right cell of the score matrix, which
      GlobalOptimal shows is the best score of any alignment. */
  method GlobalCmp(seq1: string, seq2: string) returns (r: int)
    ensures r == GlobalCell(seq1, seq2, |seq1|, |seq2|)
  {
    var score := GlobalCmpMatrix(seq1, seq2);
    r := score[|seq1|, |seq2|];
  }

  /** The column a move out of (i, j) appends: seq1's character or a space
      on top, seq2's character or a space below. */
  function MoveColumn(seq1: string, seq2: string, i: nat, j: nat, m: Move): (c: (char, char))
    requires i <= |seq1| && j <= |seq2|
    requires m != Left ==> i > 0
    requires m != Up ==> j > 0
    ensures c.0 == if m == Left then Space else seq1[i - 1]
    ensures c.1 == if m == Up then Space else seq2[j - 1]
  {
    match m
    case Up => (seq1[i - 1], Space)
    case Diag => (seq1[i - 1], seq2[j - 1])
    case Left => (Space, seq2[j - 1])
  }

  /** The step `__global_align` takes out of (i, j) > (0, 0), tried in its
      order: up when the cell equals the one above minus Gap, otherwise the
      diagonal when it equals the diagonal cell plus P, otherwise left. Its
      first column is the gap boundary, so at j = 0 the step is always up. */
  function TracebackMove(seq1: string, seq2: string, i: nat, j: nat, score: array2<int>): (m: Move)
    reads score
    requires score.Length0 == |seq1| + 1 && score.Length1 == |seq2| + 1
    requires i <= |seq1| && j <= |seq2| && (i > 0 || j > 0)
    requires forall a :: 0 <= a <= |seq1| ==> score[a, 0] == -Gap * a
    ensures m != Left ==> i > 0
    ensures m != Up ==> j > 0
    ensures m == Up ==> score[i, j] == score[i - 1, j] - Gap
    ensures m == Diag ==> score[i, j] == score[i - 1, j - 1] + P(seq1[i - 1], seq2[j - 1])
    ensures m == Up <==> i > 0 && score[i, j] == score[i - 1, j] - Gap
    ensures m == Diag <==>
      !(i > 0 && score[i, j] == score[i - 1, j] - Gap) &&
      i > 0 && j > 0 && score[i, j] == score[i - 1, j - 1] + P(seq1[i - 1], seq2[j - 1])
  {
    if i > 0 && score[i, j] == score[i - 1, j] - Gap then Up
    else if i > 0 && j > 0 && score[i, j] == score[i - 1, j - 1] + P(seq1[i - 1], seq2[j - 1]) then Diag
    else Left
  }

  /** `__global_align`: walks back from (i, j) through a score matrix whose
      first column is the gap boundary, appending the column of each move. */
  function GlobalTraceback(seq1: string, seq2: string, i: nat, j: nat, score: array2<int>): (r: (string, string))
    reads score
    requires score.Length0 == |seq1| + 1 && score.Length1 == |seq2| + 1
    requires i <= |seq1| && j <= |seq2|
    requires forall a :: 0 <= a <= |seq1| ==> score[a, 0] == -Gap * a
    ensures |r.0| == |r.1| && |r.0| <= i + j
    decreases i + j
  {
    if i == 0 && j == 0 then ("", "")
    else
      var m := TracebackMove(seq1, seq2, i, j, score);
      var p := Source(i, j, m);
      var c := MoveColumn(seq1, seq2, i, j, m);
      var r := GlobalTraceback(seq1, seq2, p.0, p.1, score);
      (r.0 + [c.0], r.1 + [c.1])
  }

  /** The step out of (i, j) > (0, 0) on the recurrence itself, in the
      order `__global_align` tries them. */
  function GlobalMove(seq1: string, seq2: string, i: nat, j: nat): (m: Move)
    requires i <= |seq1| && j <= |seq2| && (i > 0 || j > 0)
    ensures m != Left ==> i > 0
    ensures m != Up ==> j > 0
    ensures m == Up ==> GlobalCell(seq1, seq2, i, j) == GlobalCell(seq1, seq2, i - 1, j) - Gap
    ensures m == Diag ==> GlobalCell(seq1, seq2, i, j) == GlobalCell(seq1, seq2, i - 1, j - 1) + P(seq1[i - 1], seq2[j - 1])
    ensures m == Left ==> GlobalCell(seq1, seq2, i, j) == GlobalCell(seq1, seq2, i, j - 1) - Gap
    ensures m == Up <==> i > 0 && GlobalCell(seq1, seq2, i, j) == GlobalCell(seq1, seq2, i - 1, j) - Gap
    ensures m == Diag <==>
      !(i > 0 && GlobalCell(seq1, seq2, i, j) == GlobalCell(seq1, seq2, i - 1, j) - Gap) &&
      i > 0 && j > 0 && GlobalCell(seq1, seq2, i, j) == GlobalCell(seq1, seq2, i - 1, j - 1) + P(seq1[i - 1], seq2[j - 1])
  {
    if i > 0 && GlobalCell(seq1, seq2, i, j) == GlobalCell(seq1, seq2, i - 1, j) - Gap then Up
    else if i > 0 && j > 0 && GlobalCell(seq1, seq2, i, j) == GlobalCell(seq1, seq2, i - 1, j - 1) + P(seq1[i - 1], seq2[j - 1]) then Diag
    else Left
  }

  /** The alignment the traceback reads off a correctly filled matrix,
      stated on GlobalCell. */
  function GlobalPath(seq1: string, seq2: string, i: nat, j: nat): (r: (string, string))
    requires i <= |seq1| && j <= |seq2|
    ensures |r.0| == |r.1| && |r.0| <= i + j
    decreases i + j
  {
    if i == 0 && j == 0 then ("", "")
    else
      var m := GlobalMove(seq1, seq2, i, j);
      var p := Source(i, j, m);
      var c := MoveColumn(seq1, seq2, i, j, m);
      var r := GlobalPath(seq1, seq2, p.0, p.1);
      (r.0 + [c.0], r.1 + [c.1])
  }

  /** On a matrix that holds GlobalCell in every cell the traceback takes
      the recurrence's step. */
  lemma SameMove(seq1: string, seq2: string, i: nat, j: nat, score: array2<int>)
    requires score.Length0 == |seq1| + 1 && score.Length1 == |seq2| + 1
    requires forall a :: 0 <= a <= |seq1| ==> score[a, 0] == -Gap * a
    requires forall a, b {:trigger score[a, b]} :: 0 <= a <= |seq1| && 0 <= b <= |seq2| ==> score[a, b] == GlobalCell(seq1, seq2, a, b)
    requires i <= |seq1| && j <= |seq2| && (i > 0 || j > 0)
    ensures TracebackMove(seq1, seq2, i, j, score) == GlobalMove(seq1, seq2, i, j)
  {
    assert score[i, j] == GlobalCell(seq1, seq2, i, j);
    if i > 0 {
      assert score[i - 1, j] == GlobalCell(seq1, seq2, i - 1, j);
      if j > 0 {
        assert score[i - 1, j - 1] == GlobalCell(seq1, seq2, i - 1, j - 1);
      }
    }
  }

  /** On a matrix that holds GlobalCell in every cell, the traceback is
      GlobalPath. */
  lemma {:induction false} GlobalTracebackPath(seq1: string, seq2: string, i: nat, j: nat, score: array2<int>)
    requires score.Length0 == |seq1| + 1 && score.Length1 == |seq2| + 1
    requires forall a :: 0 <= a <= |seq1| ==> score[a, 0] == -Gap * a
    requires forall a, b {:trigger score[a, b]} :: 0 <= a <= |seq1| && 0 <= b <= |seq2| ==> score[a, b] == GlobalCell(seq1, seq2, a, b)
    requires i <= |seq1| && j <= |seq2|
    ensures GlobalTraceback(seq1, seq2, i, j, score) == GlobalPath(seq1, seq2, i, j)
    decreases i + j
  {
    if i > 0 || j > 0 {
      SameMove(seq1, seq2, i, j, score);
      var p := Source(i, j, GlobalMove(seq1, seq2, i, j));
      GlobalTracebackPath(seq1, seq2, p.0, p.1, score);
    }
  }

  /** `global_align`: the traced-back alignment of the whole of both
      sequences. It aligns seq1 with seq2 and scores exactly global_cmp,
      which GlobalOptimal shows no alignment exceeds. */
  method GlobalAlign(seq1: string, seq2: string) returns (r: (string, string))
    ensures r == GlobalPath(seq1, seq2, |seq1|, |seq2|)
    ensures |r.0| == |r.1|
    ensures NoSpaces(seq1) && NoSpaces(seq2) ==>
      IsAlignment(r.0, r.1, seq1, seq2) &&
      AlignmentScore(r.0, r.1) == GlobalCell(seq1, seq2, |seq1|, |seq2|)
  {
    var score := GlobalCmpMatrix(seq1, seq2);
    r := GlobalTraceback(seq1, seq2, |seq1|, |seq2|, score);
    GlobalTracebackPath(seq1, seq2, |seq1|, |seq2|, score);
    if NoSpaces(seq1) && NoSpaces(seq2) {
      GlobalPathAligns(seq1, seq2, |seq1|, |seq2|);
      GlobalPathScore(seq1, seq2, |seq1|, |seq2|);
      assert seq1[..|seq1|] == seq1 && seq2[..|seq2|] == seq2;
    }
  }

  /** Appending one column to an alignment of the prefixes seq1[..a] and
      seq2[..b] gives an alignment of the prefixes it extends. */
  lemma ExtendAlignment(seq1: string, seq2: string, s: string, t: string, a: nat, b: nat, x: char, y: char)
    requires a <= |seq1| && b <= |seq2|
    requires IsAlignment(s, t, seq1[..a], seq2[..b])
    requires !(x == Space && y == Space)
    requires x != Space ==> a < |seq1| && x == seq1[a]
    requires y != Space ==> b < |seq2| && y == seq2[b]
    ensures IsAlignment(s + [x], t + [y],
                        seq1[..if x == Space then a else a + 1],
                        seq2[..if y == Space then b else b + 1])
  {
    assert (s + [x])[..|s|] == s;
    assert (t + [y])[..|t|] == t;
    if x != Space {
      assert seq1[..a + 1] == seq1[..a] + [x];
    }
    if y != Space {
      assert seq2[..b + 1] == seq2[..b] + [y];
    }
  }

  /** The recurrence-driven traceback from (i, j) is an alignment of
      seq1[..i] with seq2[..j]. */
  lemma {:induction false} GlobalPathAligns(seq1: string, seq2: string, i: nat, j: nat)
    requires NoSpaces(seq1) && NoSpaces(seq2)
    requires i <= |seq1| && j <= |seq2|
    ensures var r := GlobalPath(seq1, seq2, i, j); IsAlignment(r.0, r.1, seq1[..i], seq2[..j])
    decreases i + j
  {
    if i > 0 || j > 0 {
      var m := GlobalMove(seq1, seq2, i, j);
      var p := Source(i, j, m);
      GlobalPathAligns(seq1, seq2, p.0, p.1);
      var r := GlobalPath(seq1, seq2, p.0, p.1);
      AlignMove(seq1, seq2, i, j, m, r.0, r.1);
    }
  }

  /** The column of a move extends an alignment of the prefixes up to the
      cell the move comes from to one of the prefixes up to (i, j). */
  lemma AlignMove(seq1: string, seq2: string, i: nat, j: nat, m: Move, s: string, t: string)
    requires NoSpaces(seq1) && NoSpaces(seq2)
    requires i <= |seq1| && j <= |seq2|
    requires m != Left ==> i > 0
    requires m != Up ==> j > 0
    requires var p := Source(i, j, m); IsAlignment(s, t, seq1[..p.0], seq2[..p.1])
    ensures var c := MoveColumn(seq1, seq2, i, j, m); IsAlignment(s + [c.0], t + [c.1], seq1[..i], seq2[..j])
  {
    var p := Source(i, j, m);
    var c := MoveColumn(seq1, seq2, i, j, m);
    if m != Left {
      assert c.0 == seq1[i - 1] != Space;
    }
    if m != Up {
      assert c.1 == seq2[j - 1] != Space;
    }
    ExtendAlignment(seq1, seq2, s, t, p.0, p.1, c.0, c.1);
  }

  /** The column scores of the recurrence-driven traceback from (i, j) add
      up to GlobalCell(i, j). */
  lemma {:induction false} GlobalPathScore(seq1: string, seq2: string, i: nat, j: nat)
    requires NoSpaces(seq1) && NoSpaces(seq2)
    requires i <= |seq1| && j <= |seq2|
    ensures var r := GlobalPath(seq1, seq2, i, j); AlignmentScore(r.0, r.1) == GlobalCell(seq1, seq2, i, j)
    decreases i + j
  {
    if i > 0 || j > 0 {
      var m := GlobalMove(seq1, seq2, i, j);
      var p := Source(i, j, m);
      var c := MoveColumn(seq1, seq2, i, j, m);
      GlobalPathScore(seq1, seq2, p.0, p.1);
      var r := GlobalPath(seq1, seq2, p.0, p.1);
      ScoreSnoc(r.0, r.1, c.0, c.1);
      MoveScore(seq1, seq2, i, j);
    } else {
      assert GlobalPath(seq1, seq2, 0, 0) == ("", "");
    }
  }

  /** The column a recurrence step appends scores the difference between
      the cell and the cell it comes from. */
  lemma MoveScore(seq1: string, seq2: string, i: nat, j: nat)
    requires NoSpaces(seq1) && NoSpaces(seq2)
    requires i <= |seq1| && j <= |seq2| && (i > 0 || j > 0)
    ensures var m := GlobalMove(seq1, seq2, i, j); var p := Source(i, j, m); var c := MoveColumn(seq1, seq2, i, j, m);
      GlobalCell(seq1, seq2, i, j) == GlobalCell(seq1, seq2, p.0, p.1) + ColumnScore(c.0, c.1)
  {
    if i > 0 {
      assert seq1[i - 1] != Space;
    }
    if j > 0 {
      assert seq2[j - 1] != Space;
    }
  }

  /** Appending one column adds its score to an alignment's score. */
  lemma ScoreSnoc(s: string, t: string, x: char, y: char)
    requires |s| == |t|
    ensures AlignmentScore(s + [x], t + [y]) == AlignmentScore(s, t) + ColumnScore(x, y)
  {
    assert (s + [x])[..|s|] == s && (t + [y])[..|t|] == t;
  }

  /** Removing the last column of an alignment of seq1[..i] and seq2[..j]
      leaves an alignment of the prefixes the column did not consume. */
  lemma ShrinkAlignment(seq1: string, seq2: string, s: string, t: string, i: nat, j: nat)
    requires i <= |seq1| && j <= |seq2|
    requires IsAlignment(s, t, seq1[..i], seq2[..j]) && s != []
    ensures var x, y := s[|s| - 1], t[|t| - 1];
      (x != Space ==> i > 0 && x == seq1[i - 1]) && (y != Space ==> j > 0 && y == seq2[j - 1]) &&
      IsAlignment(s[..|s| - 1], t[..|t| - 1],
                  seq1[..if x == Space then i else i - 1],
                  seq2[..if y == Space then j else j - 1])
  {
    var x, y := s[|s| - 1], t[|t| - 1];
    var s', t' := s[..|s| - 1], t[..|t| - 1];
    assert Strip(s) == Strip(s') + (if x == Space then [] else [x]);
    assert Strip(t) == Strip(t') + (if y == Space then [] else [y]);
    if x != Space {
      assert seq1[..i][..i - 1] == seq1[..i - 1];
    }
    if y != Space {
      assert seq2[..j][..j - 1] == seq2[..j - 1];
    }
  }

  /** No alignment of seq1[..i] with seq2[..j] scores more than the matrix
      cell (i, j): the matrix holds the optimal global alignment scores. */
  lemma {:induction false} GlobalOptimal(seq1: string, seq2: string, i: nat, j: nat, s: string, t: string)
    requires NoSpaces(seq1) && NoSpaces(seq2)
    requires i <= |seq1| && j <= |seq2|
    requires IsAlignment(s, t, seq1[..i], seq2[..j])
    ensures AlignmentScore(s, t) <= GlobalCell(seq1, seq2, i, j)
    decreases |s|
  {
    if s == [] {
      assert |seq1[..i]| == 0 && |seq2[..j]| == 0;
    } else {
      var x, y := s[|s| - 1], t[|t| - 1];
      ShrinkAlignment(seq1, seq2, s, t, i, j);
      var i' := if x == Space then i else i - 1;
      var j' := if y == Space then j else j - 1;
      GlobalOptimal(seq1, seq2, i', j', s[..|s| - 1], t[..|t| - 1]);
    }
  }
}
