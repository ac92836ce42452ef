/** The scoring pieces shared by global and local alignment of character
    sequences: the match/mismatch score `__p` and the score-matrix
    initialisation `__cmp_init` of src/compbio/seq.py. */
module SeqMatrix {

  /** The cost of a gap step; the alignments subtract it. */
  const Gap: int := 2

  /** `__p`: +1 for equal characters, -1 otherwise. */
  function P(a: char, b: char): (r: int)
    ensures r == 1 <==> a == b
    ensures r == 1 || r == -1
  {
    if a == b then 1 else -1
  }

  function Max(a: int, b: int): int {
    if a >= b then a else b
  }

  /** The recurrence both alignments share: the best of the step from
      above (a gap in the second sequence), the diagonal step (x against y)
      and the step from the left (a gap in the first sequence). */
  function Best(up: int, diag: int, left: int, x: char, y: char): int {
    Max(Max(up - Gap, diag + P(x, y)), left - Gap)
  }

  /** The character the alignments write in place of a gapped position. */
  const Space: char := ' '

  predicate NoSpaces(s: string) {
    forall k :: 0 <= k < |s| ==> s[k] != Space
  }

  /** `s` with every space removed, built from the back as the alignments are. */
  function Strip(s: string): (r: string)
    ensures |r| <= |s|
    ensures NoSpaces(r)
  {
    if s == [] then []
    else Strip(s[..|s| - 1]) + (if s[|s| - 1] == Space then [] else [s[|s| - 1]])
  }

  lemma StripSnoc(s: string, c: char)
    ensures Strip(s + [c]) == Strip(s) + (if c == Space then [] else [c])
  {
    assert (s + [c])[..|s|] == s;
  }

  /** The three steps of a traceback out of (i, j): from row i - 1 (seq1's
      character against a space), from the diagonal, or from column j - 1
      (a space against seq2's character). */
  datatype Move = Up | Diag | Left

  /** The cell a move comes from. */
  function Source(i: nat, j: nat, m: Move): (p: (nat, nat))
    requires m != Left ==> i > 0
    requires m != Up ==> j > 0
    ensures p.0 + p.1 < i + j
  {
    match m
    case Up => (i - 1, j)
    case Diag => (i - 1, j - 1)
    case Left => (i, j - 1)
  }

  /** `__cmp_init`: a zero matrix of (|seq1| + 1) rows and (|seq2| + 1)
      columns whose first column holds i * v and first row j * v. */
  method CmpInit(seq1: string, seq2: string, v: int) returns (dims: (nat, nat), score: array2<int>)
    ensures dims == (|seq1| + 1, |seq2| + 1)
    ensures fresh(score) && score.Length0 == dims.0 && score.Length1 == dims.1
    ensures forall i, j :: 0 <= i < dims.0 && 0 <= j < dims.1 ==>
      score[i, j] == (if j == 0 then i * v else if i == 0 then j * v else 0)
  {
    var rows := |seq1| + 1;
    var cols := |seq2| + 1;
    score := new int[rows, cols]((i, j) => 0);
    var i := 1;
    while i < rows
      invariant 1 <= i <= rows
      invariant forall a, b :: 0 <= a < rows && 0 <= b < cols ==>
        score[a, b] == (if b == 0 && 0 < a < i then a * v else 0)
    {
      score[i, 0] := i * v;
      i := i + 1;
    }
    i := 1;
    while i < cols
      invariant 1 <= i <= cols
      invariant forall a, b :: 0 <= a < rows && 0 <= b < cols ==>
        score[a, b] == (if b == 0 then a * v else if a == 0 && b < i then b * v else 0)
    {
      score[0, i] := i * v;
      i := i + 1;
    }
    dims := (rows, cols);
  }
}
