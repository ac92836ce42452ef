/** `EIGAs` in src/compbio/algo/eigas/core.py: the node-matrix alignment of
    two fingerprints (`align`), the count of residues it pairs (`aligned`),
    and the nested `Protein` class with its contact matrix and fingerprint.
    Proteins enter `align` and `aligned` by their fingerprints. */
module Eigas {
  import opened Wrappers
  import opened EigasDp
  import opened Contact
  import opened Fingerprint

  /** The contact-matrix cutoff, in the same units as the distances. */
  const Cutoff: real := 8.0

  /** The ways `align` and `aligned` fail: an empty fingerprint leaves
      no bottom-right node to read, a missing protein cannot be aligned,
      and a path shorter than the first one is indexed past its end. */
  datatype EigasError = EmptyFingerprint | MissingProtein | ShortPath

  /** The score and the two index paths `align` returns for non-empty
      fingerprints: the bottom-right cost and the backtrack from there. */
  function Alignment(f1: seq<real>, f2: seq<real>): (real, seq<Option<nat>>, seq<Option<nat>>)
    requires |f1| > 0 && |f2| > 0
  {
    var p := Trace(f1, f2, |f1| - 1, |f2| - 1);
    (Cost(f1, f2, |f1| - 1, |f2| - 1), p.0, p.1)
  }

  /** No path from (i, j) back to row 0 or column 0 costs less than c. */
  ghost predicate NoCheaperPath(f1: seq<real>, f2: seq<real>, i: nat, j: nat, c: real)
    requires i < |f1| && j < |f2|
  {
    forall s1, s2 :: Replay(f1, f2, i, j, s1, s2).Some? ==> c <= Replay(f1, f2, i, j, s1, s2).value
  }

  /** `align`: fill the node matrix, then follow the predecessors back from
      the bottom-right node. The score is the cost of the path returned,
      no path through the matrix is cheaper, and the paths have the shape
      of an alignment. A fingerprint aligned with itself costs 0.0 along
      the diagonal; a single-value fingerprint gives empty paths. */
  method Align(f1: seq<real>, f2: seq<real>) returns (r: Result<(real, seq<Option<nat>>, seq<Option<nat>>), EigasError>)
    ensures |f1| == 0 || |f2| == 0 ==> r == Err(EmptyFingerprint)
    ensures |f1| > 0 && |f2| > 0 ==> r == Ok(Alignment(f1, f2))
    ensures r.Ok? ==> Replay(f1, f2, |f1| - 1, |f2| - 1, r.value.1, r.value.2) == Some(r.value.0)
    ensures r.Ok? ==> NoCheaperPath(f1, f2, |f1| - 1, |f2| - 1, r.value.0)
    ensures r.Ok? ==> r.value.0 >= 0.0 && |r.value.1| == |r.value.2|
    ensures r.Ok? ==> forall k :: 0 <= k < |r.value.1| ==> r.value.1[k].Some? || r.value.2[k].Some?
    ensures r.Ok? ==> Increasing(r.value.1, |f1| - 1) && Increasing(r.value.2, |f2| - 1)
    ensures r.Ok? && (|f1| == 1 || |f2| == 1) ==> r.value == (0.0, [], [])
    ensures f1 == f2 && |f1| > 0 ==> r == Ok((0.0, Indices(|f1| - 1), Indices(|f1| - 1)))
  {
    if |f1| == 0 || |f2| == 0 {
      return Err(EmptyFingerprint);
    }
    var matrix := FillNodes(f1, f2);
    var s1, s2 := Backtrack(f1, f2, matrix);
    r := Ok((matrix[|f1| - 1, |f2| - 1].score, s1, s2));
    var i, j := |f1| - 1, |f2| - 1;
    TraceCost(f1, f2, i, j);
    forall s1, s2 | Replay(f1, f2, i, j, s1, s2).Some?
      ensures Cost(f1, f2, i, j) <= Replay(f1, f2, i, j, s1, s2).value
    {
      CostOptimal(f1, f2, i, j, s1, s2);
    }
    CostNonNegative(f1, f2, i, j);
    TraceShape(f1, f2, i, j);
    if |f1| == 1 || |f2| == 1 {
      SingleValue(f1, f2);
    }
    if f1 == f2 {
      SelfAlign(f1, i);
    }
  }

  /** The node-filling loops of `align`: every node starts fresh; then the
      rows from 1 on are filled in order. */
  method FillNodes(f1: seq<real>, f2: seq<real>) returns (matrix: array2<Node>)
    ensures fresh(matrix)
    ensures matrix.Length0 == |f1| && matrix.Length1 == |f2|
    ensures forall a, b :: 0 <= a < |f1| && 0 <= b < |f2| ==> matrix[a, b] == NodeAt(f1, f2, a, b)
  {
    var rows, cols := |f1|, |f2|;
    matrix := new Node[rows, cols]((_, _) => Fresh);
    var i := 1;
    while i < rows
      invariant 1 <= i && (rows > 0 ==> i <= rows)
      invariant forall a, b :: 0 <= a < rows && 0 <= b < cols ==>
        matrix[a, b] == if a < i then NodeAt(f1, f2, a, b) else Fresh
    {
      FillRow(f1, f2, matrix, i);
      i := i + 1;
    }
  }

  /** One pass of the inner loop of `align`: each interior node of row i, from
      left to right, takes the cheapest of the steps from its top, diagonal
      and left neighbours. */
  method FillRow(f1: seq<real>, f2: seq<real>, matrix: array2<Node>, i: nat)
    requires matrix.Length0 == |f1| && matrix.Length1 == |f2| && 1 <= i < |f1|
    requires forall a, b :: 0 <= a < |f1| && 0 <= b < |f2| ==>
      matrix[a, b] == if a < i then NodeAt(f1, f2, a, b) else Fresh
    modifies matrix
    ensures forall a, b :: 0 <= a < |f1| && 0 <= b < |f2| ==>
      matrix[a, b] == if a <= i then NodeAt(f1, f2, a, b) else Fresh
  {
    var j := 1;
    while j < |f2|
      invariant 1 <= j && (|f2| > 0 ==> j <= |f2|)
      invariant forall a, b :: 0 <= a < |f1| && 0 <= b < |f2| ==>
        matrix[a, b] == if a < i || (a == i && (b == 0 || b < j)) then NodeAt(f1, f2, a, b) else Fresh
    {
      var top, diag, left := matrix[i - 1, j], matrix[i - 1, j - 1], matrix[i, j - 1];
      var topScore := top.score + Abs(f1[i - 1] - f2[j]) + 1.0;
      var diagScore := diag.score + Abs(f1[i - 1] - f2[j - 1]);
      var leftScore := left.score + Abs(f1[i] - f2[j - 1]) + 1.0;
      var node;
      if topScore <= diagScore && topScore <= leftScore {
        node := Node(Some((i - 1, j)), topScore, Some(i - 1), None);
      } else if diagScore <= topScore && diagScore <= leftScore {
        node := Node(Some((i - 1, j - 1)), diagScore, Some(i - 1), Some(j - 1));
      } else {
        node := Node(Some((i, j - 1)), leftScore, None, Some(j - 1));
      }
      FillCell(f1, f2, i, j, top, diag, left, node);
      matrix[i, j] := node;
      j := j + 1;
    }
  }

  /** The node the inner loop computes from the nodes above, diagonally
      above and to the left of (i, j) is the node the matrix holds there. */
  lemma FillCell(f1: seq<real>, f2: seq<real>, i: nat, j: nat, top: Node, diag: Node, left: Node, node: Node)
    requires 1 <= i < |f1| && 1 <= j < |f2|
    requires top == NodeAt(f1, f2, i - 1, j) && diag == NodeAt(f1, f2, i - 1, j - 1) && left == NodeAt(f1, f2, i, j - 1)
    requires node == Relax(f1, f2, i, j, top.score, diag.score, left.score)
    ensures node == NodeAt(f1, f2, i, j)
  {
    NodeScore(f1, f2, i - 1, j);
    NodeScore(f1, f2, i - 1, j - 1);
    NodeScore(f1, f2, i, j - 1);
    RelaxNode(f1, f2, i, j);
  }

  /** A filled node records the cost of its cell. */
  lemma NodeScore(f1: seq<real>, f2: seq<real>, i: nat, j: nat)
    requires i < |f1| && j < |f2|
    ensures NodeAt(f1, f2, i, j).score == Cost(f1, f2, i, j)
  {
  }

  /** Following one predecessor: nodes in row 0 or column 0 end the path;
      any other node points to a cell with a smaller index sum, and the
      backtrack from it is the backtrack from its predecessor followed by
      its own indices. */
  lemma NodeTrace(f1: seq<real>, f2: seq<real>, i: nat, j: nat)
    requires i < |f1| && j < |f2|
    ensures var n := NodeAt(f1, f2, i, j);
      (n.prev.None? <==> i == 0 || j == 0) &&
      (n.prev.None? ==> Trace(f1, f2, i, j) == ([], [])) &&
      (n.prev.Some? ==>
        var p := n.prev.value;
        p.0 <= i && p.1 <= j && p.0 + p.1 < i + j &&
        Trace(f1, f2, i, j) == (Trace(f1, f2, p.0, p.1).0 + [n.indices1], Trace(f1, f2, p.0, p.1).1 + [n.indices2]))
  {
  }

  /** The backtrack loop of `align`: from the bottom-right node, prepend
      each node's indices and move to its predecessor until a node has
      none. */
  method Backtrack(f1: seq<real>, f2: seq<real>, matrix: array2<Node>) returns (s1: seq<Option<nat>>, s2: seq<Option<nat>>)
    requires |f1| > 0 && |f2| > 0
    requires matrix.Length0 == |f1| && matrix.Length1 == |f2|
    requires forall a, b :: 0 <= a < |f1| && 0 <= b < |f2| ==> matrix[a, b] == NodeAt(f1, f2, a, b)
    ensures (s1, s2) == Trace(f1, f2, |f1| - 1, |f2| - 1)
  {
    var whole := Trace(f1, f2, |f1| - 1, |f2| - 1);
    s1, s2 := [], [];
    var i, j := |f1| - 1, |f2| - 1;
    var node := matrix[i, j];
    AppendEmpty(whole.0);
    AppendEmpty(whole.1);
    while node.prev != None
      invariant i < |f1| && j < |f2| && node == NodeAt(f1, f2, i, j)
      invariant Trace(f1, f2, i, j).0 + s1 == whole.0
      invariant Trace(f1, f2, i, j).1 + s2 == whole.1
      decreases i + j
    {
      NodeTrace(f1, f2, i, j);
      var p := node.prev.value;
      var t := Trace(f1, f2, p.0, p.1);
      Prepend(t.0, node.indices1, s1);
      Prepend(t.1, node.indices2, s2);
      s1 := [node.indices1] + s1;
      s2 := [node.indices2] + s2;
      i, j := p.0, p.1;
      node := matrix[i, j];
    }
    NodeTrace(f1, f2, i, j);
    assert s1 == whole.0 && s2 == whole.1;
  }

  /** Moving one element from the front of s to the back of t keeps t + s. */
  lemma Prepend<T>(t: seq<T>, x: T, s: seq<T>)
    ensures (t + [x]) + s == t + ([x] + s)
  {
  }

  lemma AppendEmpty<T>(t: seq<T>)
    ensures t + [] == t
  {
  }

  /** Python truthiness of an index: None and 0 are false. */
  predicate Truthy(x: Option<nat>) {
    x.Some? && x.value != 0
  }

  /** What the counting loop of `aligned` has produced after the first n
      positions of s1: the count of positions where both entries are
      truthy, or the error of reading s2 past its end, which happens only
      where the entry of s1 is truthy. */
  function Tally(s1: seq<Option<nat>>, s2: seq<Option<nat>>, n: nat): (r: Result<nat, EigasError>)
    requires n <= |s1|
    ensures r.Err? <==> exists k :: |s2| <= k < n && Truthy(s1[k])
    ensures r.Err? ==> r == Err(ShortPath)
    ensures r.Ok? ==> r.value <= n
    ensures r.Ok? && n <= |s2| && (forall k :: 0 <= k < n ==> Truthy(s1[k]) && Truthy(s2[k])) ==> r.value == n
  {
    if n == 0 then Ok(0)
    else
      var prefix := Tally(s1, s2, n - 1);
      if prefix.Err? then prefix
      else if !Truthy(s1[n - 1]) then prefix
      else if n - 1 >= |s2| then Err(ShortPath)
      else Ok(prefix.value + (if Truthy(s2[n - 1]) then 1 else 0))
  }

  /** The positions below n where both paths hold a truthy index. */
  ghost function BothTruthy(s1: seq<Option<nat>>, s2: seq<Option<nat>>, n: nat): set<nat>
    requires n <= |s1|
  {
    set k: nat | k < n && k < |s2| && Truthy(s1[k]) && Truthy(s2[k])
  }

  /** The count `aligned` returns is the number of positions where both
      paths hold a truthy index. */
  lemma {:induction false} TallyCount(s1: seq<Option<nat>>, s2: seq<Option<nat>>, n: nat)
    requires n <= |s1|
    ensures Tally(s1, s2, n).Ok? ==> Tally(s1, s2, n).value == |BothTruthy(s1, s2, n)|
  {
    if n > 0 && Tally(s1, s2, n).Ok? {
      TallyCount(s1, s2, n - 1);
      var before := BothTruthy(s1, s2, n - 1);
      if n - 1 < |s2| && Truthy(s1[n - 1]) && Truthy(s2[n - 1]) {
        assert BothTruthy(s1, s2, n) == before + {n - 1};
        assert n - 1 !in before;
      } else {
        assert BothTruthy(s1, s2, n) == before;
      }
    }
  }

  /** A non-empty path counts as given; None or empty makes `aligned` realign. */
  predicate Given(s: Option<seq<Option<nat>>>) {
    s.Some? && s.value != []
  }

  /** `aligned`: counts the positions where both paths hold a truthy index,
      realigning the two proteins when either path is missing or empty. */
  method Aligned(protein1: Option<seq<real>>, protein2: Option<seq<real>>,
                 seq1: Option<seq<Option<nat>>>, seq2: Option<seq<Option<nat>>>) returns (r: Result<nat, EigasError>)
    ensures Given(seq1) && Given(seq2) ==> r == Tally(seq1.value, seq2.value, |seq1.value|)
    ensures !(Given(seq1) && Given(seq2)) && (protein1.None? || protein2.None?) ==> r == Err(MissingProtein)
    ensures !(Given(seq1) && Given(seq2)) && protein1.Some? && protein2.Some? ==>
      r == if protein1.value == [] || protein2.value == [] then Err(EmptyFingerprint)
           else var a := Alignment(protein1.value, protein2.value); Tally(a.1, a.2, |a.1|)
    ensures r.Ok? && Given(seq1) && Given(seq2) ==> r.value <= |seq1.value|
    ensures !(Given(seq1) && Given(seq2)) && protein1.Some? && protein1 == protein2 && protein1.value != [] ==>
      r == Ok(if |protein1.value| >= 2 then |protein1.value| - 2 else 0)
  {
    var s1, s2;
    if !Given(seq1) || !Given(seq2) {
      if protein1.None? || protein2.None? {
        return Err(MissingProtein);
      }
      var result := Align(protein1.value, protein2.value);
      if result.Err? {
        return Err(result.error);
      }
      s1, s2 := result.value.1, result.value.2;
      if protein1 == protein2 {
        SelfTally(|protein1.value| - 1);
      }
    } else {
      s1, s2 := seq1.value, seq2.value;
    }
    r := CountAligned(s1, s2);
  }

  /** The counting loop of `aligned`. */
  method CountAligned(s1: seq<Option<nat>>, s2: seq<Option<nat>>) returns (r: Result<nat, EigasError>)
    ensures r == Tally(s1, s2, |s1|)
  {
    var aligned := 0;
    for i := 0 to |s1|
      invariant Tally(s1, s2, i) == Ok(aligned)
    {
      if Truthy(s1[i]) {
        if i >= |s2| {
          return Err(ShortPath);
        }
        if Truthy(s2[i]) {
          aligned := aligned + 1;
        }
      }
    }
    return Ok(aligned);
  }

  /** The self-alignment paths Some(0), ..., Some(n - 1) pair every index
      but 0 with itself. */
  lemma {:induction false} SelfTally(n: nat)
    ensures Tally(Indices(n), Indices(n), n) == Ok(if n >= 1 then n - 1 else 0)
  {
    if n > 0 {
      SelfTally(n - 1);
      TallyPrefix(Indices(n - 1), Indices(n - 1), Some(n - 1), Some(n - 1), n - 1);
    }
  }

  /** Extending both paths leaves the tally of a prefix unchanged. */
  lemma {:induction false} TallyPrefix(s1: seq<Option<nat>>, s2: seq<Option<nat>>, x: Option<nat>, y: Option<nat>, n: nat)
    requires n <= |s1| && |s1| == |s2|
    ensures Tally(s1 + [x], s2 + [y], n) == Tally(s1, s2, n)
  {
    if n > 0 {
      TallyPrefix(s1, s2, x, y, n - 1);
      assert (s1 + [x])[n - 1] == s1[n - 1];
      assert (s2 + [y])[n - 1] == s2[n - 1];
    }
  }

  /** `EIGAs.Protein`: a named structure and its fingerprint. Reading the
      coordinates, the distance matrix and the singular value decomposition
      happen outside the model; the constructor receives the coordinates,
      r and the eigenvalues. */
  class Protein {
    var name: string
    var fingerprint: seq<real>

    /** The fingerprint holds one eigenvalue per residue: for residue j,
        the eigenvalue of the first row of r that is largest in column j. */
    constructor (structure: string, coords: seq<Coord>, r: seq<seq<real>>, eigvalues: seq<real>)
      requires IsSquare(r, |coords|) && |eigvalues| == |coords|
      ensures name == structure
      ensures |fingerprint| == |coords|
      ensures forall j: nat :: j < |coords| ==> Selects(r, |coords|, eigvalues, fingerprint, j)
    {
      var selected := SelectFingerprint(|coords|, r, eigvalues);
      name := structure;
      fingerprint := selected;
    }

    /** `cmatrix`: entries 1 - d / 8.0 for distances d in [0, 8.0], 0
        elsewhere; every entry lies in [0, 1]. */
    static method CMatrix(dmatrix: seq<seq<real>>) returns (cmatrix: array2<real>)
      requires forall i :: 0 <= i < |dmatrix| ==> |dmatrix[i]| >= |dmatrix|
      ensures fresh(cmatrix)
      ensures cmatrix.Length0 == |dmatrix| && cmatrix.Length1 == |dmatrix|
      ensures forall i, j :: 0 <= i < |dmatrix| && 0 <= j < |dmatrix| ==>
        cmatrix[i, j] == ContactValue(dmatrix[i][j], Cutoff, 1.0 / Cutoff) &&
        0.0 <= cmatrix[i, j] <= 1.0
      ensures IsSymmetric(dmatrix) ==>
        forall i, j :: 0 <= i < |dmatrix| && 0 <= j < |dmatrix| ==> cmatrix[i, j] == cmatrix[j, i]
    {
      cmatrix := FillContact(dmatrix, Cutoff, 1.0 / Cutoff);
      forall i, j | 0 <= i < |dmatrix| && 0 <= j < |dmatrix|
        ensures 0.0 <= ContactValue(dmatrix[i][j], Cutoff, 1.0 / Cutoff) <= 1.0
      {
        ContactRange(dmatrix[i][j], Cutoff, 1.0 / Cutoff);
      }
    }
  }
}
