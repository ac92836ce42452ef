/** The dynamic programme of `EIGAs.align` in src/compbio/algo/eigas/core.py,
    stated as functions: the node each cell of the matrix ends up holding,
    the cost it records, and the index paths the backtrack reads off. A
    fingerprint holds one eigenvalue per residue; aligning two of them
    minimises a summed cost. A diagonal step costs the distance between the
    two values it pairs. A gap step costs 1.0 plus the distance between the
    value it consumes and the value at the cell's other index in the other
    fingerprint. Costs are
    exact reals. */
module EigasDp {
  import opened Wrappers

  function Abs(x: real): (r: real)
    ensures r >= 0.0
  {
    if x < 0.0 then -x else x
  }

  /** A node of the matrix: the cell it was reached from, its cost, and the
      residue of each fingerprint its step consumed (None for a gap). */
  datatype Node = Node(prev: Option<(nat, nat)>, score: real, indices1: Option<nat>, indices2: Option<nat>)

  /** A fresh node: no predecessor, cost 0.0, no indices. */
  const Fresh: Node := Node(None, 0.0, None, None)

  /** The cost of the step into (i, j) from the node above, (i - 1, j). */
  function TopCost(f1: seq<real>, f2: seq<real>, i: nat, j: nat): (c: real)
    requires 1 <= i < |f1| && j < |f2|
    ensures c >= 1.0
  {
    Abs(f1[i - 1] - f2[j]) + 1.0
  }

  /** The cost of the step into (i, j) from the diagonal node (i - 1, j - 1). */
  function DiagCost(f1: seq<real>, f2: seq<real>, i: nat, j: nat): (c: real)
    requires 1 <= i < |f1| && 1 <= j < |f2|
    ensures c >= 0.0
  {
    Abs(f1[i - 1] - f2[j - 1])
  }

  /** The cost of the step into (i, j) from the node to the left, (i, j - 1). */
  function LeftCost(f1: seq<real>, f2: seq<real>, i: nat, j: nat): (c: real)
    requires i < |f1| && 1 <= j < |f2|
    ensures c >= 1.0
  {
    Abs(f1[i] - f2[j - 1]) + 1.0
  }

  /** The step a node takes: from the node above, the diagonal one or the
      one to the left. */
  datatype Step = Top | Diag | Left

  /** The cheapest of the three candidate costs, ties resolved top first,
      then diagonal, then left. */
  function Pick(t: real, d: real, l: real): (s: Step)
    ensures s == Top <==> t <= d && t <= l
    ensures s == Diag <==> !(t <= d && t <= l) && d <= t && d <= l
  {
    if t <= d && t <= l then Top
    else if d <= t && d <= l then Diag
    else Left
  }

  /** The node the filling loop writes at the interior cell (i, j) when its
      top, diagonal and left neighbours cost `top`, `diag` and `left`. */
  function Relax(f1: seq<real>, f2: seq<real>, i: nat, j: nat, top: real, diag: real, left: real): Node
    requires 1 <= i < |f1| && 1 <= j < |f2|
  {
    var t := top + TopCost(f1, f2, i, j);
    var d := diag + DiagCost(f1, f2, i, j);
    var l := left + LeftCost(f1, f2, i, j);
    match Pick(t, d, l)
    case Top => Node(Some((i - 1, j)), t, Some(i - 1), None)
    case Diag => Node(Some((i - 1, j - 1)), d, Some(i - 1), Some(j - 1))
    case Left => Node(Some((i, j - 1)), l, None, Some(j - 1))
  }

  /** The node the loop writes has a predecessor, consumes at least one
      residue, and costs no more than any of the three candidates. */
  lemma RelaxCheapest(f1: seq<real>, f2: seq<real>, i: nat, j: nat, top: real, diag: real, left: real)
    requires 1 <= i < |f1| && 1 <= j < |f2|
    ensures var n := Relax(f1, f2, i, j, top, diag, left);
      n.prev.Some? && (n.indices1.Some? || n.indices2.Some?) &&
      n.score <= top + TopCost(f1, f2, i, j) &&
      n.score <= diag + DiagCost(f1, f2, i, j) &&
      n.score <= left + LeftCost(f1, f2, i, j)
  {
  }

  /** The cell a step into (i, j) comes from. */
  function Back(i: nat, j: nat, s: Step): (p: (nat, nat))
    requires i > 0 && j > 0
    ensures p == (if s == Left then i else i - 1, if s == Top then j else j - 1)
  {
    match s
    case Top => (i - 1, j)
    case Diag => (i - 1, j - 1)
    case Left => (i, j - 1)
  }

  /** The residues a step into (i, j) consumes: row i - 1 of the first
      fingerprint unless it comes from the left, column j - 1 of the second
      unless it comes from above. */
  function Column(i: nat, j: nat, s: Step): (c: (Option<nat>, Option<nat>))
    requires i > 0 && j > 0
    ensures c == (if s == Left then None else Some(i - 1), if s == Top then None else Some(j - 1))
  {
    match s
    case Top => (Some(i - 1), None)
    case Diag => (Some(i - 1), Some(j - 1))
    case Left => (None, Some(j - 1))
  }

  /** What a step into the interior cell (i, j) costs. */
  function StepCost(f1: seq<real>, f2: seq<real>, i: nat, j: nat, s: Step): real
    requires 1 <= i < |f1| && 1 <= j < |f2|
  {
    match s
    case Top => TopCost(f1, f2, i, j)
    case Diag => DiagCost(f1, f2, i, j)
    case Left => LeftCost(f1, f2, i, j)
  }

  /** The cost the matrix holds at (i, j): 0.0 on row 0 and column 0, and
      inside the least of the costs of reaching it from the top, diagonal
      and left neighbours. */
  function Cost(f1: seq<real>, f2: seq<real>, i: nat, j: nat): real
    requires i < |f1| && j < |f2|
    decreases i + j, 1
  {
    if i == 0 || j == 0 then 0.0
    else Cheapest(Via(f1, f2, i, j, Top), Via(f1, f2, i, j, Diag), Via(f1, f2, i, j, Left))
  }

  /** The cost of reaching the interior cell (i, j) by step s: the cost of
      the cell it comes from plus the cost of the step. */
  function Via(f1: seq<real>, f2: seq<real>, i: nat, j: nat, s: Step): real
    requires 1 <= i < |f1| && 1 <= j < |f2|
    decreases i + j, 0
  {
    var p := Back(i, j, s);
    Cost(f1, f2, p.0, p.1) + StepCost(f1, f2, i, j, s)
  }

  /** The least of three candidate costs. */
  function Cheapest(t: real, d: real, l: real): (c: real)
    ensures c <= t && c <= d && c <= l
    ensures c == t || c == d || c == l
  {
    if t <= d && t <= l then t
    else if d <= t && d <= l then d
    else l
  }

  /** The step the node at the interior cell (i, j) takes. */
  function StepAt(f1: seq<real>, f2: seq<real>, i: nat, j: nat): Step
    requires 1 <= i < |f1| && 1 <= j < |f2|
  {
    Pick(Via(f1, f2, i, j, Top), Via(f1, f2, i, j, Diag), Via(f1, f2, i, j, Left))
  }

  /** The cost at an interior cell is the cost of the cell its step comes
      from plus the cost of that step. */
  lemma StepAtCost(f1: seq<real>, f2: seq<real>, i: nat, j: nat)
    requires 1 <= i < |f1| && 1 <= j < |f2|
    ensures var s := StepAt(f1, f2, i, j); var p := Back(i, j, s);
      Cost(f1, f2, i, j) == Cost(f1, f2, p.0, p.1) + StepCost(f1, f2, i, j, s)
  {
  }

  /** The node the matrix holds at (i, j) once filled: row 0 and column 0
      keep the fresh node; inside, the predecessor and the indices of the
      step taken. */
  function NodeAt(f1: seq<real>, f2: seq<real>, i: nat, j: nat): Node
    requires i < |f1| && j < |f2|
  {
    if i == 0 || j == 0 then Fresh
    else
      var s := StepAt(f1, f2, i, j);
      var c := Column(i, j, s);
      Node(Some(Back(i, j, s)), Cost(f1, f2, i, j), c.0, c.1)
  }

  /** Relaxing an interior cell against the costs of its neighbours gives
      the node the matrix holds there. */
  lemma RelaxNode(f1: seq<real>, f2: seq<real>, i: nat, j: nat)
    requires 1 <= i < |f1| && 1 <= j < |f2|
    ensures Relax(f1, f2, i, j, Cost(f1, f2, i - 1, j), Cost(f1, f2, i - 1, j - 1), Cost(f1, f2, i, j - 1)) == NodeAt(f1, f2, i, j)
  {
  }

  /** The cost at an interior cell is the least of its three candidates. */
  lemma CostMin(f1: seq<real>, f2: seq<real>, i: nat, j: nat)
    requires 1 <= i < |f1| && 1 <= j < |f2|
    ensures Cost(f1, f2, i, j) <= Cost(f1, f2, i - 1, j) + TopCost(f1, f2, i, j)
    ensures Cost(f1, f2, i, j) <= Cost(f1, f2, i - 1, j - 1) + DiagCost(f1, f2, i, j)
    ensures Cost(f1, f2, i, j) <= Cost(f1, f2, i, j - 1) + LeftCost(f1, f2, i, j)
  {
  }

  /** The two index paths the backtrack from (i, j) builds: following the
      predecessors back to row 0 or column 0, each node contributes its
      indices at the front. */
  function Trace(f1: seq<real>, f2: seq<real>, i: nat, j: nat): (seq<Option<nat>>, seq<Option<nat>>)
    requires i < |f1| && j < |f2|
    decreases i + j
  {
    if i == 0 || j == 0 then ([], [])
    else
      var s := StepAt(f1, f2, i, j);
      var p := Back(i, j, s);
      var c := Column(i, j, s);
      var t := Trace(f1, f2, p.0, p.1);
      (t.0 + [c.0], t.1 + [c.1])
  }

  /** The cost of the path that the index columns (s1, s2) describe when read
      backwards from (i, j): a column (Some(i - 1), None) steps up, (Some(i -
      1), Some(j - 1)) steps diagonally and (None, Some(j - 1)) steps left,
      each at the cost the matrix charges for it; the path has to end in row
      0 or column 0. None when the columns describe no such path. */
  function Replay(f1: seq<real>, f2: seq<real>, i: nat, j: nat, s1: seq<Option<nat>>, s2: seq<Option<nat>>): Option<real>
    requires i < |f1| && j < |f2|
    decreases |s1|
  {
    if s1 == [] || s2 == [] then
      if s1 == [] && s2 == [] && (i == 0 || j == 0) then Some(0.0) else None
    else if i == 0 || j == 0 then None
    else
      var x, y := s1[|s1| - 1], s2[|s2| - 1];
      var s1', s2' := s1[..|s1| - 1], s2[..|s2| - 1];
      if x == Some(i - 1) && y == None then
        Plus(Replay(f1, f2, i - 1, j, s1', s2'), TopCost(f1, f2, i, j))
      else if x == Some(i - 1) && y == Some(j - 1) then
        Plus(Replay(f1, f2, i - 1, j - 1, s1', s2'), DiagCost(f1, f2, i, j))
      else if x == None && y == Some(j - 1) then
        Plus(Replay(f1, f2, i, j - 1, s1', s2'), LeftCost(f1, f2, i, j))
      else None
  }

  function Plus(c: Option<real>, x: real): Option<real> {
    if c.None? then None else Some(c.value + x)
  }

  /** Every cost in the matrix is non-negative. */
  lemma {:induction false} CostNonNegative(f1: seq<real>, f2: seq<real>, i: nat, j: nat)
    requires i < |f1| && j < |f2|
    ensures Cost(f1, f2, i, j) >= 0.0
    decreases i + j
  {
    if i > 0 && j > 0 {
      CostNonNegative(f1, f2, i - 1, j);
      CostNonNegative(f1, f2, i - 1, j - 1);
      CostNonNegative(f1, f2, i, j - 1);
    }
  }

  /** The cost at (i, j) is what its backtrack path costs, step by step. */
  lemma {:induction false} TraceCost(f1: seq<real>, f2: seq<real>, i: nat, j: nat)
    requires i < |f1| && j < |f2|
    ensures var p := Trace(f1, f2, i, j); Replay(f1, f2, i, j, p.0, p.1) == Some(Cost(f1, f2, i, j))
    decreases i + j
  {
    if i > 0 && j > 0 {
      var s := StepAt(f1, f2, i, j);
      var p := Back(i, j, s);
      TraceCost(f1, f2, p.0, p.1);
      StepAtCost(f1, f2, i, j);
      var q := Trace(f1, f2, p.0, p.1);
      ReplayStep(f1, f2, i, j, s, q.0, q.1);
    }
  }

  /** Replaying the column of a step from (i, j) takes that step, from the
      cell it leads back to, at its cost. */
  lemma ReplayStep(f1: seq<real>, f2: seq<real>, i: nat, j: nat, s: Step, s1: seq<Option<nat>>, s2: seq<Option<nat>>)
    requires 1 <= i < |f1| && 1 <= j < |f2|
    ensures var c, p := Column(i, j, s), Back(i, j, s);
      Replay(f1, f2, i, j, s1 + [c.0], s2 + [c.1]) == Plus(Replay(f1, f2, p.0, p.1, s1, s2), StepCost(f1, f2, i, j, s))
  {
    assert (s1 + [Column(i, j, s).0])[..|s1|] == s1;
    assert (s2 + [Column(i, j, s).1])[..|s2|] == s2;
  }

  /** No path from (i, j) back to row 0 or column 0 costs less than the
      matrix cost: the backtrack path is a cheapest one. */
  lemma {:induction false} CostOptimal(f1: seq<real>, f2: seq<real>, i: nat, j: nat, s1: seq<Option<nat>>, s2: seq<Option<nat>>)
    requires i < |f1| && j < |f2|
    requires Replay(f1, f2, i, j, s1, s2).Some?
    ensures Cost(f1, f2, i, j) <= Replay(f1, f2, i, j, s1, s2).value
    decreases |s1|
  {
    if s1 != [] && s2 != [] && i > 0 && j > 0 {
      var x, y := s1[|s1| - 1], s2[|s2| - 1];
      var s1', s2' := s1[..|s1| - 1], s2[..|s2| - 1];
      CostMin(f1, f2, i, j);
      if x == Some(i - 1) && y == None {
        CostOptimal(f1, f2, i - 1, j, s1', s2');
      } else if x == Some(i - 1) && y == Some(j - 1) {
        CostOptimal(f1, f2, i - 1, j - 1, s1', s2');
      } else {
        CostOptimal(f1, f2, i, j - 1, s1', s2');
      }
    }
  }

  /** The Some entries of `s` strictly increase and stay below `bound`. */
  ghost predicate Increasing(s: seq<Option<nat>>, bound: nat) {
    (forall p :: 0 <= p < |s| && s[p].Some? ==> s[p].value < bound) &&
    forall p, q :: 0 <= p < q < |s| && s[p].Some? && s[q].Some? ==> s[p].value < s[q].value
  }

  lemma IncreasingAppend(s: seq<Option<nat>>, bound: nat, x: Option<nat>, bound': nat)
    requires Increasing(s, bound) && bound <= bound'
    requires x.Some? ==> bound <= x.value < bound'
    ensures Increasing(s + [x], bound')
  {
  }

  /** The backtrack paths from (i, j) have equal length, never hold a gap in
      both at once, and their indices increase strictly, below i in the
      first and below j in the second. */
  lemma {:induction false} TraceShape(f1: seq<real>, f2: seq<real>, i: nat, j: nat)
    requires i < |f1| && j < |f2|
    ensures var p := Trace(f1, f2, i, j);
      |p.0| == |p.1| &&
      (forall k :: 0 <= k < |p.0| ==> p.0[k].Some? || p.1[k].Some?) &&
      Increasing(p.0, i) && Increasing(p.1, j)
    decreases i + j
  {
    if i > 0 && j > 0 {
      var s := StepAt(f1, f2, i, j);
      var p := Back(i, j, s);
      var c := Column(i, j, s);
      TraceShape(f1, f2, p.0, p.1);
      var q := Trace(f1, f2, p.0, p.1);
      IncreasingAppend(q.0, p.0, c.0, i);
      IncreasingAppend(q.1, p.1, c.1, j);
    }
  }

  /** When either fingerprint has a single value the matrix has no interior
      and the alignment is empty at cost 0.0. */
  lemma SingleValue(f1: seq<real>, f2: seq<real>)
    requires |f1| >= 1 && |f2| >= 1 && (|f1| == 1 || |f2| == 1)
    ensures Cost(f1, f2, |f1| - 1, |f2| - 1) == 0.0
    ensures Trace(f1, f2, |f1| - 1, |f2| - 1) == ([], [])
  {
  }

  /** Some(0), ..., Some(n - 1). */
  function Indices(n: nat): (s: seq<Option<nat>>)
    ensures |s| == n
  {
    if n == 0 then [] else Indices(n - 1) + [Some(n - 1)]
  }

  /** Aligning a fingerprint with itself costs nothing and pairs every
      residue but the last with itself: both paths are Some(0), ...,
      Some(i - 1). */
  lemma {:induction false} SelfAlign(f: seq<real>, i: nat)
    requires i < |f|
    ensures Cost(f, f, i, i) == 0.0
    ensures Trace(f, f, i, i) == (Indices(i), Indices(i))
  {
    if i > 0 {
      SelfAlign(f, i - 1);
      CostNonNegative(f, f, i - 1, i);
      CostNonNegative(f, f, i, i - 1);
    }
  }
}
