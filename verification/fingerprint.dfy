/** The per-residue fingerprint selection shared by the two `Protein`
    constructors (src/compbio/algo/eigas/core.py and
    src/compbio/algo/eigas/protein/core.py): residue j gets the eigenvalue
    whose row of r holds the largest entry in column j, the first such row
    when several tie. r and the eigenvalues come from the singular value
    decomposition of the n x n contact matrix, so r is n x n and there are n
    eigenvalues. */
module Fingerprint {
  import opened Wrappers

  ghost predicate IsSquare(r: seq<seq<real>>, n: nat) {
    |r| == n && forall i :: 0 <= i < n ==> |r[i]| == n
  }

  /** m is the first row whose entry in column j is largest. */
  ghost predicate IsFirstMax(r: seq<seq<real>>, n: nat, j: nat, m: nat)
    requires IsSquare(r, n) && j < n
  {
    m < n &&
    (forall i :: 0 <= i < n ==> r[i][j] <= r[m][j]) &&
    (forall i :: 0 <= i < m ==> r[i][j] < r[m][j])
  }

  /** Each column has one first maximal row. */
  lemma FirstMaxUnique(r: seq<seq<real>>, n: nat, j: nat, m: nat, m': nat)
    requires IsSquare(r, n) && j < n
    requires IsFirstMax(r, n, j, m) && IsFirstMax(r, n, j, m')
    ensures m == m'
  {
    assert r[m][j] == r[m'][j];
    assert !(m < m') && !(m' < m);
  }

  /** Python 2 orders None below every number, so the first comparison
      always succeeds. */
  predicate Beats(x: real, best: Option<real>) {
    best.None? || x > best.value
  }

  /** The inner argmax loop: scans the rows of column j, moving to a row
      only when its entry is strictly greater than the best so far. */
  method FirstArgMax(r: seq<seq<real>>, n: nat, j: nat) returns (maxIndex: nat)
    requires IsSquare(r, n) && j < n
    ensures IsFirstMax(r, n, j, maxIndex)
  {
    var best: Option<nat> := None;
    var maxValue: Option<real> := None;
    for i := 0 to |r[0]|
      invariant (i == 0) == best.None?
      invariant best.None? ==> maxValue.None?
      invariant best.Some? ==> best.value < i && maxValue == Some(r[best.value][j])
      invariant best.Some? ==> forall a :: 0 <= a < i ==> r[a][j] <= r[best.value][j]
      invariant best.Some? ==> forall a :: 0 <= a < best.value ==> r[a][j] < r[best.value][j]
    {
      if Beats(r[i][j], maxValue) {
        best := Some(i);
        maxValue := Some(r[i][j]);
      }
    }
    maxIndex := best.value;
  }

  /** fingerprint[j] is the eigenvalue of the first maximal row of column j. */
  ghost predicate Selects(r: seq<seq<real>>, n: nat, eigvalues: seq<real>, fingerprint: seq<real>, j: nat)
    requires IsSquare(r, n) && |eigvalues| == n && |fingerprint| == n && j < n
  {
    exists m: nat :: m < n && IsFirstMax(r, n, j, m) && fingerprint[j] == eigvalues[m]
  }

  /** The outer loop: one eigenvalue per residue, appended in order. */
  method SelectFingerprint(n: nat, r: seq<seq<real>>, eigvalues: seq<real>) returns (fingerprint: seq<real>)
    requires IsSquare(r, n) && |eigvalues| == n
    ensures |fingerprint| == n
    ensures forall j: nat :: j < n ==> Selects(r, n, eigvalues, fingerprint, j)
  {
    fingerprint := [];
    ghost var rows: seq<nat> := [];
    for j := 0 to n
      invariant |fingerprint| == j && |rows| == j
      invariant forall a :: 0 <= a < j ==> rows[a] < n && IsFirstMax(r, n, a, rows[a]) && fingerprint[a] == eigvalues[rows[a]]
    {
      var maxIndex := FirstArgMax(r, n, j);
      fingerprint := fingerprint + [eigvalues[maxIndex]];
      rows := rows + [maxIndex];
    }
    forall j: nat | j < n
      ensures Selects(r, n, eigvalues, fingerprint, j)
    {
      assert IsFirstMax(r, n, j, rows[j]) && fingerprint[j] == eigvalues[rows[j]];
    }
  }
}
