/** The contact matrix both `cmatrix` methods build from a distance matrix:
    src/compbio/algo/eigas/core.py (cutoff 8.0, factor 1/8.0) and
    src/compbio/algo/eigas/protein/core.py (integer cutoff 8, factor
    1 / 8 in integer division). A pair of residues is in contact when their
    distance lies in [0, cutoff]; the entry is then 1 - k * distance, and 0
    otherwise. */
module Contact {

  /** A residue's coordinates. */
  type Coord = (real, real, real)

  /** The contact-matrix entry for distance d. */
  function ContactValue(d: real, cutoff: real, k: real): (c: real)
    ensures 0.0 <= d <= cutoff ==> c == 1.0 - k * d
    ensures !(0.0 <= d <= cutoff) ==> c == 0.0
    ensures d == 0.0 && cutoff >= 0.0 ==> c == 1.0
  {
    if d >= 0.0 && d <= cutoff then 1.0 - k * d else 0.0
  }

  /** With 0 <= k <= 1 / cutoff every entry lies in [0, 1]. */
  lemma ContactRange(d: real, cutoff: real, k: real)
    requires 0.0 <= k && k * cutoff <= 1.0
    ensures 0.0 <= ContactValue(d, cutoff, k) <= 1.0
  {
    if 0.0 <= d <= cutoff {
      assert k * d <= k * cutoff by {
        assert k * (cutoff - d) >= 0.0;
      }
      assert k * d >= 0.0;
    }
  }

  /** A longer cutoff with the factor 1 / cutoff never lowers an entry:
      a pair in contact keeps a value at least as large, and a pair that
      comes into contact gains a value of at least 0. */
  lemma ContactMonotone(d: real, cutoff: real, cutoff': real)
    requires 0.0 < cutoff <= cutoff'
    ensures ContactValue(d, cutoff, 1.0 / cutoff) <= ContactValue(d, cutoff', 1.0 / cutoff')
  {
    var y := d / cutoff';
    assert y * cutoff' == d;
    assert 1.0 / cutoff' * d == y;
    if 0.0 <= d <= cutoff {
      var x := d / cutoff;
      assert x * cutoff == d;
      assert x >= 0.0;
      assert y <= x by {
        assert (x - y) * cutoff' == x * (cutoff' - cutoff) by {
          assert x * cutoff' - y * cutoff' == x * cutoff' - x * cutoff;
        }
        assert x * (cutoff' - cutoff) >= 0.0;
      }
      assert 1.0 / cutoff * d == x;
    } else if 0.0 <= d <= cutoff' {
      assert y <= 1.0 by {
        assert (1.0 - y) * cutoff' == cutoff' - d;
      }
    }
  }

  ghost predicate IsSymmetric(dmatrix: seq<seq<real>>)
    requires forall i :: 0 <= i < |dmatrix| ==> |dmatrix[i]| >= |dmatrix|
  {
    forall i, j :: 0 <= i < |dmatrix| && 0 <= j < |dmatrix| ==> dmatrix[i][j] == dmatrix[j][i]
  }

  /** `cmatrix`: a zero l x l matrix, l the number of rows of the distance
      matrix, in which every pair in contact gets 1 - k * distance. A
      symmetric distance matrix gives a symmetric contact matrix. */
  method FillContact(dmatrix: seq<seq<real>>, cutoff: real, k: real) returns (cmatrix: array2<real>)
    requires forall i :: 0 <= i < |dmatrix| ==> |dmatrix[i]| >= |dmatrix|
    ensures fresh(cmatrix)
    ensures cmatrix.Length0 == |dmatrix| && cmatrix.Length1 == |dmatrix|
    ensures forall i, j :: 0 <= i < |dmatrix| && 0 <= j < |dmatrix| ==>
      cmatrix[i, j] == ContactValue(dmatrix[i][j], cutoff, k)
    ensures IsSymmetric(dmatrix) ==>
      forall i, j :: 0 <= i < |dmatrix| && 0 <= j < |dmatrix| ==> cmatrix[i, j] == cmatrix[j, i]
  {
    var l := |dmatrix|;
    cmatrix := new real[l, l]((_, _) => 0.0);
    for i := 0 to l
      invariant forall a, b :: 0 <= a < l && 0 <= b < l ==>
        cmatrix[a, b] == if a < i then ContactValue(dmatrix[a][b], cutoff, k) else 0.0
    {
      for j := 0 to l
        invariant forall a, b :: 0 <= a < l && 0 <= b < l ==>
          cmatrix[a, b] == if a < i || (a == i && b < j) then ContactValue(dmatrix[a][b], cutoff, k) else 0.0
      {
        var value := dmatrix[i][j];
        if value >= 0.0 && value <= cutoff {
          cmatrix[i, j] := 1.0 - k * value;
        }
      }
    }
  }
}
