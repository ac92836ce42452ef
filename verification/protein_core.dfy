/** The stand-alone `Protein` of src/compbio/algo/eigas/protein/core.py.
    Its cutoff is the integer 8 and its contact factor is 1 / 8 under
    Python 2 integer division, which is 0: every pair within the cutoff
    gets the entry 1.0. */
module ProteinCore {
  import opened Contact
  import opened Fingerprint

  /** The contact-matrix cutoff, an integer. */
  const Cutoff: int := 8

  /** The factor 1 / Cutoff as Python 2 computes it on two integers. */
  const K: int := 1 / Cutoff

  /** With the factor 0 an entry is 1.0 within the cutoff and 0.0 outside. */
  lemma ZeroFactor(d: real)
    ensures ContactValue(d, Cutoff as real, K as real) == if 0.0 <= d <= 8.0 then 1.0 else 0.0
  {
    assert K == 0;
  }

  /** A protein: its name, the coordinates of its residues and its
      fingerprint. The parser that supplies the name and the coordinates,
      the distance matrix and the singular value decomposition are outside
      the model; the constructor receives r and the eigenvalues. */
  class Protein {
    var name: string
    var coords: seq<Coord>
    var fingerprint: seq<real>

    /** The fingerprint starts empty and gains one eigenvalue per residue:
        for residue j, the eigenvalue of the first row of r that is largest
        in column j. */
    constructor (parsedName: string, parsedCoords: seq<Coord>, r: seq<seq<real>>, eigvalues: seq<real>)
      requires IsSquare(r, |parsedCoords|) && |eigvalues| == |parsedCoords|
      ensures name == parsedName && coords == parsedCoords
      ensures |fingerprint| == |coords|
      ensures forall j: nat :: j < |coords| ==> Selects(r, |coords|, eigvalues, fingerprint, j)
    {
      var selected := SelectFingerprint(|parsedCoords|, r, eigvalues);
      name := parsedName;
      coords := parsedCoords;
      fingerprint := selected;
    }

    /** `cmatrix`: with K = 0 the matrix is a 0/1 contact map, 1.0 exactly
        where the distance lies in [0, 8] and 0.0 elsewhere. */
    static method CMatrix(dmatrix: seq<seq<real>>) returns (cmatrix: array2<real>)
      requires forall i :: 0 <= i < |dmatrix| ==> |dmatrix[i]| >= |dmatrix|
      ensures fresh(cmatrix)
      ensures cmatrix.Length0 == |dmatrix| && cmatrix.Length1 == |dmatrix|
      ensures forall i, j :: 0 <= i < |dmatrix| && 0 <= j < |dmatrix| ==>
        cmatrix[i, j] == ContactValue(dmatrix[i][j], Cutoff as real, K as real)
      ensures forall i, j :: 0 <= i < |dmatrix| && 0 <= j < |dmatrix| ==>
        cmatrix[i, j] == if 0.0 <= dmatrix[i][j] <= 8.0 then 1.0 else 0.0
      ensures IsSymmetric(dmatrix) ==>
        forall i, j :: 0 <= i < |dmatrix| && 0 <= j < |dmatrix| ==> cmatrix[i, j] == cmatrix[j, i]
    {
      cmatrix := FillContact(dmatrix, Cutoff as real, K as real);
      forall i, j | 0 <= i < |dmatrix| && 0 <= j < |dmatrix|
        ensures cmatrix[i, j] == if 0.0 <= dmatrix[i][j] <= 8.0 then 1.0 else 0.0
      {
        ZeroFactor(dmatrix[i][j]);
      }
    }
  }
}
