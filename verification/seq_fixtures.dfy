/** The fixtures of src/compbio/tests/seq_test.py, evaluated on the model:
    the global example and the two local examples. */
module SeqFixtures {
  import opened SeqMatrix
  import opened SeqGlobal
  import opened SeqLocal

  const GlobalFixtureSeq1: string := "GACGGATTAG"
  const GlobalFixtureSeq2: string := "GATCGGAATAG"

  /** s1 and s2 spell out the sequences of the global fixture, character by character. */
  predicate GlobalFixtureInput(s1: string, s2: string) {
    |s1| == 10 && |s2| == 11 &&
    s1[0] == 'G' && s1[1] == 'A' && s1[2] == 'C' && s1[3] == 'G' && s1[4] == 'G' && s1[5] == 'A' && s1[6] == 'T' &&
    s1[7] == 'T' && s1[8] == 'A' && s1[9] == 'G' &&
    s2[0] == 'G' && s2[1] == 'A' && s2[2] == 'T' && s2[3] == 'C' && s2[4] == 'G' && s2[5] == 'G' && s2[6] == 'A' &&
    s2[7] == 'A' && s2[8] == 'T' && s2[9] == 'A' && s2[10] == 'G'
  }

  /** Rows 1 to 5 of the global matrix of the fixture. */
  lemma GlobalFixtureRows1To5(s1: string, s2: string)
    requires GlobalFixtureInput(s1, s2)
    ensures GlobalCell(s1, s2, 1, 1) == 1 && GlobalCell(s1, s2, 1, 2) == -1 && GlobalCell(s1, s2, 1, 3) == -3 && GlobalCell(s1, s2, 1, 4) == -5
    ensures GlobalCell(s1, s2, 1, 5) == -7 && GlobalCell(s1, s2, 1, 6) == -9 && GlobalCell(s1, s2, 1, 7) == -11 && GlobalCell(s1, s2, 1, 8) == -13
    ensures GlobalCell(s1, s2, 1, 9) == -15 && GlobalCell(s1, s2, 1, 10) == -17 && GlobalCell(s1, s2, 1, 11) == -19
    ensures GlobalCell(s1, s2, 2, 1) == -1 && GlobalCell(s1, s2, 2, 2) == 2 && GlobalCell(s1, s2, 2, 3) == 0 && GlobalCell(s1, s2, 2, 4) == -2
    ensures GlobalCell(s1, s2, 2, 5) == -4 && GlobalCell(s1, s2, 2, 6) == -6 && GlobalCell(s1, s2, 2, 7) == -8 && GlobalCell(s1, s2, 2, 8) == -10
    ensures GlobalCell(s1, s2, 2, 9) == -12 && GlobalCell(s1, s2, 2, 10) == -14 && GlobalCell(s1, s2, 2, 11) == -16
    ensures GlobalCell(s1, s2, 3, 1) == -3 && GlobalCell(s1, s2, 3, 2) == 0 && GlobalCell(s1, s2, 3, 3) == 1 && GlobalCell(s1, s2, 3, 4) == 1
    ensures GlobalCell(s1, s2, 3, 5) == -1 && GlobalCell(s1, s2, 3, 6) == -3 && GlobalCell(s1, s2, 3, 7) == -5 && GlobalCell(s1, s2, 3, 8) == -7
    ensures GlobalCell(s1, s2, 3, 9) == -9 && GlobalCell(s1, s2, 3, 10) == -11 && GlobalCell(s1, s2, 3, 11) == -13
    ensures GlobalCell(s1, s2, 4, 1) == -5 && GlobalCell(s1, s2, 4, 2) == -2 && GlobalCell(s1, s2, 4, 3) == -1 && GlobalCell(s1, s2, 4, 4) == 0
    ensures GlobalCell(s1, s2, 4, 5) == 2 && GlobalCell(s1, s2, 4, 6) == 0 && GlobalCell(s1, s2, 4, 7) == -2 && GlobalCell(s1, s2, 4, 8) == -4
    ensures GlobalCell(s1, s2, 4, 9) == -6 && GlobalCell(s1, s2, 4, 10) == -8 && GlobalCell(s1, s2, 4, 11) == -10
    ensures GlobalCell(s1, s2, 5, 1) == -7 && GlobalCell(s1, s2, 5, 2) == -4 && GlobalCell(s1, s2, 5, 3) == -3 && GlobalCell(s1, s2, 5, 4) == -2
    ensures GlobalCell(s1, s2, 5, 5) == 1 && GlobalCell(s1, s2, 5, 6) == 3 && GlobalCell(s1, s2, 5, 7) == 1 && GlobalCell(s1, s2, 5, 8) == -1
    ensures GlobalCell(s1, s2, 5, 9) == -3 && GlobalCell(s1, s2, 5, 10) == -5 && GlobalCell(s1, s2, 5, 11) == -7
  {
    assert GlobalCell(s1, s2, 1, 1) == 1;
    assert GlobalCell(s1, s2, 1, 2) == -1;
    assert GlobalCell(s1, s2, 1, 3) == -3;
    assert GlobalCell(s1, s2, 1, 4) == -5;
    assert GlobalCell(s1, s2, 1, 5) == -7;
    assert GlobalCell(s1, s2, 1, 6) == -9;
    assert GlobalCell(s1, s2, 1, 7) == -11;
    assert GlobalCell(s1, s2, 1, 8) == -13;
    assert GlobalCell(s1, s2, 1, 9) == -15;
    assert GlobalCell(s1, s2, 1, 10) == -17;
    assert GlobalCell(s1, s2, 1, 11) == -19;
    assert GlobalCell(s1, s2, 2, 1) == -1;
    assert GlobalCell(s1, s2, 2, 2) == 2;
    assert GlobalCell(s1, s2, 2, 3) == 0;
    assert GlobalCell(s1, s2, 2, 4) == -2;
    assert GlobalCell(s1, s2, 2, 5) == -4;
    assert GlobalCell(s1, s2, 2, 6) == -6;
    assert GlobalCell(s1, s2, 2, 7) == -8;
    assert GlobalCell(s1, s2, 2, 8) == -10;
    assert GlobalCell(s1, s2, 2, 9) == -12;
    assert GlobalCell(s1, s2, 2, 10) == -14;
    assert GlobalCell(s1, s2, 2, 11) == -16;
    assert GlobalCell(s1, s2, 3, 1) == -3;
    assert GlobalCell(s1, s2, 3, 2) == 0;
    assert GlobalCell(s1, s2, 3, 3) == 1;
    assert GlobalCell(s1, s2, 3, 4) == 1;
    assert GlobalCell(s1, s2, 3, 5) == -1;
    assert GlobalCell(s1, s2, 3, 6) == -3;
    assert GlobalCell(s1, s2, 3, 7) == -5;
    assert GlobalCell(s1, s2, 3, 8) == -7;
    assert GlobalCell(s1, s2, 3, 9) == -9;
    assert GlobalCell(s1, s2, 3, 10) == -11;
    assert GlobalCell(s1, s2, 3, 11) == -13;
    assert GlobalCell(s1, s2, 4, 1) == -5;
    assert GlobalCell(s1, s2, 4, 2) == -2;
    assert GlobalCell(s1, s2, 4, 3) == -1;
    assert GlobalCell(s1, s2, 4, 4) == 0;
    assert GlobalCell(s1, s2, 4, 5) == 2;
    assert GlobalCell(s1, s2, 4, 6) == 0;
    assert GlobalCell(s1, s2, 4, 7) == -2;
    assert GlobalCell(s1, s2, 4, 8) == -4;
    assert GlobalCell(s1, s2, 4, 9) == -6;
    assert GlobalCell(s1, s2, 4, 10) == -8;
    assert GlobalCell(s1, s2, 4, 11) == -10;
    assert GlobalCell(s1, s2, 5, 1) == -7;
    assert GlobalCell(s1, s2, 5, 2) == -4;
    assert GlobalCell(s1, s2, 5, 3) == -3;
    assert GlobalCell(s1, s2, 5, 4) == -2;
    assert GlobalCell(s1, s2, 5, 5) == 1;
    assert GlobalCell(s1, s2, 5, 6) == 3;
    assert GlobalCell(s1, s2, 5, 7) == 1;
    assert GlobalCell(s1, s2, 5, 8) == -1;
    assert GlobalCell(s1, s2, 5, 9) == -3;
    assert GlobalCell(s1, s2, 5, 10) == -5;
    assert GlobalCell(s1, s2, 5, 11) == -7;
  }

  /** Rows 6 to 10 of the global matrix of the fixture. */
  lemma GlobalFixtureRows6To10(s1: string, s2: string)
    requires GlobalFixtureInput(s1, s2)
    ensures GlobalCell(s1, s2, 6, 1) == -9 && GlobalCell(s1, s2, 6, 2) == -6 && GlobalCell(s1, s2, 6, 3) == -5 && GlobalCell(s1, s2, 6, 4) == -4
    ensures GlobalCell(s1, s2, 6, 5) == -1 && GlobalCell(s1, s2, 6, 6) == 1 && GlobalCell(s1, s2, 6, 7) == 4 && GlobalCell(s1, s2, 6, 8) == 2
    ensures GlobalCell(s1, s2, 6, 9) == 0 && GlobalCell(s1, s2, 6, 10) == -2 && GlobalCell(s1, s2, 6, 11) == -4
    ensures GlobalCell(s1, s2, 7, 1) == -11 && GlobalCell(s1, s2, 7, 2) == -8 && GlobalCell(s1, s2, 7, 3) == -5 && GlobalCell(s1, s2, 7, 4) == -6
    ensures GlobalCell(s1, s2, 7, 5) == -3 && GlobalCell(s1, s2, 7, 6) == -1 && GlobalCell(s1, s2, 7, 7) == 2 && GlobalCell(s1, s2, 7, 8) == 3
    ensures GlobalCell(s1, s2, 7, 9) == 3 && GlobalCell(s1, s2, 7, 10) == 1 && GlobalCell(s1, s2, 7, 11) == -1
    ensures GlobalCell(s1, s2, 8, 1) == -13 && GlobalCell(s1, s2, 8, 2) == -10 && GlobalCell(s1, s2, 8, 3) == -7 && GlobalCell(s1, s2, 8, 4) == -6
    ensures GlobalCell(s1, s2, 8, 5) == -5 && GlobalCell(s1, s2, 8, 6) == -3 && GlobalCell(s1, s2, 8, 7) == 0 && GlobalCell(s1, s2, 8, 8) == 1
    ensures GlobalCell(s1, s2, 8, 9) == 4 && GlobalCell(s1, s2, 8, 10) == 2 && GlobalCell(s1, s2, 8, 11) == 0
    ensures GlobalCell(s1, s2, 9, 1) == -15 && GlobalCell(s1, s2, 9, 2) == -12 && GlobalCell(s1, s2, 9, 3) == -9 && GlobalCell(s1, s2, 9, 4) == -8
    ensures GlobalCell(s1, s2, 9, 5) == -7 && GlobalCell(s1, s2, 9, 6) == -5 && GlobalCell(s1, s2, 9, 7) == -2 && GlobalCell(s1, s2, 9, 8) == 1
    ensures GlobalCell(s1, s2, 9, 9) == 2 && GlobalCell(s1, s2, 9, 10) == 5 && GlobalCell(s1, s2, 9, 11) == 3
    ensures GlobalCell(s1, s2, 10, 1) == -17 && GlobalCell(s1, s2, 10, 2) == -14 && GlobalCell(s1, s2, 10, 3) == -11 && GlobalCell(s1, s2, 10, 4) == -10
    ensures GlobalCell(s1, s2, 10, 5) == -7 && GlobalCell(s1, s2, 10, 6) == -6 && GlobalCell(s1, s2, 10, 7) == -4 && GlobalCell(s1, s2, 10, 8) == -1
    ensures GlobalCell(s1, s2, 10, 9) == 0 && GlobalCell(s1, s2, 10, 10) == 3 && GlobalCell(s1, s2, 10, 11) == 6
  {
    GlobalFixtureRows1To5(s1, s2);
    assert GlobalCell(s1, s2, 6, 1) == -9;
    assert GlobalCell(s1, s2, 6, 2) == -6;
    assert GlobalCell(s1, s2, 6, 3) == -5;
    assert GlobalCell(s1, s2, 6, 4) == -4;
    assert GlobalCell(s1, s2, 6, 5) == -1;
    assert GlobalCell(s1, s2, 6, 6) == 1;
    assert GlobalCell(s1, s2, 6, 7) == 4;
    assert GlobalCell(s1, s2, 6, 8) == 2;
    assert GlobalCell(s1, s2, 6, 9) == 0;
    assert GlobalCell(s1, s2, 6, 10) == -2;
    assert GlobalCell(s1, s2, 6, 11) == -4;
    assert GlobalCell(s1, s2, 7, 1) == -11;
    assert GlobalCell(s1, s2, 7, 2) == -8;
    assert GlobalCell(s1, s2, 7, 3) == -5;
    assert GlobalCell(s1, s2, 7, 4) == -6;
    assert GlobalCell(s1, s2, 7, 5) == -3;
    assert GlobalCell(s1, s2, 7, 6) == -1;
    assert GlobalCell(s1, s2, 7, 7) == 2;
    assert GlobalCell(s1, s2, 7, 8) == 3;
    assert GlobalCell(s1, s2, 7, 9) == 3;
    assert GlobalCell(s1, s2, 7, 10) == 1;
    assert GlobalCell(s1, s2, 7, 11) == -1;
    assert GlobalCell(s1, s2, 8, 1) == -13;
    assert GlobalCell(s1, s2, 8, 2) == -10;
    assert GlobalCell(s1, s2, 8, 3) == -7;
    assert GlobalCell(s1, s2, 8, 4) == -6;
    assert GlobalCell(s1, s2, 8, 5) == -5;
    assert GlobalCell(s1, s2, 8, 6) == -3;
    assert GlobalCell(s1, s2, 8, 7) == 0;
    assert GlobalCell(s1, s2, 8, 8) == 1;
    assert GlobalCell(s1, s2, 8, 9) == 4;
    assert GlobalCell(s1, s2, 8, 10) == 2;
    assert GlobalCell(s1, s2, 8, 11) == 0;
    assert GlobalCell(s1, s2, 9, 1) == -15;
    assert GlobalCell(s1, s2, 9, 2) == -12;
    assert GlobalCell(s1, s2, 9, 3) == -9;
    assert GlobalCell(s1, s2, 9, 4) == -8;
    assert GlobalCell(s1, s2, 9, 5) == -7;
    assert GlobalCell(s1, s2, 9, 6) == -5;
    assert GlobalCell(s1, s2, 9, 7) == -2;
    assert GlobalCell(s1, s2, 9, 8) == 1;
    assert GlobalCell(s1, s2, 9, 9) == 2;
    assert GlobalCell(s1, s2, 9, 10) == 5;
    assert GlobalCell(s1, s2, 9, 11) == 3;
    assert GlobalCell(s1, s2, 10, 1) == -17;
    assert GlobalCell(s1, s2, 10, 2) == -14;
    assert GlobalCell(s1, s2, 10, 3) == -11;
    assert GlobalCell(s1, s2, 10, 4) == -10;
    assert GlobalCell(s1, s2, 10, 5) == -7;
    assert GlobalCell(s1, s2, 10, 6) == -6;
    assert GlobalCell(s1, s2, 10, 7) == -4;
    assert GlobalCell(s1, s2, 10, 8) == -1;
    assert GlobalCell(s1, s2, 10, 9) == 0;
    assert GlobalCell(s1, s2, 10, 10) == 3;
    assert GlobalCell(s1, s2, 10, 11) == 6;
  }

  /** GlobalPath takes the diagonal out of (i, j) when GlobalMove does. */
  lemma GlobalStepDiag(seq1: string, seq2: string, i: nat, j: nat)
    requires 0 < i <= |seq1| && 0 < j <= |seq2| && GlobalMove(seq1, seq2, i, j) == Diag
    ensures var r := GlobalPath(seq1, seq2, i - 1, j - 1); GlobalPath(seq1, seq2, i, j) == (r.0 + [seq1[i - 1]], r.1 + [seq2[j - 1]])
  {
  }

  /** GlobalPath steps left out of (i, j) when GlobalMove does. */
  lemma GlobalStepLeft(seq1: string, seq2: string, i: nat, j: nat)
    requires i <= |seq1| && 0 < j <= |seq2| && GlobalMove(seq1, seq2, i, j) == Left
    ensures var r := GlobalPath(seq1, seq2, i, j - 1); GlobalPath(seq1, seq2, i, j) == (r.0 + [Space], r.1 + [seq2[j - 1]])
  {
  }

  /** The steps the traceback of the global fixture takes out of rows 1 to 5. */
  lemma GlobalFixtureMoves1(s1: string, s2: string)
    requires GlobalFixtureInput(s1, s2)
    ensures GlobalMove(s1, s2, 1, 1) == Diag
    ensures GlobalMove(s1, s2, 2, 2) == Diag
    ensures GlobalMove(s1, s2, 2, 3) == Left
    ensures GlobalMove(s1, s2, 3, 4) == Diag
    ensures GlobalMove(s1, s2, 4, 5) == Diag
    ensures GlobalMove(s1, s2, 5, 6) == Diag
  {
    GlobalFixtureRows1To5(s1, s2);
  }

  /** The steps the traceback of the global fixture takes out of rows 6 to 10. */
  lemma GlobalFixtureMoves2(s1: string, s2: string)
    requires GlobalFixtureInput(s1, s2)
    ensures GlobalMove(s1, s2, 6, 7) == Diag
    ensures GlobalMove(s1, s2, 7, 8) == Diag
    ensures GlobalMove(s1, s2, 8, 9) == Diag
    ensures GlobalMove(s1, s2, 9, 10) == Diag
    ensures GlobalMove(s1, s2, 10, 11) == Diag
  {
    GlobalFixtureRows1To5(s1, s2);
    GlobalFixtureRows6To10(s1, s2);
  }

  /** The traceback of the global fixture, column by column. */
  lemma GlobalFixturePath(s1: string, s2: string)
    requires GlobalFixtureInput(s1, s2)
    ensures GlobalPath(s1, s2, 10, 11).0 == [] + [s1[0]] + [s1[1]] + [Space] + [s1[2]] + [s1[3]] + [s1[4]] + [s1[5]] + [s1[6]] + [s1[7]] + [s1[8]] + [s1[9]]
    ensures GlobalPath(s1, s2, 10, 11).1 == [] + [s2[0]] + [s2[1]] + [s2[2]] + [s2[3]] + [s2[4]] + [s2[5]] + [s2[6]] + [s2[7]] + [s2[8]] + [s2[9]] + [s2[10]]
  {
    GlobalFixtureMoves1(s1, s2);
    GlobalFixtureMoves2(s1, s2);
    assert GlobalPath(s1, s2, 0, 0) == ([], []);
    GlobalStepDiag(s1, s2, 1, 1);
    GlobalStepDiag(s1, s2, 2, 2);
    GlobalStepLeft(s1, s2, 2, 3);
    GlobalStepDiag(s1, s2, 3, 4);
    GlobalStepDiag(s1, s2, 4, 5);
    GlobalStepDiag(s1, s2, 5, 6);
    GlobalStepDiag(s1, s2, 6, 7);
    GlobalStepDiag(s1, s2, 7, 8);
    GlobalStepDiag(s1, s2, 8, 9);
    GlobalStepDiag(s1, s2, 9, 10);
    GlobalStepDiag(s1, s2, 10, 11);
  }

  /** The columns of the fixture's traceback spell out its expected rows. */
  lemma GlobalFixtureColumns(s1: string, s2: string)
    requires GlobalFixtureInput(s1, s2)
    ensures [] + [s1[0]] + [s1[1]] + [Space] + [s1[2]] + [s1[3]] + [s1[4]] + [s1[5]] + [s1[6]] + [s1[7]] + [s1[8]] + [s1[9]] == "GA CGGATTAG"
    ensures [] + [s2[0]] + [s2[1]] + [s2[2]] + [s2[3]] + [s2[4]] + [s2[5]] + [s2[6]] + [s2[7]] + [s2[8]] + [s2[9]] + [s2[10]] == "GATCGGAATAG"
  {
  }

  /** The global fixture of src/compbio/tests/seq_test.py: GACGGATTAG against
      GATCGGAATAG scores 6 and aligns as ("GA CGGATTAG", "GATCGGAATAG"). */
  lemma GlobalFixture(s1: string, s2: string)
    requires s1 == GlobalFixtureSeq1 && s2 == GlobalFixtureSeq2
    ensures GlobalCell(s1, s2, 10, 11) == 6
    ensures GlobalPath(s1, s2, 10, 11) == ("GA CGGATTAG", "GATCGGAATAG")
  {
    assert GlobalFixtureInput(s1, s2);
    GlobalFixtureRows6To10(s1, s2);
    GlobalFixturePath(s1, s2);
    GlobalFixtureColumns(s1, s2);
  }


  const LocalFixture1Seq1: string := "CAGCCUCGCUUAG"
  const LocalFixture1Seq2: string := "AAUGCCAUUGACGG"

  /** s1 and s2 spell out the sequences of fixture 1, character by character. */
  predicate Fixture1Input(s1: string, s2: string) {
    |s1| == 13 && |s2| == 14 &&
    s1[0] == 'C' && s1[1] == 'A' && s1[2] == 'G' && s1[3] == 'C' && s1[4] == 'C' && s1[5] == 'U' && s1[6] == 'C' &&
    s1[7] == 'G' && s1[8] == 'C' && s1[9] == 'U' && s1[10] == 'U' && s1[11] == 'A' && s1[12] == 'G' &&
    s2[0] == 'A' && s2[1] == 'A' && s2[2] == 'U' && s2[3] == 'G' && s2[4] == 'C' && s2[5] == 'C' && s2[6] == 'A' &&
    s2[7] == 'U' && s2[8] == 'U' && s2[9] == 'G' && s2[10] == 'A' && s2[11] == 'C' && s2[12] == 'G' && s2[13] == 'G'
  }

  /** Rows 1 to 5 of the local matrix of fixture 1. */
  lemma LocalFixture1Rows1To5(s1: string, s2: string)
    requires Fixture1Input(s1, s2)
    ensures LocalCell(s1, s2, 1, 1) == 0 && LocalCell(s1, s2, 1, 2) == 0 && LocalCell(s1, s2, 1, 3) == 0 && LocalCell(s1, s2, 1, 4) == 0
    ensures LocalCell(s1, s2, 1, 5) == 1 && LocalCell(s1, s2, 1, 6) == 1 && LocalCell(s1, s2, 1, 7) == 0 && LocalCell(s1, s2, 1, 8) == 0
    ensures LocalCell(s1, s2, 1, 9) == 0 && LocalCell(s1, s2, 1, 10) == 0 && LocalCell(s1, s2, 1, 11) == 0 && LocalCell(s1, s2, 1, 12) == 1
    ensures LocalCell(s1, s2, 1, 13) == 0 && LocalCell(s1, s2, 1, 14) == 0
    ensures LocalCell(s1, s2, 2, 1) == 1 && LocalCell(s1, s2, 2, 2) == 1 && LocalCell(s1, s2, 2, 3) == 0 && LocalCell(s1, s2, 2, 4) == 0
    ensures LocalCell(s1, s2, 2, 5) == 0 && LocalCell(s1, s2, 2, 6) == 0 && LocalCell(s1, s2, 2, 7) == 2 && LocalCell(s1, s2, 2, 8) == 0
    ensures LocalCell(s1, s2, 2, 9) == 0 && LocalCell(s1, s2, 2, 10) == 0 && LocalCell(s1, s2, 2, 11) == 1 && LocalCell(s1, s2, 2, 12) == 0
    ensures LocalCell(s1, s2, 2, 13) == 0 && LocalCell(s1, s2, 2, 14) == 0
    ensures LocalCell(s1, s2, 3, 1) == 0 && LocalCell(s1, s2, 3, 2) == 0 && LocalCell(s1, s2, 3, 3) == 0 && LocalCell(s1, s2, 3, 4) == 1
    ensures LocalCell(s1, s2, 3, 5) == 0 && LocalCell(s1, s2, 3, 6) == 0 && LocalCell(s1, s2, 3, 7) == 0 && LocalCell(s1, s2, 3, 8) == 1
    ensures LocalCell(s1, s2, 3, 9) == 0 && LocalCell(s1, s2, 3, 10) == 1 && LocalCell(s1, s2, 3, 11) == 0 && LocalCell(s1, s2, 3, 12) == 0
    ensures LocalCell(s1, s2, 3, 13) == 1 && LocalCell(s1, s2, 3, 14) == 1
    ensures LocalCell(s1, s2, 4, 1) == 0 && LocalCell(s1, s2, 4, 2) == 0 && LocalCell(s1, s2, 4, 3) == 0 && LocalCell(s1, s2, 4, 4) == 0
    ensures LocalCell(s1, s2, 4, 5) == 2 && LocalCell(s1, s2, 4, 6) == 1 && LocalCell(s1, s2, 4, 7) == 0 && LocalCell(s1, s2, 4, 8) == 0
    ensures LocalCell(s1, s2, 4, 9) == 0 && LocalCell(s1, s2, 4, 10) == 0 && LocalCell(s1, s2, 4, 11) == 0 && LocalCell(s1, s2, 4, 12) == 1
    ensures LocalCell(s1, s2, 4, 13) == 0 && LocalCell(s1, s2, 4, 14) == 0
    ensures LocalCell(s1, s2, 5, 1) == 0 && LocalCell(s1, s2, 5, 2) == 0 && LocalCell(s1, s2, 5, 3) == 0 && LocalCell(s1, s2, 5, 4) == 0
    ensures LocalCell(s1, s2, 5, 5) == 1 && LocalCell(s1, s2, 5, 6) == 3 && LocalCell(s1, s2, 5, 7) == 1 && LocalCell(s1, s2, 5, 8) == 0
    ensures LocalCell(s1, s2, 5, 9) == 0 && LocalCell(s1, s2, 5, 10) == 0 && LocalCell(s1, s2, 5, 11) == 0 && LocalCell(s1, s2, 5, 12) == 1
    ensures LocalCell(s1, s2, 5, 13) == 0 && LocalCell(s1, s2, 5, 14) == 0
  {
    assert LocalCell(s1, s2, 1, 1) == 0;
    assert LocalCell(s1, s2, 1, 2) == 0;
    assert LocalCell(s1, s2, 1, 3) == 0;
    assert LocalCell(s1, s2, 1, 4) == 0;
    assert LocalCell(s1, s2, 1, 5) == 1;
    assert LocalCell(s1, s2, 1, 6) == 1;
    assert LocalCell(s1, s2, 1, 7) == 0;
    assert LocalCell(s1, s2, 1, 8) == 0;
    assert LocalCell(s1, s2, 1, 9) == 0;
    assert LocalCell(s1, s2, 1, 10) == 0;
    assert LocalCell(s1, s2, 1, 11) == 0;
    assert LocalCell(s1, s2, 1, 12) == 1;
    assert LocalCell(s1, s2, 1, 13) == 0;
    assert LocalCell(s1, s2, 1, 14) == 0;
    assert LocalCell(s1, s2, 2, 1) == 1;
    assert LocalCell(s1, s2, 2, 2) == 1;
    assert LocalCell(s1, s2, 2, 3) == 0;
    assert LocalCell(s1, s2, 2, 4) == 0;
    assert LocalCell(s1, s2, 2, 5) == 0;
    assert LocalCell(s1, s2, 2, 6) == 0;
    assert LocalCell(s1, s2, 2, 7) == 2;
    assert LocalCell(s1, s2, 2, 8) == 0;
    assert LocalCell(s1, s2, 2, 9) == 0;
    assert LocalCell(s1, s2, 2, 10) == 0;
    assert LocalCell(s1, s2, 2, 11) == 1;
    assert LocalCell(s1, s2, 2, 12) == 0;
    assert LocalCell(s1, s2, 2, 13) == 0;
    assert LocalCell(s1, s2, 2, 14) == 0;
    assert LocalCell(s1, s2, 3, 1) == 0;
    assert LocalCell(s1, s2, 3, 2) == 0;
    assert LocalCell(s1, s2, 3, 3) == 0;
    assert LocalCell(s1, s2, 3, 4) == 1;
    assert LocalCell(s1, s2, 3, 5) == 0;
    assert LocalCell(s1, s2, 3, 6) == 0;
    assert LocalCell(s1, s2, 3, 7) == 0;
    assert LocalCell(s1, s2, 3, 8) == 1;
    assert LocalCell(s1, s2, 3, 9) == 0;
    assert LocalCell(s1, s2, 3, 10) == 1;
    assert LocalCell(s1, s2, 3, 11) == 0;
    assert LocalCell(s1, s2, 3, 12) == 0;
    assert LocalCell(s1, s2, 3, 13) == 1;
    assert LocalCell(s1, s2, 3, 14) == 1;
    assert LocalCell(s1, s2, 4, 1) == 0;
    assert LocalCell(s1, s2, 4, 2) == 0;
    assert LocalCell(s1, s2, 4, 3) == 0;
    assert LocalCell(s1, s2, 4, 4) == 0;
    assert LocalCell(s1, s2, 4, 5) == 2;
    assert LocalCell(s1, s2, 4, 6) == 1;
    assert LocalCell(s1, s2, 4, 7) == 0;
    assert LocalCell(s1, s2, 4, 8) == 0;
    assert LocalCell(s1, s2, 4, 9) == 0;
    assert LocalCell(s1, s2, 4, 10) == 0;
    assert LocalCell(s1, s2, 4, 11) == 0;
    assert LocalCell(s1, s2, 4, 12) == 1;
    assert LocalCell(s1, s2, 4, 13) == 0;
    assert LocalCell(s1, s2, 4, 14) == 0;
    assert LocalCell(s1, s2, 5, 1) == 0;
    assert LocalCell(s1, s2, 5, 2) == 0;
    assert LocalCell(s1, s2, 5, 3) == 0;
    assert LocalCell(s1, s2, 5, 4) == 0;
    assert LocalCell(s1, s2, 5, 5) == 1;
    assert LocalCell(s1, s2, 5, 6) == 3;
    assert LocalCell(s1, s2, 5, 7) == 1;
    assert LocalCell(s1, s2, 5, 8) == 0;
    assert LocalCell(s1, s2, 5, 9) == 0;
    assert LocalCell(s1, s2, 5, 10) == 0;
    assert LocalCell(s1, s2, 5, 11) == 0;
    assert LocalCell(s1, s2, 5, 12) == 1;
    assert LocalCell(s1, s2, 5, 13) == 0;
    assert LocalCell(s1, s2, 5, 14) == 0;
  }

  /** Rows 6 to 10 of the local matrix of fixture 1. */
  lemma LocalFixture1Rows6To10(s1: string, s2: string)
    requires Fixture1Input(s1, s2)
    ensures LocalCell(s1, s2, 6, 1) == 0 && LocalCell(s1, s2, 6, 2) == 0 && LocalCell(s1, s2, 6, 3) == 1 && LocalCell(s1, s2, 6, 4) == 0
    ensures LocalCell(s1, s2, 6, 5) == 0 && LocalCell(s1, s2, 6, 6) == 1 && LocalCell(s1, s2, 6, 7) == 2 && LocalCell(s1, s2, 6, 8) == 2
    ensures LocalCell(s1, s2, 6, 9) == 1 && LocalCell(s1, s2, 6, 10) == 0 && LocalCell(s1, s2, 6, 11) == 0 && LocalCell(s1, s2, 6, 12) == 0
    ensures LocalCell(s1, s2, 6, 13) == 0 && LocalCell(s1, s2, 6, 14) == 0
    ensures LocalCell(s1, s2, 7, 1) == 0 && LocalCell(s1, s2, 7, 2) == 0 && LocalCell(s1, s2, 7, 3) == 0 && LocalCell(s1, s2, 7, 4) == 0
    ensures LocalCell(s1, s2, 7, 5) == 1 && LocalCell(s1, s2, 7, 6) == 1 && LocalCell(s1, s2, 7, 7) == 0 && LocalCell(s1, s2, 7, 8) == 1
    ensures LocalCell(s1, s2, 7, 9) == 1 && LocalCell(s1, s2, 7, 10) == 0 && LocalCell(s1, s2, 7, 11) == 0 && LocalCell(s1, s2, 7, 12) == 1
    ensures LocalCell(s1, s2, 7, 13) == 0 && LocalCell(s1, s2, 7, 14) == 0
    ensures LocalCell(s1, s2, 8, 1) == 0 && LocalCell(s1, s2, 8, 2) == 0 && LocalCell(s1, s2, 8, 3) == 0 && LocalCell(s1, s2, 8, 4) == 1
    ensures LocalCell(s1, s2, 8, 5) == 0 && LocalCell(s1, s2, 8, 6) == 0 && LocalCell(s1, s2, 8, 7) == 0 && LocalCell(s1, s2, 8, 8) == 0
    ensures LocalCell(s1, s2, 8, 9) == 0 && LocalCell(s1, s2, 8, 10) == 2 && LocalCell(s1, s2, 8, 11) == 0 && LocalCell(s1, s2, 8, 12) == 0
    ensures LocalCell(s1, s2, 8, 13) == 2 && LocalCell(s1, s2, 8, 14) == 1
    ensures LocalCell(s1, s2, 9, 1) == 0 && LocalCell(s1, s2, 9, 2) == 0 && LocalCell(s1, s2, 9, 3) == 0 && LocalCell(s1, s2, 9, 4) == 0
    ensures LocalCell(s1, s2, 9, 5) == 2 && LocalCell(s1, s2, 9, 6) == 1 && LocalCell(s1, s2, 9, 7) == 0 && LocalCell(s1, s2, 9, 8) == 0
    ensures LocalCell(s1, s2, 9, 9) == 0 && LocalCell(s1, s2, 9, 10) == 0 && LocalCell(s1, s2, 9, 11) == 1 && LocalCell(s1, s2, 9, 12) == 1
    ensures LocalCell(s1, s2, 9, 13) == 0 && LocalCell(s1, s2, 9, 14) == 1
    ensures LocalCell(s1, s2, 10, 1) == 0 && LocalCell(s1, s2, 10, 2) == 0 && LocalCell(s1, s2, 10, 3) == 1 && LocalCell(s1, s2, 10, 4) == 0
    ensures LocalCell(s1, s2, 10, 5) == 0 && LocalCell(s1, s2, 10, 6) == 1 && LocalCell(s1, s2, 10, 7) == 0 && LocalCell(s1, s2, 10, 8) == 1
    ensures LocalCell(s1, s2, 10, 9) == 1 && LocalCell(s1, s2, 10, 10) == 0 && LocalCell(s1, s2, 10, 11) == 0 && LocalCell(s1, s2, 10, 12) == 0
    ensures LocalCell(s1, s2, 10, 13) == 0 && LocalCell(s1, s2, 10, 14) == 0
  {
    LocalFixture1Rows1To5(s1, s2);
    assert LocalCell(s1, s2, 6, 1) == 0;
    assert LocalCell(s1, s2, 6, 2) == 0;
    assert LocalCell(s1, s2, 6, 3) == 1;
    assert LocalCell(s1, s2, 6, 4) == 0;
    assert LocalCell(s1, s2, 6, 5) == 0;
    assert LocalCell(s1, s2, 6, 6) == 1;
    assert LocalCell(s1, s2, 6, 7) == 2;
    assert LocalCell(s1, s2, 6, 8) == 2;
    assert LocalCell(s1, s2, 6, 9) == 1;
    assert LocalCell(s1, s2, 6, 10) == 0;
    assert LocalCell(s1, s2, 6, 11) == 0;
    assert LocalCell(s1, s2, 6, 12) == 0;
    assert LocalCell(s1, s2, 6, 13) == 0;
    assert LocalCell(s1, s2, 6, 14) == 0;
    assert LocalCell(s1, s2, 7, 1) == 0;
    assert LocalCell(s1, s2, 7, 2) == 0;
    assert LocalCell(s1, s2, 7, 3) == 0;
    assert LocalCell(s1, s2, 7, 4) == 0;
    assert LocalCell(s1, s2, 7, 5) == 1;
    assert LocalCell(s1, s2, 7, 6) == 1;
    assert LocalCell(s1, s2, 7, 7) == 0;
    assert LocalCell(s1, s2, 7, 8) == 1;
    assert LocalCell(s1, s2, 7, 9) == 1;
    assert LocalCell(s1, s2, 7, 10) == 0;
    assert LocalCell(s1, s2, 7, 11) == 0;
    assert LocalCell(s1, s2, 7, 12) == 1;
    assert LocalCell(s1, s2, 7, 13) == 0;
    assert LocalCell(s1, s2, 7, 14) == 0;
    assert LocalCell(s1, s2, 8, 1) == 0;
    assert LocalCell(s1, s2, 8, 2) == 0;
    assert LocalCell(s1, s2, 8, 3) == 0;
    assert LocalCell(s1, s2, 8, 4) == 1;
    assert LocalCell(s1, s2, 8, 5) == 0;
    assert LocalCell(s1, s2, 8, 6) == 0;
    assert LocalCell(s1, s2, 8, 7) == 0;
    assert LocalCell(s1, s2, 8, 8) == 0;
    assert LocalCell(s1, s2, 8, 9) == 0;
    assert LocalCell(s1, s2, 8, 10) == 2;
    assert LocalCell(s1, s2, 8, 11) == 0;
    assert LocalCell(s1, s2, 8, 12) == 0;
    assert LocalCell(s1, s2, 8, 13) == 2;
    assert LocalCell(s1, s2, 8, 14) == 1;
    assert LocalCell(s1, s2, 9, 1) == 0;
    assert LocalCell(s1, s2, 9, 2) == 0;
    assert LocalCell(s1, s2, 9, 3) == 0;
    assert LocalCell(s1, s2, 9, 4) == 0;
    assert LocalCell(s1, s2, 9, 5) == 2;
    assert LocalCell(s1, s2, 9, 6) == 1;
    assert LocalCell(s1, s2, 9, 7) == 0;
    assert LocalCell(s1, s2, 9, 8) == 0;
    assert LocalCell(s1, s2, 9, 9) == 0;
    assert LocalCell(s1, s2, 9, 10) == 0;
    assert LocalCell(s1, s2, 9, 11) == 1;
    assert LocalCell(s1, s2, 9, 12) == 1;
    assert LocalCell(s1, s2, 9, 13) == 0;
    assert LocalCell(s1, s2, 9, 14) == 1;
    assert LocalCell(s1, s2, 10, 1) == 0;
    assert LocalCell(s1, s2, 10, 2) == 0;
    assert LocalCell(s1, s2, 10, 3) == 1;
    assert LocalCell(s1, s2, 10, 4) == 0;
    assert LocalCell(s1, s2, 10, 5) == 0;
    assert LocalCell(s1, s2, 10, 6) == 1;
    assert LocalCell(s1, s2, 10, 7) == 0;
    assert LocalCell(s1, s2, 10, 8) == 1;
    assert LocalCell(s1, s2, 10, 9) == 1;
    assert LocalCell(s1, s2, 10, 10) == 0;
    assert LocalCell(s1, s2, 10, 11) == 0;
    assert LocalCell(s1, s2, 10, 12) == 0;
    assert LocalCell(s1, s2, 10, 13) == 0;
    assert LocalCell(s1, s2, 10, 14) == 0;
  }

  /** Rows 11 to 13 of the local matrix of fixture 1. */
  lemma LocalFixture1Rows11To13(s1: string, s2: string)
    requires Fixture1Input(s1, s2)
    ensures LocalCell(s1, s2, 11, 1) == 0 && LocalCell(s1, s2, 11, 2) == 0 && LocalCell(s1, s2, 11, 3) == 1 && LocalCell(s1, s2, 11, 4) == 0
    ensures LocalCell(s1, s2, 11, 5) == 0 && LocalCell(s1, s2, 11, 6) == 0 && LocalCell(s1, s2, 11, 7) == 0 && LocalCell(s1, s2, 11, 8) == 1
    ensures LocalCell(s1, s2, 11, 9) == 2 && LocalCell(s1, s2, 11, 10) == 0 && LocalCell(s1, s2, 11, 11) == 0 && LocalCell(s1, s2, 11, 12) == 0
    ensures LocalCell(s1, s2, 11, 13) == 0 && LocalCell(s1, s2, 11, 14) == 0
    ensures LocalCell(s1, s2, 12, 1) == 1 && LocalCell(s1, s2, 12, 2) == 1 && LocalCell(s1, s2, 12, 3) == 0 && LocalCell(s1, s2, 12, 4) == 0
    ensures LocalCell(s1, s2, 12, 5) == 0 && LocalCell(s1, s2, 12, 6) == 0 && LocalCell(s1, s2, 12, 7) == 1 && LocalCell(s1, s2, 12, 8) == 0
    ensures LocalCell(s1, s2, 12, 9) == 0 && LocalCell(s1, s2, 12, 10) == 1 && LocalCell(s1, s2, 12, 11) == 1 && LocalCell(s1, s2, 12, 12) == 0
    ensures LocalCell(s1, s2, 12, 13) == 0 && LocalCell(s1, s2, 12, 14) == 0
    ensures LocalCell(s1, s2, 13, 1) == 0 && LocalCell(s1, s2, 13, 2) == 0 && LocalCell(s1, s2, 13, 3) == 0 && LocalCell(s1, s2, 13, 4) == 1
    ensures LocalCell(s1, s2, 13, 5) == 0 && LocalCell(s1, s2, 13, 6) == 0 && LocalCell(s1, s2, 13, 7) == 0 && LocalCell(s1, s2, 13, 8) == 0
    ensures LocalCell(s1, s2, 13, 9) == 0 && LocalCell(s1, s2, 13, 10) == 1 && LocalCell(s1, s2, 13, 11) == 0 && LocalCell(s1, s2, 13, 12) == 0
    ensures LocalCell(s1, s2, 13, 13) == 1 && LocalCell(s1, s2, 13, 14) == 1
  {
    LocalFixture1Rows6To10(s1, s2);
    assert LocalCell(s1, s2, 11, 1) == 0;
    assert LocalCell(s1, s2, 11, 2) == 0;
    assert LocalCell(s1, s2, 11, 3) == 1;
    assert LocalCell(s1, s2, 11, 4) == 0;
    assert LocalCell(s1, s2, 11, 5) == 0;
    assert LocalCell(s1, s2, 11, 6) == 0;
    assert LocalCell(s1, s2, 11, 7) == 0;
    assert LocalCell(s1, s2, 11, 8) == 1;
    assert LocalCell(s1, s2, 11, 9) == 2;
    assert LocalCell(s1, s2, 11, 10) == 0;
    assert LocalCell(s1, s2, 11, 11) == 0;
    assert LocalCell(s1, s2, 11, 12) == 0;
    assert LocalCell(s1, s2, 11, 13) == 0;
    assert LocalCell(s1, s2, 11, 14) == 0;
    assert LocalCell(s1, s2, 12, 1) == 1;
    assert LocalCell(s1, s2, 12, 2) == 1;
    assert LocalCell(s1, s2, 12, 3) == 0;
    assert LocalCell(s1, s2, 12, 4) == 0;
    assert LocalCell(s1, s2, 12, 5) == 0;
    assert LocalCell(s1, s2, 12, 6) == 0;
    assert LocalCell(s1, s2, 12, 7) == 1;
    assert LocalCell(s1, s2, 12, 8) == 0;
    assert LocalCell(s1, s2, 12, 9) == 0;
    assert LocalCell(s1, s2, 12, 10) == 1;
    assert LocalCell(s1, s2, 12, 11) == 1;
    assert LocalCell(s1, s2, 12, 12) == 0;
    assert LocalCell(s1, s2, 12, 13) == 0;
    assert LocalCell(s1, s2, 12, 14) == 0;
    assert LocalCell(s1, s2, 13, 1) == 0;
    assert LocalCell(s1, s2, 13, 2) == 0;
    assert LocalCell(s1, s2, 13, 3) == 0;
    assert LocalCell(s1, s2, 13, 4) == 1;
    assert LocalCell(s1, s2, 13, 5) == 0;
    assert LocalCell(s1, s2, 13, 6) == 0;
    assert LocalCell(s1, s2, 13, 7) == 0;
    assert LocalCell(s1, s2, 13, 8) == 0;
    assert LocalCell(s1, s2, 13, 9) == 0;
    assert LocalCell(s1, s2, 13, 10) == 1;
    assert LocalCell(s1, s2, 13, 11) == 0;
    assert LocalCell(s1, s2, 13, 12) == 0;
    assert LocalCell(s1, s2, 13, 13) == 1;
    assert LocalCell(s1, s2, 13, 14) == 1;
  }

  /** Cell (5, 6) heads the candidate list of fixture 1. */
  lemma LocalFixture1Best(s1: string, s2: string)
    requires Fixture1Input(s1, s2)
    ensures IsBest(s1, s2, DefaultThreshold, (5, 6))
  {
    LocalFixture1Rows1To5(s1, s2);
    LocalFixture1Rows6To10(s1, s2);
    LocalFixture1Rows11To13(s1, s2);
    forall d: Cell | IsCandidate(s1, s2, DefaultThreshold, d) && d != (5, 6)
      ensures Ahead(s1, s2, (5, 6), d)
    {
      assert d.0 == 1 || d.0 == 2 || d.0 == 3 || d.0 == 4 || d.0 == 5 || d.0 == 6 || d.0 == 7 || d.0 == 8 || d.0 == 9 || d.0 == 10 || d.0 == 11 || d.0 == 12 || d.0 == 13;
      assert d.1 == 1 || d.1 == 2 || d.1 == 3 || d.1 == 4 || d.1 == 5 || d.1 == 6 || d.1 == 7 || d.1 == 8 || d.1 == 9 || d.1 == 10 || d.1 == 11 || d.1 == 12 || d.1 == 13 || d.1 == 14;
    }
  }

  /** The traceback of fixture 1 from (5, 6). */
  lemma LocalFixture1Path(s1: string, s2: string)
    requires Fixture1Input(s1, s2)
    ensures Traceable(s1, s2, (5, 6))
    ensures LocalPath(s1, s2, 5, 6) == "GCC"
  {
    LocalFixture1Rows1To5(s1, s2);
    LocalFixture1Rows6To10(s1, s2);
    LocalFixture1Rows11To13(s1, s2);
    assert LocalPath(s1, s2, 3, 4) == "G";
    assert "GC" == "G" + ['C'];
    assert LocalPath(s1, s2, 4, 5) == "GC";
    assert "GCC" == "GC" + ['C'];
    assert LocalPath(s1, s2, 5, 6) == "GCC";
  }

  /** Fixture 1 of src/compbio/tests/seq_test.py: CAGCCUCGCUUAG against AAUGCCAUUGACGG
      aligns locally as "GCC". */
  lemma LocalFixture1()
    ensures IsBest(LocalFixture1Seq1, LocalFixture1Seq2, DefaultThreshold, (5, 6)) && Traceable(LocalFixture1Seq1, LocalFixture1Seq2, (5, 6))
    ensures LocalPath(LocalFixture1Seq1, LocalFixture1Seq2, 5, 6) == "GCC"
  {
    assert Fixture1Input(LocalFixture1Seq1, LocalFixture1Seq2);
    LocalFixture1Best(LocalFixture1Seq1, LocalFixture1Seq2);
    LocalFixture1Path(LocalFixture1Seq1, LocalFixture1Seq2);
  }

  const LocalFixture2Seq1: string := "ACACACTA"
  const LocalFixture2Seq2: string := "AGCACACA"

  /** s1 and s2 spell out the sequences of fixture 2, character by character. */
  predicate Fixture2Input(s1: string, s2: string) {
    |s1| == 8 && |s2| == 8 &&
    s1[0] == 'A' && s1[1] == 'C' && s1[2] == 'A' && s1[3] == 'C' && s1[4] == 'A' && s1[5] == 'C' && s1[6] == 'T' &&
    s1[7] == 'A' &&
    s2[0] == 'A' && s2[1] == 'G' && s2[2] == 'C' && s2[3] == 'A' && s2[4] == 'C' && s2[5] == 'A' && s2[6] == 'C' &&
    s2[7] == 'A'
  }

  /** Rows 1 to 8 of the local matrix of fixture 2. */
  lemma LocalFixture2Rows1To8(s1: string, s2: string)
    requires Fixture2Input(s1, s2)
    ensures LocalCell(s1, s2, 1, 1) == 1 && LocalCell(s1, s2, 1, 2) == 0 && LocalCell(s1, s2, 1, 3) == 0 && LocalCell(s1, s2, 1, 4) == 1
    ensures LocalCell(s1, s2, 1, 5) == 0 && LocalCell(s1, s2, 1, 6) == 1 && LocalCell(s1, s2, 1, 7) == 0 && LocalCell(s1, s2, 1, 8) == 1
    ensures LocalCell(s1, s2, 2, 1) == 0 && LocalCell(s1, s2, 2, 2) == 0 && LocalCell(s1, s2, 2, 3) == 1 && LocalCell(s1, s2, 2, 4) == 0
    ensures LocalCell(s1, s2, 2, 5) == 2 && LocalCell(s1, s2, 2, 6) == 0 && LocalCell(s1, s2, 2, 7) == 2 && LocalCell(s1, s2, 2, 8) == 0
    ensures LocalCell(s1, s2, 3, 1) == 1 && LocalCell(s1, s2, 3, 2) == 0 && LocalCell(s1, s2, 3, 3) == 0 && LocalCell(s1, s2, 3, 4) == 2
    ensures LocalCell(s1, s2, 3, 5) == 0 && LocalCell(s1, s2, 3, 6) == 3 && LocalCell(s1, s2, 3, 7) == 1 && LocalCell(s1, s2, 3, 8) == 3
    ensures LocalCell(s1, s2, 4, 1) == 0 && LocalCell(s1, s2, 4, 2) == 0 && LocalCell(s1, s2, 4, 3) == 1 && LocalCell(s1, s2, 4, 4) == 0
    ensures LocalCell(s1, s2, 4, 5) == 3 && LocalCell(s1, s2, 4, 6) == 1 && LocalCell(s1, s2, 4, 7) == 4 && LocalCell(s1, s2, 4, 8) == 2
    ensures LocalCell(s1, s2, 5, 1) == 1 && LocalCell(s1, s2, 5, 2) == 0 && LocalCell(s1, s2, 5, 3) == 0 && LocalCell(s1, s2, 5, 4) == 2
    ensures LocalCell(s1, s2, 5, 5) == 1 && LocalCell(s1, s2, 5, 6) == 4 && LocalCell(s1, s2, 5, 7) == 2 && LocalCell(s1, s2, 5, 8) == 5
    ensures LocalCell(s1, s2, 6, 1) == 0 && LocalCell(s1, s2, 6, 2) == 0 && LocalCell(s1, s2, 6, 3) == 1 && LocalCell(s1, s2, 6, 4) == 0
    ensures LocalCell(s1, s2, 6, 5) == 3 && LocalCell(s1, s2, 6, 6) == 2 && LocalCell(s1, s2, 6, 7) == 5 && LocalCell(s1, s2, 6, 8) == 3
    ensures LocalCell(s1, s2, 7, 1) == 0 && LocalCell(s1, s2, 7, 2) == 0 && LocalCell(s1, s2, 7, 3) == 0 && LocalCell(s1, s2, 7, 4) == 0
    ensures LocalCell(s1, s2, 7, 5) == 1 && LocalCell(s1, s2, 7, 6) == 2 && LocalCell(s1, s2, 7, 7) == 3 && LocalCell(s1, s2, 7, 8) == 4
    ensures LocalCell(s1, s2, 8, 1) == 1 && LocalCell(s1, s2, 8, 2) == 0 && LocalCell(s1, s2, 8, 3) == 0 && LocalCell(s1, s2, 8, 4) == 1
    ensures LocalCell(s1, s2, 8, 5) == 0 && LocalCell(s1, s2, 8, 6) == 2 && LocalCell(s1, s2, 8, 7) == 1 && LocalCell(s1, s2, 8, 8) == 4
  {
    assert LocalCell(s1, s2, 1, 1) == 1;
    assert LocalCell(s1, s2, 1, 2) == 0;
    assert LocalCell(s1, s2, 1, 3) == 0;
    assert LocalCell(s1, s2, 1, 4) == 1;
    assert LocalCell(s1, s2, 1, 5) == 0;
    assert LocalCell(s1, s2, 1, 6) == 1;
    assert LocalCell(s1, s2, 1, 7) == 0;
    assert LocalCell(s1, s2, 1, 8) == 1;
    assert LocalCell(s1, s2, 2, 1) == 0;
    assert LocalCell(s1, s2, 2, 2) == 0;
    assert LocalCell(s1, s2, 2, 3) == 1;
    assert LocalCell(s1, s2, 2, 4) == 0;
    assert LocalCell(s1, s2, 2, 5) == 2;
    assert LocalCell(s1, s2, 2, 6) == 0;
    assert LocalCell(s1, s2, 2, 7) == 2;
    assert LocalCell(s1, s2, 2, 8) == 0;
    assert LocalCell(s1, s2, 3, 1) == 1;
    assert LocalCell(s1, s2, 3, 2) == 0;
    assert LocalCell(s1, s2, 3, 3) == 0;
    assert LocalCell(s1, s2, 3, 4) == 2;
    assert LocalCell(s1, s2, 3, 5) == 0;
    assert LocalCell(s1, s2, 3, 6) == 3;
    assert LocalCell(s1, s2, 3, 7) == 1;
    assert LocalCell(s1, s2, 3, 8) == 3;
    assert LocalCell(s1, s2, 4, 1) == 0;
    assert LocalCell(s1, s2, 4, 2) == 0;
    assert LocalCell(s1, s2, 4, 3) == 1;
    assert LocalCell(s1, s2, 4, 4) == 0;
    assert LocalCell(s1, s2, 4, 5) == 3;
    assert LocalCell(s1, s2, 4, 6) == 1;
    assert LocalCell(s1, s2, 4, 7) == 4;
    assert LocalCell(s1, s2, 4, 8) == 2;
    assert LocalCell(s1, s2, 5, 1) == 1;
    assert LocalCell(s1, s2, 5, 2) == 0;
    assert LocalCell(s1, s2, 5, 3) == 0;
    assert LocalCell(s1, s2, 5, 4) == 2;
    assert LocalCell(s1, s2, 5, 5) == 1;
    assert LocalCell(s1, s2, 5, 6) == 4;
    assert LocalCell(s1, s2, 5, 7) == 2;
    assert LocalCell(s1, s2, 5, 8) == 5;
    assert LocalCell(s1, s2, 6, 1) == 0;
    assert LocalCell(s1, s2, 6, 2) == 0;
    assert LocalCell(s1, s2, 6, 3) == 1;
    assert LocalCell(s1, s2, 6, 4) == 0;
    assert LocalCell(s1, s2, 6, 5) == 3;
    assert LocalCell(s1, s2, 6, 6) == 2;
    assert LocalCell(s1, s2, 6, 7) == 5;
    assert LocalCell(s1, s2, 6, 8) == 3;
    assert LocalCell(s1, s2, 7, 1) == 0;
    assert LocalCell(s1, s2, 7, 2) == 0;
    assert LocalCell(s1, s2, 7, 3) == 0;
    assert LocalCell(s1, s2, 7, 4) == 0;
    assert LocalCell(s1, s2, 7, 5) == 1;
    assert LocalCell(s1, s2, 7, 6) == 2;
    assert LocalCell(s1, s2, 7, 7) == 3;
    assert LocalCell(s1, s2, 7, 8) == 4;
    assert LocalCell(s1, s2, 8, 1) == 1;
    assert LocalCell(s1, s2, 8, 2) == 0;
    assert LocalCell(s1, s2, 8, 3) == 0;
    assert LocalCell(s1, s2, 8, 4) == 1;
    assert LocalCell(s1, s2, 8, 5) == 0;
    assert LocalCell(s1, s2, 8, 6) == 2;
    assert LocalCell(s1, s2, 8, 7) == 1;
    assert LocalCell(s1, s2, 8, 8) == 4;
  }

  /** Cell (5, 8) heads the candidate list of fixture 2. */
  lemma LocalFixture2Best(s1: string, s2: string)
    requires Fixture2Input(s1, s2)
    ensures IsBest(s1, s2, DefaultThreshold, (5, 8))
  {
    LocalFixture2Rows1To8(s1, s2);
    forall d: Cell | IsCandidate(s1, s2, DefaultThreshold, d) && d != (5, 8)
      ensures Ahead(s1, s2, (5, 8), d)
    {
      assert d.0 == 1 || d.0 == 2 || d.0 == 3 || d.0 == 4 || d.0 == 5 || d.0 == 6 || d.0 == 7 || d.0 == 8;
      assert d.1 == 1 || d.1 == 2 || d.1 == 3 || d.1 == 4 || d.1 == 5 || d.1 == 6 || d.1 == 7 || d.1 == 8;
    }
  }

  /** The traceback of fixture 2 from (5, 8). */
  lemma LocalFixture2Path(s1: string, s2: string)
    requires Fixture2Input(s1, s2)
    ensures Traceable(s1, s2, (5, 8))
    ensures LocalPath(s1, s2, 5, 8) == "ACACA"
  {
    LocalFixture2Rows1To8(s1, s2);
    assert LocalPath(s1, s2, 1, 4) == "A";
    assert "AC" == "A" + ['C'];
    assert LocalPath(s1, s2, 2, 5) == "AC";
    assert "ACA" == "AC" + ['A'];
    assert LocalPath(s1, s2, 3, 6) == "ACA";
    assert "ACAC" == "ACA" + ['C'];
    assert LocalPath(s1, s2, 4, 7) == "ACAC";
    assert "ACACA" == "ACAC" + ['A'];
    assert LocalPath(s1, s2, 5, 8) == "ACACA";
  }

  /** Fixture 2 of src/compbio/tests/seq_test.py: ACACACTA against AGCACACA
      aligns locally as "ACACA". */
  lemma LocalFixture2()
    ensures IsBest(LocalFixture2Seq1, LocalFixture2Seq2, DefaultThreshold, (5, 8)) && Traceable(LocalFixture2Seq1, LocalFixture2Seq2, (5, 8))
    ensures LocalPath(LocalFixture2Seq1, LocalFixture2Seq2, 5, 8) == "ACACA"
  {
    assert Fixture2Input(LocalFixture2Seq1, LocalFixture2Seq2);
    LocalFixture2Best(LocalFixture2Seq1, LocalFixture2Seq2);
    LocalFixture2Path(LocalFixture2Seq1, LocalFixture2Seq2);
  }
}
