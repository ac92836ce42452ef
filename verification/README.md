# compbio-protein-structure: sequence alignment and EIGAs, modelled in Dafny

The repository compares biological sequences and protein structures. This
project models its algorithmic core:

- **Sequence alignment** (`src/compbio/seq.py`):
  - global alignment: a Needleman–Wunsch score matrix with match +1,
    mismatch −1 and gap −2, and a traceback that rebuilds the two gapped
    strings;
  - local alignment: a Smith–Waterman matrix floored at 0, the cells that
    reach a threshold (2 by default) ranked by score and then in row-major
    order, and a traceback from the best one.
- **EIGAs** (`src/compbio/algo/eigas/core.py`):
  - the dynamic programme of `EIGAs.align`, which aligns two protein
    fingerprints (one eigenvalue per residue). It minimises a summed
    cost in which a diagonal step costs the absolute difference of the two
    values it pairs and a gap step costs 1.0 plus the absolute difference
    between the value it consumes and the value at the cell's other index
    in the other fingerprint. It then
    backtracks the two index paths;
  - `EIGAs.aligned`, which counts aligned positions;
  - the contact matrix of `Protein.cmatrix`;
  - the per-residue argmax that builds a fingerprint.
- **The stand-alone protein class** (`src/compbio/algo/eigas/protein/core.py`):
  - its contact matrix, with an integer cutoff;
  - the same argmax.

Module layout:

| file | module | models |
|---|---|---|
| `wrappers.dfy` | `Wrappers` | `Option`, `Result` |
| `seq_matrix.dfy` | `SeqMatrix` | `__p`, `__cmp_init`, the three-way maximum, removal of gap characters |
| `seq_global.dfy` | `SeqGlobal` | `__global_cmp`, `global_cmp`, `__global_align`, `global_align`, and the alignment score an optimal alignment attains |
| `seq_local.dfy` | `SeqLocal` | `__local_cmp`, `__local_align`, `local_align` |
| `eigas_dp.dfy` | `EigasDp` | the recurrence of `EIGAs.align` as functions: costs, chosen steps, paths, and an independent re-summation of a path's cost |
| `eigas.dfy` | `Eigas` | `EIGAs.align` and `EIGAs.aligned` as methods over an `array2<Node>`; `EIGAs.Protein` |
| `contact.dfy` | `Contact` | the contact-matrix fill shared by both `cmatrix` methods |
| `fingerprint.dfy` | `Fingerprint` | the argmax loop shared by both `Protein` constructors |
| `protein_core.dfy` | `ProteinCore` | the stand-alone `Protein` |
| `seq_fixtures.dfy` | `SeqFixtures` | the fixtures of `src/compbio/tests/seq_test.py`, evaluated on the model |

## How the code is modelled

- Each matrix is filled by a method with nested loops over an `array2`, as
  the numpy code does. Each fill is proved equal, cell by cell, to a
  recursive function of the inputs: `GlobalCell`, `LocalCell` or
  `NodeAt`/`Cost`. The properties are proved about those functions.
- The EIGAs cost of a cell is the cheapest of three candidates (`Via`):
  the cost of the cell above, diagonally above or to the left, plus that
  step's cost. `StepAt` is the step the code's `if`-chain picks among them.
- The `max_scores` dictionary of `__local_cmp` is specified by `Gathered`,
  the dictionary the loop has built up to a given cell. `GatheredCollected`
  then proves what that dictionary holds.
- The two sequence tracebacks recurse over the score matrix, as the Python
  does: `GlobalTraceback` and `LocalTraceback`. Each call takes one step,
  chosen by trying up, then diagonal, then left, in the code's order
  (`TracebackMove`, `TracebackStep`). Each is shown equal to a traceback
  over the recurrence (`GlobalPath`, `LocalPath`), which is what the
  fixtures evaluate.
- An `EIGAs.align` node points to its predecessor object. Here a `Node`
  stores the predecessor's coordinates. The backtrack is a `while` loop
  that follows them until a node without a predecessor.
- Python errors are results:
  - `local_align` with no cell at the threshold raises `IndexError` on
    `indices[0]`. The model returns `Err(NoCandidate)`.
  - `EIGAs.align` with an empty fingerprint raises `IndexError` on
    `matrix[-1][-1]`. The model returns `Err(EmptyFingerprint)`.
  - `aligned` without usable paths or proteins fails on the missing
    protein. The model returns `Err(MissingProtein)`.
  - `aligned` reading `seq2[i]` past its end returns `Err(ShortPath)`.

## Behaviour of the code worth knowing

A summary of the algorithms could suggest otherwise at these points. The
model follows the code.

- **Tie order in `EIGAs.align`.** A tie is resolved top first, then
  diagonal, then left (`core.py:90-104`). It does not prefer the diagonal.
- **Gap cost.** A gap step is not charged 1.0 alone. The step from above
  into (i, j) costs |f1[i−1] − f2[j]| + 1.0, and the step from the left
  costs |f1[i] − f2[j−1]| + 1.0 (`core.py:85-87`, `TopCost`, `LeftCost`).
  Each therefore also charges the distance between a residue and a residue
  it is not paired with.
- **Row 0 and column 0.** They keep cost 0.0 and have no predecessor. They
  are not given a gap penalty proportional to their index.
- **Self-alignment.** A fingerprint of n values aligned with itself
  produces the paths `[0, …, n-2]` on both sides, at cost 0.0. The last
  residue is never consumed (`SelfAlign`, `Align`).
- **The count in `aligned`.** It tests `seq1[i] and seq2[i]` with Python
  truthiness. A gap (`None`) is not counted, and neither is index 0. A
  self-alignment of n ≥ 2 residues therefore counts n − 2 (`SelfTally`,
  `Aligned`).
- **The stand-alone `cmatrix`.** `protein/core.py` divides `1 / 8` on two
  integers, which is 0 under Python 2. Its contact matrix is a 0/1 map:
  1.0 for distances in [0, 8] and 0.0 elsewhere. `EIGAs.Protein.cmatrix`
  uses `1 / 8.0` and gives `1 - d/8`.
- **Local alignment.** `local_align` returns only the first-sequence
  characters of the path from the best cell. Those characters, with the
  gap spaces removed, are a contiguous substring of the first sequence
  ending at the best cell's row (`LocalAlign`).

## Model

| member | source | states |
|---|---|---|
| SeqMatrix.P | src/compbio/seq.py:204-214 | a pair scores +1 exactly when the two characters are equal, and −1 otherwise |
| SeqMatrix.CmpInit | src/compbio/seq.py:48-70 | the matrix is (len1+1)×(len2+1); the first column holds i·v and the first row j·v; every other cell is 0 |
| SeqMatrix.Strip | src/compbio/seq.py:91-110 | removing the spaces a traceback writes for gaps leaves a string no longer than the input and without spaces; StripSnoc, GlobalPathAligns and LocalTracebackSpan use it to read an alignment back as the sequences |
| SeqMatrix.StripSnoc | src/compbio/seq.py:95-110 | removing gaps commutes with appending one character: a gap vanishes, any other character is kept |
| SeqMatrix.Best | src/compbio/seq.py:126-130 | one step of the alignment recurrence: the largest of up − 2, diagonal + p(x, y) and left − 2. GlobalCell applies it inside the global matrix; LocalCell (seq.py:184-187) also floors it at 0, and LocalCellSteps states the three bounds it gives |
| SeqGlobal.GlobalCell | src/compbio/seq.py:122-130 | the global recurrence: −2 times the index on row 0 and column 0, otherwise the largest of up − 2, diagonal + p and left − 2; its meaning is given by GlobalOptimal and GlobalPathScore |
| SeqGlobal.GlobalCmpMatrix | src/compbio/seq.py:114-133 | every cell of the filled matrix equals the global recurrence: a boundary of −2 per index, and inside the maximum of up−2, diagonal+p and left−2 |
| SeqGlobal.ScoreMatrixCells | src/compbio/seq.py:125-130 | a matrix whose boundary and interior follow the recurrence step by step holds GlobalCell in every cell |
| SeqGlobal.GlobalCmp | src/compbio/seq.py:23-30 | `global_cmp` returns the bottom-right cell of the recurrence |
| SeqGlobal.TracebackMove | src/compbio/seq.py:86-110 | the step out of (i, j) stays inside the matrix, and the tie order is the code's: up exactly when i > 0 and the cell is the one above minus 2; diagonal exactly when up does not apply, i, j > 0 and the cell is the diagonal cell plus p; left otherwise |
| SeqGlobal.GlobalTraceback | src/compbio/seq.py:72-112 | the traceback over the score matrix returns two strings of equal length, at most i + j |
| SeqGlobal.GlobalMove | src/compbio/seq.py:91-110 | the same choice made on the recurrence, with the same tie order stated both ways (up, then diagonal, then left), and left only where the cell is the one to the left minus 2 |
| SeqGlobal.GlobalPath | src/compbio/seq.py:72-112 | the recurrence-driven traceback returns two strings of equal length, at most i + j |
| SeqGlobal.SameMove | src/compbio/seq.py:91-110 | on a matrix holding the recurrence in every cell, the step the traceback takes is the recurrence's step |
| SeqGlobal.GlobalTracebackPath | src/compbio/seq.py:72-112 | on a correctly filled matrix, the traceback equals the same traceback driven by the recurrence (GlobalPath) |
| SeqGlobal.GlobalAlign | src/compbio/seq.py:14-21 | `global_align` returns the recurrence-driven path. For sequences without spaces, the pair is an alignment of the two inputs: removing gaps gives back each input, and no column is gap against gap. Its column score equals `global_cmp` |
| SeqGlobal.GlobalPathAligns | src/compbio/seq.py:72-112 | for sequences without spaces, the recurrence-driven traceback from (i, j) is an alignment of the prefixes of lengths i and j |
| SeqGlobal.AlignMove | src/compbio/seq.py:91-110 | the column a step appends extends an alignment of the prefixes up to the cell the step comes from to an alignment of the prefixes up to (i, j) |
| SeqGlobal.GlobalPathScore | src/compbio/seq.py:72-133 | the column score of the recurrence-driven traceback from (i, j) equals the matrix value at (i, j) |
| SeqGlobal.MoveScore | src/compbio/seq.py:91-110 | the column a step appends scores exactly the difference between the cell and the cell the step comes from |
| SeqGlobal.ScoreSnoc | src/compbio/seq.py:128-130 | appending one column adds that column's score (+1, −1, or −2 for a gap) to an alignment's score |
| SeqGlobal.ExtendAlignment | src/compbio/seq.py:91-110 | appending one column (a character, or a gap against a character) extends an alignment of two prefixes to an alignment of the longer prefixes |
| SeqGlobal.ShrinkAlignment | src/compbio/seq.py:91-110 | dropping the last column of an alignment leaves an alignment of shorter prefixes; that column's non-gap characters are the prefixes' last characters |
| SeqGlobal.GlobalOptimal | src/compbio/seq.py:114-133 | no alignment of the prefixes of lengths i and j scores more than the matrix value at (i, j) |
| SeqLocal.LocalCell | src/compbio/seq.py:175-187 | the local recurrence: 0 on row 0 and column 0, otherwise the largest of left − 2, diagonal + p, up − 2 and 0; LocalCellNonNegative and LocalCmp state what it gives |
| SeqLocal.LocalCellNonNegative | src/compbio/seq.py:184-187 | every local score is at least 0 |
| SeqLocal.FilledCells | src/compbio/seq.py:181-187 | every cell the loop has already passed holds the local recurrence's value |
| SeqLocal.LocalFill | src/compbio/seq.py:175-194 | the filled matrix has the shape of the inputs and equals LocalCell everywhere; `max_scores` is every interior cell, in row-major order, recorded as the loop records it (Gathered) |
| SeqLocal.FillRow | src/compbio/seq.py:182-194 | one pass of the inner loop leaves row i holding LocalCell, keeps the earlier rows and the first column, leaves the later rows as they were, and advances `max_scores` to what it is at the start of row i + 1 |
| SeqLocal.LocalStep | src/compbio/seq.py:184-187 | the value the loop computes from the left, diagonal and upper neighbours, floored at 0, is LocalCell |
| SeqLocal.CellsFollowRecurrence | src/compbio/seq.py:181-187 | a matrix that holds LocalCell everywhere follows the local recurrence in every interior cell |
| SeqLocal.GatheredCollected | src/compbio/seq.py:178-194 | the dictionary the loop builds up to (i, j) maps each score at or above the threshold to exactly the cells before (i, j) that hold it, in row-major order, and has no other keys |
| SeqLocal.CollectedStart | src/compbio/seq.py:178 | the empty dictionary is correct before the first interior cell |
| SeqLocal.BestUnique | src/compbio/seq.py:196-199 | the cell ranked first (highest score, then earliest row-major) is unique |
| SeqLocal.SortedAppend | src/compbio/seq.py:192-194 | concatenating two row-major lists, the first wholly before the second, is row-major |
| SeqLocal.RowBucketSpec | src/compbio/seq.py:182-194 | the cells of row a before column b with score v, in scan order, are exactly those cells, and are sorted |
| SeqLocal.BucketSpec | src/compbio/seq.py:181-194 | the cells of rows before a with score v, in scan order, are exactly those cells, and are sorted |
| SeqLocal.RecordSpec | src/compbio/seq.py:189-194 | recording a cell below the threshold changes nothing; at or above it the cell is appended to its score's list, a new key is created when the score is new, and every other score keeps its list |
| SeqLocal.Record | src/compbio/seq.py:189-194 | one update of `max_scores` for cell (i, j): the cell joins its score's list when the score reaches the threshold; RecordSpec states what changes and what stays |
| SeqLocal.Gathered | src/compbio/seq.py:178-194 | `max_scores` as the two loops have built it up to cell (i, j), one Record per interior cell in row-major order; GatheredCollected states what it holds |
| SeqLocal.BeforeNext | src/compbio/seq.py:190-194 | advancing the scan past cell (i, j − 1) appends that cell to the list of its own score only |
| SeqLocal.CollectStep | src/compbio/seq.py:189-194 | recording cell (i, j − 1) in `max_scores` keeps the dictionary equal to the scan's lists one cell later |
| SeqLocal.CollectKeys | src/compbio/seq.py:189-194 | after recording, every key is at or above the threshold and maps to the cells of that score scanned so far |
| SeqLocal.CollectMissing | src/compbio/seq.py:189-194 | after recording, a score at or above the threshold that is not a key has no scanned cell |
| SeqLocal.CollectCells | src/compbio/seq.py:189-194 | after recording, the score of every scanned cell at or above the threshold is a key |
| SeqLocal.NextRow | src/compbio/seq.py:181-182 | the dictionary after the last column of row i − 1 is correct before the first cell of row i |
| SeqLocal.MaxOf | src/compbio/seq.py:198 | the result is a key and no key is larger |
| SeqLocal.SortDescending | src/compbio/seq.py:198 | `sorted(keys, reverse=True)` lists exactly the keys, in strictly decreasing order |
| SeqLocal.ListCandidates | src/compbio/seq.py:196-199 | the concatenated lists hold exactly the cells at or above the threshold, ordered by decreasing score and then row-major |
| SeqLocal.ExtendCandidates | src/compbio/seq.py:198-199 | appending the list of the next key keeps the concatenation complete for the keys so far, ordered, and above every later key |
| SeqLocal.LocalCmp | src/compbio/seq.py:166-202 | `__local_cmp` returns a new local matrix and the candidate cells. These are exactly the cells at or above the threshold, ordered by decreasing score and then row-major |
| SeqLocal.TracebackStep | src/compbio/seq.py:151-164 | when the diagonal cell is not 0, the step is up exactly when the cell is the one above minus 2, diagonal exactly when it is not up and the cell is the diagonal cell plus p, and otherwise left, where the cell is the one to the left minus 2; the cell the step leads to is interior and above 0, so the (0, 0) base case is never reached |
| SeqLocal.LocalTraceback | src/compbio/seq.py:135-164 | the traceback from an interior cell returns a non-empty string |
| SeqLocal.LocalMove | src/compbio/seq.py:151-164 | the same choice made on LocalCell; the cell the step leads to is a valid start for a traceback |
| SeqLocal.LocalPath | src/compbio/seq.py:135-164 | the recurrence-driven local traceback returns a non-empty string |
| SeqLocal.SameLocalMove | src/compbio/seq.py:151-164 | on the filled local matrix, the step the traceback takes is the recurrence's step |
| SeqLocal.PathCells | src/compbio/seq.py:152-164 | the four cells the traceback compares hold their LocalCell values |
| SeqLocal.LocalTracebackPath | src/compbio/seq.py:135-164 | on a correctly filled matrix, the traceback from a cell that is positive, or whose diagonal predecessor is 0, equals LocalPath, and that cell satisfies Traceable |
| SeqLocal.SpanSnoc | src/compbio/seq.py:157-161 | appending seq1[i-1] to a string that matches seq1[k..i-1] with gaps removed gives one that matches seq1[k..i] |
| SeqLocal.LocalTracebackSpan | src/compbio/seq.py:135-164 | the traceback from (i, j), with gaps removed, is a contiguous substring of seq1 that ends at position i |
| SeqLocal.LocalCellSteps | src/compbio/seq.py:184-187 | each step of the local recurrence bounds a cell from below: at least the cell above minus 2, the cell to the left minus 2, and the diagonal cell plus p |
| SeqLocal.ShrinkStretch | src/compbio/seq.py:144-164 | dropping the last column of an alignment of a stretch of seq1 with a stretch of seq2 leaves an alignment of the shorter stretches, and the column's characters are the stretches' last ones |
| SeqLocal.LocalOptimal | src/compbio/seq.py:181-187 | no alignment of a stretch of seq1 ending at i with a stretch of seq2 ending at j scores more than the local cell (i, j) |
| SeqLocal.ExtendStretch | src/compbio/seq.py:144-164 | appending a column whose letters come next in the two stretches extends the alignment of the stretches by them and adds the column's score |
| SeqLocal.LocalReach | src/compbio/seq.py:184-187 | a positive local cell equals the cell one step back plus that step's column score: diagonal + p, up − 2 or left − 2, the column's letters being the next ones of the two stretches |
| SeqLocal.LocalAttained | src/compbio/seq.py:181-187 | every local cell (i, j) is reached: some alignment of a stretch of seq1 ending at i with a stretch of seq2 ending at j scores exactly the cell, so with LocalOptimal the cell is the best such score |
| SeqLocal.BestOptimal | src/compbio/seq.py:32-45 | the cell `local_align` traces back from scores at least as much as any alignment of a stretch of seq1 with a stretch of seq2 (the upper bound) |
| SeqLocal.BestAttained | src/compbio/seq.py:32-45 | that cell's score is reached by an alignment of a stretch of seq1 with a stretch of seq2 ending at the cell; with BestOptimal it is the optimal local alignment score |
| SeqLocal.LocalAlign | src/compbio/seq.py:32-45 | the error case happens exactly when no cell reaches the threshold. Otherwise the result is the traceback from the unique best cell, and with gaps removed it is a substring of seq1 ending at that cell's row; that cell's score is the optimal local score by BestOptimal and BestAttained |
| SeqFixtures.GlobalFixtureRows1To5 | src/compbio/tests/seq_test.py:19-21 | the first five rows of the fixture's global matrix |
| SeqFixtures.GlobalFixtureRows6To10 | src/compbio/tests/seq_test.py:19-21 | the last five rows of the fixture's global matrix |
| SeqFixtures.GlobalStepDiag | src/compbio/seq.py:99-103 | where the recurrence steps diagonally, the traceback appends both characters to the traceback from the diagonal cell |
| SeqFixtures.GlobalStepLeft | src/compbio/seq.py:106-110 | where the recurrence steps left, the traceback appends a space over seq2's character to the traceback from the left cell |
| SeqFixtures.GlobalFixtureMoves1 | src/compbio/tests/seq_test.py:19-21 | the steps of the fixture's traceback from (1, 1) to (5, 6): diagonal, diagonal, left, then diagonal |
| SeqFixtures.GlobalFixtureMoves2 | src/compbio/tests/seq_test.py:19-21 | the steps of the fixture's traceback from (6, 7) to (10, 11): all diagonal |
| SeqFixtures.GlobalFixturePath | src/compbio/tests/seq_test.py:19-21 | the traceback of the fixture, column by column, in terms of the input characters |
| SeqFixtures.GlobalFixtureColumns | src/compbio/tests/seq_test.py:19-21 | those columns spell "GA CGGATTAG" over "GATCGGAATAG" |
| SeqFixtures.GlobalFixture | src/compbio/tests/seq_test.py:33-41 | GACGGATTAG against GATCGGAATAG scores 6 and aligns as ("GA CGGATTAG", "GATCGGAATAG") |
| SeqFixtures.LocalFixture1Rows1To5 | src/compbio/tests/seq_test.py:25 | rows 1 to 5 of the local matrix of CAGCCUCGCUUAG against AAUGCCAUUGACGG |
| SeqFixtures.LocalFixture1Rows6To10 | src/compbio/tests/seq_test.py:25 | rows 6 to 10 of that matrix |
| SeqFixtures.LocalFixture1Rows11To13 | src/compbio/tests/seq_test.py:25 | rows 11 to 13 of that matrix |
| SeqFixtures.LocalFixture1Best | src/compbio/tests/seq_test.py:25 | (5, 6), with score 3, is the best candidate at threshold 2 |
| SeqFixtures.LocalFixture1Path | src/compbio/tests/seq_test.py:25 | the traceback from (5, 6) is "GCC" |
| SeqFixtures.LocalFixture1 | src/compbio/tests/seq_test.py:43-46 | `local_align` of the first local fixture returns "GCC" |
| SeqFixtures.LocalFixture2Rows1To8 | src/compbio/tests/seq_test.py:26 | the whole local matrix of ACACACTA against AGCACACA |
| SeqFixtures.LocalFixture2Best | src/compbio/tests/seq_test.py:26 | (5, 8), with score 5, is the best candidate at threshold 2 |
| SeqFixtures.LocalFixture2Path | src/compbio/tests/seq_test.py:26 | the traceback from (5, 8) is "ACACA" |
| SeqFixtures.LocalFixture2 | src/compbio/tests/seq_test.py:43-46 | `local_align` of the second local fixture returns "ACACA" |
| EigasDp.Abs | src/compbio/algo/eigas/core.py:85-87 | `abs` is non-negative |
| EigasDp.TopCost | src/compbio/algo/eigas/core.py:85 | the step from above into (i, j) costs abs(f1[i−1] − f2[j]) + 1.0, so at least 1.0 |
| EigasDp.DiagCost | src/compbio/algo/eigas/core.py:86 | the diagonal step into (i, j) costs abs(f1[i−1] − f2[j−1]), so at least 0.0 |
| EigasDp.LeftCost | src/compbio/algo/eigas/core.py:87 | the step from the left into (i, j) costs abs(f1[i] − f2[j−1]) + 1.0, so at least 1.0 |
| EigasDp.Pick | src/compbio/algo/eigas/core.py:89-104 | top is chosen exactly when it costs no more than diagonal and left. Diagonal is chosen exactly when top is not, and it costs no more than the other two. Otherwise left |
| EigasDp.RelaxCheapest | src/compbio/algo/eigas/core.py:85-104 | the node the loop writes from its three neighbours' scores has a predecessor, consumes at least one residue, and costs no more than any of the three candidate scores |
| EigasDp.Relax | src/compbio/algo/eigas/core.py:85-104 | the node one iteration writes: the three candidate costs, the first cheapest in the order top, diagonal, left as score and predecessor, and the residues that step consumes. RelaxCheapest states that it is the cheapest and RelaxNode that it is the recurrence's node |
| EigasDp.Cost | src/compbio/algo/eigas/core.py:76-104 | the cost the loop records at (i, j): 0.0 on row 0 and column 0, otherwise the cheapest of the three candidates; CostMin, CostOptimal and CostNonNegative state its properties |
| EigasDp.StepAt | src/compbio/algo/eigas/core.py:89-104 | the step the `if`-chain picks at (i, j), top, then diagonal, then left; StepAtCost ties it to Cost |
| EigasDp.NodeAt | src/compbio/algo/eigas/core.py:76-104 | the node (i, j) holds after the loop: Fresh on row 0 and column 0, otherwise its chosen predecessor, Cost and the residues the step consumes; RelaxNode and FillNodes state that the loop builds it |
| EigasDp.Trace | src/compbio/algo/eigas/core.py:106-113 | the index paths the backtrack reads off from (i, j); TraceShape and TraceCost state their shape and cost |
| EigasDp.Replay | src/compbio/algo/eigas/core.py:85-87 | an independent re-summation of a pair of index paths into (i, j): each column is charged the step cost it stands for, and paths that are not a walk to row 0 or column 0 give None; TraceCost and CostOptimal use it |
| EigasDp.Cheapest | src/compbio/algo/eigas/core.py:89-104 | the cost a node gets is no more than each of the three candidates and is one of them |
| EigasDp.StepAtCost | src/compbio/algo/eigas/core.py:85-104 | the cost of an interior cell is the cost of the cell its chosen step comes from plus that step's cost |
| EigasDp.RelaxNode | src/compbio/algo/eigas/core.py:77-104 | the node the loop writes, from the costs of its three neighbours, is the node the recurrence assigns to the cell |
| EigasDp.CostMin | src/compbio/algo/eigas/core.py:85-104 | a cell's cost is at most each neighbour's cost plus the cost of the step from it |
| EigasDp.CostNonNegative | src/compbio/algo/eigas/core.py:85-104 | every cost in the matrix is at least 0.0 |
| EigasDp.TraceCost | src/compbio/algo/eigas/core.py:106-115 | re-summing the backtracked paths step by step gives exactly the cost stored in the cell |
| EigasDp.ReplayStep | src/compbio/algo/eigas/core.py:89-104 | re-summing the column a step appends charges that step's cost and continues from the cell the step comes from |
| EigasDp.CostOptimal | src/compbio/algo/eigas/core.py:76-104 | no path from the cell back to row 0 or column 0 costs less than the cell's stored cost |
| EigasDp.IncreasingAppend | src/compbio/algo/eigas/core.py:111-112 | appending an index above every earlier index, or a gap, keeps a path strictly increasing |
| EigasDp.TraceShape | src/compbio/algo/eigas/core.py:106-115 | the two paths have equal length, never hold a gap on both sides at one position, and are strictly increasing and below i and j |
| EigasDp.SingleValue | src/compbio/algo/eigas/core.py:77-78 | with a one-value fingerprint, the loop never runs: cost 0.0 and empty paths |
| EigasDp.Indices | src/compbio/algo/eigas/core.py:111-112 | the path Some(0), …, Some(n−1) has length n |
| EigasDp.SelfAlign | src/compbio/tests/algo/eigas/eigas_test.py:18-26 | aligning a fingerprint with itself costs 0.0, and both paths are Some(0), …, Some(i−1) |
| Eigas.FillNodes | src/compbio/algo/eigas/core.py:66-104 | the filled matrix has one node per pair of residues and holds NodeAt in every cell |
| Eigas.FillRow | src/compbio/algo/eigas/core.py:78-104 | one pass of the inner loop leaves row i holding NodeAt and every other node as it was |
| Eigas.FillCell | src/compbio/algo/eigas/core.py:80-104 | the node computed from the nodes above, diagonally above and to the left of (i, j) is the node the recurrence assigns to (i, j) |
| Eigas.NodeScore | src/compbio/algo/eigas/core.py:92-103 | the score a node stores is the cost of its cell |
| Eigas.NodeTrace | src/compbio/algo/eigas/core.py:91-104 | a node has no predecessor exactly on row 0 or column 0. Its predecessor lies up and left of it, and its path is the predecessor's path plus its own indices |
| Eigas.Backtrack | src/compbio/algo/eigas/core.py:106-113 | following the predecessors from the last node yields exactly the recurrence's paths |
| Eigas.Align | src/compbio/algo/eigas/core.py:27-115 | An empty fingerprint gives an error; otherwise the result is the cost and paths of the last cell. The paths re-sum to the returned score, and no path is cheaper. The score is non-negative and the paths have equal length, never gap against gap, and are strictly increasing. A one-value fingerprint gives (0.0, [], []). Self-alignment gives cost 0.0 and identical paths |
| Eigas.Given | src/compbio/algo/eigas/core.py:133 | a path counts as provided only when it is present and non-empty, as `not seq1 or not seq2` tests it |
| Eigas.Truthy | src/compbio/algo/eigas/core.py:137 | an entry is truthy only when it is not None and not the index 0 |
| Eigas.Tally | src/compbio/algo/eigas/core.py:136-138 | counting fails exactly when s1 holds a truthy entry at a position beyond the end of s2. The count is at most the number of positions, and equals it when every entry on both sides is truthy |
| Eigas.TallyCount | src/compbio/algo/eigas/core.py:118-140 | when counting succeeds, the count is the number of positions where both paths hold a truthy index |
| Eigas.CountAligned | src/compbio/algo/eigas/core.py:130-140 | the counting loop returns Tally over all of s1 |
| Eigas.TallyPrefix | src/compbio/algo/eigas/core.py:136-138 | appending one column to both paths does not change the count of the earlier positions |
| Eigas.SelfTally | src/compbio/algo/eigas/core.py:137 | on the self-alignment paths of length n, the count is n−1: index 0 is falsy |
| Eigas.Aligned | src/compbio/algo/eigas/core.py:117-140 | Given two non-empty paths, it counts them. Otherwise it realigns the proteins, failing when one is missing or has an empty fingerprint. The count never exceeds the path length. A protein aligned with itself counts n−2 (0 for one residue) |
| Eigas.Protein.constructor | src/compbio/algo/eigas/core.py:153-218 | the name is kept, and the fingerprint has one entry per residue: for residue j, the eigenvalue of the first row of r that is maximal in column j |
| Eigas.Protein.CMatrix | src/compbio/algo/eigas/core.py:220-240 | each entry is 1 − d/8.0 for a distance d in [0, 8.0] and 0.0 otherwise. Every entry lies in [0, 1], and a symmetric distance matrix gives a symmetric contact matrix |
| Contact.ContactValue | src/compbio/algo/eigas/core.py:236-238 | a distance in [0, cutoff] gives 1 − k·d, any other gives 0. Distance 0 gives 1 |
| Contact.ContactRange | src/compbio/algo/eigas/core.py:230-238 | with 0 ≤ k ≤ 1/cutoff, every entry lies in [0, 1] |
| Contact.ContactMonotone | src/compbio/algo/eigas/core.py:230-238 | raising the cutoff, with factor 1/cutoff, never lowers any entry: a pair already in contact keeps a value at least as large, and any other entry was 0 |
| Contact.FillContact | src/compbio/algo/eigas/core.py:227-240 | the matrix is l×l and holds ContactValue of every distance, and a symmetric distance matrix gives a symmetric contact matrix |
| Fingerprint.FirstMaxUnique | src/compbio/algo/eigas/core.py:208-216 | each column has exactly one first maximal row |
| Fingerprint.Beats | src/compbio/algo/eigas/core.py:214 | the comparison `r[i][j] > max_value`, under which every number beats the initial None |
| Fingerprint.FirstArgMax | src/compbio/algo/eigas/core.py:210-216 | the scan returns the first row whose entry in column j is maximal. It starts from `None`, which every number exceeds, and moves only on a strict increase |
| Fingerprint.SelectFingerprint | src/compbio/algo/eigas/core.py:208-218 | one eigenvalue per residue, in order; entry j is the eigenvalue of column j's first maximal row |
| ProteinCore.Protein.constructor | src/compbio/algo/eigas/protein/core.py:49-114 | the name and coordinates come from the parser. The fingerprint starts empty and gains, for each residue, the eigenvalue of the first maximal row of its column |
| ProteinCore.Protein.CMatrix | src/compbio/algo/eigas/protein/core.py:25-47 | with k = 1 / 8 = 0 in integer division, each entry is 1.0 for a distance in [0, 8] and 0.0 otherwise, and symmetric distances give a symmetric matrix |

## Left out

- Parsing of PDB files and of the structure name: the `coords` method of
  `EIGAs.Protein` and the protein parsers. The constructors receive the
  name and the coordinates.
- The distance matrix (`scipy.spatial.distance.cdist`), the singular value
  decomposition (`numpy.linalg.svd`) and the product
  `dot(diag(eigvalues) ** 0.5, eigvectorsT)`. They are floating-point
  library calls, so the constructors take r and the eigenvalues as
  parameters. The contact matrix is computed by `CMatrix` but does not feed
  a modelled decomposition.
- Floating point: costs, distances and contact values are exact reals. No
  claim is made about rounding.
- Objects and aliasing: `EIGAs.align` takes the proteins themselves and
  reads only their fingerprints. The model takes the fingerprints. Node
  predecessors are coordinates rather than object references.
- `EIGAs.aligned` with a falsy path but no proteins raises an
  `AttributeError` inside `align`. It is modelled only as `Err(MissingProtein)`.
- Eigas.Protein.constructor: does not state the contents of `coords`,
  because `EIGAs.Protein` does not keep the coordinates as a field.
- SeqLocal.LocalAlign: the returned string is not claimed to be an
  optimal local alignment, only to come from the cell with the optimal
  local score (BestOptimal and BestAttained). The traceback stops as soon as the diagonal
  cell is 0, even when the path entered the current cell through a gap,
  so the string can be shorter than an alignment reaching that score.
- Python 2 `None` ordering is modelled only where the argmax relies on it.
  A NaN entry in r is not modelled.
- `src/compbio/tests/algo/eigas/eigas_test.py` calls
  `EIGAs.global_align`, which `core.py` does not define. The model states
  the intended self-alignment property about `EIGAs.align`.
- Other modules of the repository: scrapers, data tables, the analysis
  scripts and the other tests are not part of this model.
