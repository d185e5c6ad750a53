# Smith–Waterman-style local aligner, two variants, in Dafny

This project models a small local aligner for nucleotide strings over
{A, C, G, T}. The repository has two variants of it. Each variant has three
stages:

- a **substitution scorer** that gives a match score to equal symbols, a
  transition score to a transition pair, and a transversion score to every
  other pair, and then combines that score with the cell's diagonal, upper
  and left neighbours and a linear gap penalty. In the final variant the
  transition pairs are A/G and C/T in either order; in the earlier one only
  A against G and C against T, the first sequence's symbol first;
- a **matrix builder** that fills the (|s1|+1) x (|s2|+1) score grid row by row
  and keeps the first cell, in row-major order, that is strictly greater than
  the running maximum;
- a **traceback** that walks back from that cell, one neighbour at a time.

The final variant also has a **renderer**. It turns the path into the aligned
first sequence, the aligned second sequence and a `*`/`.`/blank indicator
line, and it pads the unaligned flanks.

Modules:

- `Nucleotides`, `Grid` (common.dfy): purine and pyrimidine classes,
  coordinates, row-major order, traceback steps and well-formed paths.
- `WeightedFinal` (weighted_final.dfy): the final variant's scorer, builder
  and traceback. It uses integer scores, symmetric transitions and no floor
  at 0. Its traceback takes the diagonal whenever the remembered score minus
  the match score equals the diagonal value.
- `WeightedFinalRender` (weighted_final_render.dfy): the final variant's
  renderer. Each phase is a method whose loops are proved against a function
  (`Steps`, `LeadingFlank`, `Trailing`). `Finishes` chains the functions that
  follow the per-step phase.
- `Weighted` (weighted.dfy): the earlier variant. It uses `real` scores,
  because its transition penalty is -1.5. Cells are floored at 0, transitions
  are asymmetric, and the traceback always moves to the first maximal
  neighbour in the order (x, y-1), (x-1, y), diagonal.

The source keeps the sequences and the four constants in module-level
globals. Here they are parameters: the two sequences and a `Scoring` value.
`SourceScoring` holds the shipped constants: 4/-2/-4/-2 for the final
variant, 3/-1.5/-3/-2 for the earlier one. The score grid is an `array2`
that the builder writes in place, as the source writes its list of lists.
The builder's failed assertion (no positive cell) is the result `None`.

Some consequences of the code, each stated by a lemma:

- The rendered lines need not have equal lengths: the trailing blocks can
  leave the top line shorter than the other two (`RenderShape`,
  `AgaAaaAlignment`).
- The rendered lines need not be the aligned parts of the inputs with gaps
  inserted. For AGA against AAA the renderer yields `A-A`, `AAAAA-` and
  `* *   `: the bottom line holds five A's although AAA has three, and the
  top line without its gap, AA, is not a substring of AGA
  (`AgaAaaAlignment`). The count of the second sequence's bases left starts
  at its length minus the number of path cells, here 3 - 4 = -1, because the
  path's last cell (0, 0) puts no column; the trailing block then appends
  the second sequence again from index 2 - 1 = 1.
- The indicator follows the score difference between consecutive path
  cells, not the equality of the two symbols: for ACA against CGCA it puts
  `*` under C over G (`AcaCgcaAlignment`).
- The traceback stops on row 0 or column 0 without flagging it. `TraceEnd`
  states only that the last cell is on row 0, on column 0, or holds 0.
- Any unequal pair other than a transition pair, non-nucleotide characters
  included, scores as a transversion.
- An empty sequence gives a grid with no interior cell, so the builder
  returns `None`.

## Model

| member | source | states |
|---|---|---|
| `WeightedFinal.Similarity` | swaligner_weighted_final.py:47-54 | match score for equal symbols, transition score for a transition pair in either order, transversion score for every other pair |
| `WeightedFinal.SimilaritySymmetric` | swaligner_weighted_final.py:47-54 | the final variant's similarity does not depend on which sequence a symbol comes from |
| `WeightedFinal.CalcScore` | swaligner_weighted_final.py:55-58 | a cell is at least the diagonal plus similarity and at least each gap move, and equals one of them (no floor at 0) |
| `WeightedFinal.Cell` | swaligner_weighted_final.py:30-58 | the reference grid: 0 on row 0 and column 0, every other cell the score `calc_score` gives it from its three neighbours |
| `WeightedFinal.CellsMayBeNegative` | swaligner_weighted_final.py:55-58 | without a floor a cell can be negative: A against C gives -2 with the shipped constants |
| `WeightedFinal.CellLowerBound` | swaligner_weighted_final.py:44-58 | every cell is at least one gap penalty per step to the nearer boundary |
| `WeightedFinal.CellUpperBound` | swaligner_weighted_final.py:44-58 | when a match scores best and gaps cost, a cell is at most one match per symbol of the shorter prefix |
| `WeightedFinal.CellTranspose` | swaligner_weighted_final.py:44-58 | swapping the two sequences transposes the grid, because transitions score symmetrically |
| `WeightedFinal.ScanMaxDone` | swaligner_weighted_final.py:32-41 | after the scan, the running maximum is absent exactly when no cell is positive, and is otherwise the first maximal cell |
| `WeightedFinal.FillCell` | swaligner_weighted_final.py:36-40 | scoring cell (i, j) stores its reference value and moves the maximum there only on a strictly greater score |
| `WeightedFinal.FillRow` | swaligner_weighted_final.py:35-40 | filling a row keeps the cells before it filled and the running maximum correct |
| `WeightedFinal.CreateScoreMatrix` | swaligner_weighted_final.py:22-42 | the grid holds the recurrence's values (row 0 and column 0 hold 0); the result is None exactly when no cell is positive, otherwise the first row-major cell holding the positive maximum |
| `WeightedFinal.FirstMax` | swaligner_weighted_final.py:106 | the first of three candidates, in list order, holding the largest value |
| `WeightedFinal.Pick` | swaligner_weighted_final.py:97-108 | a non-diagonal step moves to a maximal neighbour, the first in the order diagonal, (x, y-1), (x-1, y), or up, diagonal, left when the diagonal is (0, 0) |
| `WeightedFinal.TraceFrom` | swaligner_weighted_final.py:88-111 | the cells the traceback loop visits after the current one: a diagonal step while the remembered score minus the match score equals the diagonal cell, otherwise the picked neighbour with its score remembered; it stops when the remembered score is 0 or on row 0 or column 0 |
| `WeightedFinal.Path` | swaligner_weighted_final.py:83-111 | the start cell followed by the cells the loop visits |
| `WeightedFinal.TraceWellFormed` | swaligner_weighted_final.py:83-111 | the path starts at the start cell, stays in the grid, moves by diagonal, (x, y-1) or (x-1, y) steps, and has at most x+y+1 cells |
| `WeightedFinal.TraceEnd` | swaligner_weighted_final.py:88-111 | the walk ends on row 0, on column 0, or on a cell holding 0 |
| `WeightedFinal.TracePassesDiagonalZero` | swaligner_weighted_final.py:94-96 | the remembered score is not refreshed after a diagonal step, so the walk goes past an interior zero cell |
| `WeightedFinal.FindPath` | swaligner_weighted_final.py:77-119 | the loop returns the traceback path, which is well formed and ends at a zero cell or on the boundary |
| `WeightedFinal.TableIsGrid` | swaligner_weighted_final.py:22-58 | a table that is 0 on row 0 and column 0 and meets `calc_score` everywhere else is the grid: the builder's recurrence has exactly one solution |
| `WeightedFinal.TableFirstMax` | swaligner_weighted_final.py:32-41 | the first positive maximum of such a table, in row-major order, is the cell the builder keeps |
| `WeightedFinal.AgaAaaGrid` | swaligner_weighted_final.py:22-58 | the builder's grid for AGA against AAA, with the shipped constants, row by row |
| `WeightedFinal.AgaAaaFirstMax` | swaligner_weighted_final.py:32-41 | the builder keeps (3, 2) for AGA against AAA |
| `WeightedFinal.AgaAaaPath` | swaligner_weighted_final.py:83-111 | on that grid the traceback from (3, 2) visits (2, 1), (1, 1) and (0, 0) |
| `WeightedFinal.AcaCgcaGrid` | swaligner_weighted_final.py:22-58 | the builder's grid for ACA against CGCA, with the shipped constants, row by row |
| `WeightedFinal.AcaCgcaFirstMax` | swaligner_weighted_final.py:32-41 | the builder keeps (3, 4) for ACA against CGCA |
| `WeightedFinal.AcaCgcaPath` | swaligner_weighted_final.py:83-111 | on that grid the traceback from (3, 4) visits (2, 3), (2, 2), (1, 1) and (1, 0) |
| `WeightedFinalRender.Reverse` | swaligner_weighted_final.py:155-157 | the reversed string has the same length, with position i holding the character at position len-1-i |
| `WeightedFinalRender.ScoreList` | swaligner_weighted_final.py:132-135 | the scores of the path cells, in path order, followed by the -200 sentinel |
| `WeightedFinalRender.PathScores` | swaligner_weighted_final.py:132-135 | the loop collects exactly those scores |
| `WeightedFinalRender.KindOf` | swaligner_weighted_final.py:138-146 | a step is a match when the score falls by the match score to the next entry, a mismatch when it rises by it, otherwise a gap |
| `WeightedFinalRender.Steps` | swaligner_weighted_final.py:136-151 | the per-step lines after k path entries: a match or mismatch column from both sequences at the entry, a gap column over the second sequence, no column for a gap step on column 0, and the error for an index of -1 |
| `WeightedFinalRender.StepsFailIff` | swaligner_weighted_final.py:136-145 | the per-step loop reads a sequence at index -1 exactly when an entry on row or column 0 is classed as a match or mismatch |
| `WeightedFinalRender.StepsColumns` | swaligner_weighted_final.py:136-151 | each step adds one character (or none) to all three lines, so they stay equal in length; a gap column is '-' over a second-sequence symbol; every entry off column 0 adds a column |
| `WeightedFinalRender.StepsCounts` | swaligner_weighted_final.py:136-151 | the indicator holds one '*' per step whose score rises by the match score, one '.' per step whose score falls by it, and one blank per gap column; the gap counter counts the gap columns |
| `WeightedFinalRender.StepsContents` | swaligner_weighted_final.py:136-151 | with no path entry on column 0, column i comes from entry i: the second sequence's symbol left of it below; above it a gap over a blank for a gap step, or the first sequence's symbol above it over `*` for a match and `.` for a mismatch |
| `WeightedFinalRender.AlignSteps` | swaligner_weighted_final.py:126-151 | the per-step loop computes `Steps`, failing exactly where that does |
| `WeightedFinalRender.ReverseAll` | swaligner_weighted_final.py:155-157 | reversal keeps the three lines equal in length and the indicator's alphabet |
| `WeightedFinalRender.Finishes` | swaligner_weighted_final.py:155-236 | what the renderer makes of the per-step lines: reversal, the leading blocks from the path's last entry with counts of bases left starting at len - path length (+ gaps for the first sequence), then the trailing blocks from the path's first entry |
| `WeightedFinalRender.FirstSequenceFlank` | swaligner_weighted_final.py:167-189 | max(row, col) characters go in front of all three lines, blanks in the indicator; the sequence with the larger start index gets its prefix and its count of bases left drops by that index; the other sequence gets that many gaps and keeps its count |
| `WeightedFinalRender.SecondSequenceFlank` | swaligner_weighted_final.py:192-199 | the second sequence's prefix goes in front of the bottom line, as many gaps in front of the top line and blanks in front of the indicator |
| `WeightedFinalRender.LeadingFlank` | swaligner_weighted_final.py:166-199 | the leading blocks fail exactly when the path starts on row 0 and the bottom line or second sequence is empty (reading the first character of an empty string) |
| `WeightedFinalRender.LeadingPrepends` | swaligner_weighted_final.py:166-199 | when they succeed, the leading blocks put the same number of characters, at most the two sequence lengths together, in front of all three lines, blanks in the indicator |
| `WeightedFinalRender.TakePrefix` | swaligner_weighted_final.py:173-176 | the prefix loop collects the first n symbols and lowers the count of bases left by n |
| `WeightedFinalRender.LeadingFlanks` | swaligner_weighted_final.py:166-199 | the two leading blocks compute `LeadingFlank` |
| `WeightedFinalRender.LeadingKeepsShape` | swaligner_weighted_final.py:166-199 | the leading blocks keep the lines equal in length and add only blanks to the indicator |
| `WeightedFinalRender.TrailingPart` | swaligner_weighted_final.py:206-227 | the appended part is trailing symbols of the sequence followed by gaps, and the count equals its length; it is everything from the end cell on when this sequence has the larger count left, and otherwise the symbols from the end cell plus its count on, then gaps up to the larger count; it fails exactly when that start index would be negative |
| `WeightedFinalRender.AppendFrom` | swaligner_weighted_final.py:208-210 | the loop appends the symbols from the start index on and counts them |
| `WeightedFinalRender.AppendTrailing` | swaligner_weighted_final.py:206-227 | one sequence's trailing block computes `TrailingPart` |
| `WeightedFinalRender.TrailingSigns` | swaligner_weighted_final.py:231-236 | one indicator character per compared index, '.' exactly where both characters are non-gap and differ; fails on a negative index or one past the bottom line |
| `WeightedFinalRender.IndicatorLoop` | swaligner_weighted_final.py:231-236 | the final loop computes `TrailingSigns` |
| `WeightedFinalRender.TrailingShape` | swaligner_weighted_final.py:202-236 | after the trailing phase the top line is no longer than the bottom line, which is as long as the indicator; when top and bottom agree in length, each trailing '.' marks differing non-gap characters |
| `WeightedFinalRender.Trailing` | swaligner_weighted_final.py:202-236 | the trailing phase: each sequence's trailing part appended, then one indicator character per column of the longer part, counted back from the end of the top line |
| `WeightedFinalRender.TrailingKeepsSigns` | swaligner_weighted_final.py:231-236 | the trailing phase adds only '.' and blanks to the indicator |
| `WeightedFinalRender.TrailingFlanks` | swaligner_weighted_final.py:202-236 | the trailing blocks and the indicator loop compute `Trailing` |
| `WeightedFinalRender.FinishShape` | swaligner_weighted_final.py:155-236 | from equal-length per-step lines with a '*'/'.'/blank indicator, reversal and the flank blocks give a top line no longer than the bottom line, which is as long as the indicator, still of those characters only |
| `WeightedFinalRender.RenderShape` | swaligner_weighted_final.py:126-236 | a rendered alignment has top no longer than bottom, bottom as long as the indicator, and an indicator of '*', '.' and blanks only |
| `WeightedFinalRender.TracedPathRenders` | swaligner_weighted_final.py:250 | the traceback's path is a valid input for the renderer |
| `WeightedFinalRender.FinishAlignment` | swaligner_weighted_final.py:155-236 | reversal, leading and trailing blocks compute `Finishes`: the leading blocks' error, or the trailing phase of their result |
| `WeightedFinalRender.FinalAlignment` | swaligner_weighted_final.py:121-236 | the renderer fails exactly where the per-step phase `Steps` fails on the path's scores; otherwise its result is what `Finishes` makes of the per-step lines |
| `WeightedFinalRender.AgaAaaAlignment` | swaligner_weighted_final.py:121-236 | for AGA against AAA the path is (3, 2), (2, 1), (1, 1), (0, 0) and the renderer yields `A-A`, `AAAAA-`, `* *   `: a bottom line with more A's than AAA has, a top line shorter than the others |
| `WeightedFinalRender.AcaCgcaAlignment` | swaligner_weighted_final.py:121-236 | for ACA against CGCA the path is (3, 4), (2, 3), (2, 2), (1, 1), (1, 0) and the renderer yields `A-C-A`, `-CGCA`, `  * *`: a `*` under C over G |
| `Weighted.Similarity` | swaligner_weighted.py:44-51 | match score for equal symbols; a transition scores as such only when the first-sequence symbol is A or C; every other unequal pair scores as a transversion |
| `Weighted.SimilarityAsymmetric` | swaligner_weighted.py:44-51 | A against G scores -1.5 but G against A scores -3 with the shipped constants |
| `Weighted.CalcScore` | swaligner_weighted.py:52-55 | a cell is at least 0, at least the diagonal plus similarity and at least each gap move, and equals one of them |
| `Weighted.Cell` | swaligner_weighted.py:27-55 | the reference grid: 0 on row 0 and column 0, every other cell the floored score `calc_score` gives it from its three neighbours |
| `Weighted.CellFloor` | swaligner_weighted.py:27-55 | every cell is at least 0; row 0 and column 0 hold 0 |
| `Weighted.ScanMaxDone` | swaligner_weighted.py:29-38 | after the scan, the running maximum is absent exactly when every cell is 0, and is otherwise the first maximal cell |
| `Weighted.FillCell` | swaligner_weighted.py:33-37 | scoring cell (i, j) stores its reference value and moves the maximum there only on a strictly greater score |
| `Weighted.FillRow` | swaligner_weighted.py:32-37 | filling a row keeps the cells before it filled and the running maximum correct |
| `Weighted.CreateScoreMatrix` | swaligner_weighted.py:19-39 | the grid holds the floored recurrence's values, has a zero boundary and no negative cell; the result is None exactly when every cell is 0, otherwise the first row-major cell holding the positive maximum |
| `Weighted.FirstMax` | swaligner_weighted.py:91 | the first of three candidates, in list order, holding the largest value |
| `Weighted.Pick` | swaligner_weighted.py:84-93 | each step moves to a maximal neighbour, the first in the order (x, y-1), (x-1, y), diagonal |
| `Weighted.TraceFrom` | swaligner_weighted.py:83-94 | the cells the traceback loop visits after the current one: the picked neighbour at each step, until a cell holding 0 |
| `Weighted.Path` | swaligner_weighted.py:79-94 | the start cell followed by the cells the loop visits |
| `Weighted.TraceWellFormed` | swaligner_weighted.py:79-94 | the path starts at the start cell, never leaves the grid, and x+y drops at every step |
| `Weighted.TraceScores` | swaligner_weighted.py:80-94 | the last path cell holds 0, every earlier one is nonzero, and positive in a grid without negative cells |
| `Weighted.FindPath` | swaligner_weighted.py:74-94 | the loop returns the traceback path, well formed, ending at the first zero cell, with every earlier cell positive |

## Left out

- `print_matrix` and the numerical library it uses: display only.
- The path string built with arrows and every `print` call. `FindPath` and
  `FinalAlignment` return the path and the three lines instead. The earlier
  variant's `find_path` has no `return`; `Weighted.FindPath` returns the list
  it builds.
- The `__main__` blocks, the hardcoded sequences and constants, and the
  grid built eagerly at module load: wiring only. They are parameters here.
- Python's wrap-around for negative indices. A read at a negative index is
  the error `NegativeIndex` instead of the character Python would return.
  A read past the end (Python's IndexError) is the error `IndexOutOfRange`.
- The earlier variant's traceback requires a zero boundary (`BoundaryZero`).
  With the built grid it never reads below index 0. On other grids the source
  would wrap around.
- The renderer requires a non-empty path whose cells lie in the grid
  (`PathInGrid`). `TracedPathRenders` shows that the traceback's path meets
  this.
- Weighted: scores are exact `real` values, not floating point. The only
  fractional constant, -1.5, is exact in binary floating point too.
