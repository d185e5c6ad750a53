/** The final aligner variant: integer scores, symmetric transitions, no floor
    at zero, and a traceback that prefers the diagonal whenever the current
    value minus the match score equals it. */
module WeightedFinal {
  import opened Grid
  import opened Nucleotides

  /** The four scoring constants (module-level globals in the source). */
  datatype Scoring = Scoring(matchScore: int, transit: int, transver: int, gap: int)

  /** The constants the source ships with. */
  const SourceScoring := Scoring(4, -2, -4, -2)

  // ---------------------------------------------------------------------------
  // Substitution scorer
  // ---------------------------------------------------------------------------

  /** The similarity of symbol a of the first sequence and symbol b of the second. */
  function Similarity(sc: Scoring, a: char, b: char): (r: int)
    ensures a == b ==> r == sc.matchScore
    ensures IsTransition(a, b) ==> r == sc.transit
    ensures a != b && !IsTransition(a, b) ==> r == sc.transver
  {
    if a == b then sc.matchScore
    else if (a == 'A' && b == 'G') || (a == 'G' && b == 'A') then sc.transit
    else if (a == 'C' && b == 'T') || (a == 'T' && b == 'C') then sc.transit
    else sc.transver
  }

  /** The similarity does not depend on which sequence a symbol comes from. */
  lemma SimilaritySymmetric(sc: Scoring, a: char, b: char)
    ensures Similarity(sc, a, b) == Similarity(sc, b, a)
  {
  }

  function Max3(a: int, b: int, c: int): (r: int)
    ensures r >= a && r >= b && r >= c
    ensures r == a || r == b || r == c
  {
    if a >= b && a >= c then a else if b >= c then b else c
  }

  /** The value of a cell from its diagonal, upper (x-1, y) and left (x, y-1)
      neighbours: the best of a substitution and the two linear gaps, with no
      floor at zero. */
  function CalcScore(sc: Scoring, a: char, b: char, diag: int, up: int, left: int): (r: int)
    ensures r >= diag + Similarity(sc, a, b) && r >= up + sc.gap && r >= left + sc.gap
    ensures r == diag + Similarity(sc, a, b) || r == up + sc.gap || r == left + sc.gap
  {
    Max3(diag + Similarity(sc, a, b), up + sc.gap, left + sc.gap)
  }

  /** The reference definition of the score grid: row 0 and column 0 hold 0 and
      every other cell follows the recurrence of CalcScore. */
  function Cell(sc: Scoring, s1: string, s2: string, i: nat, j: nat): int
    requires i <= |s1| && j <= |s2|
    decreases i + j
  {
    if i == 0 || j == 0 then 0
    else CalcScore(sc, s1[i - 1], s2[j - 1],
                   Cell(sc, s1, s2, i - 1, j - 1), Cell(sc, s1, s2, i - 1, j), Cell(sc, s1, s2, i, j - 1))
  }

  /** Cells may be negative: a lone transversion scores the gap penalty. */
  lemma CellsMayBeNegative()
    ensures Cell(SourceScoring, "A", "C", 1, 1) == -2
  {
  }

  /** Without a floor, a cell is never below one gap per step to the nearer boundary. */
  lemma {:induction false} CellLowerBound(sc: Scoring, s1: string, s2: string, i: nat, j: nat)
    requires i <= |s1| && j <= |s2|
    ensures Cell(sc, s1, s2, i, j) >= Min(i, j) * sc.gap
    decreases i + j
  {
    if i > 0 && j > 0 {
      var diag, up, left := Cell(sc, s1, s2, i - 1, j - 1), Cell(sc, s1, s2, i - 1, j), Cell(sc, s1, s2, i, j - 1);
      assert Cell(sc, s1, s2, i, j) == CalcScore(sc, s1[i - 1], s2[j - 1], diag, up, left);
      if i <= j {
        CellLowerBound(sc, s1, s2, i - 1, j);
        assert up >= (i - 1) * sc.gap;
        MulPred(i, sc.gap);
      } else {
        CellLowerBound(sc, s1, s2, i, j - 1);
        assert left >= (j - 1) * sc.gap;
        MulPred(j, sc.gap);
      }
    }
  }

  /** When a match is the best substitution and gaps cost, a cell never exceeds
      one match per symbol of the shorter prefix. */
  lemma {:induction false} CellUpperBound(sc: Scoring, s1: string, s2: string, i: nat, j: nat)
    requires 0 <= sc.matchScore && sc.transit <= sc.matchScore && sc.transver <= sc.matchScore
    requires sc.gap <= 0
    requires i <= |s1| && j <= |s2|
    ensures Cell(sc, s1, s2, i, j) <= Min(i, j) * sc.matchScore
    decreases i + j
  {
    if i > 0 && j > 0 {
      CellUpperBound(sc, s1, s2, i - 1, j - 1);
      CellUpperBound(sc, s1, s2, i - 1, j);
      CellUpperBound(sc, s1, s2, i, j - 1);
      var k := Min(i, j);
      MulMonotone(Min(i - 1, j), k, sc.matchScore);
      MulMonotone(Min(i, j - 1), k, sc.matchScore);
      assert Min(i - 1, j - 1) == k - 1;
      UpperStep(sc, s1[i - 1], s2[j - 1],
                Cell(sc, s1, s2, i - 1, j - 1), Cell(sc, s1, s2, i - 1, j), Cell(sc, s1, s2, i, j - 1), k);
    }
  }

  /** One step of CellUpperBound, on plain values. */
  lemma UpperStep(sc: Scoring, a: char, b: char, diag: int, up: int, left: int, k: int)
    requires sc.transit <= sc.matchScore && sc.transver <= sc.matchScore && sc.gap <= 0
    requires diag <= (k - 1) * sc.matchScore && up <= k * sc.matchScore && left <= k * sc.matchScore
    ensures CalcScore(sc, a, b, diag, up, left) <= k * sc.matchScore
  {
    SimilarityAtMostMatch(sc, a, b);
    MulPred(k, sc.matchScore);
  }

  lemma SimilarityAtMostMatch(sc: Scoring, a: char, b: char)
    requires sc.transit <= sc.matchScore && sc.transver <= sc.matchScore
    ensures Similarity(sc, a, b) <= sc.matchScore
  {
  }

  lemma MulPred(k: int, c: int)
    ensures (k - 1) * c + c == k * c
  {
  }

  lemma MulMonotone(a: int, b: int, c: int)
    requires a <= b && 0 <= c
    ensures a * c <= b * c
  {
  }

  /** Swapping the symbols together with the up and left neighbours leaves the
      cell value unchanged. */
  lemma CalcScoreSwap(sc: Scoring, a: char, b: char, diag: int, up: int, left: int)
    ensures CalcScore(sc, a, b, diag, up, left) == CalcScore(sc, b, a, diag, left, up)
  {
    SimilaritySymmetric(sc, a, b);
  }

  /** Because the transition score is symmetric, swapping the two sequences
      transposes the score grid. */
  lemma {:induction false} CellTranspose(sc: Scoring, s1: string, s2: string, i: nat, j: nat)
    requires i <= |s1| && j <= |s2|
    ensures Cell(sc, s1, s2, i, j) == Cell(sc, s2, s1, j, i)
    decreases i + j
  {
    if i > 0 && j > 0 {
      var diag, up, left := Cell(sc, s1, s2, i - 1, j - 1), Cell(sc, s1, s2, i - 1, j), Cell(sc, s1, s2, i, j - 1);
      CellTranspose(sc, s1, s2, i - 1, j - 1);
      CellTranspose(sc, s1, s2, i - 1, j);
      CellTranspose(sc, s1, s2, i, j - 1);
      CellUnfold(sc, s2, s1, j, i);
      CalcScoreSwap(sc, s1[i - 1], s2[j - 1], diag, up, left);
    }
  }

  /** One unfolding of Cell at an interior cell. */
  lemma CellUnfold(sc: Scoring, s1: string, s2: string, i: nat, j: nat)
    requires 1 <= i <= |s1| && 1 <= j <= |s2|
    ensures Cell(sc, s1, s2, i, j)
         == CalcScore(sc, s1[i - 1], s2[j - 1], Cell(sc, s1, s2, i - 1, j - 1), Cell(sc, s1, s2, i - 1, j), Cell(sc, s1, s2, i, j - 1))
  {
  }

  // ---------------------------------------------------------------------------
  // Matrix builder
  // ---------------------------------------------------------------------------

  /** Cell addressed by a position. Quantifiers over the grid are stated with
      this form so that unfolding Cell does not instantiate them again. */
  function CellAt(sc: Scoring, s1: string, s2: string, p: Pos): int
    requires 0 <= p.0 <= |s1| && 0 <= p.1 <= |s2|
  {
    Cell(sc, s1, s2, p.0, p.1)
  }

  /** An interior cell computed from the reference values of its neighbours is
      the reference value of the cell. */
  lemma CellFromNeighbours(sc: Scoring, s1: string, s2: string, i: nat, j: nat, diag: int, up: int, left: int)
    requires 1 <= i <= |s1| && 1 <= j <= |s2|
    requires diag == CellAt(sc, s1, s2, (i - 1, j - 1))
    requires up == CellAt(sc, s1, s2, (i - 1, j)) && left == CellAt(sc, s1, s2, (i, j - 1))
    ensures CalcScore(sc, s1[i - 1], s2[j - 1], diag, up, left) == CellAt(sc, s1, s2, (i, j))
  {
  }

  /** The state of the builder's running maximum once every cell before `lim`
      was scanned: it starts at 0 and moves only to a strictly greater cell. */
  ghost predicate ScanMax(sc: Scoring, s1: string, s2: string, lim: Pos, maxScore: int, maxPos: Option<Pos>) {
    && maxScore >= 0
    && (forall a, b :: 0 <= a <= |s1| && 0 <= b <= |s2| && Before((a, b), lim) ==> CellAt(sc, s1, s2, (a, b)) <= maxScore)
    && (maxPos.None? ==> maxScore == 0)
    && (maxPos.Some? ==>
          && 0 <= maxPos.value.0 <= |s1| && 0 <= maxPos.value.1 <= |s2| && Before(maxPos.value, lim)
          && CellAt(sc, s1, s2, maxPos.value) == maxScore && maxScore > 0
          && (forall a, b :: 0 <= a <= |s1| && 0 <= b <= |s2| && Before((a, b), maxPos.value) ==>
                CellAt(sc, s1, s2, (a, b)) < maxScore))
  }

  /** Scanning cell (i, j) keeps ScanMax: the maximum moves to (i, j) exactly
      when its value is strictly greater. */
  lemma ScanMaxStep(sc: Scoring, s1: string, s2: string, i: nat, j: nat, maxScore: int, maxPos: Option<Pos>)
    requires i <= |s1| && j <= |s2|
    requires ScanMax(sc, s1, s2, (i, j), maxScore, maxPos)
    ensures var score := CellAt(sc, s1, s2, (i, j));
            if score > maxScore then ScanMax(sc, s1, s2, (i, j + 1), score, Some((i, j)))
            else ScanMax(sc, s1, s2, (i, j + 1), maxScore, maxPos)
  {
    var score := CellAt(sc, s1, s2, (i, j));
    if score <= maxScore {
      forall a, b | 0 <= a <= |s1| && 0 <= b <= |s2| && Before((a, b), (i, j + 1))
        ensures CellAt(sc, s1, s2, (a, b)) <= maxScore
      {
        if a == i && b == j {
        } else {
          assert Before((a, b), (i, j));
        }
      }
    }
  }

  /** p is the first grid cell in row-major order holding the grid's maximum,
      and that maximum is positive. */
  ghost predicate IsFirstMax(sc: Scoring, s1: string, s2: string, p: Pos) {
    && 0 <= p.0 <= |s1| && 0 <= p.1 <= |s2|
    && CellAt(sc, s1, s2, p) > 0
    && (forall a, b :: 0 <= a <= |s1| && 0 <= b <= |s2| ==> CellAt(sc, s1, s2, (a, b)) <= CellAt(sc, s1, s2, p))
    && (forall a, b :: 0 <= a <= |s1| && 0 <= b <= |s2| && Before((a, b), p) ==> CellAt(sc, s1, s2, (a, b)) < CellAt(sc, s1, s2, p))
  }

  /** After the whole grid was scanned, the running maximum is either absent,
      and then no cell is positive, or the first maximal cell. */
  lemma ScanMaxDone(sc: Scoring, s1: string, s2: string, maxScore: int, maxPos: Option<Pos>)
    requires ScanMax(sc, s1, s2, (|s1| + 1, 0), maxScore, maxPos)
    ensures maxPos.None? <==> forall a, b :: 0 <= a <= |s1| && 0 <= b <= |s2| ==> CellAt(sc, s1, s2, (a, b)) <= 0
    ensures maxPos.Some? ==> IsFirstMax(sc, s1, s2, maxPos.value)
  {
    assert forall a, b :: 0 <= a <= |s1| && 0 <= b <= |s2| ==> Before((a, b), (|s1| + 1, 0));
  }

  /** Moving the scan limit over cells that are not in the grid changes nothing. */
  lemma ScanMaxNextRow(sc: Scoring, s1: string, s2: string, i: nat, j: nat, maxScore: int, maxPos: Option<Pos>)
    requires j == |s2| + 1
    requires ScanMax(sc, s1, s2, (i, j), maxScore, maxPos)
    ensures ScanMax(sc, s1, s2, (i + 1, 0), maxScore, maxPos)
  {
    assert forall a, b :: 0 <= a <= |s1| && 0 <= b <= |s2| ==> (Before((a, b), (i + 1, 0)) <==> Before((a, b), (i, |s2| + 1)));
  }

  /** Cells before `lim` in row-major order hold their reference value; later cells still hold 0. */
  ghost predicate FilledUpTo(sc: Scoring, s1: string, s2: string, m: array2<int>, lim: Pos)
    reads m
    requires m.Length0 == |s1| + 1 && m.Length1 == |s2| + 1
  {
    forall a, b {:trigger m[a, b]} :: 0 <= a < m.Length0 && 0 <= b < m.Length1 ==>
      m[a, b] == if Before((a, b), lim) then CellAt(sc, s1, s2, (a, b)) else 0
  }

  /** Fills the (|s1|+1) x (|s2|+1) grid row by row and keeps the first cell
      that strictly exceeds the running maximum. None stands for the source's
      failed assertion: no cell is positive. */
  method CreateScoreMatrix(sc: Scoring, s1: string, s2: string) returns (m: array2<int>, maxPos: Option<Pos>)
    ensures fresh(m)
    ensures m.Length0 == |s1| + 1 && m.Length1 == |s2| + 1
    ensures forall i, j {:trigger m[i, j]} :: 0 <= i < m.Length0 && 0 <= j < m.Length1 ==> m[i, j] == Cell(sc, s1, s2, i, j)
    ensures maxPos.None? <==> forall i, j :: 0 <= i <= |s1| && 0 <= j <= |s2| ==> CellAt(sc, s1, s2, (i, j)) <= 0
    ensures maxPos.Some? ==> IsFirstMax(sc, s1, s2, maxPos.value)
  {
    m := new int[|s1| + 1, |s2| + 1]((_, _) => 0);
    var maxScore := 0;
    maxPos := None;
    var i := 1;
    while i < m.Length0
      invariant 1 <= i <= m.Length0
      invariant FilledUpTo(sc, s1, s2, m, (i, 0))
      invariant ScanMax(sc, s1, s2, (i, 0), maxScore, maxPos)
    {
      maxScore, maxPos := FillRow(sc, s1, s2, m, i, maxScore, maxPos);
      i := i + 1;
    }
    ScanMaxDone(sc, s1, s2, maxScore, maxPos);
  }

  /** The inner loop of CreateScoreMatrix: fills row i from column 1 on and
      updates the running maximum on every strictly greater score. */
  method FillRow(sc: Scoring, s1: string, s2: string, m: array2<int>, i: int, maxScore0: int, maxPos0: Option<Pos>)
      returns (maxScore: int, maxPos: Option<Pos>)
    requires m.Length0 == |s1| + 1 && m.Length1 == |s2| + 1 && 1 <= i <= |s1|
    requires FilledUpTo(sc, s1, s2, m, (i, 0))
    requires ScanMax(sc, s1, s2, (i, 0), maxScore0, maxPos0)
    modifies m
    ensures FilledUpTo(sc, s1, s2, m, (i + 1, 0))
    ensures ScanMax(sc, s1, s2, (i + 1, 0), maxScore, maxPos)
  {
    maxScore, maxPos := maxScore0, maxPos0;
    ScanMaxStep(sc, s1, s2, i, 0, maxScore, maxPos);
    var j := 1;
    while j < m.Length1
      invariant 1 <= j <= m.Length1
      invariant FilledUpTo(sc, s1, s2, m, (i, j))
      invariant ScanMax(sc, s1, s2, (i, j), maxScore, maxPos)
    {
      maxScore, maxPos := FillCell(sc, s1, s2, m, i, j, maxScore, maxPos);
      j := j + 1;
    }
    ScanMaxNextRow(sc, s1, s2, i, j, maxScore, maxPos);
  }

  /** One pass of the inner loop: score cell (i, j) from its neighbours, move
      the running maximum there when the score is strictly greater, and store
      the score. */
  method FillCell(sc: Scoring, s1: string, s2: string, m: array2<int>, i: int, j: int, maxScore0: int, maxPos0: Option<Pos>)
      returns (maxScore: int, maxPos: Option<Pos>)
    requires m.Length0 == |s1| + 1 && m.Length1 == |s2| + 1 && 1 <= i <= |s1| && 1 <= j <= |s2|
    requires FilledUpTo(sc, s1, s2, m, (i, j))
    requires ScanMax(sc, s1, s2, (i, j), maxScore0, maxPos0)
    modifies m
    ensures FilledUpTo(sc, s1, s2, m, (i, j + 1))
    ensures ScanMax(sc, s1, s2, (i, j + 1), maxScore, maxPos)
  {
    maxScore, maxPos := maxScore0, maxPos0;
    assert Before((i - 1, j - 1), (i, j)) && Before((i - 1, j), (i, j)) && Before((i, j - 1), (i, j));
    CellFromNeighbours(sc, s1, s2, i, j, m[i - 1, j - 1], m[i - 1, j], m[i, j - 1]);
    var score := CalcScore(sc, s1[i - 1], s2[j - 1], m[i - 1, j - 1], m[i - 1, j], m[i, j - 1]);
    ScanMaxStep(sc, s1, s2, i, j, maxScore, maxPos);
    if score > maxScore {
      maxScore := score;
      maxPos := Some((i, j));
    }
    m[i, j] := score;
  }

  // ---------------------------------------------------------------------------
  // Traceback
  // ---------------------------------------------------------------------------

  /** The first of three distinct cells, in the given order, holding their
      largest value (what a maximum with a key returns). */
  function FirstMax(m: array2<int>, p: Pos, q: Pos, r: Pos): (t: Pos)
    reads m
    requires InBounds(m, p) && InBounds(m, q) && InBounds(m, r)
    requires p != q && q != r && p != r
    ensures t == p || t == q || t == r
    ensures At(m, t) >= At(m, p) && At(m, t) >= At(m, q) && At(m, t) >= At(m, r)
    ensures t == q ==> At(m, p) < At(m, q)
    ensures t == r ==> At(m, p) < At(m, r) && At(m, q) < At(m, r)
  {
    var best := if At(m, q) > At(m, p) then q else p;
    if At(m, r) > At(m, best) then r else best
  }

  /** The predecessor taken on a non-diagonal traceback step from (x, y): the
      first maximal candidate in the order diagonal, (x, y-1), (x-1, y), except
      that the order is (x, y-1), diagonal, (x-1, y) when the diagonal is (0, 0). */
  function Pick(m: array2<int>, x: int, y: int): (p: Pos)
    reads m
    requires 1 <= x < m.Length0 && 1 <= y < m.Length1
    ensures IsStep((x, y), p) && InBounds(m, p)
    ensures At(m, p) >= m[x - 1, y - 1] && At(m, p) >= m[x, y - 1] && At(m, p) >= m[x - 1, y]
    ensures p == (x - 1, y) ==> m[x - 1, y - 1] < At(m, p) && m[x, y - 1] < At(m, p)
    ensures p == (x, y - 1) && (x, y) != (1, 1) ==> m[x - 1, y - 1] < At(m, p)
    ensures p == (x - 1, y - 1) && (x, y) == (1, 1) ==> m[x, y - 1] < At(m, p)
  {
    if x - 1 == 0 && y - 1 == 0 then FirstMax(m, (x, y - 1), (x - 1, y - 1), (x - 1, y))
    else FirstMax(m, (x - 1, y - 1), (x, y - 1), (x - 1, y))
  }

  /** The cells the traceback appends after reaching (x, y) with remembered
      score `cur`. The walk stops when `cur` is 0 or a coordinate is 0; it steps
      to the diagonal whenever cur - match equals the diagonal value, and then
      keeps `cur` unchanged; otherwise it steps to Pick and remembers that
      cell's value. */
  function TraceFrom(m: array2<int>, matchScore: int, x: int, y: int, cur: int): seq<Pos>
    reads m
    requires InBounds(m, (x, y))
    decreases x + y
  {
    if cur == 0 || x == 0 || y == 0 then []
    else if cur - matchScore == m[x - 1, y - 1] then
      [(x - 1, y - 1)] + TraceFrom(m, matchScore, x - 1, y - 1, cur)
    else
      var p := Pick(m, x, y);
      [p] + TraceFrom(m, matchScore, p.0, p.1, At(m, p))
  }

  /** The traceback path from `start`, start first. */
  function Path(m: array2<int>, matchScore: int, start: Pos): seq<Pos>
    reads m
    requires InBounds(m, start)
  {
    [start] + TraceFrom(m, matchScore, start.0, start.1, At(m, start))
  }

  /** Every traceback path starts at its start cell, stays inside the grid, moves
      by diagonal, (x, y-1) or (x-1, y) steps, and so ends after at most
      x + y steps. */
  lemma {:induction false} TraceWellFormed(m: array2<int>, matchScore: int, x: int, y: int, cur: int)
    requires InBounds(m, (x, y))
    ensures WellFormedPath(m, (x, y), [(x, y)] + TraceFrom(m, matchScore, x, y, cur))
    decreases x + y
  {
    if cur == 0 || x == 0 || y == 0 {
    } else if cur - matchScore == m[x - 1, y - 1] {
      TraceWellFormed(m, matchScore, x - 1, y - 1, cur);
      ConsStep(m, (x, y), (x - 1, y - 1), [(x - 1, y - 1)] + TraceFrom(m, matchScore, x - 1, y - 1, cur));
    } else {
      var p := Pick(m, x, y);
      TraceWellFormed(m, matchScore, p.0, p.1, At(m, p));
      ConsStep(m, (x, y), p, [p] + TraceFrom(m, matchScore, p.0, p.1, At(m, p)));
    }
  }

  /** The last cell of the path lies on row 0 or column 0 or holds 0. */
  ghost predicate EndsAtZeroOrBoundary(m: array2<int>, path: seq<Pos>)
    reads m
  {
    && |path| >= 1
    && var last := path[|path| - 1];
       InBounds(m, last) && (last.0 == 0 || last.1 == 0 || At(m, last) == 0)
  }

  /** The traceback ends on row 0, on column 0, or on a cell holding 0. (It may
      stop on the boundary at a nonzero cell: the source does not flag that.) */
  lemma {:induction false} TraceEnd(m: array2<int>, matchScore: int, x: int, y: int, cur: int)
    requires InBounds(m, (x, y))
    requires cur == 0 ==> m[x, y] == 0
    ensures EndsAtZeroOrBoundary(m, [(x, y)] + TraceFrom(m, matchScore, x, y, cur))
    decreases x + y
  {
    if cur == 0 || x == 0 || y == 0 {
    } else if cur - matchScore == m[x - 1, y - 1] {
      TraceEnd(m, matchScore, x - 1, y - 1, cur);
      assert [(x, y)] + TraceFrom(m, matchScore, x, y, cur)
          == [(x, y)] + ([(x - 1, y - 1)] + TraceFrom(m, matchScore, x - 1, y - 1, cur));
    } else {
      var p := Pick(m, x, y);
      TraceEnd(m, matchScore, p.0, p.1, At(m, p));
      assert [(x, y)] + TraceFrom(m, matchScore, x, y, cur)
          == [(x, y)] + ([p] + TraceFrom(m, matchScore, p.0, p.1, At(m, p)));
    }
  }

  /** Because the remembered score is not refreshed after a diagonal step, a
      diagonal step into an interior cell holding 0 does not end the walk: the
      traceback goes past the first zero cell it reaches. */
  lemma TracePassesDiagonalZero(m: array2<int>, matchScore: int, x: int, y: int)
    requires InBounds(m, (x, y)) && x >= 2 && y >= 2
    requires matchScore != 0 && m[x - 1, y - 1] == 0
    ensures |TraceFrom(m, matchScore, x, y, matchScore)| >= 2
  {
  }

  // ---------------------------------------------------------------------------
  // Worked examples (shipped constants)
  // ---------------------------------------------------------------------------

  /** Entry (i, j) of the table `g` is what the builder's recurrence makes of
      its neighbours: 0 on row 0 and column 0. */
  predicate RecurrenceAt(sc: Scoring, s1: string, s2: string, g: seq<seq<int>>, i: nat, j: nat)
    requires i < |g| && i <= |s1| && j <= |s2| && forall k :: 0 <= k < |g| ==> |g[k]| == |s2| + 1
  {
    g[i][j] == if i == 0 || j == 0 then 0
               else CalcScore(sc, s1[i - 1], s2[j - 1], g[i - 1][j - 1], g[i - 1][j], g[i][j - 1])
  }

  /** `g`, given row by row, is a (|s1|+1) x (|s2|+1) table that meets the
      builder's recurrence everywhere. */
  ghost predicate MeetsRecurrence(sc: Scoring, s1: string, s2: string, g: seq<seq<int>>) {
    && |g| == |s1| + 1
    && (forall k :: 0 <= k < |g| ==> |g[k]| == |s2| + 1)
    && forall i, j :: 0 <= i <= |s1| && 0 <= j <= |s2| ==> RecurrenceAt(sc, s1, s2, g, i, j)
  }

  /** A boundary entry of a table that meets the recurrence holds its grid value. */
  lemma TableEdge(sc: Scoring, s1: string, s2: string, g: seq<seq<int>>, i: nat, j: nat)
    requires MeetsRecurrence(sc, s1, s2, g)
    requires i <= |s1| && j <= |s2| && (i == 0 || j == 0)
    ensures Cell(sc, s1, s2, i, j) == g[i][j]
  {
    assert RecurrenceAt(sc, s1, s2, g, i, j);
  }

  /** An interior entry of a table that meets the recurrence, over neighbours
      holding their grid values, holds its grid value. */
  lemma TableStep(sc: Scoring, s1: string, s2: string, g: seq<seq<int>>, i: nat, j: nat)
    requires MeetsRecurrence(sc, s1, s2, g)
    requires 1 <= i <= |s1| && 1 <= j <= |s2|
    requires Cell(sc, s1, s2, i - 1, j - 1) == g[i - 1][j - 1] && Cell(sc, s1, s2, i - 1, j) == g[i - 1][j]
    requires Cell(sc, s1, s2, i, j - 1) == g[i][j - 1]
    ensures Cell(sc, s1, s2, i, j) == g[i][j]
  {
    assert RecurrenceAt(sc, s1, s2, g, i, j);
    CellUnfold(sc, s1, s2, i, j);
  }

  /** A table that meets the recurrence is the grid: the recurrence has only
      one solution. The loop runs over the anti-diagonals i + j = n. */
  lemma TableIsGrid(sc: Scoring, s1: string, s2: string, g: seq<seq<int>>)
    requires MeetsRecurrence(sc, s1, s2, g)
    ensures forall i, j :: 0 <= i <= |s1| && 0 <= j <= |s2| ==> CellAt(sc, s1, s2, (i, j)) == g[i][j]
  {
    for n := 0 to |s1| + |s2| + 1
      invariant forall i, j :: 0 <= i <= |s1| && 0 <= j <= |s2| && i + j < n ==> CellAt(sc, s1, s2, (i, j)) == g[i][j]
    {
      forall i, j | 0 <= i <= |s1| && 0 <= j <= |s2| && i + j == n
        ensures CellAt(sc, s1, s2, (i, j)) == g[i][j]
      {
        if i == 0 || j == 0 {
          TableEdge(sc, s1, s2, g, i, j);
        } else {
          assert CellAt(sc, s1, s2, (i - 1, j - 1)) == g[i - 1][j - 1];
          assert CellAt(sc, s1, s2, (i - 1, j)) == g[i - 1][j];
          assert CellAt(sc, s1, s2, (i, j - 1)) == g[i][j - 1];
          TableStep(sc, s1, s2, g, i, j);
        }
      }
    }
  }

  /** The first positive maximum of a table that meets the recurrence is the
      grid's first maximal cell. */
  lemma TableFirstMax(sc: Scoring, s1: string, s2: string, g: seq<seq<int>>, p: Pos)
    requires MeetsRecurrence(sc, s1, s2, g)
    requires 0 <= p.0 <= |s1| && 0 <= p.1 <= |s2| && g[p.0][p.1] > 0
    requires forall a, b :: 0 <= a <= |s1| && 0 <= b <= |s2| ==>
               g[a][b] <= g[p.0][p.1] && (Before((a, b), p) ==> g[a][b] < g[p.0][p.1])
    ensures IsFirstMax(sc, s1, s2, p)
  {
    TableIsGrid(sc, s1, s2, g);
  }

  /** The grid of AGA against AAA, row by row. */
  const AgaAaa: seq<seq<int>> := [[0, 0, 0, 0], [0, 4, 4, 4], [0, 2, 2, 2], [0, 4, 6, 6]]

  lemma AgaAaaRecurrence()
    ensures MeetsRecurrence(SourceScoring, "AGA", "AAA", AgaAaa)
  {
    forall i, j | 0 <= i <= 3 && 0 <= j <= 3
      ensures RecurrenceAt(SourceScoring, "AGA", "AAA", AgaAaa, i, j)
    {
      assert i == 0 || i == 1 || i == 2 || i == 3;
      assert j == 0 || j == 1 || j == 2 || j == 3;
    }
  }

  /** The builder's grid for AGA against AAA is `AgaAaa`. */
  lemma AgaAaaGrid(m: array2<int>)
    requires m.Length0 == 4 && m.Length1 == 4
    requires forall i, j :: 0 <= i < 4 && 0 <= j < 4 ==> m[i, j] == Cell(SourceScoring, "AGA", "AAA", i, j)
    ensures forall i, j :: 0 <= i < 4 && 0 <= j < 4 ==> m[i, j] == AgaAaa[i][j]
  {
    AgaAaaRecurrence();
    TableIsGrid(SourceScoring, "AGA", "AAA", AgaAaa);
    forall i, j | 0 <= i < 4 && 0 <= j < 4
      ensures m[i, j] == AgaAaa[i][j]
    {
      assert CellAt(SourceScoring, "AGA", "AAA", (i, j)) == AgaAaa[i][j];
    }
  }

  /** The first maximal cell of AGA against AAA is (3, 2), so the builder
      returns it. */
  lemma AgaAaaFirstMax()
    ensures IsFirstMax(SourceScoring, "AGA", "AAA", (3, 2))
  {
    AgaAaaRecurrence();
    forall a, b | 0 <= a <= 3 && 0 <= b <= 3
      ensures AgaAaa[a][b] <= AgaAaa[3][2] && (Before((a, b), (3, 2)) ==> AgaAaa[a][b] < AgaAaa[3][2])
    {
      assert a == 0 || a == 1 || a == 2 || a == 3;
      assert b == 0 || b == 1 || b == 2 || b == 3;
    }
    TableFirstMax(SourceScoring, "AGA", "AAA", AgaAaa, (3, 2));
  }

  /** On that grid the traceback from (3, 2) steps diagonally to (2, 1), moves
      left to (1, 1) (the remembered score 6 is not that of (2, 1)), and steps
      diagonally to (0, 0). */
  lemma AgaAaaPath(m: array2<int>)
    requires m.Length0 == 4 && m.Length1 == 4
    requires forall i, j :: 0 <= i < 4 && 0 <= j < 4 ==> m[i, j] == AgaAaa[i][j]
    ensures Path(m, SourceScoring.matchScore, (3, 2)) == [(3, 2), (2, 1), (1, 1), (0, 0)]
  {
    assert m[3, 2] == 6 && m[2, 1] == 2 && m[1, 1] == 4 && m[0, 0] == 0 && m[1, 0] == 0 && m[2, 0] == 0;
    assert Pick(m, 2, 1) == (1, 1);
    assert TraceFrom(m, 4, 1, 1, 4) == [(0, 0)];
    assert TraceFrom(m, 4, 2, 1, 6) == [(1, 1), (0, 0)];
  }

  /** The grid of ACA against CGCA, row by row. */
  const AcaCgca: seq<seq<int>> := [[0, 0, 0, 0, 0], [0, -2, -2, -2, 4], [0, 4, 2, 2, 2], [0, 2, 2, 0, 6]]

  lemma AcaCgcaRecurrence()
    ensures MeetsRecurrence(SourceScoring, "ACA", "CGCA", AcaCgca)
  {
    forall i, j | 0 <= i <= 3 && 0 <= j <= 4
      ensures RecurrenceAt(SourceScoring, "ACA", "CGCA", AcaCgca, i, j)
    {
      assert i == 0 || i == 1 || i == 2 || i == 3;
      assert j == 0 || j == 1 || j == 2 || j == 3 || j == 4;
    }
  }

  /** The builder's grid for ACA against CGCA is `AcaCgca`. */
  lemma AcaCgcaGrid(m: array2<int>)
    requires m.Length0 == 4 && m.Length1 == 5
    requires forall i, j :: 0 <= i < 4 && 0 <= j < 5 ==> m[i, j] == Cell(SourceScoring, "ACA", "CGCA", i, j)
    ensures forall i, j :: 0 <= i < 4 && 0 <= j < 5 ==> m[i, j] == AcaCgca[i][j]
  {
    AcaCgcaRecurrence();
    TableIsGrid(SourceScoring, "ACA", "CGCA", AcaCgca);
    forall i, j | 0 <= i < 4 && 0 <= j < 5
      ensures m[i, j] == AcaCgca[i][j]
    {
      assert CellAt(SourceScoring, "ACA", "CGCA", (i, j)) == AcaCgca[i][j];
    }
  }

  /** The first maximal cell of ACA against CGCA is (3, 4), so the builder
      returns it. */
  lemma AcaCgcaFirstMax()
    ensures IsFirstMax(SourceScoring, "ACA", "CGCA", (3, 4))
  {
    AcaCgcaRecurrence();
    forall a, b | 0 <= a <= 3 && 0 <= b <= 4
      ensures AcaCgca[a][b] <= AcaCgca[3][4] && (Before((a, b), (3, 4)) ==> AcaCgca[a][b] < AcaCgca[3][4])
    {
      assert a == 0 || a == 1 || a == 2 || a == 3;
      assert b == 0 || b == 1 || b == 2 || b == 3 || b == 4;
    }
    TableFirstMax(SourceScoring, "ACA", "CGCA", AcaCgca, (3, 4));
  }

  /** On that grid the traceback from (3, 4) steps diagonally to (2, 3), moves
      left to (2, 2), steps diagonally to (1, 1) and moves up to (1, 0), where
      the remembered score is 0. */
  lemma AcaCgcaPath(m: array2<int>)
    requires m.Length0 == 4 && m.Length1 == 5
    requires forall i, j :: 0 <= i < 4 && 0 <= j < 5 ==> m[i, j] == AcaCgca[i][j]
    ensures Path(m, SourceScoring.matchScore, (3, 4)) == [(3, 4), (2, 3), (2, 2), (1, 1), (1, 0)]
  {
    assert m[3, 4] == 6 && m[2, 3] == 2 && m[2, 2] == 2 && m[1, 1] == -2 && m[1, 0] == 0;
    assert m[1, 2] == -2 && m[1, 3] == -2 && m[0, 0] == 0 && m[0, 1] == 0;
    assert Pick(m, 2, 3) == (2, 2);
    assert Pick(m, 1, 1) == (1, 0);
    assert TraceFrom(m, 4, 1, 1, 2) == [(1, 0)];
    assert TraceFrom(m, 4, 2, 2, 2) == [(1, 1), (1, 0)];
    assert TraceFrom(m, 4, 2, 3, 6) == [(2, 2), (1, 1), (1, 0)];
  }

  /** The traceback loop: walks back from `start` and returns every cell it
      visited, `start` first. */
  method FindPath(m: array2<int>, matchScore: int, start: Pos) returns (loc: seq<Pos>)
    requires InBounds(m, start)
    ensures loc == Path(m, matchScore, start)
    ensures WellFormedPath(m, start, loc)
    ensures EndsAtZeroOrBoundary(m, loc)
  {
    var x, y := start.0, start.1;
    var curPoint := m[x, y];
    loc := [(x, y)];
    while curPoint != 0
      invariant InBounds(m, (x, y))
      invariant loc + TraceFrom(m, matchScore, x, y, curPoint) == Path(m, matchScore, start)
      decreases x + y
    {
      if x - 1 >= 0 && y - 1 >= 0 {
        if curPoint - matchScore == m[x - 1, y - 1] {
          ghost var rest := TraceFrom(m, matchScore, x - 1, y - 1, curPoint);
          assert TraceFrom(m, matchScore, x, y, curPoint) == [(x - 1, y - 1)] + rest;
          assert loc + ([(x - 1, y - 1)] + rest) == (loc + [(x - 1, y - 1)]) + rest;
          loc := loc + [(x - 1, y - 1)];
          x, y := x - 1, y - 1;
        } else {
          var target := Pick(m, x, y);
          ghost var rest := TraceFrom(m, matchScore, target.0, target.1, At(m, target));
          assert TraceFrom(m, matchScore, x, y, curPoint) == [target] + rest;
          assert loc + ([target] + rest) == (loc + [target]) + rest;
          curPoint := m[target.0, target.1];
          x, y := target.0, target.1;
          loc := loc + [(x, y)];
        }
      } else {
        break;
      }
    }
    TraceWellFormed(m, matchScore, start.0, start.1, At(m, start));
    TraceEnd(m, matchScore, start.0, start.1, At(m, start));
  }
}
