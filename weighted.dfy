/** The earlier aligner variant: real-valued scores (its transition penalty is
    a half-integer), every cell floored at 0, a transition score only for the
    ordered pairs (A, G) and (C, T), and a traceback that always moves to the
    first maximal neighbour in the order (x, y-1), (x-1, y), diagonal. */
module Weighted {
  import opened Grid
  import opened Nucleotides

  /** The four scoring constants (module-level globals in the source). */
  datatype Scoring = Scoring(matchScore: real, transit: real, transver: real, gap: real)

  /** The constants the source ships with. */
  const SourceScoring := Scoring(3.0, -1.5, -3.0, -2.0)

  // ---------------------------------------------------------------------------
  // Substitution scorer
  // ---------------------------------------------------------------------------

  /** The similarity of symbol a of the first sequence and symbol b of the
      second: a transition scores as such only when the first symbol is A or C;
      its reverse scores as a transversion. */
  function Similarity(sc: Scoring, a: char, b: char): (r: real)
    ensures a == b ==> r == sc.matchScore
    ensures IsTransition(a, b) ==> r == if a == 'A' || a == 'C' then sc.transit else sc.transver
    ensures a != b && !IsTransition(a, b) ==> r == sc.transver
  {
    if a == b then sc.matchScore
    else if a == 'A' && b == 'G' then sc.transit
    else if a == 'C' && b == 'T' then sc.transit
    else sc.transver
  }

  /** With the shipped constants the similarity is not symmetric: A against G
      is a transition, G against A a transversion. */
  lemma SimilarityAsymmetric()
    ensures Similarity(SourceScoring, 'A', 'G') == -1.5
    ensures Similarity(SourceScoring, 'G', 'A') == -3.0
  {
  }

  function Max3(a: real, b: real, c: real): (r: real)
    ensures r >= a && r >= b && r >= c
    ensures r == a || r == b || r == c
  {
    if a >= b && a >= c then a else if b >= c then b else c
  }

  /** The value of a cell from its diagonal, upper (x-1, y) and left (x, y-1)
      neighbours: the best of a substitution and the two linear gaps, floored
      at 0. */
  function CalcScore(sc: Scoring, a: char, b: char, diag: real, up: real, left: real): (r: real)
    ensures r >= 0.0
    ensures r >= diag + Similarity(sc, a, b) && r >= up + sc.gap && r >= left + sc.gap
    ensures r == 0.0 || r == diag + Similarity(sc, a, b) || r == up + sc.gap || r == left + sc.gap
  {
    var best := Max3(diag + Similarity(sc, a, b), up + sc.gap, left + sc.gap);
    if 0.0 >= best then 0.0 else best
  }

  /** The reference definition of the score grid: row 0 and column 0 hold 0 and
      every other cell follows the recurrence of CalcScore. */
  function Cell(sc: Scoring, s1: string, s2: string, i: nat, j: nat): real
    requires i <= |s1| && j <= |s2|
    decreases i + j
  {
    if i == 0 || j == 0 then 0.0
    else CalcScore(sc, s1[i - 1], s2[j - 1],
                   Cell(sc, s1, s2, i - 1, j - 1), Cell(sc, s1, s2, i - 1, j), Cell(sc, s1, s2, i, j - 1))
  }

  /** Every cell is at least 0, because the scorer floors at 0 and the
      boundary holds 0. */
  lemma CellFloor(sc: Scoring, s1: string, s2: string, i: nat, j: nat)
    requires i <= |s1| && j <= |s2|
    ensures Cell(sc, s1, s2, i, j) >= 0.0
    ensures i == 0 || j == 0 ==> Cell(sc, s1, s2, i, j) == 0.0
  {
  }

  // ---------------------------------------------------------------------------
  // Matrix builder
  // ---------------------------------------------------------------------------

  /** Cell addressed by a position. Quantifiers over the grid are stated with
      this form so that unfolding Cell does not instantiate them again. */
  function CellAt(sc: Scoring, s1: string, s2: string, p: Pos): real
    requires 0 <= p.0 <= |s1| && 0 <= p.1 <= |s2|
  {
    Cell(sc, s1, s2, p.0, p.1)
  }

  /** An interior cell computed from the reference values of its neighbours is
      the reference value of the cell. */
  lemma CellFromNeighbours(sc: Scoring, s1: string, s2: string, i: nat, j: nat, diag: real, up: real, left: real)
    requires 1 <= i <= |s1| && 1 <= j <= |s2|
    requires diag == CellAt(sc, s1, s2, (i - 1, j - 1))
    requires up == CellAt(sc, s1, s2, (i - 1, j)) && left == CellAt(sc, s1, s2, (i, j - 1))
    ensures CalcScore(sc, s1[i - 1], s2[j - 1], diag, up, left) == CellAt(sc, s1, s2, (i, j))
  {
  }

  /** The state of the builder's running maximum once every cell before `lim`
      was scanned: it starts at 0 and moves only to a strictly greater cell. */
  ghost predicate ScanMax(sc: Scoring, s1: string, s2: string, lim: Pos, maxScore: real, maxPos: Option<Pos>) {
    && maxScore >= 0.0
    && (forall a, b :: 0 <= a <= |s1| && 0 <= b <= |s2| && Before((a, b), lim) ==> CellAt(sc, s1, s2, (a, b)) <= maxScore)
    && (maxPos.None? ==> maxScore == 0.0)
    && (maxPos.Some? ==>
          && 0 <= maxPos.value.0 <= |s1| && 0 <= maxPos.value.1 <= |s2| && Before(maxPos.value, lim)
          && CellAt(sc, s1, s2, maxPos.value) == maxScore && maxScore > 0.0
          && (forall a, b :: 0 <= a <= |s1| && 0 <= b <= |s2| && Before((a, b), maxPos.value) ==>
                CellAt(sc, s1, s2, (a, b)) < maxScore))
  }

  /** Scanning cell (i, j) keeps ScanMax: the maximum moves to (i, j) exactly
      when its value is strictly greater. */
  lemma ScanMaxStep(sc: Scoring, s1: string, s2: string, i: nat, j: nat, maxScore: real, maxPos: Option<Pos>)
    requires i <= |s1| && j <= |s2|
    requires ScanMax(sc, s1, s2, (i, j), maxScore, maxPos)
    ensures var score := CellAt(sc, s1, s2, (i, j));
            if score > maxScore then ScanMax(sc, s1, s2, (i, j + 1), score, Some((i, j)))
            else ScanMax(sc, s1, s2, (i, j + 1), maxScore, maxPos)
  {
    var score := CellAt(sc, s1, s2, (i, j));
    if score <= maxScore {
      forall a, b | 0 <= a <= |s1| && 0 <= b <= |s2| && Before((a, b), (i, j + 1))
        ensures CellAt(sc, s1, s2, (a, b)) <= maxScore
      {
        if a == i && b == j {
        } else {
          assert Before((a, b), (i, j));
        }
      }
    }
  }

  /** p is the first grid cell in row-major order holding the grid's maximum,
      and that maximum is positive. */
  ghost predicate IsFirstMax(sc: Scoring, s1: string, s2: string, p: Pos) {
    && 0 <= p.0 <= |s1| && 0 <= p.1 <= |s2|
    && CellAt(sc, s1, s2, p) > 0.0
    && (forall a, b :: 0 <= a <= |s1| && 0 <= b <= |s2| ==> CellAt(sc, s1, s2, (a, b)) <= CellAt(sc, s1, s2, p))
    && (forall a, b :: 0 <= a <= |s1| && 0 <= b <= |s2| && Before((a, b), p) ==> CellAt(sc, s1, s2, (a, b)) < CellAt(sc, s1, s2, p))
  }

  /** After the whole grid was scanned, the running maximum is either absent,
      and then every cell is 0, or the first maximal cell. */
  lemma ScanMaxDone(sc: Scoring, s1: string, s2: string, maxScore: real, maxPos: Option<Pos>)
    requires ScanMax(sc, s1, s2, (|s1| + 1, 0), maxScore, maxPos)
    ensures maxPos.None? <==> forall a, b :: 0 <= a <= |s1| && 0 <= b <= |s2| ==> CellAt(sc, s1, s2, (a, b)) == 0.0
    ensures maxPos.Some? ==> IsFirstMax(sc, s1, s2, maxPos.value)
  {
    assert forall a, b :: 0 <= a <= |s1| && 0 <= b <= |s2| ==> Before((a, b), (|s1| + 1, 0));
  }

  /** Moving the scan limit over cells that are not in the grid changes nothing. */
  lemma ScanMaxNextRow(sc: Scoring, s1: string, s2: string, i: nat, j: nat, maxScore: real, maxPos: Option<Pos>)
    requires j == |s2| + 1
    requires ScanMax(sc, s1, s2, (i, j), maxScore, maxPos)
    ensures ScanMax(sc, s1, s2, (i + 1, 0), maxScore, maxPos)
  {
    assert forall a, b :: 0 <= a <= |s1| && 0 <= b <= |s2| ==> (Before((a, b), (i + 1, 0)) <==> Before((a, b), (i, |s2| + 1)));
  }

  /** Cells before `lim` in row-major order hold their reference value; later cells still hold 0. */
  ghost predicate FilledUpTo(sc: Scoring, s1: string, s2: string, m: array2<real>, lim: Pos)
    reads m
    requires m.Length0 == |s1| + 1 && m.Length1 == |s2| + 1
  {
    forall a, b {:trigger m[a, b]} :: 0 <= a < m.Length0 && 0 <= b < m.Length1 ==>
      m[a, b] == if Before((a, b), lim) then CellAt(sc, s1, s2, (a, b)) else 0.0
  }

  /** Row 0 and column 0 of the grid hold 0. */
  predicate BoundaryZero(m: array2<real>)
    reads m
  {
    && (forall i :: 0 <= i < m.Length0 && 0 < m.Length1 ==> m[i, 0] == 0.0)
    && (forall j :: 0 <= j < m.Length1 && 0 < m.Length0 ==> m[0, j] == 0.0)
  }

  /** No cell of the grid is negative. */
  predicate NonNegative(m: array2<real>)
    reads m
  {
    forall i, j :: 0 <= i < m.Length0 && 0 <= j < m.Length1 ==> m[i, j] >= 0.0
  }

  /** Fills the (|s1|+1) x (|s2|+1) grid row by row and keeps the first cell
      that strictly exceeds the running maximum. None stands for the source's
      failed assertion: every cell is 0. The grid has a zero boundary and no
      negative cell, as the traceback needs. */
  method CreateScoreMatrix(sc: Scoring, s1: string, s2: string) returns (m: array2<real>, maxPos: Option<Pos>)
    ensures fresh(m)
    ensures m.Length0 == |s1| + 1 && m.Length1 == |s2| + 1
    ensures forall i, j {:trigger m[i, j]} :: 0 <= i < m.Length0 && 0 <= j < m.Length1 ==> m[i, j] == Cell(sc, s1, s2, i, j)
    ensures BoundaryZero(m) && NonNegative(m)
    ensures maxPos.None? <==> forall i, j :: 0 <= i <= |s1| && 0 <= j <= |s2| ==> CellAt(sc, s1, s2, (i, j)) == 0.0
    ensures maxPos.Some? ==> IsFirstMax(sc, s1, s2, maxPos.value)
  {
    m := new real[|s1| + 1, |s2| + 1]((_, _) => 0.0);
    var maxScore := 0.0;
    maxPos := None;
    var i := 1;
    while i < m.Length0
      invariant 1 <= i <= m.Length0
      invariant FilledUpTo(sc, s1, s2, m, (i, 0))
      invariant ScanMax(sc, s1, s2, (i, 0), maxScore, maxPos)
    {
      maxScore, maxPos := FillRow(sc, s1, s2, m, i, maxScore, maxPos);
      i := i + 1;
    }
    ScanMaxDone(sc, s1, s2, maxScore, maxPos);
    forall i, j | 0 <= i < m.Length0 && 0 <= j < m.Length1 ensures m[i, j] >= 0.0 {
      CellFloor(sc, s1, s2, i, j);
    }
  }

  /** The inner loop of CreateScoreMatrix: fills row i from column 1 on and
      updates the running maximum on every strictly greater score. */
  method FillRow(sc: Scoring, s1: string, s2: string, m: array2<real>, i: int, maxScore0: real, maxPos0: Option<Pos>)
      returns (maxScore: real, maxPos: Option<Pos>)
    requires m.Length0 == |s1| + 1 && m.Length1 == |s2| + 1 && 1 <= i <= |s1|
    requires FilledUpTo(sc, s1, s2, m, (i, 0))
    requires ScanMax(sc, s1, s2, (i, 0), maxScore0, maxPos0)
    modifies m
    ensures FilledUpTo(sc, s1, s2, m, (i + 1, 0))
    ensures ScanMax(sc, s1, s2, (i + 1, 0), maxScore, maxPos)
  {
    maxScore, maxPos := maxScore0, maxPos0;
    ScanMaxStep(sc, s1, s2, i, 0, maxScore, maxPos);
    var j := 1;
    while j < m.Length1
      invariant 1 <= j <= m.Length1
      invariant FilledUpTo(sc, s1, s2, m, (i, j))
      invariant ScanMax(sc, s1, s2, (i, j), maxScore, maxPos)
    {
      maxScore, maxPos := FillCell(sc, s1, s2, m, i, j, maxScore, maxPos);
      j := j + 1;
    }
    ScanMaxNextRow(sc, s1, s2, i, j, maxScore, maxPos);
  }

  /** One pass of the inner loop: score cell (i, j) from its neighbours, move
      the running maximum there when the score is strictly greater, and store
      the score. */
  method FillCell(sc: Scoring, s1: string, s2: string, m: array2<real>, i: int, j: int, maxScore0: real, maxPos0: Option<Pos>)
      returns (maxScore: real, maxPos: Option<Pos>)
    requires m.Length0 == |s1| + 1 && m.Length1 == |s2| + 1 && 1 <= i <= |s1| && 1 <= j <= |s2|
    requires FilledUpTo(sc, s1, s2, m, (i, j))
    requires ScanMax(sc, s1, s2, (i, j), maxScore0, maxPos0)
    modifies m
    ensures FilledUpTo(sc, s1, s2, m, (i, j + 1))
    ensures ScanMax(sc, s1, s2, (i, j + 1), maxScore, maxPos)
  {
    maxScore, maxPos := maxScore0, maxPos0;
    assert Before((i - 1, j - 1), (i, j)) && Before((i - 1, j), (i, j)) && Before((i, j - 1), (i, j));
    CellFromNeighbours(sc, s1, s2, i, j, m[i - 1, j - 1], m[i - 1, j], m[i, j - 1]);
    var score := CalcScore(sc, s1[i - 1], s2[j - 1], m[i - 1, j - 1], m[i - 1, j], m[i, j - 1]);
    ScanMaxStep(sc, s1, s2, i, j, maxScore, maxPos);
    if score > maxScore {
      maxScore := score;
      maxPos := Some((i, j));
    }
    m[i, j] := score;
  }

  // ---------------------------------------------------------------------------
  // Traceback
  // ---------------------------------------------------------------------------

  /** The first of three distinct cells, in the given order, holding their
      largest value (what a maximum with a key returns). */
  function FirstMax(m: array2<real>, p: Pos, q: Pos, r: Pos): (t: Pos)
    reads m
    requires InBounds(m, p) && InBounds(m, q) && InBounds(m, r)
    requires p != q && q != r && p != r
    ensures t == p || t == q || t == r
    ensures At(m, t) >= At(m, p) && At(m, t) >= At(m, q) && At(m, t) >= At(m, r)
    ensures t == q ==> At(m, p) < At(m, q)
    ensures t == r ==> At(m, p) < At(m, r) && At(m, q) < At(m, r)
  {
    var best := if At(m, q) > At(m, p) then q else p;
    if At(m, r) > At(m, best) then r else best
  }

  /** The predecessor of (x, y): the first maximal candidate in the order
      (x, y-1), (x-1, y), (x-1, y-1). */
  function Pick(m: array2<real>, x: int, y: int): (p: Pos)
    reads m
    requires 1 <= x < m.Length0 && 1 <= y < m.Length1
    ensures IsStep((x, y), p) && InBounds(m, p)
    ensures At(m, p) >= m[x, y - 1] && At(m, p) >= m[x - 1, y] && At(m, p) >= m[x - 1, y - 1]
    ensures p == (x - 1, y) ==> m[x, y - 1] < At(m, p)
    ensures p == (x - 1, y - 1) ==> m[x, y - 1] < At(m, p) && m[x - 1, y] < At(m, p)
  {
    FirstMax(m, (x, y - 1), (x - 1, y), (x - 1, y - 1))
  }

  /** The cells the traceback appends after reaching (x, y): nothing once the
      cell holds 0, otherwise Pick and the cells after it. A nonzero cell is
      interior because the boundary holds 0, so the neighbours exist. */
  function TraceFrom(m: array2<real>, x: int, y: int): seq<Pos>
    reads m
    requires BoundaryZero(m) && InBounds(m, (x, y))
    decreases x + y
  {
    if m[x, y] == 0.0 then []
    else
      var p := Pick(m, x, y);
      [p] + TraceFrom(m, p.0, p.1)
  }

  /** The traceback path from `start`, start first. */
  function Path(m: array2<real>, start: Pos): seq<Pos>
    reads m
    requires BoundaryZero(m) && InBounds(m, start)
  {
    [start] + TraceFrom(m, start.0, start.1)
  }

  /** Every traceback path starts at its start cell, stays inside the grid,
      moves by (x, y-1), (x-1, y) or diagonal steps, and so ends after at most
      x + y steps. */
  lemma {:induction false} TraceWellFormed(m: array2<real>, x: int, y: int)
    requires BoundaryZero(m) && InBounds(m, (x, y))
    ensures WellFormedPath(m, (x, y), [(x, y)] + TraceFrom(m, x, y))
    decreases x + y
  {
    if m[x, y] != 0.0 {
      var p := Pick(m, x, y);
      TraceWellFormed(m, p.0, p.1);
      ConsStep(m, (x, y), p, [p] + TraceFrom(m, p.0, p.1));
    }
  }

  /** The traceback stops at the first cell holding 0: the last cell of the path
      holds 0, and in a grid without negative cells every earlier one is
      positive. */
  lemma {:induction false} TraceScores(m: array2<real>, x: int, y: int)
    requires BoundaryZero(m) && InBounds(m, (x, y))
    ensures var path := [(x, y)] + TraceFrom(m, x, y);
            && InBounds(m, path[|path| - 1]) && At(m, path[|path| - 1]) == 0.0
            && (forall k :: 0 <= k < |path| - 1 ==> InBounds(m, path[k]) && At(m, path[k]) != 0.0)
            && (NonNegative(m) ==> forall k :: 0 <= k < |path| - 1 ==> InBounds(m, path[k]) && At(m, path[k]) > 0.0)
    decreases x + y
  {
    if m[x, y] != 0.0 {
      var p := Pick(m, x, y);
      TraceScores(m, p.0, p.1);
      var rest := [p] + TraceFrom(m, p.0, p.1);
      var path := [(x, y)] + TraceFrom(m, x, y);
      assert path == [(x, y)] + rest;
      forall k | 1 <= k < |path| - 1 ensures path[k] == rest[k - 1] {
      }
    }
  }

  /** The traceback loop: walks back from `start` to the first cell holding 0
      and returns every cell it visited, `start` first. */
  method FindPath(m: array2<real>, start: Pos) returns (loc: seq<Pos>)
    requires BoundaryZero(m) && InBounds(m, start)
    ensures loc == Path(m, start)
    ensures WellFormedPath(m, start, loc)
    ensures At(m, loc[|loc| - 1]) == 0.0
    ensures NonNegative(m) ==> forall k :: 0 <= k < |loc| - 1 ==> At(m, loc[k]) > 0.0
  {
    var x, y := start.0, start.1;
    var curPoint := m[x, y];
    loc := [(x, y)];
    while curPoint != 0.0
      invariant InBounds(m, (x, y)) && curPoint == m[x, y]
      invariant loc + TraceFrom(m, x, y) == Path(m, start)
      decreases x + y
    {
      var target := Pick(m, x, y);
      assert TraceFrom(m, x, y) == [target] + TraceFrom(m, target.0, target.1);
      curPoint := m[target.0, target.1];
      x, y := target.0, target.1;
      loc := loc + [(x, y)];
    }
    TraceWellFormed(m, start.0, start.1);
    TraceScores(m, start.0, start.1);
  }
}
