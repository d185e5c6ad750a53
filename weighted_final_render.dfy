/** The renderer of the final aligner variant: turns a traceback path into the
    aligned first sequence, the aligned second sequence and the indicator line,
    padding the unaligned flanks. Each phase of the source is a method whose
    loops are proved against a function that specifies it; `Finishes` chains
    the functions after the per-step phase and `FinalAlignment` the methods. */
module WeightedFinalRender {
  import opened Grid
  import WeightedFinal

  /** The score of the extra entry the source appends after the last path cell. */
  const Sentinel := -200

  /** Reads the source performs that Python would either wrap around (a negative
      index) or reject (an index past the end). */
  datatype RenderError = NegativeIndex | IndexOutOfRange

  datatype Result<T> = Ok(value: T) | Err(error: RenderError)

  /** The three rendered lines: first sequence, second sequence, indicator. */
  datatype Texts = Texts(top: string, bottom: string, signs: string)

  /** The per-step lines and the number of gap columns among them. */
  datatype StepsOut = StepsOut(t: Texts, gaps: nat)

  /** The lines together with the source's counts of bases still to place
      (`temp_seq1_len`, `temp_seq2_len`). */
  datatype Flank = Flank(t: Texts, rest1: int, rest2: int)

  predicate EqualLengths(t: Texts) {
    |t.top| == |t.bottom| == |t.signs|
  }

  /** The path is non-empty and every cell lies in the (|s1|+1) x (|s2|+1) grid. */
  predicate PathInGrid(s1: string, s2: string, pos: seq<Pos>) {
    && |pos| >= 1
    && forall k :: 0 <= k < |pos| ==> 0 <= pos[k].0 <= |s1| && 0 <= pos[k].1 <= |s2|
  }

  // ---------------------------------------------------------------------------
  // String helpers
  // ---------------------------------------------------------------------------

  /** `n` copies of `c`; empty when n is not positive (Python's `c * n`). */
  function Repeat(c: char, n: int): (r: string)
    ensures |r| == if n > 0 then n else 0
    ensures forall i :: 0 <= i < |r| ==> r[i] == c
  {
    if n <= 0 then [] else Repeat(c, n - 1) + [c]
  }

  /** The string read backwards (Python's `s[::-1]`). */
  function Reverse(s: string): (r: string)
    ensures |r| == |s|
    ensures forall i :: 0 <= i < |s| ==> r[i] == s[|s| - 1 - i]
  {
    if s == [] then [] else Reverse(s[1..]) + [s[0]]
  }

  /** Number of occurrences of `c` in `s`. */
  function Count(s: string, c: char): nat {
    if s == [] then 0 else Count(s[..|s| - 1], c) + (if s[|s| - 1] == c then 1 else 0)
  }

  lemma CountSnoc(s: string, d: char, c: char)
    ensures Count(s + [d], c) == Count(s, c) + (if d == c then 1 else 0)
  {
    assert (s + [d])[..|s|] == s;
  }

  // ---------------------------------------------------------------------------
  // Per-step columns
  // ---------------------------------------------------------------------------

  /** The scores of the path cells followed by the sentinel. */
  function ScoreList(m: array2<int>, pos: seq<Pos>): (r: seq<int>)
    reads m
    requires forall k :: 0 <= k < |pos| ==> InBounds(m, pos[k])
    ensures |r| == |pos| + 1 && r[|pos|] == Sentinel
    ensures forall k :: 0 <= k < |pos| ==> r[k] == At(m, pos[k])
  {
    seq(|pos|, k requires 0 <= k < |pos| reads m => At(m, pos[k])) + [Sentinel]
  }

  datatype Kind = MatchStep | MismatchStep | GapStep

  /** How the renderer classifies the move from a cell scoring `cur` to the next
      path entry scoring `next`: a rise by the match score is a match, a fall by
      it a mismatch, anything else a gap. */
  function KindOf(matchScore: int, cur: int, next: int): Kind {
    if cur == next + matchScore then MatchStep
    else if cur == next - matchScore then MismatchStep
    else GapStep
  }

  /** Path entry j would be rendered as a match or mismatch column although its
      row or column is 0, so the source would read a sequence at index -1. */
  predicate Wraps(matchScore: int, scores: seq<int>, pos: seq<Pos>, j: int)
    requires 0 <= j < |pos| && |scores| == |pos| + 1
  {
    KindOf(matchScore, scores[j], scores[j + 1]) != GapStep && (pos[j].0 < 1 || pos[j].1 < 1)
  }

  /** The lines built from the first k path entries, in path order (before the
      source reverses them). */
  function Steps(s1: string, s2: string, matchScore: int, scores: seq<int>, pos: seq<Pos>, k: nat): Result<StepsOut>
    requires PathInGrid(s1, s2, pos) && |scores| == |pos| + 1 && k <= |pos|
  {
    if k == 0 then Ok(StepsOut(Texts([], [], []), 0))
    else
      var prev := Steps(s1, s2, matchScore, scores, pos, k - 1);
      if prev.Err? then prev
      else
        var t, g, x, y := prev.value.t, prev.value.gaps, pos[k - 1].0, pos[k - 1].1;
        var kind := KindOf(matchScore, scores[k - 1], scores[k]);
        if kind == GapStep then
          if y - 1 >= 0 then Ok(StepsOut(Texts(t.top + ['-'], t.bottom + [s2[y - 1]], t.signs + [' ']), g + 1))
          else prev
        else if x - 1 < 0 || y - 1 < 0 then Err(NegativeIndex)
        else Ok(StepsOut(Texts(t.top + [s1[x - 1]], t.bottom + [s2[y - 1]], t.signs + [if kind == MatchStep then '*' else '.']), g))
  }

  /** Number of the first k path entries of the given kind that put a column
      into the lines (an entry on column 0 puts none). */
  function CountSteps(matchScore: int, scores: seq<int>, pos: seq<Pos>, k: nat, kind: Kind): nat
    requires |scores| == |pos| + 1 && k <= |pos|
  {
    if k == 0 then 0
    else CountSteps(matchScore, scores, pos, k - 1, kind)
         + (if KindOf(matchScore, scores[k - 1], scores[k]) == kind && pos[k - 1].1 >= 1 then 1 else 0)
  }

  /** The per-step phase fails exactly when some entry would be rendered as a
      match or mismatch from row 0 or column 0. */
  lemma {:induction false} StepsFailIff(s1: string, s2: string, matchScore: int, scores: seq<int>, pos: seq<Pos>, k: nat)
    requires PathInGrid(s1, s2, pos) && |scores| == |pos| + 1 && k <= |pos|
    ensures Steps(s1, s2, matchScore, scores, pos, k).Err? <==> exists j :: 0 <= j < k && Wraps(matchScore, scores, pos, j)
    ensures Steps(s1, s2, matchScore, scores, pos, k).Err? ==> Steps(s1, s2, matchScore, scores, pos, k).error == NegativeIndex
  {
    if k > 0 {
      StepsFailIff(s1, s2, matchScore, scores, pos, k - 1);
      if Steps(s1, s2, matchScore, scores, pos, k - 1).Ok? {
        if Steps(s1, s2, matchScore, scores, pos, k).Err? {
          assert Wraps(matchScore, scores, pos, k - 1);
        } else {
          forall j | 0 <= j < k ensures !Wraps(matchScore, scores, pos, j) {
          }
        }
      }
    }
  }

  /** Each step puts the same number of characters (one or none) into the three
      lines; a gap column holds '-' on top and a symbol of the second sequence
      below, every other column a symbol of each sequence; and when no entry
      lies on column 0 every entry gives a column. */
  lemma {:induction false} StepsColumns(s1: string, s2: string, matchScore: int, scores: seq<int>, pos: seq<Pos>, k: nat)
    requires PathInGrid(s1, s2, pos) && |scores| == |pos| + 1 && k <= |pos|
    requires Steps(s1, s2, matchScore, scores, pos, k).Ok?
    ensures var t := Steps(s1, s2, matchScore, scores, pos, k).value.t;
            && EqualLengths(t) && |t.signs| <= k
            && ((forall j :: 0 <= j < k ==> pos[j].1 >= 1) ==> |t.signs| == k)
            && (forall i :: 0 <= i < |t.signs| ==> t.signs[i] == '*' || t.signs[i] == '.' || t.signs[i] == ' ')
            && (forall i :: 0 <= i < |t.signs| && t.signs[i] == ' ' ==> t.top[i] == '-')
            && (forall i :: 0 <= i < |t.signs| && t.signs[i] != ' ' ==> t.top[i] in s1)
            && (forall i :: 0 <= i < |t.bottom| ==> t.bottom[i] in s2)
  {
    if k > 0 {
      StepsColumns(s1, s2, matchScore, scores, pos, k - 1);
    }
  }

  /** The indicator line holds one '*' per match step, one '.' per mismatch
      step and one ' ' per gap column, and the gap counter counts the gap
      columns. */
  lemma {:induction false} StepsCounts(s1: string, s2: string, matchScore: int, scores: seq<int>, pos: seq<Pos>, k: nat)
    requires PathInGrid(s1, s2, pos) && |scores| == |pos| + 1 && k <= |pos|
    requires Steps(s1, s2, matchScore, scores, pos, k).Ok?
    ensures var o := Steps(s1, s2, matchScore, scores, pos, k).value;
            && Count(o.t.signs, '*') == CountSteps(matchScore, scores, pos, k, MatchStep)
            && Count(o.t.signs, '.') == CountSteps(matchScore, scores, pos, k, MismatchStep)
            && Count(o.t.signs, ' ') == CountSteps(matchScore, scores, pos, k, GapStep) == o.gaps
  {
    if k > 0 {
      var prev := Steps(s1, s2, matchScore, scores, pos, k - 1);
      assert prev.Ok?;
      StepsCounts(s1, s2, matchScore, scores, pos, k - 1);
      var kind := KindOf(matchScore, scores[k - 1], scores[k]);
      if kind != GapStep || pos[k - 1].1 >= 1 {
        var c := if kind == MatchStep then '*' else if kind == MismatchStep then '.' else ' ';
        assert Steps(s1, s2, matchScore, scores, pos, k).value.t.signs == prev.value.t.signs + [c];
        CountSnoc(prev.value.t.signs, c, '*');
        CountSnoc(prev.value.t.signs, c, '.');
        CountSnoc(prev.value.t.signs, c, ' ');
      }
    }
  }

  /** The column a path entry at `at` (off column 0) of the given kind puts into
      the per-step lines: below, the second sequence's symbol left of the
      entry; above, a gap over a blank for a gap step, or the first sequence's
      symbol above the entry over '*' for a match and '.' for a mismatch. */
  predicate ColumnOf(s1: string, s2: string, kind: Kind, at: Pos, top: char, bottom: char, sign: char)
    requires 0 <= at.0 <= |s1| && 1 <= at.1 <= |s2|
  {
    && bottom == s2[at.1 - 1]
    && (kind == GapStep ==> top == '-' && sign == ' ')
    && (kind != GapStep ==> 1 <= at.0 && top == s1[at.0 - 1] && sign == (if kind == MatchStep then '*' else '.'))
  }

  /** With no path entry on column 0, every entry puts one column into the
      per-step lines, column i coming from path entry i. */
  lemma {:induction false} StepsContents(s1: string, s2: string, matchScore: int, scores: seq<int>, pos: seq<Pos>, k: nat)
    requires PathInGrid(s1, s2, pos) && |scores| == |pos| + 1 && k <= |pos|
    requires Steps(s1, s2, matchScore, scores, pos, k).Ok?
    requires forall j :: 0 <= j < k ==> pos[j].1 >= 1
    ensures var t := Steps(s1, s2, matchScore, scores, pos, k).value.t;
            && |t.top| == |t.bottom| == |t.signs| == k
            && forall i :: 0 <= i < k ==>
                 ColumnOf(s1, s2, KindOf(matchScore, scores[i], scores[i + 1]), pos[i], t.top[i], t.bottom[i], t.signs[i])
  {
    if k > 0 {
      var prev := Steps(s1, s2, matchScore, scores, pos, k - 1);
      assert prev.Ok?;
      StepsContents(s1, s2, matchScore, scores, pos, k - 1);
      var p, t := prev.value.t, Steps(s1, s2, matchScore, scores, pos, k).value.t;
      var x, y := pos[k - 1].0, pos[k - 1].1;
      var kind := KindOf(matchScore, scores[k - 1], scores[k]);
      var c := if kind == GapStep then '-' else s1[x - 1];
      var d := if kind == MatchStep then '*' else if kind == MismatchStep then '.' else ' ';
      assert t == Texts(p.top + [c], p.bottom + [s2[y - 1]], p.signs + [d]);
      forall i | 0 <= i < k
        ensures ColumnOf(s1, s2, KindOf(matchScore, scores[i], scores[i + 1]), pos[i], t.top[i], t.bottom[i], t.signs[i])
      {
        if i < k - 1 {
          assert t.top[i] == p.top[i] && t.bottom[i] == p.bottom[i] && t.signs[i] == p.signs[i];
        }
      }
    }
  }

  /** The first loop of the renderer: one column per path entry, compared with
      the score of the next entry. */
  method AlignSteps(s1: string, s2: string, matchScore: int, scores: seq<int>, pos: seq<Pos>) returns (r: Result<StepsOut>)
    requires PathInGrid(s1, s2, pos) && |scores| == |pos| + 1
    ensures r == Steps(s1, s2, matchScore, scores, pos, |pos|)
  {
    var text1, text2, signs := "", "", "";
    var gapCount := 0;
    var i := 0;
    while i < |scores|
      invariant 0 <= i <= |scores|
      invariant Steps(s1, s2, matchScore, scores, pos, Min(i, |pos|)) == Ok(StepsOut(Texts(text1, text2, signs), gapCount))
    {
      if i < |scores| - 1 {
        var x, y := pos[i].0, pos[i].1;
        if scores[i] == scores[i + 1] + matchScore || scores[i] == scores[i + 1] - matchScore {
          if x - 1 < 0 || y - 1 < 0 {
            assert Wraps(matchScore, scores, pos, i);
            StepsFailIff(s1, s2, matchScore, scores, pos, |pos|);
            return Err(NegativeIndex);
          }
          text1 := text1 + [s1[x - 1]];
          text2 := text2 + [s2[y - 1]];
          signs := signs + [if scores[i] == scores[i + 1] + matchScore then '*' else '.'];
        } else if y - 1 >= 0 {
          text1 := text1 + ['-'];
          text2 := text2 + [s2[y - 1]];
          signs := signs + [' '];
          gapCount := gapCount + 1;
        }
      }
      i := i + 1;
    }
    r := Ok(StepsOut(Texts(text1, text2, signs), gapCount));
  }

  // ---------------------------------------------------------------------------
  // Leading flanks
  // ---------------------------------------------------------------------------

  /** `after` is `before` with n characters put in front of each of its three
      lines, the indicator line getting blanks. */
  predicate Prepended(before: Texts, after: Texts, n: nat) {
    && |after.top| == |before.top| + n && after.top[n..] == before.top
    && |after.bottom| == |before.bottom| + n && after.bottom[n..] == before.bottom
    && |after.signs| == |before.signs| + n && after.signs[n..] == before.signs
    && forall i :: 0 <= i < n ==> after.signs[i] == ' '
  }

  /** The block for a path that starts below row 0: d = max(row, column) blank
      columns; the sequence whose start index is d gets its unaligned prefix,
      the other d gaps. */
  function FirstSequenceFlank(s1: string, s2: string, f: Flank, begin: Pos): (r: Flank)
    requires 1 <= begin.0 <= |s1| && 0 <= begin.1 <= |s2|
    ensures Prepended(f.t, r.t, Max(begin.0, begin.1))
    ensures begin.0 >= begin.1 ==> r.t.top[..begin.0] == s1[..begin.0] && r.rest1 == f.rest1 - begin.0
    ensures begin.0 <= begin.1 ==> r.t.bottom[..begin.1] == s2[..begin.1] && r.rest2 == f.rest2 - begin.1
    ensures begin.0 < begin.1 ==> r.t.top[..begin.1] == Repeat('-', begin.1) && r.rest1 == f.rest1
    ensures begin.1 < begin.0 ==> r.t.bottom[..begin.0] == Repeat('-', begin.0) && r.rest2 == f.rest2
  {
    var d := Max(begin.0, begin.1);
    var signs := Repeat(' ', d) + f.t.signs;
    var top := if begin.0 == d then s1[..begin.0] + f.t.top else Repeat('-', d) + f.t.top;
    var rest1 := if begin.0 == d then f.rest1 - begin.0 else f.rest1;
    var bottom := if begin.1 == d then s2[..begin.1] + f.t.bottom else Repeat('-', d) + f.t.bottom;
    var rest2 := if begin.1 == d then f.rest2 - begin.1 else f.rest2;
    Flank(Texts(top, bottom, signs), rest1, rest2)
  }

  /** The block for a path that starts on row 0: the second sequence's prefix
      up to the start column against as many gaps. */
  function SecondSequenceFlank(s2: string, f: Flank, col: nat): (r: Flank)
    requires col <= |s2|
    ensures Prepended(f.t, r.t, col)
    ensures r.t.bottom[..col] == s2[..col] && forall i :: 0 <= i < col ==> r.t.top[i] == '-'
    ensures r.rest1 == f.rest1 && r.rest2 == f.rest2 - col
  {
    Flank(Texts(Repeat('-', col) + f.t.top, s2[..col] + f.t.bottom, Repeat(' ', col) + f.t.signs), f.rest1, f.rest2 - col)
  }

  /** Both leading blocks. The second runs only for a path that starts on row 0
      and only when the bottom line does not already begin with the second
      sequence's first symbol or a gap; reading that first character fails
      when the bottom line or the second sequence is empty. */
  function LeadingFlank(s1: string, s2: string, f: Flank, begin: Pos): (r: Result<Flank>)
    requires 0 <= begin.0 <= |s1| && 0 <= begin.1 <= |s2|
    ensures r.Err? <==> begin.0 == 0 && (|f.t.bottom| == 0 || |s2| == 0)
  {
    var f1 := if begin.0 != 0 then FirstSequenceFlank(s1, s2, f, begin) else f;
    if begin.0 == 0 then
      if |f1.t.bottom| == 0 || |s2| == 0 then Err(IndexOutOfRange)
      else if f1.t.bottom[0] != s2[0] && f1.t.bottom[0] != '-' then Ok(SecondSequenceFlank(s2, f1, begin.1))
      else Ok(f1)
    else Ok(f1)
  }

  /** When the leading blocks succeed they put the same number of characters,
      at most |s1| + |s2|, in front of all three lines, blanks in the indicator. */
  lemma LeadingPrepends(s1: string, s2: string, f: Flank, begin: Pos)
    requires 0 <= begin.0 <= |s1| && 0 <= begin.1 <= |s2|
    requires LeadingFlank(s1, s2, f, begin).Ok?
    ensures exists n: nat :: n <= |s1| + |s2| && Prepended(f.t, LeadingFlank(s1, s2, f, begin).value.t, n)
  {
    var g := LeadingFlank(s1, s2, f, begin).value;
    if begin.0 != 0 {
      assert Prepended(f.t, g.t, Max(begin.0, begin.1));
    } else if g == f {
      assert Prepended(f.t, g.t, 0);
    } else {
      assert Prepended(f.t, g.t, begin.1);
    }
  }

  /** The loop `for i in range(0, n): acc += s[i]; rest -= 1`. */
  method TakePrefix(s: string, n: nat, rest: int) returns (acc: string, rest': int)
    requires n <= |s|
    ensures acc == s[..n] && rest' == rest - n
  {
    acc, rest' := "", rest;
    for i := 0 to n
      invariant acc == s[..i] && rest' == rest - i
    {
      acc := acc + [s[i]];
      rest' := rest' - 1;
    }
  }

  /** The two leading blocks of the renderer. */
  method LeadingFlanks(s1: string, s2: string, f: Flank, begin: Pos) returns (r: Result<Flank>)
    requires 0 <= begin.0 <= |s1| && 0 <= begin.1 <= |s2|
    ensures r == LeadingFlank(s1, s2, f, begin)
  {
    var text1, text2, signs, rest1, rest2 := f.t.top, f.t.bottom, f.t.signs, f.rest1, f.rest2;
    if begin.0 != 0 {
      var d := Max(begin.0, begin.1);
      signs := Repeat(' ', d) + signs;
      if begin.0 == d {
        var temp1;
        temp1, rest1 := TakePrefix(s1, begin.0, rest1);
        text1 := temp1 + text1;
      } else {
        text1 := Repeat('-', d) + text1;
      }
      if begin.1 == d {
        var temp2;
        temp2, rest2 := TakePrefix(s2, begin.1, rest2);
        text2 := temp2 + text2;
      } else {
        text2 := Repeat('-', d) + text2;
      }
    }
    if begin.0 == 0 {
      if |text2| == 0 || |s2| == 0 {
        return Err(IndexOutOfRange);
      }
      if text2[0] != s2[0] && text2[0] != '-' {
        var temp2;
        temp2, rest2 := TakePrefix(s2, begin.1, rest2);
        text2 := temp2 + text2;
        text1 := Repeat('-', begin.1) + text1;
        signs := Repeat(' ', begin.1) + signs;
      }
    }
    r := Ok(Flank(Texts(text1, text2, signs), rest1, rest2));
  }

  // ---------------------------------------------------------------------------
  // Trailing flanks
  // ---------------------------------------------------------------------------

  /** What one sequence gets appended at the end, and the source's count of it.
      The sequence with the most bases left (by the source's count `rest`)
      gets everything from the end cell on; the other gets the bases from
      end + rest on and then gaps up to the larger count. A negative start
      index would wrap around in Python. */
  function TrailingPart(s: string, end: int, rest: int, eDiff: int): (r: Result<(string, nat)>)
    requires 0 <= end <= |s| && rest <= eDiff
    ensures r.Err? <==> rest < eDiff && end + rest < 0
    ensures r.Ok? ==> |r.value.0| == r.value.1
    ensures r.Ok? ==>
              var a, n := r.value.0, r.value.1 - (eDiff - rest);
              && 0 <= n <= |s| && a[..n] == s[|s| - n..]
              && (forall i :: n <= i < |a| ==> a[i] == '-')
              && (rest == eDiff ==> a == s[end..])
    ensures rest < eDiff && 0 <= end + rest ==>
              r.Ok? && r.value.0 == (if end + rest <= |s| then s[end + rest..] else []) + Repeat('-', eDiff - rest)
  {
    if rest == eDiff then Ok((s[end..], |s| - end))
    else if end + rest < 0 then Err(NegativeIndex)
    else
      var from := if end + rest <= |s| then s[end + rest..] else [];
      Ok((from + Repeat('-', eDiff - rest), |from| + (eDiff - rest)))
  }

  /** The character of the indicator line for a trailing column. */
  function Indicator(a: char, b: char): char {
    if a != b && a != '-' && b != '-' then '.' else ' '
  }

  /** The trailing indicator characters: one per index from lo to the end of the
      top line, comparing the two lines there. A negative index would wrap
      around in Python; an index past the bottom line fails. */
  function TrailingSigns(top: string, bottom: string, lo: int): (r: Result<string>)
    ensures r.Err? <==> lo < |top| && (lo < 0 || |top| > |bottom|)
    ensures r.Ok? ==> |r.value| == (if lo < |top| then |top| - lo else 0)
    ensures r.Ok? ==> forall k :: 0 <= k < |r.value| ==>
              0 <= lo + k < |top| && lo + k < |bottom| &&
              (r.value[k] == '.' <==> top[lo + k] != bottom[lo + k] && top[lo + k] != '-' && bottom[lo + k] != '-') &&
              (r.value[k] == '.' || r.value[k] == ' ')
  {
    if lo >= |top| then Ok([])
    else if lo < 0 then Err(NegativeIndex)
    else if |top| > |bottom| then Err(IndexOutOfRange)
    else
      var sg := seq(|top| - lo, k requires 0 <= k < |top| - lo => Indicator(top[lo + k], bottom[lo + k]));
      assert forall k :: 0 <= k < |sg| ==> sg[k] == Indicator(top[lo + k], bottom[lo + k]);
      Ok(sg)
  }

  /** The trailing phase: append each sequence's trailing part, then one
      indicator character per column of the longer appended part. */
  function Trailing(s1: string, s2: string, f: Flank, end: Pos): Result<Texts>
    requires 0 <= end.0 <= |s1| && 0 <= end.1 <= |s2|
  {
    var eDiff := Max(f.rest1, f.rest2);
    var p1, p2 := TrailingPart(s1, end.0, f.rest1, eDiff), TrailingPart(s2, end.1, f.rest2, eDiff);
    if p1.Err? then Err(p1.error)
    else if p2.Err? then Err(p2.error)
    else
      var top, bottom := f.t.top + p1.value.0, f.t.bottom + p2.value.0;
      var endingAdding := Max(p1.value.1, p2.value.1);
      var sg := TrailingSigns(top, bottom, |top| - endingAdding);
      if sg.Err? then Err(sg.error) else Ok(Texts(top, bottom, f.t.signs + sg.value))
  }

  /** After the trailing phase of equal-length lines, the top line is never
      longer than the bottom line, which is as long as the indicator line;
      when top and bottom agree in length, every trailing indicator character
      is '.' exactly where both lines hold differing non-gap characters. */
  lemma TrailingShape(s1: string, s2: string, f: Flank, end: Pos)
    requires 0 <= end.0 <= |s1| && 0 <= end.1 <= |s2|
    requires EqualLengths(f.t)
    requires Trailing(s1, s2, f, end).Ok?
    ensures var r := Trailing(s1, s2, f, end).value;
            && |r.top| <= |r.bottom| == |r.signs|
            && r.top[..|f.t.top|] == f.t.top && r.bottom[..|f.t.bottom|] == f.t.bottom
            && r.signs[..|f.t.signs|] == f.t.signs
            && (|r.top| == |r.bottom| ==>
                  forall i :: |f.t.signs| <= i < |r.signs| ==>
                    (r.signs[i] == '.' <==> r.top[i] != r.bottom[i] && r.top[i] != '-' && r.bottom[i] != '-'))
  {
    var eDiff := Max(f.rest1, f.rest2);
    var p1, p2 := TrailingPart(s1, end.0, f.rest1, eDiff), TrailingPart(s2, end.1, f.rest2, eDiff);
    var top, bottom := f.t.top + p1.value.0, f.t.bottom + p2.value.0;
    var endingAdding := Max(p1.value.1, p2.value.1);
    var sg := TrailingSigns(top, bottom, |top| - endingAdding);
    var r := Trailing(s1, s2, f, end).value;
    assert r == Texts(top, bottom, f.t.signs + sg.value);
    if |r.top| == |r.bottom| {
      forall i | |f.t.signs| <= i < |r.signs|
        ensures r.signs[i] == '.' <==> r.top[i] != r.bottom[i] && r.top[i] != '-' && r.bottom[i] != '-'
      {
        var k := i - |f.t.signs|;
        assert r.signs[i] == sg.value[k];
      }
    }
  }

  /** The loop `for i in range(from, len(s)): text = text + s[i]; count += 1`. */
  method AppendFrom(text: string, s: string, from: int, count: nat) returns (text': string, count': nat)
    requires 0 <= from
    ensures text' == text + (if from <= |s| then s[from..] else [])
    ensures count' == count + (if from <= |s| then |s| - from else 0)
  {
    text', count' := text, count;
    var i := from;
    while i < |s|
      invariant from <= i && (from <= |s| ==> i <= |s|)
      invariant text' == text + (if from <= |s| then s[from..i] else [])
      invariant count' == count + (if from <= |s| then i - from else 0)
    {
      text' := text' + [s[i]];
      count' := count' + 1;
      i := i + 1;
    }
  }

  /** One sequence's trailing block: everything from the end cell on when its
      count of bases left is the larger one, otherwise the bases from
      end + rest on followed by gaps up to the larger count. */
  method AppendTrailing(text: string, s: string, end: int, rest: int, eDiff: int) returns (r: Result<(string, nat)>)
    requires 0 <= end <= |s| && rest <= eDiff
    ensures var p := TrailingPart(s, end, rest, eDiff);
            r == if p.Err? then Err(p.error) else Ok((text + p.value.0, p.value.1))
  {
    var text', count := text, 0;
    if rest == eDiff {
      text', count := AppendFrom(text', s, end, count);
    } else {
      if end + rest < 0 {
        return Err(NegativeIndex);
      }
      text', count := AppendFrom(text', s, end + rest, count);
      ghost var from := text'[|text|..];
      assert text' == text + from;
      text' := text' + Repeat('-', eDiff - rest);
      assert text' == text + (from + Repeat('-', eDiff - rest));
      count := count + (eDiff - rest);
    }
    r := Ok((text', count));
  }

  /** The final loop: one indicator character per index from lo to the end of
      the top line. */
  method IndicatorLoop(top: string, bottom: string, signs: string, lo: int) returns (r: Result<string>)
    ensures var sg := TrailingSigns(top, bottom, lo);
            r == if sg.Err? then Err(sg.error) else Ok(signs + sg.value)
  {
    var signs' := signs;
    var i := lo;
    while i < |top|
      invariant lo <= i && (i == lo || i <= |top|)
      invariant lo < i ==> 0 <= lo && i <= |bottom|
      invariant |signs'| == |signs| + (if lo < i then i - lo else 0) && signs'[..|signs|] == signs
      invariant forall j :: |signs| <= j < |signs'| ==> signs'[j] == Indicator(top[lo + j - |signs|], bottom[lo + j - |signs|])
    {
      if i < 0 {
        return Err(NegativeIndex);
      }
      if i >= |bottom| {
        return Err(IndexOutOfRange);
      }
      signs' := signs' + [Indicator(top[i], bottom[i])];
      i := i + 1;
    }
    ghost var sg := TrailingSigns(top, bottom, lo);
    assert signs' == signs + sg.value;
    r := Ok(signs');
  }

  /** The trailing blocks of the renderer and its final indicator loop. */
  method TrailingFlanks(s1: string, s2: string, f: Flank, end: Pos) returns (r: Result<Texts>)
    requires 0 <= end.0 <= |s1| && 0 <= end.1 <= |s2|
    ensures r == Trailing(s1, s2, f, end)
  {
    var eDiff := Max(f.rest1, f.rest2);
    var part1 := AppendTrailing(f.t.top, s1, end.0, f.rest1, eDiff);
    if part1.Err? {
      return Err(part1.error);
    }
    var part2 := AppendTrailing(f.t.bottom, s2, end.1, f.rest2, eDiff);
    if part2.Err? {
      return Err(part2.error);
    }
    var text1, count1 := part1.value.0, part1.value.1;
    var text2, count2 := part2.value.0, part2.value.1;
    var endingAdding := Max(count1, count2);
    var signs := IndicatorLoop(text1, text2, f.t.signs, |text1| - endingAdding);
    if signs.Err? {
      return Err(signs.error);
    }
    r := Ok(Texts(text1, text2, signs.value));
  }

  // ---------------------------------------------------------------------------
  // The whole renderer
  // ---------------------------------------------------------------------------

  /** Every character of an indicator line is '*', '.' or a blank. */
  predicate SignsOk(signs: string) {
    forall i :: 0 <= i < |signs| ==> signs[i] == '*' || signs[i] == '.' || signs[i] == ' '
  }

  /** The three per-step lines read backwards, into sequence order. */
  function ReverseAll(t: Texts): (r: Texts)
    ensures EqualLengths(t) ==> EqualLengths(r)
    ensures SignsOk(t.signs) ==> SignsOk(r.signs)
  {
    var r := Texts(Reverse(t.top), Reverse(t.bottom), Reverse(t.signs));
    assert forall i :: 0 <= i < |r.signs| ==> r.signs[i] == t.signs[|t.signs| - 1 - i];
    r
  }

  /** `r` is what the rest of the renderer makes of the per-step output `o`:
      reversal, the leading blocks from the path's last entry, then the
      trailing blocks from its first entry. The source's counts of bases still
      to place start at |s1| - |pos| + gaps and |s2| - |pos|. */
  predicate Finishes(s1: string, s2: string, pos: seq<Pos>, o: StepsOut, r: Result<Texts>)
    requires PathInGrid(s1, s2, pos)
  {
    var lead := LeadingFlank(s1, s2, Flank(ReverseAll(o.t), |s1| - |pos| + o.gaps, |s2| - |pos|), pos[|pos| - 1]);
    && (lead.Err? ==> r == Err(lead.error))
    && (lead.Ok? ==> r == Trailing(s1, s2, lead.value, pos[0]))
  }

  /** The leading blocks keep the three lines of equal length and put only
      blanks into the indicator line. */
  lemma LeadingKeepsShape(s1: string, s2: string, f: Flank, begin: Pos)
    requires 0 <= begin.0 <= |s1| && 0 <= begin.1 <= |s2|
    requires LeadingFlank(s1, s2, f, begin).Ok?
    ensures EqualLengths(f.t) ==> EqualLengths(LeadingFlank(s1, s2, f, begin).value.t)
    ensures SignsOk(f.t.signs) ==> SignsOk(LeadingFlank(s1, s2, f, begin).value.t.signs)
  {
    var g := LeadingFlank(s1, s2, f, begin).value;
    LeadingPrepends(s1, s2, f, begin);
    var n: nat :| n <= |s1| + |s2| && Prepended(f.t, g.t, n);
    if SignsOk(f.t.signs) {
      forall i | 0 <= i < |g.t.signs| ensures g.t.signs[i] == '*' || g.t.signs[i] == '.' || g.t.signs[i] == ' ' {
        if i >= n {
          assert g.t.signs[i] == f.t.signs[i - n];
        }
      }
    }
  }

  /** The trailing phase appends only '.' and blanks to the indicator line. */
  lemma TrailingKeepsSigns(s1: string, s2: string, f: Flank, end: Pos)
    requires 0 <= end.0 <= |s1| && 0 <= end.1 <= |s2|
    requires Trailing(s1, s2, f, end).Ok? && SignsOk(f.t.signs)
    ensures SignsOk(Trailing(s1, s2, f, end).value.signs)
  {
    var eDiff := Max(f.rest1, f.rest2);
    var p1, p2 := TrailingPart(s1, end.0, f.rest1, eDiff), TrailingPart(s2, end.1, f.rest2, eDiff);
    var top, bottom := f.t.top + p1.value.0, f.t.bottom + p2.value.0;
    var sg := TrailingSigns(top, bottom, |top| - Max(p1.value.1, p2.value.1));
    var r := Trailing(s1, s2, f, end).value;
    assert r.signs == f.t.signs + sg.value;
    forall i | 0 <= i < |r.signs| ensures r.signs[i] == '*' || r.signs[i] == '.' || r.signs[i] == ' ' {
      if i >= |f.t.signs| {
        assert r.signs[i] == sg.value[i - |f.t.signs|];
      }
    }
  }

  /** After the per-step loop, lines of equal length whose indicator holds only
      '*', '.' and blanks end up as a top line no longer than the bottom line,
      which is as long as the indicator line, still holding only those
      characters. */
  lemma FinishShape(s1: string, s2: string, pos: seq<Pos>, o: StepsOut, t: Texts)
    requires PathInGrid(s1, s2, pos)
    requires EqualLengths(o.t) && SignsOk(o.t.signs)
    requires Finishes(s1, s2, pos, o, Ok(t))
    ensures |t.top| <= |t.bottom| == |t.signs| && SignsOk(t.signs)
  {
    var f0 := Flank(ReverseAll(o.t), |s1| - |pos| + o.gaps, |s2| - |pos|);
    assert EqualLengths(f0.t) && SignsOk(f0.t.signs);
    LeadingKeepsShape(s1, s2, f0, pos[|pos| - 1]);
    var f := LeadingFlank(s1, s2, f0, pos[|pos| - 1]).value;
    TrailingShape(s1, s2, f, pos[0]);
    TrailingKeepsSigns(s1, s2, f, pos[0]);
  }

  /** A rendered alignment has a top line no longer than the bottom line, which
      is as long as the indicator line, and every indicator character is '*',
      '.' or a blank. */
  lemma RenderShape(s1: string, s2: string, matchScore: int, scores: seq<int>, pos: seq<Pos>, o: StepsOut, t: Texts)
    requires PathInGrid(s1, s2, pos) && |scores| == |pos| + 1
    requires Steps(s1, s2, matchScore, scores, pos, |pos|) == Ok(o)
    requires Finishes(s1, s2, pos, o, Ok(t))
    ensures |t.top| <= |t.bottom| == |t.signs| && SignsOk(t.signs)
  {
    StepsColumns(s1, s2, matchScore, scores, pos, |pos|);
    FinishShape(s1, s2, pos, o, t);
  }


  /** The loop that collects the scores of the path cells, then the sentinel. */
  method PathScores(m: array2<int>, pos: seq<Pos>) returns (scores: seq<int>)
    requires forall k :: 0 <= k < |pos| ==> InBounds(m, pos[k])
    ensures scores == ScoreList(m, pos)
  {
    scores := [];
    var i := 0;
    while i < |pos|
      invariant 0 <= i <= |pos| && |scores| == i
      invariant forall k :: 0 <= k < i ==> scores[k] == At(m, pos[k])
    {
      scores := scores + [m[pos[i].0, pos[i].1]];
      i := i + 1;
    }
    scores := scores + [Sentinel];
  }

  /** The traceback's path is an admissible input of the renderer: it is
      non-empty and every cell of it lies in the grid. */
  lemma TracedPathRenders(m: array2<int>, s1: string, s2: string, matchScore: int, start: Pos)
    requires m.Length0 == |s1| + 1 && m.Length1 == |s2| + 1
    requires InBounds(m, start)
    ensures PathInGrid(s1, s2, WeightedFinal.Path(m, matchScore, start))
  {
    WeightedFinal.TraceWellFormed(m, matchScore, start.0, start.1, At(m, start));
  }

  /** Everything after the per-step loop: reversal, the leading blocks and
      the trailing blocks. */
  method FinishAlignment(s1: string, s2: string, pos: seq<Pos>, steps: StepsOut) returns (r: Result<Texts>)
    requires PathInGrid(s1, s2, pos)
    ensures Finishes(s1, s2, pos, steps, r)
  {
    var f0 := Flank(ReverseAll(steps.t), |s1| - |pos| + steps.gaps, |s2| - |pos|);
    var lead := LeadingFlanks(s1, s2, f0, pos[|pos| - 1]);
    if lead.Err? {
      return Err(lead.error);
    }
    r := TrailingFlanks(s1, s2, lead.value, pos[0]);
  }

  /** The renderer: per-step columns, reversal, leading flanks, trailing
      flanks. It returns the three lines instead of printing them. */
  method FinalAlignment(m: array2<int>, s1: string, s2: string, matchScore: int, pos: seq<Pos>) returns (r: Result<Texts>)
    requires m.Length0 == |s1| + 1 && m.Length1 == |s2| + 1
    requires PathInGrid(s1, s2, pos)
    ensures var st := Steps(s1, s2, matchScore, ScoreList(m, pos), pos, |pos|);
            && (st.Err? ==> r == Err(st.error))
            && (st.Ok? ==> Finishes(s1, s2, pos, st.value, r))
  {
    var scores := PathScores(m, pos);
    var steps := AlignSteps(s1, s2, matchScore, scores, pos);
    if steps.Err? {
      return Err(steps.error);
    }
    r := FinishAlignment(s1, s2, pos, steps.value);
  }
  // ---------------------------------------------------------------------------
  // Worked examples (shipped constants 4, -2, -4, -2)
  // ---------------------------------------------------------------------------

  /** The first two steps on the traceback of AGA against AAA. */
  lemma AgaAaaFirstSteps()
    ensures Steps("AGA", "AAA", 4, [6, 2, 4, 0, Sentinel], [(3, 2), (2, 1), (1, 1), (0, 0)], 2)
         == Ok(StepsOut(Texts("A-", "AA", "* "), 1))
  {
    var s1, s2, sc, pos := "AGA", "AAA", [6, 2, 4, 0, Sentinel], [(3, 2), (2, 1), (1, 1), (0, 0)];
    assert Steps(s1, s2, 4, sc, pos, 0) == Ok(StepsOut(Texts([], [], []), 0));
    assert s1[2] == 'A' && s2[0] == 'A' && s2[1] == 'A';
    assert [] + ['A'] == "A" && "A" + ['-'] == "A-" && "A" + ['A'] == "AA";
    assert [] + ['*'] == "*" && "*" + [' '] == "* ";
    assert Steps(s1, s2, 4, sc, pos, 1) == Ok(StepsOut(Texts("A", "A", "*"), 0));
  }

  /** The per-step phase on the traceback of AGA against AAA: the step from
      (2, 1) to (1, 1) is a gap column, and (0, 0) puts none. */
  lemma AgaAaaSteps()
    ensures Steps("AGA", "AAA", 4, [6, 2, 4, 0, Sentinel], [(3, 2), (2, 1), (1, 1), (0, 0)], 4)
         == Ok(StepsOut(Texts("A-A", "AAA", "* *"), 1))
  {
    var s1, s2, sc, pos := "AGA", "AAA", [6, 2, 4, 0, Sentinel], [(3, 2), (2, 1), (1, 1), (0, 0)];
    AgaAaaFirstSteps();
    assert s1[0] == 'A' && s2[0] == 'A';
    assert "A-" + ['A'] == "A-A" && "AA" + ['A'] == "AAA" && "* " + ['*'] == "* *";
    assert Steps(s1, s2, 4, sc, pos, 3) == Ok(StepsOut(Texts("A-A", "AAA", "* *"), 1));
  }

  /** Reversal and the leading blocks leave those lines as they are: the path
      ends at (0, 0) and the bottom line already starts with an A. */
  lemma AgaAaaLeading()
    ensures ReverseAll(Texts("A-A", "AAA", "* *")) == Texts("A-A", "AAA", "* *")
    ensures LeadingFlank("AGA", "AAA", Flank(Texts("A-A", "AAA", "* *"), 0, -1), (0, 0))
         == Ok(Flank(Texts("A-A", "AAA", "* *"), 0, -1))
  {
    assert Reverse("A-A") == "A-A" && Reverse("AAA") == "AAA" && Reverse("* *") == "* *";
  }

  /** The trailing blocks: the first sequence has no base left by the source's
      count, the second has -1, so the second gets AA from index 2 - 1 on and a
      gap, and three blanks go into the indicator line. */
  lemma AgaAaaTrailing()
    ensures Trailing("AGA", "AAA", Flank(Texts("A-A", "AAA", "* *"), 0, -1), (3, 2))
         == Ok(Texts("A-A", "AAAAA-", "* *   "))
  {
    var s1, s2 := "AGA", "AAA";
    assert TrailingPart(s1, 3, 0, 0) == Ok(([], 0));
    assert s2[1..] == "AA" && Repeat('-', 1) == "-" && "AA" + "-" == "AA-";
    assert TrailingPart(s2, 2, -1, 0) == Ok(("AA-", 3));
    assert "A-A" + [] == "A-A" && "AAA" + "AA-" == "AAAAA-";
    var sg := TrailingSigns("A-A", "AAAAA-", 0);
    assert sg.Ok? && |sg.value| == 3;
    assert sg.value[0] == Indicator('A', 'A') && sg.value[1] == Indicator('-', 'A') && sg.value[2] == Indicator('A', 'A');
    assert sg.value == "   ";
    assert "* *" + "   " == "* *   ";
  }

  /** AGA against AAA end to end, on the builder's grid (`AgaAaaGrid`) from its
      first maximum (3, 2) (`AgaAaaFirstMax`): the traceback visits (3, 2), (2, 1), (1, 1), (0, 0), and the renderer
      (`FinalAlignment`) yields the lines A-A, AAAAA- and "* *   ". The bottom
      line holds five A's although the second sequence has three, and the top
      line without gaps, AA, is not a substring of AGA: the lines are not the
      inputs' aligned parts with gaps inserted. */
  lemma AgaAaaAlignment(m: array2<int>)
    requires m.Length0 == 4 && m.Length1 == 4
    requires forall i, j :: 0 <= i < 4 && 0 <= j < 4 ==> m[i, j] == WeightedFinal.AgaAaa[i][j]
    ensures var pos := WeightedFinal.Path(m, 4, (3, 2));
            && pos == [(3, 2), (2, 1), (1, 1), (0, 0)]
            && Steps("AGA", "AAA", 4, ScoreList(m, pos), pos, |pos|) == Ok(StepsOut(Texts("A-A", "AAA", "* *"), 1))
            && Finishes("AGA", "AAA", pos, StepsOut(Texts("A-A", "AAA", "* *"), 1), Ok(Texts("A-A", "AAAAA-", "* *   ")))
  {
    WeightedFinal.AgaAaaPath(m);
    var pos := [(3, 2), (2, 1), (1, 1), (0, 0)];
    assert ScoreList(m, pos) == [6, 2, 4, 0, Sentinel];
    AgaAaaSteps();
    AgaAaaLeading();
    AgaAaaTrailing();
  }
  /** The first three steps on the traceback of ACA against CGCA. */
  lemma AcaCgcaFirstSteps()
    ensures Steps("ACA", "CGCA", 4, [6, 2, 2, -2, 0, Sentinel], [(3, 4), (2, 3), (2, 2), (1, 1), (1, 0)], 3)
         == Ok(StepsOut(Texts("A-C", "ACG", "* *"), 1))
  {
    var s1, s2, sc, pos := "ACA", "CGCA", [6, 2, 2, -2, 0, Sentinel], [(3, 4), (2, 3), (2, 2), (1, 1), (1, 0)];
    assert Steps(s1, s2, 4, sc, pos, 0) == Ok(StepsOut(Texts([], [], []), 0));
    assert s1[1] == 'C' && s1[2] == 'A' && s2[1] == 'G' && s2[2] == 'C' && s2[3] == 'A';
    assert [] + ['A'] == "A" && "A" + ['-'] == "A-" && "A-" + ['C'] == "A-C";
    assert "A" + ['C'] == "AC" && "AC" + ['G'] == "ACG";
    assert [] + ['*'] == "*" && "*" + [' '] == "* " && "* " + ['*'] == "* *";
    assert Steps(s1, s2, 4, sc, pos, 1) == Ok(StepsOut(Texts("A", "A", "*"), 0));
    assert Steps(s1, s2, 4, sc, pos, 2) == Ok(StepsOut(Texts("A-", "AC", "* "), 1));
  }

  /** The per-step phase on the traceback of ACA against CGCA. The step from
      (2, 2) to (1, 1) falls from 2 to -2, by the match score, so it is
      rendered as a match: '*' under C over G. */
  lemma AcaCgcaSteps()
    ensures Steps("ACA", "CGCA", 4, [6, 2, 2, -2, 0, Sentinel], [(3, 4), (2, 3), (2, 2), (1, 1), (1, 0)], 5)
         == Ok(StepsOut(Texts("A-C-", "ACGC", "* * "), 2))
  {
    var s1, s2, sc, pos := "ACA", "CGCA", [6, 2, 2, -2, 0, Sentinel], [(3, 4), (2, 3), (2, 2), (1, 1), (1, 0)];
    AcaCgcaFirstSteps();
    assert s2[0] == 'C';
    assert "A-C" + ['-'] == "A-C-" && "ACG" + ['C'] == "ACGC" && "* *" + [' '] == "* * ";
    assert Steps(s1, s2, 4, sc, pos, 4) == Ok(StepsOut(Texts("A-C-", "ACGC", "* * "), 2));
  }

  /** Reversal puts the per-step lines of ACA against CGCA into sequence order. */
  lemma AcaCgcaReversed()
    ensures ReverseAll(Texts("A-C-", "ACGC", "* * ")) == Texts("-C-A", "CGCA", " * *")
  {
    var a, b, c := Reverse("A-C-"), Reverse("ACGC"), Reverse("* * ");
    assert a[0] == '-' && a[1] == 'C' && a[2] == '-' && a[3] == 'A';
    assert b[0] == 'C' && b[1] == 'G' && b[2] == 'C' && b[3] == 'A';
    assert c[0] == ' ' && c[1] == '*' && c[2] == ' ' && c[3] == '*';
    assert a == "-C-A" && b == "CGCA" && c == " * *";
  }

  /** The first leading block: the path ends at (1, 0), so one blank column
      holds the first sequence's A over a gap. */
  lemma AcaCgcaLeading()
    ensures LeadingFlank("ACA", "CGCA", Flank(Texts("-C-A", "CGCA", " * *"), 0, -1), (1, 0))
         == Ok(Flank(Texts("A-C-A", "-CGCA", "  * *"), -1, -1))
  {
    var f := Flank(Texts("-C-A", "CGCA", " * *"), 0, -1);
    assert "ACA"[..1] == "A" && Repeat('-', 1) == "-" && Repeat(' ', 1) == " ";
    assert "A" + "-C-A" == "A-C-A" && "-" + "CGCA" == "-CGCA" && " " + " * *" == "  * *";
    assert FirstSequenceFlank("ACA", "CGCA", f, (1, 0)) == Flank(Texts("A-C-A", "-CGCA", "  * *"), -1, -1);
  }

  /** The trailing blocks add nothing: both counts of bases left are -1. */
  lemma AcaCgcaTrailing()
    ensures Trailing("ACA", "CGCA", Flank(Texts("A-C-A", "-CGCA", "  * *"), -1, -1), (3, 4))
         == Ok(Texts("A-C-A", "-CGCA", "  * *"))
  {
    assert TrailingPart("ACA", 3, -1, -1) == Ok(([], 0));
    assert TrailingPart("CGCA", 4, -1, -1) == Ok(([], 0));
    assert "A-C-A" + [] == "A-C-A" && "-CGCA" + [] == "-CGCA" && "  * *" + [] == "  * *";
  }

  /** ACA against CGCA end to end, on the builder's grid (`AcaCgcaGrid`) from
      its first maximum (3, 4) (`AcaCgcaFirstMax`): the traceback visits
      (3, 4), (2, 3), (2, 2), (1, 1), (1, 0) and the renderer yields A-C-A,
      -CGCA and "  * *". Column 2 shows '*' under C over G: the indicator
      follows the score difference, not the equality of the two symbols. */
  lemma AcaCgcaAlignment(m: array2<int>)
    requires m.Length0 == 4 && m.Length1 == 5
    requires forall i, j :: 0 <= i < 4 && 0 <= j < 5 ==> m[i, j] == WeightedFinal.AcaCgca[i][j]
    ensures var pos := WeightedFinal.Path(m, 4, (3, 4));
            && pos == [(3, 4), (2, 3), (2, 2), (1, 1), (1, 0)]
            && Steps("ACA", "CGCA", 4, ScoreList(m, pos), pos, |pos|) == Ok(StepsOut(Texts("A-C-", "ACGC", "* * "), 2))
            && Finishes("ACA", "CGCA", pos, StepsOut(Texts("A-C-", "ACGC", "* * "), 2), Ok(Texts("A-C-A", "-CGCA", "  * *")))
  {
    WeightedFinal.AcaCgcaPath(m);
    var pos := [(3, 4), (2, 3), (2, 2), (1, 1), (1, 0)];
    assert ScoreList(m, pos) == [6, 2, 2, -2, 0, Sentinel];
    AcaCgcaSteps();
    AcaCgcaReversed();
    AcaCgcaLeading();
    AcaCgcaTrailing();
  }
}
