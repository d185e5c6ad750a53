/** Nucleotide classes used by both aligners' substitution scorers. */
module Nucleotides {

  /** A and G are the purines. */
  predicate IsPurine(c: char) {
    c == 'A' || c == 'G'
  }

  /** C and T are the pyrimidines. */
  predicate IsPyrimidine(c: char) {
    c == 'C' || c == 'T'
  }

  /** A transition replaces a purine by the other purine or a pyrimidine by the
      other pyrimidine; every other substitution is a transversion. */
  predicate IsTransition(a: char, b: char) {
    a != b && ((IsPurine(a) && IsPurine(b)) || (IsPyrimidine(a) && IsPyrimidine(b)))
  }
}

/** Coordinates in a score grid and the relations between them that the
    matrix builders and the tracebacks rely on. */
module Grid {

  /** A (row, column) coordinate; rows follow the first sequence, columns the second. */
  type Pos = (int, int)

  datatype Option<T> = None | Some(value: T)

  predicate InBounds<T>(m: array2<T>, p: Pos) {
    0 <= p.0 < m.Length0 && 0 <= p.1 < m.Length1
  }

  function At<T>(m: array2<T>, p: Pos): T
    reads m
    requires InBounds(m, p)
  {
    m[p.0, p.1]
  }

  /** Row-major scan order: p is visited strictly before q. */
  predicate Before(p: Pos, q: Pos) {
    p.0 < q.0 || (p.0 == q.0 && p.1 < q.1)
  }

  /** A traceback step from p: to the diagonal neighbour (x-1, y-1), to (x, y-1)
      or to (x-1, y). */
  predicate IsStep(p: Pos, q: Pos) {
    q == (p.0 - 1, p.1 - 1) || q == (p.0, p.1 - 1) || q == (p.0 - 1, p.1)
  }

  /** A traceback path that starts at `start`, stays inside the grid, moves by
      one step at a time and so is no longer than the sum of the start's
      coordinates plus one. */
  predicate WellFormedPath<T>(m: array2<T>, start: Pos, path: seq<Pos>) {
    && |path| >= 1
    && path[0] == start
    && (forall k :: 0 <= k < |path| ==> InBounds(m, path[k]))
    && (forall k :: 0 <= k < |path| - 1 ==> IsStep(path[k], path[k + 1]))
    && |path| <= start.0 + start.1 + 1
  }

  function Min(a: int, b: int): (r: int)
    ensures r <= a && r <= b && (r == a || r == b)
  {
    if a <= b then a else b
  }

  function Max(a: int, b: int): (r: int)
    ensures r >= a && r >= b && (r == a || r == b)
  {
    if a >= b then a else b
  }

  /** Prepending a step to a well-formed path from that step's target keeps it well formed. */
  lemma {:induction false} ConsStep<T>(m: array2<T>, p: Pos, q: Pos, rest: seq<Pos>)
    requires InBounds(m, p) && IsStep(p, q)
    requires WellFormedPath(m, q, rest)
    ensures WellFormedPath(m, p, [p] + rest)
  {
    var path := [p] + rest;
    forall k | 0 <= k < |path| - 1
      ensures IsStep(path[k], path[k + 1])
    {
      if k > 0 {
        assert path[k] == rest[k - 1] && path[k + 1] == rest[k];
      }
    }
    forall k | 0 <= k < |path|
      ensures InBounds(m, path[k])
    {
      if k > 0 {
        assert path[k] == rest[k - 1];
      }
    }
  }
}
