/** Time-of-day intervals `[start, end)` in minutes since midnight, and the
    two ways of saying that a stored interval collides with a candidate:
    the store query's three-clause filter and plain half-open overlap. */
module Interval {
  import opened ClockText

  /** A well-formed interval: it starts strictly before it ends. The schedule
      record does not enforce this. */
  predicate WellFormed(start: int, end: int)
  {
    start < end
  }

  /** The `$or` filter of the conflict query, for a stored entry
      `[storedStart, storedEnd)` against a candidate `[start, end)`:
      the stored entry holds the candidate's start, or it holds the
      candidate's end, or the candidate contains it. */
  predicate ThreeClause(storedStart: int, storedEnd: int, start: int, end: int)
  {
    || (storedStart <= start && storedEnd > start)
    || (storedStart < end && storedEnd >= end)
    || (storedStart >= start && storedEnd <= end)
  }

  /** Half-open overlap: each interval starts before the other ends. */
  predicate Overlap(aStart: int, aEnd: int, bStart: int, bEnd: int)
  {
    aStart < bEnd && bStart < aEnd
  }

  /** Independent meaning of a collision: some minute lies in both intervals. */
  ghost predicate ShareMinute(aStart: int, aEnd: int, bStart: int, bEnd: int)
  {
    exists t :: Contains(aStart, aEnd, t) && Contains(bStart, bEnd, t)
  }

  predicate Contains(start: int, end: int, t: int)
  {
    start <= t < end
  }

  /** Overlap is symmetric. */
  lemma OverlapSymmetric(aStart: int, aEnd: int, bStart: int, bEnd: int)
    ensures Overlap(aStart, aEnd, bStart, bEnd) <==> Overlap(bStart, bEnd, aStart, aEnd)
  {
  }

  /** The three-clause filter never misses an overlap, whatever the shape of
      either interval: a query that finds nothing rules out every overlap. */
  lemma OverlapImpliesThreeClause(storedStart: int, storedEnd: int, start: int, end: int)
    requires Overlap(storedStart, storedEnd, start, end)
    ensures ThreeClause(storedStart, storedEnd, start, end)
  {
    if storedStart > start && end > storedEnd {
      assert storedStart >= start && storedEnd <= end;
    }
  }

  /** For well-formed intervals the three-clause filter is exactly
      half-open overlap. */
  lemma ThreeClauseIsOverlap(storedStart: int, storedEnd: int, start: int, end: int)
    requires WellFormed(storedStart, storedEnd) && WellFormed(start, end)
    ensures ThreeClause(storedStart, storedEnd, start, end) <==> Overlap(storedStart, storedEnd, start, end)
  {
    if Overlap(storedStart, storedEnd, start, end) {
      OverlapImpliesThreeClause(storedStart, storedEnd, start, end);
    }
  }

  /** The filter is not symmetric in general, but for well-formed intervals
      it does not matter which side is the stored one. */
  lemma ThreeClauseSymmetric(aStart: int, aEnd: int, bStart: int, bEnd: int)
    requires WellFormed(aStart, aEnd) && WellFormed(bStart, bEnd)
    ensures ThreeClause(aStart, aEnd, bStart, bEnd) <==> ThreeClause(bStart, bEnd, aStart, aEnd)
  {
    ThreeClauseIsOverlap(aStart, aEnd, bStart, bEnd);
    ThreeClauseIsOverlap(bStart, bEnd, aStart, aEnd);
  }

  /** A well-formed interval collides with itself. */
  lemma SelfOverlap(start: int, end: int)
    requires WellFormed(start, end)
    ensures ThreeClause(start, end, start, end)
    ensures Overlap(start, end, start, end)
  {
  }

  /** Overlap of non-empty intervals means they share a minute, and back. */
  lemma OverlapIsSharedMinute(aStart: int, aEnd: int, bStart: int, bEnd: int)
    ensures ShareMinute(aStart, aEnd, bStart, bEnd)
        <==> Overlap(aStart, aEnd, bStart, bEnd) && WellFormed(aStart, aEnd) && WellFormed(bStart, bEnd)
  {
    if Overlap(aStart, aEnd, bStart, bEnd) && WellFormed(aStart, aEnd) && WellFormed(bStart, bEnd) {
      var t := if aStart < bStart then bStart else aStart;
      assert Contains(aStart, aEnd, t) && Contains(bStart, bEnd, t);
    }
    if ShareMinute(aStart, aEnd, bStart, bEnd) {
      var t :| Contains(aStart, aEnd, t) && Contains(bStart, bEnd, t);
    }
  }

  /** Touching endpoints do not collide, in either order; partial overlap and
      containment in either direction do. */
  lemma BoundaryCases(a: int, b: int, c: int, d: int)
    requires a < b < c < d
    ensures !ThreeClause(a, b, b, c) && !ThreeClause(b, c, a, b)
    ensures ThreeClause(a, c, b, d) && ThreeClause(b, d, a, c)
    ensures ThreeClause(a, d, b, c) && ThreeClause(b, c, a, d)
  {
  }

  /** An inverted candidate can be reported as a conflict although the two
      intervals do not overlap: the filter only matches overlap on
      well-formed input. */
  lemma InvertedCandidateFlagged()
    ensures ThreeClause(540, 720, 600, 300) && !Overlap(540, 720, 600, 300)
  {
  }

  /** The three-clause filter as the store evaluates it, on the `HH:MM`
      strings of the record with string comparison. */
  predicate ThreeClauseText(storedStart: string, storedEnd: string, start: string, end: string)
  {
    || (LexLessEq(storedStart, start) && LexLess(start, storedEnd))
    || (LexLess(storedStart, end) && LexLessEq(end, storedEnd))
    || (LexLessEq(start, storedStart) && LexLessEq(storedEnd, end))
  }

  /** On zero-padded `HH:MM` strings the store's string filter is the
      minute filter, so the minute model loses nothing. */
  lemma ThreeClauseTextIsMinuteFilter(storedStart: string, storedEnd: string, start: string, end: string)
    requires IsClock(storedStart) && IsClock(storedEnd) && IsClock(start) && IsClock(end)
    ensures ThreeClauseText(storedStart, storedEnd, start, end)
        <==> ThreeClause(ToMinutes(storedStart), ToMinutes(storedEnd), ToMinutes(start), ToMinutes(end))
  {
    LexOrderEqIsTimeOrder(storedStart, start);
    LexOrderIsTimeOrder(start, storedEnd);
    LexOrderIsTimeOrder(storedStart, end);
    LexOrderEqIsTimeOrder(end, storedEnd);
    LexOrderEqIsTimeOrder(start, storedStart);
    LexOrderEqIsTimeOrder(storedEnd, end);
  }
}
