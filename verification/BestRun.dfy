/** Longest passing run on an integer axis, leftmost among ties. */
module BestRuns {

  type Test = int -> bool

  ghost predicate Run(pass: Test, lo: int, hi: int) {
    forall x | lo <= x <= hi :: pass(x)
  }

  /** [bgn, end] of length win is the longest passing run inside [from, last], the leftmost
      one among runs of that length; win is 0 exactly when nothing passes. */
  ghost predicate BestRun(pass: Test, from: int, last: int, bgn: int, end: int, win: int) {
    if win == 0 then
      forall x | from <= x <= last :: !pass(x)
    else
      && from <= bgn <= end <= last && win == end - bgn + 1 && Run(pass, bgn, end)
      && forall lo, hi | from <= lo <= hi <= last && Run(pass, lo, hi) ::
           hi - lo + 1 < win || (hi - lo + 1 == win && bgn <= lo)
  }

  /** A best run is unique. */
  lemma BestRunUnique(pass: Test, from: int, last: int, b: int, e: int, w: int, b': int, e': int, w': int)
    requires BestRun(pass, from, last, b, e, w) && BestRun(pass, from, last, b', e', w')
    ensures w == w' && (w != 0 ==> b == b' && e == e')
  {
    if w != 0 {
      assert pass(b);
    }
    if w' != 0 {
      assert pass(b');
    }
  }

  /** The run that is open at `x`: it starts at `cur` and cannot be extended to the left. */
  ghost predicate OpenRun(pass: Test, from: int, cur: int, x: int) {
    from <= cur <= x && Run(pass, cur, x) && (cur == from || !pass(cur - 1))
  }

  lemma ExtendByFailure(pass: Test, from: int, x: int, b: int, e: int, w: int)
    requires from <= x && BestRun(pass, from, x - 1, b, e, w) && !pass(x)
    ensures BestRun(pass, from, x, b, e, w)
  {
    forall lo, hi | from <= lo <= hi <= x && Run(pass, lo, hi) ensures hi <= x - 1 {
    }
  }

  lemma ExtendByPass(pass: Test, from: int, x: int, b: int, e: int, w: int, cur: int)
    requires BestRun(pass, from, x - 1, b, e, w) && OpenRun(pass, from, cur, x)
    ensures x - cur + 1 > w ==> BestRun(pass, from, x, cur, x, x - cur + 1)
    ensures x - cur + 1 <= w ==> BestRun(pass, from, x, b, e, w)
  {
    assert forall lo | from <= lo <= x && Run(pass, lo, x) :: lo <= cur - 1 <= x ==> pass(cur - 1);
    assert pass(cur);
    if w == 0 {
      forall lo, hi | from <= lo <= hi <= x && Run(pass, lo, hi) ensures lo == hi == x == cur {
        assert pass(lo);
      }
    }
  }

  /** Once fewer positions remain than the best run is long, the answer is final. */
  lemma NoRoomForBetter(pass: Test, from: int, d: int, last: int, b: int, e: int, w: int)
    requires from <= d <= last && BestRun(pass, from, d, b, e, w) && !pass(d) && last - d < w
    ensures BestRun(pass, from, last, b, e, w)
  {
    forall lo, hi | from <= lo <= hi <= last && Run(pass, lo, hi)
      ensures hi <= d || d < lo
    {
    }
  }

  /** The variables of the window search: the run being followed and the best run so far.
      An edge holds the illegal value `none` while it is unknown. */
  datatype Search = Search(bgnCurr: int, endCurr: int, bgnBest: int, endBest: int, winBest: int)

  /** What one test result at position `x` does to the search variables. */
  function Sample(s: Search, x: int, passed: bool, none: int): Search {
    if passed then
      var bgn := if s.bgnCurr == none then x else s.bgnCurr;
      if x - bgn + 1 > s.winBest then Search(bgn, x, bgn, x, x - bgn + 1)
      else s.(bgnCurr := bgn, endCurr := x)
    else s.(bgnCurr := none, endCurr := none)
  }

  /** The search variables after testing positions from..last in order. */
  ghost function Swept(pass: Test, from: int, last: int, none: int): Search
    decreases last - from + 1
  {
    if last < from then Search(none, none, none, none, 0)
    else Sample(Swept(pass, from, last - 1, none), last, pass(last), none)
  }

  /** The best run kept in `s` is the best run of [from, last]. */
  ghost predicate Finds(pass: Test, from: int, last: int, none: int, s: Search) {
    && BestRun(pass, from, last, s.bgnBest, s.endBest, s.winBest)
    && 0 <= s.winBest && (s.winBest == 0 ==> s.bgnBest == s.endBest == none)
  }

  ghost predicate Follows(pass: Test, from: int, last: int, none: int, s: Search) {
    if s.bgnCurr == none then s.endCurr == none && (from <= last ==> !pass(last))
    else s.endCurr == last && OpenRun(pass, from, s.bgnCurr, last)
  }

  lemma {:induction false} SweptIsExact(pass: Test, from: int, last: int, none: int)
    requires last < none && from - 1 <= last
    ensures Finds(pass, from, last, none, Swept(pass, from, last, none))
    ensures Follows(pass, from, last, none, Swept(pass, from, last, none))
    decreases last - from + 1
  {
    if from <= last {
      SweptIsExact(pass, from, last - 1, none);
      var s := Swept(pass, from, last - 1, none);
      if pass(last) {
        var bgn := if s.bgnCurr == none then last else s.bgnCurr;
        assert OpenRun(pass, from, bgn, last);
        ExtendByPass(pass, from, last, s.bgnBest, s.endBest, s.winBest, bgn);
      } else {
        ExtendByFailure(pass, from, last, s.bgnBest, s.endBest, s.winBest);
      }
    }
  }

  /** Position `x` is shared by both half searches: testing it again changes nothing, and
      the second half goes on with the open run exactly when that run touches `x`. */
  lemma JoinIsIdle(pass: Test, from: int, x: int, none: int)
    requires from <= x < none
    ensures var s := Swept(pass, from, x, none);
            && Sample(s, x, pass(x), none) == s
            && (s.endCurr != x ==> s.bgnCurr == s.endCurr == none)
  {
    SweptIsExact(pass, from, x, none);
    var s := Swept(pass, from, x, none);
    if s.bgnCurr != none {
      assert Run(pass, s.bgnCurr, x);
    }
  }

  /** Stopping at a failing `d` with fewer positions left than the best run is long. */
  lemma EarlyExitIsExact(pass: Test, from: int, d: int, last: int, none: int)
    requires from <= d <= last < none && !pass(d) && last - d < Swept(pass, from, d, none).winBest
    ensures Finds(pass, from, last, none, Swept(pass, from, d, none))
  {
    SweptIsExact(pass, from, d, none);
    var s := Swept(pass, from, d, none);
    NoRoomForBetter(pass, from, d, last, s.bgnBest, s.endBest, s.winBest);
  }
}
