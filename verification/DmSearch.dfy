/** Data-mask window search and placement. */
module DmSearch {
  import opened BestRuns
  import opened Centering
  import opened Deskew

  /** Positions -max..0 by moving DM, then 0..dqsMax-newDqs by moving DQS, joined at 0,
      with an early exit: the longest passing run, leftmost among ties. */
  method SearchDm(g: Group, pass: Test, newDqs: int, ghost reach: int) returns (s: Search)
    requires g.Valid() && g.dqs == newDqs && reach == g.dqsMax - newDqs
    modifies g`dm, g`dqs
    ensures g.Valid() && g.dm == 0
    ensures Finds(pass, -g.max, reach, g.max + 1, s)
  {
    var none := g.max + 1;
    s := Search(none, none, none, none, 0);
    var d := g.max;
    while 0 <= d
      invariant -1 <= d <= g.max && g.dqs == newDqs
      invariant s == Swept(pass, -g.max, -d - 1, none)
    {
      g.dm := d;
      s := Sample(s, -d, pass(g.dqs - newDqs - g.dm), none);
      d := d - 1;
    }
    g.dm := 0;
    JoinIsIdle(pass, -g.max, 0, none);
    if s.endCurr != 0 {
      s := s.(bgnCurr := none, endCurr := none);
    }
    s := SearchByDqs(g, pass, newDqs, s, reach);
  }

  method SearchByDqs(g: Group, pass: Test, newDqs: int, s0: Search, ghost reach: int) returns (s: Search)
    requires g.Valid() && g.dqs == newDqs && g.dm == 0 && reach == g.dqsMax - newDqs
    requires s0 == Swept(pass, -g.max, 0, g.max + 1)
    modifies g`dqs
    ensures g.Valid()
    ensures Finds(pass, -g.max, reach, g.max + 1, s)
  {
    var none, d := g.max + 1, 0;
    s := s0;
    JoinIsIdle(pass, -g.max, 0, none);
    while d <= g.dqsMax - newDqs
      invariant 0 <= d <= g.dqsMax - newDqs + 1 && g.Valid() && g.dm == 0
      invariant s == Swept(pass, -g.max, if d == 0 then 0 else d - 1, none)
    {
      g.dqs := d + newDqs;
      var passed := pass(g.dqs - newDqs - g.dm);
      s := Sample(s, d, passed, none);
      if !passed && s.winBest - 1 > g.dqsMax - newDqs - d {
        EarlyExitIsExact(pass, -g.max, d, reach, none);
        return;
      }
      d := d + 1;
    }
    SweptIsExact(pass, -g.max, reach, none);
  }

  /** The mask delay is the middle of the run to half a tap, or 0 if the middle is right of 0. */
  ghost predicate MidRun(s: Search, dm: int) {
    s.winBest != 0 ==>
      && (-dm - s.bgnBest) - (s.endBest + dm) <= 1
      && (0 < dm ==> 0 <= (-dm - s.bgnBest) - (s.endBest + dm))
  }

  /** The mask is moved to the middle of its run, but only to the right of position 0's DQS;
      the margin is the distance from there to the run's left end. */
  method PlaceDm(g: Group, s: Search, newDqs: int) returns (dmMargin: int)
    requires g.Valid() && 0 <= newDqs <= g.dqsMax
    requires if s.winBest == 0 then s.bgnBest == s.endBest == g.max + 1
             else -g.max <= s.bgnBest <= s.endBest <= g.max
    modifies g`dm, g`dqs
    ensures g.Valid() && g.dqs == newDqs && 0 <= g.dm <= g.max
    ensures s.winBest != 0 ==> dmMargin == -g.dm - s.bgnBest
    ensures 0 <= dmMargin <==> s.winBest != 0 && s.bgnBest <= -g.dm <= s.endBest
    ensures 0 <= dmMargin <==> s.winBest != 0 && s.bgnBest <= 0
    ensures MidRun(s, g.dm) && (s.winBest == 0 ==> g.dm == 0)
  {
    var left, right := -s.bgnBest, s.endBest;
    g.dqs := newDqs;
    var mid := TruncHalf(left - right);
    if mid < 0 {
      mid := 0;
    }
    dmMargin := if s.winBest == 0 then -1 else left - mid;
    g.dm := mid;
  }
}
