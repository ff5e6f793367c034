/** The two centering routines end to end: sweep, check for windows, centre, and (for
    writes) search and place the data mask. */
module Calibration {
  import opened Arithmetic
  import opened BestRuns
  import opened Centering
  import opened Deskew
  import DmSearch

  /** `margin` is the least of the values bound(i), capped at `cap`. */
  ghost predicate Least(margin: int, values: seq<int>, cap: int) {
    && margin <= cap && (forall i | 0 <= i < |values| :: margin <= values[i])
    && (margin == cap || margin in values)
  }

  /** The register value that the shift loop must program for bit i. */
  function GoalAt(left: seq<int>, right: seq<int>, m: int, strobe: int, max: int, i: nat): int
    requires i < |left| == |right|
  {
    Clamp(Shift(left[i] - right[i], m, strobe), max)
  }

  ghost predicate IsGoal(g: seq<int>, left: seq<int>, right: seq<int>, m: int, strobe: int, max: int) {
    && |g| == |left| == |right|
    && forall i: nat {:trigger GoalAt(left, right, m, strobe, max, i)} | i < |g| ::
         g[i] == GoalAt(left, right, m, strobe, max, i)
  }

  /** Distance of a register setting's position from the left edge. */
  function LeftMargin(left: int, dq: int, strobe: int): int { left - (dq - strobe) }

  function RightMargin(right: int, dq: int, strobe: int): int { right + (dq - strobe) }

  /** Shift every DQ bit and collect the worst margin on either side; `dqMargins` and
      `dqsMargins` are the distances of the reached positions from the two edges. */
  method ShiftBits(g: Group, left: seq<int>, right: seq<int>, k: nat, origMidMin: int, midMin: int, ghost strobe: int)
    returns (dqMargin: int, dqsMargin: int, ghost dqMargins: seq<int>, ghost dqsMargins: seq<int>)
    requires g.Valid() && g.n == |left| == |right| && k < g.n
    requires forall i | 0 <= i < g.n :: g.dq[i] == 0
    requires origMidMin == MidMin(left[k] - right[k]) && strobe == -midMin
    modifies g`dq
    ensures IsGoal(g.dq, left, right, left[k] - right[k], strobe, g.max)
    ensures |dqMargins| == |dqsMargins| == g.n
    ensures forall i | 0 <= i < g.n :: dqMargins[i] == LeftMargin(left[i], g.dq[i], strobe)
    ensures forall i | 0 <= i < g.n :: dqsMargins[i] == RightMargin(right[i], g.dq[i], strobe)
    ensures Least(dqMargin, dqMargins, g.max + 1) && Least(dqsMargin, dqsMargins, g.max + 1)
  {
    ghost var m := left[k] - right[k];
    ghost var goal := seq(g.n, i requires 0 <= i < g.n => GoalAt(left, right, m, strobe, g.max, i));
    dqsMargin, dqMargin := g.max + 1, g.max + 1;
    dqMargins, dqsMargins := [], [];
    for i := 0 to g.n
      invariant |g.dq| == g.n && |dqMargins| == |dqsMargins| == i
      invariant forall j | i <= j < g.n :: g.dq[j] == 0
      invariant forall j | 0 <= j < i :: g.dq[j] == goal[j]
      invariant forall j | 0 <= j < i :: dqMargins[j] == LeftMargin(left[j], goal[j], strobe)
      invariant forall j | 0 <= j < i :: dqsMargins[j] == RightMargin(right[j], goal[j], strobe)
      invariant Least(dqMargin, dqMargins, g.max + 1) && Least(dqsMargin, dqsMargins, g.max + 1)
    {
      var dqM, dqsM := ShiftBit(g, i, left, right, k, origMidMin, midMin, strobe, goal);
      dqMargin := Tighten(dqMargin, dqM, dqMargins, g.max + 1);
      dqsMargin := Tighten(dqsMargin, dqsM, dqsMargins, g.max + 1);
      dqMargins, dqsMargins := dqMargins + [dqM], dqsMargins + [dqsM];
    }
    assert g.dq == goal;
  }

  /** Program one DQ register and measure its margins. */
  method ShiftBit(g: Group, i: nat, left: seq<int>, right: seq<int>, k: nat, origMidMin: int, midMin: int,
                  ghost strobe: int, ghost goal: seq<int>) returns (dqM: int, dqsM: int)
    requires |g.dq| == g.n == |left| == |right| && 0 <= g.max && i < g.n && k < g.n && g.dq[i] == 0
    requires origMidMin == MidMin(left[k] - right[k]) && strobe == -midMin
    requires IsGoal(goal, left, right, left[k] - right[k], strobe, g.max)
    modifies g`dq
    ensures g.dq == old(g.dq)[i := goal[i]]
    ensures dqM == LeftMargin(left[i], goal[i], strobe) && dqsM == RightMargin(right[i], goal[i], strobe)
  {
    var shift := ClampedShift(left[i] - right[i], left[k] - right[k], origMidMin, midMin, strobe, g.dq[i], g.max);
    assert shift == GoalAt(left, right, left[k] - right[k], strobe, g.max, i);
    g.dq := g.dq[i := g.dq[i] + shift];
    dqM, dqsM := left[i] - shift - midMin, right[i] + shift + midMin;
  }

  method Tighten(margin: int, x: int, ghost values: seq<int>, cap: int) returns (r: int)
    requires Least(margin, values, cap)
    ensures Least(r, values + [x], cap)
  {
    r := margin;
    if x < margin {
      r := x;
    }
    assert (values + [x])[|values|] == x;
  }

  /** A negative margin is some bit's. */
  lemma Offender(margin: int, values: seq<int>, cap: int) returns (bad: nat)
    requires Least(margin, values, cap) && margin < 0 <= cap
    ensures bad < |values| && values[bad] < 0
  {
    bad :| bad < |values| && values[bad] == margin;
  }

  /** The verdict `ok` says whether every reached position lies between its bit's edges;
      when it is false, `bad` is a bit for which that fails. */
  ghost predicate Verdict(ok: bool, bad: nat, left: seq<int>, right: seq<int>, dq: seq<int>, strobe: int)
    requires |left| == |right| == |dq|
  {
    if ok then forall i | 0 <= i < |dq| :: -right[i] <= dq[i] - strobe <= left[i]
    else bad < |dq| && !(-right[bad] <= dq[bad] - strobe <= left[bad])
  }

  method ShiftAndJudge(g: Group, left: seq<int>, right: seq<int>, k: nat, origMidMin: int, midMin: int, ghost strobe: int)
    returns (ok: bool, ghost bad: nat)
    requires g.Valid() && g.n == |left| == |right| && k < g.n
    requires forall i | 0 <= i < g.n :: g.dq[i] == 0
    requires origMidMin == MidMin(left[k] - right[k]) && strobe == -midMin
    modifies g`dq
    ensures IsGoal(g.dq, left, right, left[k] - right[k], strobe, g.max)
    ensures Verdict(ok, bad, left, right, g.dq, strobe)
  {
    var dqMargin, dqsMargin, dqMargins, dqsMargins := ShiftBits(g, left, right, k, origMidMin, midMin, strobe);
    ok := dqMargin >= 0 && dqsMargin >= 0;
    bad := 0;
    if dqMargin < 0 {
      bad := Offender(dqMargin, dqMargins, g.max + 1);
    } else if dqsMargin < 0 {
      bad := Offender(dqsMargin, dqsMargins, g.max + 1);
    }
  }

  /** Edges that a sweep can produce when every bit has a window. */
  ghost predicate SweptEdges(left: seq<int>, right: seq<int>, reach: int, max: int) {
    |left| == |right| &&
    forall i | 0 <= i < |left| ::
      && -reach <= left[i] <= max && right[i] <= reach
      && (0 <= left[i] + right[i] || (left[i] == 0 && right[i] == -1))
  }

  /** Read centering: DQS moves by the smallest mid, each DQ bit makes up the difference.
      The upper DQS clamp and the lower DQ clamp never fire. */
  method CenterRead(g: Group, left: seq<int>, right: seq<int>, start: int, ghost reach: int)
    returns (ok: bool, ghost m: int, ghost strobe: int, ghost bad: nat)
    requires g.Valid() && 0 <= start <= g.dqsMax && g.n == |left| && reach == g.dqsMax - start
    requires forall i | 0 <= i < g.n :: g.dq[i] == 0
    requires SweptEdges(left, right, reach, g.max)
    modifies g
    ensures g.Valid() && IsMin(m, Mids(left, right)) && strobe == g.dqs - start
    ensures g.dqs == if start < MidMin(m) then 0 else start - MidMin(m)
    ensures forall i | 0 <= i < g.n :: 0 <= g.dq[i] <= g.max
    ensures forall i | 0 <= i < g.n :: EdgeOutcome(g.dq[i] - strobe, left[i], right[i], strobe, g.max)
    ensures Verdict(ok, bad, left, right, g.dq, strobe)
  {
    ok, m, strobe, bad := MoveAndShift(g, left, right, start);
    ReadGoal(left, right, m, start, g.dqs, strobe, reach, g.dqsMax, g.max, g.dq);
  }

  method MoveAndShift(g: Group, left: seq<int>, right: seq<int>, start: int)
    returns (ok: bool, ghost m: int, ghost strobe: int, ghost bad: nat)
    requires g.Valid() && 0 <= start <= g.dqsMax && g.n == |left| == |right|
    requires forall i | 0 <= i < g.n :: g.dq[i] == 0
    modifies g
    ensures g.Valid() && IsMin(m, Mids(left, right)) && strobe == g.dqs - start
    ensures g.dqs == Clamp(start - MidMin(m), g.dqsMax)
    ensures IsGoal(g.dq, left, right, m, strobe, g.max)
    ensures Verdict(ok, bad, left, right, g.dq, strobe)
  {
    var k := MinIndex(left, right);
    m := left[k] - right[k];
    var origMidMin, midMin, newDqs := StrobeMove(left[k] - right[k], start, g.dqsMax);
    strobe := newDqs - start;
    ok, bad := ShiftAndJudge(g, left, right, k, origMidMin, midMin, strobe);
    g.dqs := newDqs;
  }

  lemma ReadGoal(left: seq<int>, right: seq<int>, m: int, start: int, newDqs: int, strobe: int, reach: int,
                 dqsMax: int, max: int, dq: seq<int>)
    requires 0 <= start <= dqsMax <= max && reach == dqsMax - start && strobe == newDqs - start
    requires SweptEdges(left, right, reach, max) && IsMin(m, Mids(left, right))
    requires newDqs == Clamp(start - MidMin(m), dqsMax)
    requires IsGoal(dq, left, right, m, strobe, max)
    ensures newDqs == if start < MidMin(m) then 0 else start - MidMin(m)
    ensures forall i | 0 <= i < |left| :: 0 <= dq[i] <= max
    ensures forall i | 0 <= i < |left| :: EdgeOutcome(dq[i] - strobe, left[i], right[i], strobe, max)
  {
    DqsNeverClampsHigh(m, start, dqsMax);
    forall i | 0 <= i < |left|
      ensures 0 <= dq[i] <= max && EdgeOutcome(dq[i] - strobe, left[i], right[i], strobe, max)
    {
      assert m <= Mids(left, right)[i] && dq[i] == GoalAt(left, right, m, strobe, max, i);
      ReadBit(left[i], right[i], m, start, newDqs, strobe, max, dq[i]);
    }
  }

  /** Write centering in this build leaves DQS alone, so only the lower DQ clamp can fire:
      the outcome depends on nothing but the signs of the edges. */
  method CenterWrite(g: Group, left: seq<int>, right: seq<int>, start: int, ghost reach: int)
    returns (ok: bool, ghost bad: nat)
    requires g.Valid() && 0 <= start <= g.dqsMax && g.n == |left|
    requires forall i | 0 <= i < g.n :: g.dq[i] == 0
    requires SweptEdges(left, right, reach, g.max)
    modifies g`dq, g`dqs
    ensures g.Valid() && g.dqs == start
    ensures forall i | 0 <= i < g.n :: 0 <= g.dq[i] <= g.max
    ensures Verdict(ok, bad, left, right, g.dq, 0)
    ensures if ok then forall i | 0 <= i < g.n :: 0 <= left[i] && 0 <= left[i] + right[i]
            else !(0 <= left[bad] && 0 <= left[bad] + right[bad])
    ensures forall i | 0 <= i < g.n :: Balanced(g.dq[i], left[i], right[i])
  {
    var k := MinIndex(left, right);
    var origMidMin, _, _ := StrobeMove(left[k] - right[k], start, g.dqsMax);
    ok, bad := ShiftAndJudge(g, left, right, k, origMidMin, 0, 0);
    g.dqs := start;
    WriteGoal(left, right, left[k] - right[k], reach, g.max, g.dq);
  }

  lemma WriteGoal(left: seq<int>, right: seq<int>, m: int, reach: int, max: int, dq: seq<int>)
    requires 1 <= max && SweptEdges(left, right, reach, max)
    requires IsMin(m, Mids(left, right))
    requires IsGoal(dq, left, right, m, 0, max)
    ensures forall i | 0 <= i < |left| :: 0 <= dq[i] <= max
    ensures forall i | 0 <= i < |left| ::
              -right[i] <= dq[i] <= left[i] <==> 0 <= left[i] && 0 <= left[i] + right[i]
    ensures forall i | 0 <= i < |left| :: Balanced(dq[i], left[i], right[i])
  {
    forall i | 0 <= i < |left|
      ensures 0 <= dq[i] <= max && Balanced(dq[i], left[i], right[i])
      ensures -right[i] <= dq[i] <= left[i] <==> 0 <= left[i] && 0 <= left[i] + right[i]
    {
      assert m <= Mids(left, right)[i] && dq[i] == GoalAt(left, right, m, 0, max, i);
      WritePlacement(left[i], right[i], m, max);
    }
  }

  /** Every bit has a passing position in the swept range. */
  ghost predicate AllMeet(ws: seq<Window>, reach: int, max: int) {
    forall i | 0 <= i < |ws| :: ws[i].Meets(reach, max)
  }

  /** The edges reported are the windows clipped to the swept range. */
  ghost predicate AllExact(ws: seq<Window>, left: seq<int>, right: seq<int>, reach: int, max: int) {
    |left| == |right| == |ws| && forall i | 0 <= i < |ws| :: ExactEdges(ws[i], left[i], right[i], reach, max)
  }

  /** Both half sweeps and the check that every bit has a window.  `forRead` selects the
      sticky rule: bits with both edges (reads) or with a left edge (writes) count as seen. */
  method FindEdges(g: Group, o: Oracle, ghost ws: seq<Window>, forRead: bool, ghost reach: int)
    returns (found: bool, left: seq<int>, right: seq<int>)
    requires g.Valid() && |ws| == g.n && reach == g.dqsMax - g.dqs && AllExplained(o, ws, reach, g.max)
    modifies g`dq, g`dqs
    ensures g.Valid() && forall i | 0 <= i < g.n :: g.dq[i] == 0
    ensures AllExact(ws, left, right, reach, g.max)
    ensures found <==> AllMeet(ws, reach, g.max)
  {
    left, right := Sweep(g, o, ws, forRead, reach);
    SweptIsClipped(o, ws, left, right, reach, g.max);
    found := AllFound(left, right, g.max + 1);
  }

  method Sweep(g: Group, o: Oracle, ghost ws: seq<Window>, forRead: bool, ghost reach: int)
    returns (left: seq<int>, right: seq<int>)
    requires g.Valid() && |ws| == g.n && reach == g.dqsMax - g.dqs && AllExplained(o, ws, reach, g.max)
    modifies g`dq, g`dqs
    ensures g.Valid() && |left| == |right| == g.n && forall i | 0 <= i < g.n :: g.dq[i] == 0
    ensures forall i | 0 <= i < g.n :: left[i] == DqsLeft(ws[i], reach + 1, g.max)
    ensures forall i | 0 <= i < g.n :: right[i] == DqsRight(ws[i], reach + 1, g.max)
  {
    var l := new int[g.n](_ => g.max + 1);
    var r := new int[g.n](_ => g.max + 1);
    g.SweepDq(o, ws, l, r, reach);
    g.dq := seq(g.n, _ => 0);
    var seen := g.Handover(forRead, ws, l, r);
    if forRead {
      g.SweepDqsRead(o, ws, l, r, seen, reach);
    } else {
      g.SweepDqsWrite(o, ws, l, r, seen, reach);
    }
    left, right := l[..], r[..];
  }

  lemma SweptIsClipped(o: Oracle, ws: seq<Window>, left: seq<int>, right: seq<int>, reach: int, max: int)
    requires 0 <= reach <= max && |left| == |right| == |ws| && AllExplained(o, ws, reach, max)
    requires forall i | 0 <= i < |ws| :: left[i] == DqsLeft(ws[i], reach + 1, max)
    requires forall i | 0 <= i < |ws| :: right[i] == DqsRight(ws[i], reach + 1, max)
    ensures AllExact(ws, left, right, reach, max)
    ensures AllMeet(ws, reach, max) <==> forall i | 0 <= i < |ws| :: left[i] != max + 1 && right[i] != max + 1
  {
    forall i: nat | i < |ws|
      ensures ExactEdges(ws[i], left[i], right[i], reach, max)
      ensures ws[i].Meets(reach, max) <==> left[i] != max + 1 && right[i] != max + 1
    {
      assert Explains(o, i, ws[i], reach, max);
      CompletedSweepIsExact(ws[i], reach, max);
    }
  }

  method AllFound(left: seq<int>, right: seq<int>, none: int) returns (found: bool)
    requires |left| == |right|
    ensures found <==> forall i | 0 <= i < |left| :: left[i] != none && right[i] != none
  {
    for i := 0 to |left|
      invariant forall j | 0 <= j < i :: left[j] != none && right[j] != none
    {
      if left[i] == none || right[i] == none {
        return false;
      }
    }
    return true;
  }

  lemma MarginalAtZero(o: Oracle, ws: seq<Window>, reach: int, max: int)
    requires AllExplained(o, ws, reach, max)
    ensures forall i | 0 <= i < |ws| :: ws[i].marginal ==> ws[i].lo == 0 <= ws[i].hi
  {
    forall i: nat | i < |ws| ensures ws[i].marginal ==> ws[i].lo == 0 <= ws[i].hi {
      assert Explains(o, i, ws[i], reach, max);
    }
  }

  lemma ClippedEdgesAreSwept(ws: seq<Window>, left: seq<int>, right: seq<int>, reach: int, max: int)
    requires 0 <= reach <= max && 0 < max
    requires forall i | 0 <= i < |ws| :: ws[i].marginal ==> ws[i].lo == 0 <= ws[i].hi
    requires AllExact(ws, left, right, reach, max) && AllMeet(ws, reach, max)
    ensures SweptEdges(left, right, reach, max)
  {
    forall i | 0 <= i < |ws|
      ensures -reach <= left[i] <= max && right[i] <= reach
      ensures 0 <= left[i] + right[i] || (left[i] == 0 && right[i] == -1)
    {
      assert ws[i].Meets(reach, max) && ExactEdges(ws[i], left[i], right[i], reach, max);
    }
  }

  /** Centre of the clipped window, doubled. */
  ghost function ClippedMid(w: Window, reach: int, max: int): int {
    Min(w.hi, max) - Min(-w.DqsLo(), reach)
  }

  ghost predicate LeastMid(m: int, ws: seq<Window>, reach: int, max: int) {
    && (forall i | 0 <= i < |ws| :: m <= ClippedMid(ws[i], reach, max))
    && (exists i | 0 <= i < |ws| :: m == ClippedMid(ws[i], reach, max))
  }

  /** A bit can be brought into its window once DQS has moved by `strobe`: the window is not
      just a marginal position 0, and its low end is within reach of the DQ register. */
  ghost predicate Reachable(w: Window, strobe: int, reach: int, max: int) {
    w.DqsLo() <= w.hi && -Min(-w.DqsLo(), reach) + strobe <= max
  }

  /** Every bit's operating point lies in its window. */
  ghost predicate AllInside(ws: seq<Window>, dq: seq<int>, strobe: int)
    requires |dq| == |ws|
  {
    forall i | 0 <= i < |ws| :: ws[i].DqsLo() <= dq[i] - strobe <= ws[i].hi
  }

  ghost predicate AllReachable(ws: seq<Window>, strobe: int, reach: int, max: int) {
    forall i | 0 <= i < |ws| :: Reachable(ws[i], strobe, reach, max)
  }

  /** Every bit is centred to half a tap, or its DQ register tops out left of the centre. */
  ghost predicate AllCentred(ws: seq<Window>, dq: seq<int>, strobe: int, reach: int, max: int)
    requires |dq| == |ws|
  {
    forall i | 0 <= i < |ws| ::
      || Centred(ws[i], dq[i] - strobe, reach, max)
      || (dq[i] == max && LeftOfCentre(ws[i], dq[i] - strobe, reach, max))
  }

  /** Read deskew.  It fails with DQS restored when some bit has no passing position in
      range.  Otherwise all registers end in range; DQS sits in the middle of the leftmost
      window, or at 0 if it cannot go that far; the result says whether every bit's
      operating point lies in its window, which fails only for a bit that the DQ register
      cannot bring that far; a bit whose DQ register did not top out is centred to half a
      tap, and one that did still lies left of the centre.  `reach` is how far DQS could move,
      `strobe` how far it did move. */
  method VfifoCenter(g: Group, o: Oracle, ghost ws: seq<Window>, ghost reach: int)
    returns (found: bool, ok: bool, ghost m: int, ghost strobe: int)
    requires g.Valid() && |ws| == g.n && reach == g.dqsMax - g.dqs && AllExplained(o, ws, reach, g.max)
    modifies g
    ensures g.Valid() && strobe == g.dqs - old(g.dqs) && forall i | 0 <= i < g.n :: 0 <= g.dq[i] <= g.max
    ensures found <==> AllMeet(ws, reach, g.max)
    ensures !found ==> !ok && strobe == 0 && forall i | 0 <= i < g.n :: g.dq[i] == 0
    ensures found ==> LeastMid(m, ws, reach, g.max)
    ensures found ==> g.dqs == if old(g.dqs) < MidMin(m) then 0 else old(g.dqs) - MidMin(m)
    ensures found ==> (ok <==> AllInside(ws, g.dq, strobe))
    ensures found ==> (ok <==> AllReachable(ws, strobe, reach, g.max))
    ensures found ==> AllCentred(ws, g.dq, strobe, reach, g.max)
  {
    var start := g.dqs;
    var left, right;
    found, left, right := FindEdges(g, o, ws, true, reach);
    if !found {
      g.dqs := start;
      return false, false, 0, 0;
    }
    MarginalAtZero(o, ws, reach, g.max);
    ghost var bad;
    ok, m, strobe, bad := CenterFound(g, ws, left, right, start, reach);
  }

  method CenterFound(g: Group, ghost ws: seq<Window>, left: seq<int>, right: seq<int>, start: int, ghost reach: int)
    returns (ok: bool, ghost m: int, ghost strobe: int, ghost bad: nat)
    requires g.Valid() && |ws| == g.n && 0 <= start <= g.dqsMax && reach == g.dqsMax - start
    requires forall i | 0 <= i < g.n :: g.dq[i] == 0
    requires forall i | 0 <= i < |ws| :: ws[i].marginal ==> ws[i].lo == 0 <= ws[i].hi
    requires AllMeet(ws, reach, g.max) && AllExact(ws, left, right, reach, g.max)
    modifies g
    ensures g.Valid() && strobe == g.dqs - start && forall i | 0 <= i < g.n :: 0 <= g.dq[i] <= g.max
    ensures LeastMid(m, ws, reach, g.max)
    ensures g.dqs == if start < MidMin(m) then 0 else start - MidMin(m)
    ensures ok ==> AllInside(ws, g.dq, strobe)
    ensures ok ==> AllReachable(ws, strobe, reach, g.max)
    ensures !ok ==> bad < g.n && !(ws[bad].DqsLo() <= g.dq[bad] - strobe <= ws[bad].hi)
    ensures !ok ==> bad < g.n && !Reachable(ws[bad], strobe, reach, g.max)
    ensures AllCentred(ws, g.dq, strobe, reach, g.max)
  {
    ClippedEdgesAreSwept(ws, left, right, reach, g.max);
    ok, m, strobe, bad := CenterRead(g, left, right, start, reach);
    Outcomes(ok, bad, ws, left, right, g.dq, strobe, reach, g.max);
    LeastMidOfEdges(ws, left, right, m, reach, g.max);
  }

  lemma LeastMidOfEdges(ws: seq<Window>, left: seq<int>, right: seq<int>, m: int, reach: int, max: int)
    requires AllMeet(ws, reach, max) && AllExact(ws, left, right, reach, max) && IsMin(m, Mids(left, right))
    ensures LeastMid(m, ws, reach, max)
  {
    var mids := Mids(left, right);
    assert forall i | 0 <= i < |ws| :: ws[i].Meets(reach, max) && mids[i] == ClippedMid(ws[i], reach, max);
    var k :| 0 <= k < |mids| && mids[k] == m;
    assert m == ClippedMid(ws[k], reach, max);
  }

  lemma Outcomes(ok: bool, bad: nat, ws: seq<Window>, left: seq<int>, right: seq<int>, dq: seq<int>,
                 strobe: int, reach: int, max: int)
    requires 0 < max && 0 <= reach <= max && strobe <= reach && |dq| == |ws|
    requires forall i | 0 <= i < |ws| :: ws[i].marginal ==> ws[i].lo == 0 <= ws[i].hi
    requires AllMeet(ws, reach, max) && AllExact(ws, left, right, reach, max)
    requires forall i | 0 <= i < |ws| :: 0 <= dq[i] <= max
    requires forall i | 0 <= i < |ws| :: EdgeOutcome(dq[i] - strobe, left[i], right[i], strobe, max)
    requires Verdict(ok, bad, left, right, dq, strobe)
    ensures ok ==> AllInside(ws, dq, strobe)
    ensures ok ==> AllReachable(ws, strobe, reach, max)
    ensures !ok ==> bad < |ws| && !(ws[bad].DqsLo() <= dq[bad] - strobe <= ws[bad].hi)
    ensures !ok ==> bad < |ws| && !Reachable(ws[bad], strobe, reach, max)
    ensures AllCentred(ws, dq, strobe, reach, max)
  {
    forall i | 0 <= i < |ws|
      ensures -right[i] <= dq[i] - strobe <= left[i] <==> ws[i].DqsLo() <= dq[i] - strobe <= ws[i].hi
      ensures -right[i] <= dq[i] - strobe <= left[i] <==> Reachable(ws[i], strobe, reach, max)
      ensures || Centred(ws[i], dq[i] - strobe, reach, max)
              || (dq[i] == max && LeftOfCentre(ws[i], dq[i] - strobe, reach, max))
    {
      BitOutcome(ws[i], dq[i], left[i], right[i], strobe, reach, max);
    }
  }

  lemma BitOutcome(w: Window, dq: int, left: int, right: int, strobe: int, reach: int, max: int)
    requires 0 < max && 0 <= reach <= max && strobe <= reach && 0 <= dq <= max
    requires w.Meets(reach, max) && (w.marginal ==> w.lo == 0 <= w.hi)
    requires ExactEdges(w, left, right, reach, max) && EdgeOutcome(dq - strobe, left, right, strobe, max)
    ensures -right <= dq - strobe <= left <==> w.DqsLo() <= dq - strobe <= w.hi
    ensures -right <= dq - strobe <= left <==> Reachable(w, strobe, reach, max)
    ensures Centred(w, dq - strobe, reach, max) || (dq == max && LeftOfCentre(w, dq - strobe, reach, max))
  {
  }

  /** The distances to the two clipped window edges differ by at most one tap. */
  ghost predicate Centred(w: Window, at: int, reach: int, max: int) {
    var left, right := Min(w.hi, max), Min(-w.DqsLo(), reach);
    && -1 <= (left - at) - (right + at) <= 1
    && (w.DqsLo() <= w.hi ==> 0 <= left - at && 0 <= right + at)
  }

  /** The distance to the clipped window's high end exceeds the one to its low end. */
  ghost predicate LeftOfCentre(w: Window, at: int, reach: int, max: int) {
    Min(w.hi, max) - at > Min(-w.DqsLo(), reach) + at
  }

  ghost predicate RightOfCentre(w: Window, at: int, reach: int, max: int) {
    Min(w.hi, max) - at < Min(-w.DqsLo(), reach) + at
  }

  /** A bit shows a non-empty window that reaches position 0 or beyond. */
  ghost predicate ReachesZero(w: Window) { w.DqsLo() <= w.hi && 0 <= w.hi }

  /** Every bit is centred to half a tap, or its write delay is 0 and still right of the centre. */
  ghost predicate AllRaised(ws: seq<Window>, dq: seq<int>, reach: int, max: int)
    requires |dq| == |ws|
  {
    forall i | 0 <= i < |ws| ::
      Centred(ws[i], dq[i], reach, max) || (dq[i] == 0 && RightOfCentre(ws[i], 0, reach, max))
  }

  /** Write deskew and data mask.  In this build DQS is never moved, so the group succeeds
      exactly when every bit's window reaches position 0 or beyond and the longest passing
      run of the mask starts at or before position 0; then every register is in range and
      every bit and the mask work at their final settings. */
  method WritesCenter(g: Group, o: Oracle, dmPass: Test, ghost ws: seq<Window>, ghost reach: int)
    returns (found: bool, ok: bool, ghost run: Search)
    requires g.Valid() && |ws| == g.n && reach == g.dqsMax - g.dqs && AllExplained(o, ws, reach, g.max)
    modifies g
    ensures g.Valid() && forall i | 0 <= i < g.n :: 0 <= g.dq[i] <= g.max
    ensures found <==> AllMeet(ws, reach, g.max)
    ensures !found ==> !ok
    ensures found ==> Finds(dmPass, -g.max, reach, g.max + 1, run)
    ensures found ==> g.dqs == old(g.dqs) && 0 <= g.dm <= g.max
    ensures found ==> (ok <==> (forall i | 0 <= i < g.n :: ReachesZero(ws[i])) && run.winBest != 0 && run.bgnBest <= 0)
    ensures ok ==> AllInside(ws, g.dq, 0)
    ensures found ==> AllRaised(ws, g.dq, reach, g.max)
    ensures ok ==> run.bgnBest <= -g.dm <= run.endBest && dmPass(-g.dm)
    ensures found ==> DmSearch.MidRun(run, g.dm)
  {
    run := Search(0, 0, 0, 0, 0);
    var start := g.dqs;
    var left, right;
    found, left, right := FindEdges(g, o, ws, false, reach);
    if !found {
      return false, false, run;
    }
    MarginalAtZero(o, ws, reach, g.max);
    ClippedEdgesAreSwept(ws, left, right, reach, g.max);
    var dqOk, bad := CenterWrite(g, left, right, start, reach);
    WriteOutcomes(ws, left, right, g.dq, reach, g.max);
    var s := DmSearch.SearchDm(g, dmPass, start, reach);
    var dmMargin := DmSearch.PlaceDm(g, s, start);
    run := s;
    ok := dqOk && dmMargin >= 0;
  }

  lemma WriteOutcomes(ws: seq<Window>, left: seq<int>, right: seq<int>, dq: seq<int>, reach: int, max: int)
    requires 0 < max && 0 <= reach <= max && |dq| == |ws|
    requires forall i | 0 <= i < |ws| :: ws[i].marginal ==> ws[i].lo == 0 <= ws[i].hi
    requires AllMeet(ws, reach, max) && AllExact(ws, left, right, reach, max)
    requires forall i | 0 <= i < |ws| :: 0 <= dq[i] <= max && Balanced(dq[i], left[i], right[i])
    ensures AllRaised(ws, dq, reach, max)
    ensures forall i | 0 <= i < |ws| :: -right[i] <= dq[i] <= left[i] ==> ws[i].DqsLo() <= dq[i] <= ws[i].hi
    ensures forall i | 0 <= i < |ws| :: ReachesZero(ws[i]) <==> 0 <= left[i] && 0 <= left[i] + right[i]
  {
    forall i | 0 <= i < |ws|
      ensures -right[i] <= dq[i] <= left[i] ==> ws[i].DqsLo() <= dq[i] <= ws[i].hi
      ensures ReachesZero(ws[i]) <==> 0 <= left[i] && 0 <= left[i] + right[i]
      ensures Centred(ws[i], dq[i], reach, max) || (dq[i] == 0 && RightOfCentre(ws[i], 0, reach, max))
    {
      assert ws[i].Meets(reach, max) && ExactEdges(ws[i], left[i], right[i], reach, max);
    }
  }
}
