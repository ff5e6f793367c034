/** Arithmetic of centering all bits of a group at once.

    From the edges of bit i (left edge L, right edge R as distances from position 0)
    the firmware computes mid(i) = L - R, the smallest mid over the group, and from
    it one DQS move and one DQ shift per bit, with C's truncating division. */
module Centering {
  import opened Arithmetic
  import opened Deskew

  /** C's x / 2. */
  function TruncHalf(x: int): int { if 0 <= x then x / 2 else -((-x) / 2) }

  function Mids(left: seq<int>, right: seq<int>): (m: seq<int>)
    requires |left| == |right|
    ensures |m| == |left| && forall i | 0 <= i < |m| :: m[i] == left[i] - right[i]
  {
    seq(|left|, i requires 0 <= i < |left| => left[i] - right[i])
  }

  ghost predicate IsMin(m: int, mids: seq<int>) {
    m in mids && forall i | 0 <= i < |mids| :: m <= mids[i]
  }

  /** The DQS move before clamping: positive values are biased up before halving. */
  function MidMin(m: int): int { TruncHalf(if m > 0 then m + 1 else m) }

  /** The DQS move is half the mid, rounded to the right. */
  lemma MidMinIsHalf(m: int)
    ensures m <= 2 * MidMin(m) <= m + 1
  {
  }

  /** The position bit i is moved to when no DQ clamp fires. */
  function Target(mid: int, m: int): int { TruncHalf(mid - m) + MidMin(m) }

  /** Centering is optimal to half a tap. */
  lemma TargetIsCentred(left: int, right: int, m: int)
    requires m <= left - right
    ensures var t := Target(left - right, m);
            && -1 <= (left - t) - (right + t) <= 1
            && (0 <= left + right ==> -right <= t <= left)
  {
  }

  /** The code's clamp of a register value to [0, max]. */
  function Clamp(x: int, max: int): int { if x > max then max else if x < 0 then 0 else x }

  /** The shift of one bit before clamping, given the DQS move actually made. */
  function Shift(mid: int, m: int, strobe: int): int { TruncHalf(mid - m) + (MidMin(m) + strobe) }

  /** For edges a sweep can produce, DQS never hits its upper limit. */
  lemma DqsNeverClampsHigh(m: int, start: int, dqsMax: int)
    requires 0 <= start <= dqsMax && -2 * (dqsMax - start) <= m
    ensures Clamp(start - MidMin(m), dqsMax) == if start < MidMin(m) then 0 else start - MidMin(m)
  {
  }

  /** Where read centering puts a bit: at its target unless the DQ register tops out first. */
  function Placed(mid: int, m: int, strobe: int, max: int): int { Min(Target(mid, m), max - strobe) }

  /** ... and then no DQ shift is negative, whatever the DQS move was clamped to: the DQ
      shift makes up exactly what the DQS clamp took away. */
  lemma ReadPlacement(mid: int, m: int, start: int, dqs: int, strobe: int, max: int)
    requires m <= mid && strobe == dqs - start && dqs == if start < MidMin(m) then 0 else start - MidMin(m)
    ensures Clamp(Shift(mid, m, strobe), max) - strobe == Placed(mid, m, strobe, max)
  {
  }

  /** What read centering achieves for one bit.  With DQS moved by `strobe`, the position `at`
      lies between the edges exactly when the window is not empty and its low end is within
      reach of the DQ register.  It is never right of the centre by more than half a tap, and
      short of the register's limit the two margins are non-negative and differ by at most one
      tap: a register tops out only because the centre is out of its reach. */
  ghost predicate EdgeOutcome(at: int, left: int, right: int, strobe: int, max: int) {
    && (-right <= at <= left <==> 0 <= left + right && -right + strobe <= max)
    && -1 <= (left - at) - (right + at)
    && (at + strobe < max ==> (left - at) - (right + at) <= 1 && (0 <= left + right ==> -right <= at <= left))
  }

  lemma ReadBit(left: int, right: int, m: int, start: int, dqs: int, strobe: int, max: int, dq: int)
    requires 0 <= max && m <= left - right && (0 <= left + right || (left == 0 && right == -1))
    requires strobe == dqs - start && dqs == if start < MidMin(m) then 0 else start - MidMin(m)
    requires dq == Clamp(Shift(left - right, m, strobe), max)
    ensures 0 <= dq <= max && EdgeOutcome(dq - strobe, left, right, strobe, max)
  {
    TargetIsCentred(left, right, m);
    ReadPlacement(left - right, m, start, dqs, strobe, max);
  }

  /** A bit that was moved ends between the edges, with margins that differ by at most one tap;
      one that stays at 0 would have to move below. */
  ghost predicate Balanced(at: int, left: int, right: int) {
    && (left - at) - (right + at) <= 1
    && (0 < at ==> -1 <= (left - at) - (right + at) && (0 <= left + right ==> -right <= at <= left))
  }

  /** Without DQS centering (writes) only the lower DQ clamp can fire. */
  lemma WritePlacement(left: int, right: int, m: int, max: int)
    requires m <= left - right && left <= max && 1 <= max
    requires 0 <= left + right || (left == 0 && right == -1)
    ensures var t := Clamp(Shift(left - right, m, 0), max);
            && t == (if Target(left - right, m) < 0 then 0 else Target(left - right, m))
            && (-right <= t <= left <==> 0 <= left && 0 <= left + right)
            && Balanced(t, left, right)
  {
    TargetIsCentred(left, right, m);
  }

  /** Index of the bit whose window centre lies furthest left. */
  method MinIndex(left: seq<int>, right: seq<int>) returns (k: nat)
    requires 0 < |left| == |right|
    ensures k < |left| && IsMin(left[k] - right[k], Mids(left, right))
    ensures forall j | 0 <= j < k :: left[k] - right[k] < left[j] - right[j]
  {
    k := 0;
    for i := 1 to |left|
      invariant k < i
      invariant forall j | 0 <= j < i :: left[k] - right[k] <= left[j] - right[j]
      invariant forall j | 0 <= j < k :: left[k] - right[k] < left[j] - right[j]
    {
      if left[i] - right[i] < left[k] - right[k] {
        k := i;
      }
    }
    assert Mids(left, right)[k] == left[k] - right[k];
  }

  /** How far DQS moves: minus the halved smallest mid, clamped to the DQS range. */
  method StrobeMove(mid: int, start: int, dqsMax: int) returns (origMidMin: int, midMin: int, newDqs: int)
    ensures origMidMin == MidMin(mid)
    ensures newDqs == Clamp(start - MidMin(mid), dqsMax) && midMin == start - newDqs
  {
    midMin := mid;
    if midMin > 0 {
      midMin := midMin + 1;
    }
    midMin := TruncHalf(midMin);
    origMidMin := midMin;
    newDqs := start - midMin;
    if newDqs > dqsMax {
      newDqs := dqsMax;
    } else if newDqs < 0 {
      newDqs := 0;
    }
    midMin := start - newDqs;
  }

  /** One bit's shift, clamped so that the register stays in [0, max]. */
  method ClampedShift(mid: int, m: int, origMidMin: int, midMin: int, ghost strobe: int, current: int, max: int)
    returns (shift: int)
    requires origMidMin == MidMin(m) && strobe == -midMin && 0 <= current <= max
    ensures current + shift == Clamp(current + Shift(mid, m, strobe), max)
  {
    shift := TruncHalf(mid - m) + (origMidMin - midMin);
    if shift + current > max {
      shift := max - current;
    } else if shift + current < 0 {
      shift := -current;
    }
  }
}
