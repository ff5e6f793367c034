/** Per-bit deskew sweeps of the DRAM calibration firmware.

    A DQS group has `n` data bits.  Its delay registers decide at which position
    each bit is sampled: position = DQ delay minus the DQS delay added since the
    start of the sweep.  The memory test is an oracle over (half sweep, bit,
    position).  A bit's passing positions form one window; position 0 is tested
    by both half sweeps, and a marginal bit passes there only the first time. */
module Deskew {
  import opened Arithmetic

  /** Which half sweep runs the test: moving DQ (positions 0, 1, ..) or moving DQS (0, -1, ..). */
  datatype Half = DqHalf | DqsHalf

  type Oracle = (Half, nat, int) -> bool

  /** Passing positions lo..hi of one bit (none when lo > hi). */
  datatype Window = Window(lo: int, hi: int, marginal: bool) {
    /** The window as the DQS half observes it. */
    function DqsLo(): int { if marginal then 1 else lo }

    /** Some position of [-reach, max] passes. */
    predicate Meets(reach: int, max: int) { lo <= hi && lo <= max && -reach <= hi }
  }

  /** `w` describes what the oracle answers for bit `i` on the swept positions. */
  ghost predicate Explains(o: Oracle, i: nat, w: Window, reach: int, max: int) {
    && (forall t | 0 < t <= max :: o(DqHalf, i, t) <==> w.lo <= t <= w.hi)
    && (forall t | -reach <= t < 0 :: o(DqsHalf, i, t) <==> w.lo <= t <= w.hi)
    && (o(DqHalf, i, 0) <==> w.lo <= 0 <= w.hi)
    && (o(DqsHalf, i, 0) <==> w.lo <= 0 <= w.hi && !w.marginal)
    && (w.marginal ==> w.lo == 0 <= w.hi)
  }

  ghost predicate AllExplained(o: Oracle, ws: seq<Window>, reach: int, max: int) {
    forall i: nat | i < |ws| :: Explains(o, i, ws[i], reach, max)
  }

  /** Edges recorded after DQ taps 0..d-1. */
  ghost predicate SeenDq(w: Window, d: int) { w.lo <= w.hi && 0 <= w.hi && w.lo < d && 0 < d }

  ghost function DqLeft(w: Window, d: int, max: int): int {
    if SeenDq(w, d) then Min(w.hi, d - 1) else max + 1
  }

  ghost function DqRight(w: Window, d: int, max: int): int {
    if d == 0 || w.lo <= 0 <= w.hi then max + 1 else if SeenDq(w, d) then -w.lo else -d
  }

  /** Edges handed from the DQ half to the DQS half. */
  ghost function HandoverLeft(w: Window, max: int): int { DqLeft(w, max + 1, max) }

  ghost function HandoverRight(w: Window, max: int): int {
    if w.lo > 0 && SeenDq(w, max + 1) then -w.lo else max + 1
  }

  /** Edges recorded after DQS taps 0..d-1. */
  ghost predicate SeenDqs(w: Window, d: int) {
    w.DqsLo() <= w.hi && w.DqsLo() <= 0 && -w.hi < d && 0 < d
  }

  ghost function DqsRight(w: Window, d: int, max: int): int {
    if SeenDqs(w, d) then Min(-w.DqsLo(), d - 1)
    else if w.marginal && 0 < d then -1
    else HandoverRight(w, max)
  }

  ghost function DqsLeft(w: Window, d: int, max: int): int {
    if SeenDq(w, max + 1) then HandoverLeft(w, max)
    else if d == 0 then max + 1
    else if SeenDqs(w, d) then w.hi
    else -d
  }

  /** What a completed sweep must report: the window clipped to the swept range. */
  ghost predicate ExactEdges(w: Window, left: int, right: int, reach: int, max: int) {
    if w.Meets(reach, max) then
      left == Min(w.hi, max) && right == Min(-w.DqsLo(), reach)
    else
      right == max + 1
  }

  lemma CompletedSweepIsExact(w: Window, reach: int, max: int)
    requires 0 <= reach <= max
    requires w.marginal ==> w.lo == 0 <= w.hi
    ensures ExactEdges(w, DqsLeft(w, reach + 1, max), DqsRight(w, reach + 1, max), reach, max)
    ensures w.Meets(reach, max) <==>
            DqsLeft(w, reach + 1, max) != max + 1 && DqsRight(w, reach + 1, max) != max + 1
  {
  }

  /** A bit that was seen, or whose window lies right of zero, and fails at DQS tap `d`
      gets no new edge at any later tap: stopping early loses nothing. */
  lemma NothingAfter(w: Window, d: int, later: int, max: int)
    requires 0 <= d <= later && 0 <= max && !(w.DqsLo() <= -d <= w.hi)
    requires w.marginal ==> w.lo == 0 <= w.hi && 0 < d
    requires SeenDqs(w, d) || SeenDq(w, max + 1)
    ensures DqsLeft(w, later, max) == DqsLeft(w, d, max)
    ensures DqsRight(w, later, max) == DqsRight(w, d, max)
  {
  }

  class Group {
    const n: nat
    const max: int      // IO_IO_IN_DELAY_MAX, or IO_IO_OUT1_DELAY_MAX for writes
    const dqsMax: int   // IO_DQS_IN_DELAY_MAX, or IO_IO_OUT1_DELAY_MAX for writes
    var dq: seq<int>
    var dqs: int
    var dm: int

    ghost predicate Valid() reads this {
      0 < n && 0 < max && 0 <= dqsMax <= max && |dq| == n && 0 <= dqs <= dqsMax
    }

    constructor (bits: nat, ioMax: nat, strobeMax: nat, startDqs: nat)
      requires 0 < bits && 0 < ioMax && startDqs <= strobeMax <= ioMax
      ensures Valid() && n == bits && max == ioMax && dqsMax == strobeMax && dqs == startDqs
    {
      n, max, dqsMax := bits, ioMax, strobeMax;
      dq := seq(bits, _ => 0);
      dqs := startDqs;
      dm := 0;
    }

    /** Bits that pass the memory test at the current register settings. */
    function BitCheck(o: Oracle, half: Half, start: int): (s: set<nat>)
      requires |dq| == n
      reads this
    {
      set i: nat | i < n && o(half, i, dq[i] - (dqs - start))
    }

    /** The sticky mask equals the mask of all `n` bits. */
    predicate AllBits(s: set<nat>) { forall i: nat | i < n :: i in s }

    /** In the DQS half a bit passes at tap `d` when -d lies in the window it then shows. */
    lemma DqsBitCheck(o: Oracle, ws: seq<Window>, start: int, d: int, reach: int)
      requires Valid() && |ws| == n && dqs == start + d && 0 <= d && 0 <= start
      requires reach == dqsMax - start && AllExplained(o, ws, reach, max)
      requires forall i | 0 <= i < n :: dq[i] == 0
      ensures forall i: nat | i < n :: i in BitCheck(o, DqsHalf, start) <==> ws[i].DqsLo() <= -d <= ws[i].hi
    {
      forall i: nat | i < n
        ensures i in BitCheck(o, DqsHalf, start) <==> ws[i].DqsLo() <= -d <= ws[i].hi
      {
        assert Explains(o, i, ws[i], reach, max);
        assert i in BitCheck(o, DqsHalf, start) <==> o(DqsHalf, i, -d);
      }
    }

    ghost predicate DqEdges(ws: seq<Window>, left: array<int>, right: array<int>, d: int)
      requires |ws| == left.Length == right.Length
      reads left, right
    {
      && (forall i | 0 <= i < |ws| :: left[i] == DqLeft(ws[i], d, max))
      && (forall i | 0 <= i < |ws| :: right[i] == DqRight(ws[i], d, max))
    }

    method SweepDq(o: Oracle, ghost ws: seq<Window>, left: array<int>, right: array<int>, ghost reach: int)
      requires Valid() && left != right && |ws| == n == left.Length == right.Length
      requires reach == dqsMax - dqs && AllExplained(o, ws, reach, max)
      requires forall i | 0 <= i < n :: left[i] == right[i] == max + 1
      modifies this`dq, left, right
      ensures Valid()
      ensures DqEdges(ws, left, right, max + 1)
    {
      var sticky: set<nat> := {};
      var d := 0;
      while d <= max
        invariant 0 <= d <= max + 1 && Valid()
        invariant DqEdges(ws, left, right, d)
        invariant forall i: nat | i < n :: i in sticky <==> SeenDq(ws[i], d)
      {
        var bitChk := TestDqTap(o, ws, d, reach);
        sticky := sticky + bitChk;
        if bitChk == {} && AllBits(sticky) {
          forall i: nat | i < n ensures SeenDq(ws[i], d) && ws[i].hi < d {
            assert i in sticky && i !in bitChk;
          }
          break;
        }
        RecordDqTap(d, bitChk, ws, left, right);
        d := d + 1;
      }
    }

    method TestDqTap(o: Oracle, ghost ws: seq<Window>, d: int, ghost reach: int) returns (bitChk: set<nat>)
      requires Valid() && |ws| == n && 0 <= d <= max && AllExplained(o, ws, reach, max)
      modifies this`dq
      ensures Valid()
      ensures forall i: nat | i < n :: i in bitChk <==> ws[i].lo <= d <= ws[i].hi
    {
      dq := seq(n, _ => d);
      bitChk := BitCheck(o, DqHalf, dqs);
      forall i: nat | i < n ensures i in bitChk <==> ws[i].lo <= d <= ws[i].hi {
        assert Explains(o, i, ws[i], reach, max);
        assert i in bitChk <==> o(DqHalf, i, d);
      }
    }

    method RecordDqTap(d: nat, bitChk: set<nat>, ghost ws: seq<Window>, left: array<int>, right: array<int>)
      requires Valid() && left != right && |ws| == n == left.Length == right.Length && d <= max
      requires DqEdges(ws, left, right, d)
      requires forall i: nat | i < n :: i in bitChk <==> ws[i].lo <= d <= ws[i].hi
      modifies left, right
      ensures DqEdges(ws, left, right, d + 1)
    {
      for i := 0 to n
        invariant forall j | 0 <= j < i :: left[j] == DqLeft(ws[j], d + 1, max) && right[j] == DqRight(ws[j], d + 1, max)
        invariant forall j | i <= j < n :: left[j] == DqLeft(ws[j], d, max) && right[j] == DqRight(ws[j], d, max)
      {
        if i in bitChk {
          left[i] := d;
        } else if left[i] == max + 1 {
          right[i] := -(d + 1);
        }
      }
    }

    ghost predicate HandoverEdges(ws: seq<Window>, left: array<int>, right: array<int>)
      requires |ws| == left.Length == right.Length
      reads left, right
    {
      && (forall i | 0 <= i < |ws| :: left[i] == HandoverLeft(ws[i], max))
      && (forall i | 0 <= i < |ws| :: right[i] == HandoverRight(ws[i], max))
    }

    /** Between the halves: a right edge without a left edge is dropped.  The bits that
        start the second half as already seen are those with both edges (reads) or
        those with a left edge (writes). */
    method Handover(needRight: bool, ghost ws: seq<Window>, left: array<int>, right: array<int>)
      returns (sticky: set<nat>)
      requires Valid() && left != right && |ws| == n == left.Length == right.Length
      requires DqEdges(ws, left, right, max + 1)
      modifies right
      ensures HandoverEdges(ws, left, right)
      ensures forall i: nat | i < n ::
                i in sticky <==> left[i] != max + 1 && (needRight ==> right[i] != max + 1)
    {
      sticky := {};
      for i := n downto 0
        invariant forall j | 0 <= j < i :: right[j] == DqRight(ws[j], max + 1, max)
        invariant forall j | i <= j < n :: right[j] == HandoverRight(ws[j], max)
        invariant forall j | j in sticky :: i <= j
        invariant forall j: nat | i <= j < n ::
                    j in sticky <==> left[j] != max + 1 && (needRight ==> right[j] != max + 1)
      {
        if left[i] == max + 1 && right[i] != max + 1 {
          right[i] := max + 1;
        }
        if left[i] != max + 1 && (needRight ==> right[i] != max + 1) {
          sticky := sticky + {i};
        }
      }
    }

    ghost predicate DqsEdges(ws: seq<Window>, left: array<int>, right: array<int>, d: int)
      requires |ws| == left.Length == right.Length
      reads left, right
    {
      && (forall i | 0 <= i < |ws| :: left[i] == DqsLeft(ws[i], d, max))
      && (forall i | 0 <= i < |ws| :: right[i] == DqsRight(ws[i], d, max))
    }

    method TestDqsTap(o: Oracle, ghost ws: seq<Window>, start: int, d: int, ghost reach: int) returns (bitChk: set<nat>)
      requires Valid() && |ws| == n && 0 <= d <= dqsMax - start && 0 <= start
      requires reach == dqsMax - start && AllExplained(o, ws, reach, max)
      requires forall i | 0 <= i < n :: dq[i] == 0
      modifies this`dqs
      ensures Valid()
      ensures forall i: nat | i < n :: i in bitChk <==> ws[i].DqsLo() <= -d <= ws[i].hi
    {
      dqs := d + start;
      bitChk := BitCheck(o, DqsHalf, start);
      DqsBitCheck(o, ws, start, d, reach);
    }

    lemma FinalEdges(ws: seq<Window>, left: array<int>, right: array<int>, d: int, later: int)
      requires Valid() && |ws| == n == left.Length == right.Length && 0 <= d <= later
      requires forall i | 0 <= i < n :: ws[i].marginal ==> ws[i].lo == 0 <= ws[i].hi && 0 < d
      requires forall i | 0 <= i < n :: !(ws[i].DqsLo() <= -d <= ws[i].hi)
      requires forall i | 0 <= i < n :: SeenDqs(ws[i], d) || SeenDq(ws[i], max + 1)
      requires DqsEdges(ws, left, right, d)
      ensures DqsEdges(ws, left, right, later)
    {
      forall i | 0 <= i < n {
        NothingAfter(ws[i], d, later, max);
      }
    }

    /** The read version of the DQS half: stops once every bit has been seen and none passes. */
    method SweepDqsRead(o: Oracle, ghost ws: seq<Window>, left: array<int>, right: array<int>, seen: set<nat>,
                     ghost reach: int)
      requires Valid() && left != right && |ws| == n == left.Length == right.Length
      requires reach == dqsMax - dqs && AllExplained(o, ws, reach, max)
      requires forall i | 0 <= i < n :: dq[i] == 0
      requires HandoverEdges(ws, left, right)
      requires forall i: nat | i < n :: i in seen <==> left[i] != max + 1 && right[i] != max + 1
      modifies this`dqs, left, right
      ensures Valid()
      ensures DqsEdges(ws, left, right, reach + 1)
    {
      var sticky, start, d := seen, dqs, 0;
      while d <= dqsMax - start
        invariant 0 <= d <= dqsMax - start + 1 && Valid()
        invariant DqsEdges(ws, left, right, d)
        invariant forall i: nat | i < n :: i in sticky <==> HandoverRight(ws[i], max) != max + 1 || SeenDqs(ws[i], d)
      {
        var bitChk := TestDqsTap(o, ws, start, d, reach);
        sticky := sticky + bitChk;
        if bitChk == {} && AllBits(sticky) {
          assert forall i: nat | i < n :: i in sticky && i !in bitChk;
          FinalEdges(ws, left, right, d, reach + 1);
          break;
        }
        RecordDqsTap(d, bitChk, ws, left, right);
        d := d + 1;
      }
    }

    method RecordDqsTap(d: int, bitChk: set<nat>, ghost ws: seq<Window>, left: array<int>, right: array<int>)
      requires Valid() && left != right && |ws| == n == left.Length == right.Length && 0 <= d <= dqsMax
      requires forall i | 0 <= i < n :: ws[i].marginal ==> ws[i].lo == 0 <= ws[i].hi
      requires DqsEdges(ws, left, right, d)
      requires forall i: nat | i < n :: i in bitChk <==> ws[i].DqsLo() <= -d <= ws[i].hi
      modifies left, right
      ensures DqsEdges(ws, left, right, d + 1)
    {
      for i := 0 to n
        invariant forall j | 0 <= j < i :: left[j] == DqsLeft(ws[j], d + 1, max) && right[j] == DqsRight(ws[j], d + 1, max)
        invariant forall j | i <= j < n :: left[j] == DqsLeft(ws[j], d, max) && right[j] == DqsRight(ws[j], d, max)
      {
        if i in bitChk {
          right[i] := d;
        } else if d != 0 {
          if right[i] == max + 1 {
            left[i] := -(d + 1);
          }
        } else if right[i] == max + 1 && left[i] != max + 1 {
          right[i] := -1;
        } else if right[i] == max + 1 {
          left[i] := -(d + 1);
        }
      }
    }

    /** The write version: bits with a left edge count as seen, so the sweep may stop at
        tap 0, where the bits still without a right edge are marked marginal. */
    method SweepDqsWrite(o: Oracle, ghost ws: seq<Window>, left: array<int>, right: array<int>, seen: set<nat>,
                      ghost reach: int)
      requires Valid() && left != right && |ws| == n == left.Length == right.Length
      requires reach == dqsMax - dqs && AllExplained(o, ws, reach, max)
      requires forall i | 0 <= i < n :: dq[i] == 0
      requires HandoverEdges(ws, left, right)
      requires forall i: nat | i < n :: i in seen <==> left[i] != max + 1
      modifies this`dqs, left, right
      ensures Valid()
      ensures DqsEdges(ws, left, right, reach + 1)
    {
      var sticky, start, d := seen, dqs, 0;
      while d <= dqsMax - start
        invariant 0 <= d <= dqsMax - start + 1 && Valid()
        invariant DqsEdges(ws, left, right, d)
        invariant forall i: nat | i < n :: i in sticky <==> SeenDq(ws[i], max + 1) || SeenDqs(ws[i], d)
      {
        var bitChk := TestDqsTap(o, ws, start, d, reach);
        sticky := sticky + bitChk;
        if bitChk == {} && AllBits(sticky) {
          assert forall i: nat | i < n :: i in sticky && i !in bitChk;
          if d == 0 {
            MarkMarginal(ws, left, right);
          }
          FinalEdges(ws, left, right, if d == 0 then 1 else d, reach + 1);
          break;
        }
        RecordDqsTap(d, bitChk, ws, left, right);
        d := d + 1;
      }
    }

    method MarkMarginal(ghost ws: seq<Window>, left: array<int>, right: array<int>)
      requires Valid() && left != right && |ws| == n == left.Length == right.Length
      requires forall i | 0 <= i < n :: ws[i].marginal ==> ws[i].lo == 0 <= ws[i].hi
      requires HandoverEdges(ws, left, right)
      requires forall i | 0 <= i < n :: !(ws[i].DqsLo() <= 0 <= ws[i].hi) && SeenDq(ws[i], max + 1)
      modifies right
      ensures DqsEdges(ws, left, right, 1)
    {
      for i := 0 to n
        invariant forall j | 0 <= j < i :: right[j] == DqsRight(ws[j], 1, max)
        invariant forall j | i <= j < n :: right[j] == HandoverRight(ws[j], max)
      {
        if right[i] == max + 1 && left[i] != max + 1 {
          right[i] := -1;
        }
      }
    }
  }
}
