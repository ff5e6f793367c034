/** Last step of the DQS-enable search: the midpoint of the working window, a delay in
    picoseconds, is split into phase taps and delay taps.  All variables are 32-bit
    unsigned and wrap. */
module DqsEnable {

  const WORD := 0x1_0000_0000

  /** 32-bit unsigned subtraction of values below 2^32. */
  function Sub32(a: int, b: int): int { if b <= a then a - b else a - b + WORD }

  /** The delay of `k` taps of `tap` each, which is their product. */
  function Delay(k: nat, tap: int): int { if k == 0 then 0 else Delay(k - 1, tap) + tap }

  lemma {:induction false} DelayIsProduct(k: nat, tap: int)
    ensures Delay(k, tap) == k * tap
  {
    if k > 0 {
      DelayIsProduct(k - 1, tap);
      assert (k - 1) * tap + tap == k * tap;
    }
  }

  lemma {:induction false} DelayGrows(j: nat, k: nat, tap: int)
    requires 0 < tap && j <= k
    ensures Delay(j, tap) <= Delay(k, tap) && 0 <= Delay(j, tap)
    decreases k
  {
    if k > 0 {
      if j == k {
        DelayGrows(j - 1, k - 1, tap);
      } else {
        DelayGrows(j, k - 1, tap);
      }
    }
  }

  lemma {:induction false} DelayAtLeast(k: nat, tap: int)
    requires 0 < tap
    ensures k <= Delay(k, tap)
  {
    if k > 0 {
      DelayAtLeast(k - 1, tap);
    }
  }

  /** The tap hardware: one phase tap delays by `opa`, one delay tap by `dtap`, and the delay
      chain spans at least one phase tap. */
  datatype Taps = Taps(opa: int, dtap: int, phaseMax: nat, delayMax: nat) {
    ghost predicate Valid() {
      0 < dtap && 0 < opa <= Delay(delayMax, dtap) && 1 <= phaseMax && Cycle() + dtap < WORD
    }

    /** One full cycle of phase taps. */
    function Cycle(): int { Delay(phaseMax + 1, opa) }
  }

  /** Split `workMid` into a phase and a delay.  For a positive midpoint the reduction stops
      at the value `mid` in (0, cycle] that is congruent to it, and the delay reached is the
      smallest reachable one not below `mid` on the phase below it, so it overshoots by less
      than one delay tap; a midpoint inside phase 0 is moved to phase 1 instead.  The phase
      written to the register is legal exactly when the midpoint is positive, as the earlier
      steps of the search hand it over. */
  method SplitCentre(workMid: int, taps: Taps) returns (phase: nat, delay: nat, ghost mid: int, ghost cycles: nat)
    requires 0 <= workMid < WORD && taps.Valid()
    ensures mid + Delay(cycles, taps.Cycle()) == workMid
    ensures workMid > 0 ==> 0 < mid <= taps.Cycle()
    ensures delay <= taps.delayMax
    ensures taps.opa < mid ==>
              && Delay(phase, taps.opa) < mid <= Delay(phase + 1, taps.opa)
              && mid <= Delay(phase, taps.opa) + Delay(delay, taps.dtap) < mid + taps.dtap
    ensures 0 < mid <= taps.opa ==> phase == 1 && delay == 0
    ensures workMid > 0 ==> 1 <= phase
    ensures workMid == 0 ==> phase == WORD - 1 && delay == 0
    ensures phase <= taps.phaseMax <==> workMid > 0
  {
    var work;
    work, cycles := ReduceToCycle(workMid, taps);
    mid := work;
    DelayAtLeast(taps.phaseMax + 1, taps.opa);
    var p, tmp := CountPhases(work, taps);
    tmp := Sub32(tmp, taps.opa);
    delay := CountDelays(work, tmp, taps);
    if p == 1 {
      p, delay := 2, 0;
    }
    phase := Sub32(p, 1);
  }

  /** Subtract whole cycles until at most one is left. */
  method ReduceToCycle(workMid: int, taps: Taps) returns (work: int, ghost cycles: nat)
    requires 0 <= workMid && taps.Valid()
    ensures work + Delay(cycles, taps.Cycle()) == workMid
    ensures taps.opa <= taps.Cycle() && if workMid == 0 then work == 0 else 0 < work <= taps.Cycle()
  {
    work, cycles := workMid, 0;
    var tmp, p := 0, 0;
    while p <= taps.phaseMax
      invariant 0 <= p <= taps.phaseMax + 1 && tmp == Delay(p, taps.opa)
    {
      p, tmp := p + 1, tmp + taps.opa;
    }
    DelayGrows(1, taps.phaseMax + 1, taps.opa);
    while work > tmp
      invariant if workMid == 0 then work == 0 else 0 < work
      invariant work + Delay(cycles, tmp) == workMid
    {
      work, cycles := work - tmp, cycles + 1;
    }
  }

  /** The number of phase taps needed to reach `work`. */
  method CountPhases(work: int, taps: Taps) returns (p: nat, tmp: int)
    requires taps.Valid() && 0 <= work <= taps.Cycle()
    ensures p <= taps.phaseMax + 1 && tmp == Delay(p, taps.opa)
    ensures if work == 0 then p == 0 else 1 <= p && Delay(p - 1, taps.opa) < work <= tmp
    ensures (p == 1 <==> 0 < work <= taps.opa) && (0 < p ==> taps.opa <= tmp)
  {
    p, tmp := 0, 0;
    while p <= taps.phaseMax && tmp < work
      invariant p <= taps.phaseMax + 1 && tmp == Delay(p, taps.opa)
      invariant 0 < p ==> Delay(p - 1, taps.opa) < work
    {
      p, tmp := p + 1, tmp + taps.opa;
    }
    if 1 < p {
      DelayGrows(1, p - 1, taps.opa);
      DelayGrows(1, p, taps.opa);
    }
  }

  /** The number of delay taps that bring `base` up to `work`, if it is below. */
  method CountDelays(work: int, base: int, taps: Taps) returns (delay: nat)
    requires taps.Valid() && 0 <= work && 0 <= base && work - base <= taps.opa
    ensures delay <= taps.delayMax
    ensures if base < work then work <= base + Delay(delay, taps.dtap) < work + taps.dtap else delay == 0
  {
    var tmp := base;
    delay := 0;
    while delay <= taps.delayMax && tmp < work
      invariant delay <= taps.delayMax && tmp == base + Delay(delay, taps.dtap)
      invariant 0 < delay ==> base < work && tmp - taps.dtap < work
    {
      if taps.delayMax <= delay {
        DelayGrows(taps.delayMax, delay, taps.dtap);
        assert false;
      }
      delay, tmp := delay + 1, tmp + taps.dtap;
    }
  }
}
