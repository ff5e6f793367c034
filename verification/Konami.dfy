/** The Konami-code recognizer of the controller firmware: two sequence counters and a
    timeout, driven by joystick/button events and timer ticks. */
module Konami {

  const UP := 0x11
  const DOWN := 0x12
  const LEFT := 0x13
  const RIGHT := 0x14
  const PS2_B := 0x01
  const B1 := 0x02
  const B2 := 0x03
  const COMPLETE := 0x31
  const REV_COMPLETE := 0x32
  const SEMICOMPLETE := 0x33
  const TIMEOUT := 300000

  datatype Symbol = Move(direction: int) | Press(button: int)

  const FORWARD: seq<Symbol> :=
    [Move(UP), Move(UP), Move(DOWN), Move(DOWN), Move(LEFT), Move(RIGHT), Move(LEFT), Move(RIGHT),
     Press(B2), Press(B1), Press(PS2_B)]

  const REVERSE: seq<Symbol> :=
    [Move(DOWN), Move(DOWN), Move(UP), Move(UP), Move(RIGHT), Move(LEFT), Move(RIGHT), Move(LEFT),
     Press(PS2_B), Press(B1), Press(B2)]

  datatype Code = Forward | Backward {
    function At(k: nat): Symbol
      requires k < 11
    {
      if Forward? then FORWARD[k] else REVERSE[k]
    }
  }

  datatype Event = Tick | Input(direction: int, button: int) {
    /** A tick or an input without event moves neither counter. */
    predicate Idle() { Tick? || (direction == 0 && button == 0) }

    /** A move is recognized whatever the buttons do, a press whatever the joystick does. */
    predicate Is(s: Symbol) {
      Input? && match s case Move(d) => direction == d case Press(b) => button == b
    }
  }

  /** `forward` and `backward` count matched symbols, `ticks` is 0 when both are 0. */
  datatype State = State(forward: nat, backward: nat, ticks: nat) {
    predicate Valid() {
      && forward <= 10 && backward <= 10 && (forward == 0 || backward == 0)
      && (ticks == 0 <==> forward == 0 && backward == 0) && ticks <= TIMEOUT + 1
    }
  }

  const CLEAR := State(0, 0, 0)

  /** The recognizer as a table-driven machine. */
  function Next(s: State, e: Event): State {
    match e
    case Tick => if s.ticks == 0 then s else if s.ticks > TIMEOUT then CLEAR else s.(ticks := s.ticks + 1)
    case Input(d, b) =>
      if d == 0 && b == 0 then s
      else if s.forward == 0 && s.backward == 0 then
        if e.Is(FORWARD[0]) then State(1, 0, 1) else if e.Is(REVERSE[0]) then State(0, 1, 1) else CLEAR
      else if 0 < s.forward <= 10 then
        if e.Is(FORWARD[s.forward]) && s.forward < 10 then State(s.forward + 1, 0, 1) else CLEAR
      else if 0 < s.backward <= 10 && e.Is(REVERSE[s.backward]) && s.backward < 10 then State(0, s.backward + 1, 1)
      else CLEAR
  }

  /** What the recognizer reports for an input. */
  function Report(s: State, e: Event): int {
    if e.Idle() then 0
    else if 0 < s.forward <= 10 && e.Is(FORWARD[s.forward]) then
      if s.forward == 10 then COMPLETE else if 7 <= s.forward then SEMICOMPLETE else 0
    else if s.forward == 0 && 0 < s.backward <= 10 && e.Is(REVERSE[s.backward]) then
      if s.backward == 10 then REV_COMPLETE else if 7 <= s.backward then SEMICOMPLETE else 0
    else 0
  }

  class Recognizer {
    var konamiState: nat
    var reverseState: nat
    var tickCount: nat

    ghost function Abs(): State reads this { State(konamiState, reverseState, tickCount) }

    constructor ()
      ensures Abs() == CLEAR
    {
      konamiState, reverseState, tickCount := 0, 0, 0;
    }

    method ClearKonami()
      modifies this
      ensures Abs() == CLEAR
    {
      konamiState, reverseState, tickCount := 0, 0, 0;
    }

    method KonamiTick()
      requires Abs().Valid()
      modifies this
      ensures Abs() == Next(old(Abs()), Tick)
    {
      if tickCount == 0 {
        return;
      }
      var before := tickCount;
      tickCount := tickCount + 1;
      if before > TIMEOUT {
        ClearKonami();
      }
    }

    method CheckKonami(direction: int, button: int) returns (code: int)
      requires Abs().Valid()
      modifies this
      ensures Abs() == Next(old(Abs()), Input(direction, button))
      ensures code == Report(old(Abs()), Input(direction, button))
    {
      if direction == 0 && button == 0 {
        return 0;
      }
      if direction == UP && konamiState == 0 && reverseState == 0 {
        konamiState, tickCount := 1, 1;
        return 0;
      } else if (direction == UP && konamiState == 1)
             || (direction == DOWN && konamiState == 2)
             || (direction == DOWN && konamiState == 3)
             || (direction == LEFT && konamiState == 4)
             || (direction == RIGHT && konamiState == 5)
             || (direction == LEFT && konamiState == 6) {
        konamiState, tickCount := konamiState + 1, 1;
        return 0;
      } else if (direction == RIGHT && konamiState == 7)
             || (button == B2 && konamiState == 8)
             || (button == B1 && konamiState == 9) {
        konamiState, tickCount := konamiState + 1, 1;
        return SEMICOMPLETE;
      } else if button == PS2_B && konamiState == 10 {
        ClearKonami();
        return COMPLETE;
      }

      if direction == DOWN && konamiState == 0 && reverseState == 0 {
        reverseState, tickCount := 1, 1;
        return 0;
      } else if (direction == DOWN && reverseState == 1)
             || (direction == UP && reverseState == 2)
             || (direction == UP && reverseState == 3)
             || (direction == RIGHT && reverseState == 4)
             || (direction == LEFT && reverseState == 5)
             || (direction == RIGHT && reverseState == 6) {
        reverseState, tickCount := reverseState + 1, 1;
        return 0;
      } else if (direction == LEFT && reverseState == 7)
             || (button == PS2_B && reverseState == 8)
             || (button == B1 && reverseState == 9) {
        reverseState, tickCount := reverseState + 1, 1;
        return SEMICOMPLETE;
      } else if button == B2 && reverseState == 10 {
        ClearKonami();
        return REV_COMPLETE;
      }
      ClearKonami();
      return 0;
    }
  }

  /** The state after a history of events, from power-up. */
  function Replay(h: seq<Event>): (s: State)
    ensures s.Valid()
    decreases |h|
  {
    if h == [] then CLEAR else Next(Replay(h[..|h| - 1]), h[|h| - 1])
  }

  function Ticks(h: seq<Event>): nat {
    if h == [] then 0 else (if h[|h| - 1].Tick? then 1 else 0) + Ticks(h[..|h| - 1])
  }

  /** Number of events up to and including the last one that is not idle. */
  function Active(h: seq<Event>): (n: nat)
    ensures n <= |h| && (0 < n ==> !h[n - 1].Idle())
  {
    if h == [] then 0 else if h[|h| - 1].Idle() then Active(h[..|h| - 1]) else |h|
  }

  /** The events spell the first k symbols of the code and nothing else: the first event is
      the first symbol, every event in between is idle, and neither between neighbouring
      symbols nor after the last one do more than TIMEOUT ticks pass. */
  ghost predicate Spells(h: seq<Event>, code: Code, k: nat)
    requires k <= 11
    decreases k
  {
    var n := Active(h);
    && 0 < k && 0 < n && h[n - 1].Is(code.At(k - 1)) && Ticks(h[n..]) <= TIMEOUT
    && if k == 1 then n == 1 else Spells(h[..n - 1], code, k - 1)
  }

  /** Where the run that is under way began. */
  ghost function Start(h: seq<Event>): (a: nat)
    ensures a <= |h|
  {
    if h == [] then 0
    else
      var before := h[..|h| - 1];
      if Replay(before) == CLEAR then |before| else Start(before)
  }

  function CodeOf(s: State): Code { if s.forward > 0 then Forward else Backward }

  function CountOf(s: State): nat { if s.forward > 0 then s.forward else s.backward }

  /** The run accounts for the code, the counter and the tick count of the state. */
  ghost predicate Explained(run: seq<Event>, s: State) {
    && CountOf(s) <= 10 && Spells(run, CodeOf(s), CountOf(s))
    && s.ticks == 1 + Ticks(run[Active(run)..])
  }

  /** From a run under way, an event either clears, idles or matches the next symbol. */
  lemma NextInRun(s: State, e: Event)
    requires s.Valid() && s != CLEAR && Next(s, e) != CLEAR
    ensures 0 < CountOf(s) <= 10 && CodeOf(Next(s, e)) == CodeOf(s)
    ensures e.Idle() ==> && CountOf(Next(s, e)) == CountOf(s)
                         && Next(s, e).ticks == s.ticks + (if e.Tick? then 1 else 0) <= TIMEOUT + 1
    ensures !e.Idle() ==> && e.Is(CodeOf(s).At(CountOf(s)))
                          && CountOf(Next(s, e)) == CountOf(s) + 1 && Next(s, e).ticks == 1
  {
  }

  /** The first symbol of a run. */
  lemma NextFromClear(e: Event)
    requires Next(CLEAR, e) != CLEAR
    ensures !e.Idle() && CountOf(Next(CLEAR, e)) == 1 && Next(CLEAR, e).ticks == 1
    ensures e.Is(CodeOf(Next(CLEAR, e)).At(0))
  {
  }

  lemma NextByMatch(s: State, e: Event, code: Code, k: nat)
    requires s.Valid() && k < 10 && e.Is(code.At(k))
    requires Shows(s, code, k)
    ensures CountOf(Next(s, e)) == k + 1 && CodeOf(Next(s, e)) == code && Next(s, e).ticks == 1
  {
  }

  /** A counter of k > 0 means that the events since the last cleared state spell the first k
      symbols of its code, with at most TIMEOUT ticks between neighbours. */
  lemma {:induction false} CounterTellsHistory(h: seq<Event>)
    requires Replay(h) != CLEAR
    ensures Told(h, Start(h))
    decreases |h|
  {
    var before, e := h[..|h| - 1], h[|h| - 1];
    assert h == before + [e];
    if Replay(before) == CLEAR {
      ToldFirst(before, e);
    } else {
      CounterTellsHistory(before);
      ToldNext(before, e, Start(before));
    }
  }

  /** The run since position a accounts for the state, and started from a cleared one. */
  ghost predicate Told(h: seq<Event>, a: nat) {
    a < |h| && Replay(h[..a]) == CLEAR && Explained(h[a..], Replay(h))
  }

  lemma ReplayThen(before: seq<Event>, e: Event)
    ensures Replay(before + [e]) == Next(Replay(before), e)
  {
    assert (before + [e])[..|before + [e]| - 1] == before;
  }

  lemma ToldFirst(before: seq<Event>, e: Event)
    requires Replay(before) == CLEAR && Replay(before + [e]) != CLEAR
    ensures Told(before + [e], |before|)
  {
    var h := before + [e];
    ReplayThen(before, e);
    assert h[|before|..] == [e] && h[..|before|] == before;
    FirstSymbol(e, Replay(h));
  }

  lemma ToldNext(before: seq<Event>, e: Event, a: nat)
    requires Told(before, a) && Replay(before) != CLEAR && Replay(before + [e]) != CLEAR
    ensures Told(before + [e], a)
  {
    var h := before + [e];
    ReplayThen(before, e);
    Extend(before, e, h, a);
    NextSymbol(before[a..], Replay(before), e, Replay(h));
  }

  lemma FirstSymbol(e: Event, s: State)
    requires s == Next(CLEAR, e) != CLEAR
    ensures Explained([e], s)
  {
    NextFromClear(e);
    assert [e][1..] == [];
  }

  lemma NextSymbol(run: seq<Event>, s: State, e: Event, s': State)
    requires s.Valid() && s != CLEAR && s' == Next(s, e) != CLEAR && Explained(run, s)
    ensures Explained(run + [e], s')
  {
    NextInRun(s, e);
    if e.Idle() {
      IdleExtends(run, e, CodeOf(s), CountOf(s));
    } else {
      MatchExtends(run, e, CodeOf(s), CountOf(s));
    }
  }

  /** A matching event adds a symbol to a run. */
  lemma MatchExtends(run: seq<Event>, e: Event, code: Code, k: nat)
    requires 0 < k <= 10 && Spells(run, code, k) && e.Is(code.At(k)) && !e.Idle()
    ensures Spells(run + [e], code, k + 1) && Ticks((run + [e])[Active(run + [e])..]) == 0
  {
    var longer := run + [e];
    assert longer[..|longer| - 1] == run && longer[|longer|..] == [];
  }

  /** An idle event adds a tick at most. */
  lemma IdleExtends(run: seq<Event>, e: Event, code: Code, k: nat)
    requires 0 < k <= 10 && Spells(run, code, k) && e.Idle()
    requires Ticks(run[Active(run)..]) + (if e.Tick? then 1 else 0) <= TIMEOUT
    ensures Spells(run + [e], code, k)
    ensures Ticks((run + [e])[Active(run + [e])..]) == Ticks(run[Active(run)..]) + (if e.Tick? then 1 else 0)
  {
    var longer, n := run + [e], Active(run);
    IdleStaysInactive(run, e);
    Extend(run, e, longer, n);
    Extend(run, e, longer, n - 1);
    TicksAppend(run[n..], e);
    assert longer[n - 1] == run[n - 1];
  }

  lemma IdleStaysInactive(run: seq<Event>, e: Event)
    requires e.Idle()
    ensures Active(run + [e]) == Active(run)
  {
    assert (run + [e])[..|run + [e]| - 1] == run;
  }

  lemma TicksAppend(h: seq<Event>, e: Event)
    ensures Ticks(h + [e]) == Ticks(h) + (if e.Tick? then 1 else 0)
  {
    assert (h + [e])[..|h + [e]| - 1] == h;
  }

  lemma Cut(pre: seq<Event>, run: seq<Event>, n: nat)
    requires 0 < n <= |run|
    ensures pre + run[..n - 1] + [run[n - 1]] + run[n..] == pre + run
  {
  }

  lemma Extend(before: seq<Event>, e: Event, h: seq<Event>, a: nat)
    requires h == before + [e] && a <= |before|
    ensures h[..a] == before[..a] && h[a..] == before[a..] + [e]
  {
  }

  lemma {:induction false} IdleTail(h: seq<Event>)
    ensures forall i | Active(h) <= i < |h| :: h[i].Idle()
  {
    if h != [] && h[|h| - 1].Idle() {
      IdleTail(h[..|h| - 1]);
    }
  }

  /** Idle events within the timeout only advance the tick count. */
  lemma {:induction false} IdleKeepsCount(h: seq<Event>, idle: seq<Event>)
    requires forall i | 0 <= i < |idle| :: idle[i].Idle()
    requires var s := Replay(h); 0 < s.ticks && s.ticks + Ticks(idle) <= TIMEOUT + 1
    ensures Replay(h + idle) == Replay(h).(ticks := Replay(h).ticks + Ticks(idle))
    decreases |idle|
  {
    if idle == [] {
      assert h + idle == h;
    } else {
      var n := |idle| - 1;
      IdleKeepsCount(h, idle[..n]);
      assert (h + idle)[..|h + idle| - 1] == h + idle[..n];
    }
  }

  /** The state shows k matched symbols of the code. */
  ghost predicate Shows(s: State, code: Code, k: nat) {
    if k == 0 then s == CLEAR else CountOf(s) == k && CodeOf(s) == code && 0 < s.ticks
  }

  lemma MatchAndIdle(h: seq<Event>, e: Event, idle: seq<Event>, code: Code, k: nat)
    requires k < 10 && e.Is(code.At(k)) && Shows(Replay(h), code, k)
    requires Ticks(idle) <= TIMEOUT && forall i | 0 <= i < |idle| :: idle[i].Idle()
    ensures Shows(Replay(h + [e] + idle), code, k + 1)
  {
    var now := h + [e];
    assert now[..|now| - 1] == h;
    NextByMatch(Replay(h), e, code, k);
    IdleKeepsCount(now, idle);
  }

  /** Spelling k symbols from a cleared state brings the code's counter to k. */
  lemma {:induction false} SpellingCounts(pre: seq<Event>, run: seq<Event>, code: Code, k: nat)
    requires Replay(pre) == CLEAR && 0 < k <= 10
    requires Spells(run, code, k)
    ensures Shows(Replay(pre + run), code, k)
    decreases k
  {
    var n := Active(run);
    var h := pre + run[..n - 1];
    if k == 1 {
      assert h == pre;
    } else {
      SpellingCounts(pre, run[..n - 1], code, k - 1);
    }
    IdleTail(run);
    MatchAndIdle(h, run[n - 1], run[n..], code, k - 1);
    Cut(pre, run, n);
  }

  /** COMPLETE (REV_COMPLETE for the reverse code) is reported exactly when the events since
      some cleared state, with this one as the last symbol, spell the whole code. */
  lemma CompleteExactly(h: seq<Event>, e: Event, code: Code)
    ensures Report(Replay(h), e) == (if code == Forward then COMPLETE else REV_COMPLETE) <==>
            !e.Idle() && exists a | 0 <= a <= |h| :: Replay(h[..a]) == CLEAR && Spells(h[a..] + [e], code, 11)
  {
    if Report(Replay(h), e) == (if code == Forward then COMPLETE else REV_COMPLETE) {
      CounterTellsHistory(h);
      MatchExtends(h[Start(h)..], e, code, 10);
    }
    forall a | !e.Idle() && 0 <= a <= |h| && Replay(h[..a]) == CLEAR && Spells(h[a..] + [e], code, 11)
      ensures Report(Replay(h), e) == (if code == Forward then COMPLETE else REV_COMPLETE)
    {
      CompletedBy(h, a, e, code);
    }
  }

  lemma CompletedBy(h: seq<Event>, a: nat, e: Event, code: Code)
    requires !e.Idle() && a <= |h| && Replay(h[..a]) == CLEAR
    requires Spells(h[a..] + [e], code, 11)
    ensures Report(Replay(h), e) == if code == Forward then COMPLETE else REV_COMPLETE
  {
    SpelledSoFar(h, a, e, code, 11);
  }

  /** The events since some cleared state, with `e` as the last one, spell k symbols. */
  ghost predicate SpelledBy(h: seq<Event>, e: Event, code: Code, k: nat) {
    k <= 11 && exists a | 0 <= a <= |h| :: Replay(h[..a]) == CLEAR && Spells(h[a..] + [e], code, k)
  }

  /** SEMICOMPLETE is reported exactly when an event is the 8th, 9th or 10th symbol of a code
      that has been spelled since a cleared state. */
  lemma SemicompleteExactly(h: seq<Event>, e: Event)
    ensures Report(Replay(h), e) == SEMICOMPLETE <==>
            !e.Idle() && exists code, k | 8 <= k <= 10 :: SpelledBy(h, e, code, k)
  {
    if Report(Replay(h), e) == SEMICOMPLETE {
      var code, k := SemicompleteSpelled(h, e);
    }
    forall code, k | !e.Idle() && 8 <= k <= 10 && SpelledBy(h, e, code, k)
      ensures Report(Replay(h), e) == SEMICOMPLETE
    {
      SpelledIsReported(h, e, code, k);
    }
  }

  lemma SemicompleteSpelled(h: seq<Event>, e: Event) returns (code: Code, k: nat)
    requires Report(Replay(h), e) == SEMICOMPLETE
    ensures !e.Idle() && 8 <= k <= 10 && SpelledBy(h, e, code, k)
  {
    code, k := CodeOf(Replay(h)), CountOf(Replay(h)) + 1;
    CounterTellsHistory(h);
    MatchExtends(h[Start(h)..], e, code, k - 1);
  }

  lemma SpelledIsReported(h: seq<Event>, e: Event, code: Code, k: nat)
    requires !e.Idle() && 8 <= k <= 10 && SpelledBy(h, e, code, k)
    ensures Report(Replay(h), e) == SEMICOMPLETE
  {
    var a :| 0 <= a <= |h| && Replay(h[..a]) == CLEAR && Spells(h[a..] + [e], code, k);
    SpelledSoFar(h, a, e, code, k);
  }

  lemma SpelledSoFar(h: seq<Event>, a: nat, e: Event, code: Code, k: nat)
    requires 2 <= k <= 11 && !e.Idle() && a <= |h| && Replay(h[..a]) == CLEAR
    requires Spells(h[a..] + [e], code, k)
    ensures Shows(Replay(h), code, k - 1) && e.Is(code.At(k - 1))
  {
    SpelledParts(h[..a], h[a..], e, code, k);
    assert h == h[..a] + h[a..];
  }

  lemma SpelledParts(pre: seq<Event>, run: seq<Event>, e: Event, code: Code, k: nat)
    requires 2 <= k <= 11 && !e.Idle() && Replay(pre) == CLEAR && Spells(run + [e], code, k)
    ensures Shows(Replay(pre + run), code, k - 1) && e.Is(code.At(k - 1))
  {
    SpellsLast(run, e, code, k);
    SpellingCounts(pre, run, code, k - 1);
  }

  lemma SpellsLast(run: seq<Event>, e: Event, code: Code, k: nat)
    requires 2 <= k <= 11 && !e.Idle() && Spells(run + [e], code, k)
    ensures Spells(run, code, k - 1) && e.Is(code.At(k - 1))
  {
    var longer := run + [e];
    assert Active(longer) == |longer| && longer[..|longer| - 1] == run;
  }
}
