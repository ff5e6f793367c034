/** Reception in the UART driver: an interrupt handler and a reading task share a ring
    buffer of bytes, a stash for one FIFO load that did not fit, a held piece of the ring
    and a byte counter.  Every event is one step that runs undisturbed. */
module UartRx {
  import opened Arithmetic
  import opened Bytes

  /** Where the handler is: it drains the FIFO, then sets the full flag or adds to the counter. */
  datatype Isr = Idle | PushFailed | Credit(n: nat)

  /** Where the reader is inside its read call. */
  datatype Phase = Away | Loop | Return | Test | Resent | Credited

  datatype RxEvent =
    | Arrive(b: Byte)
    | Handle                // the handler runs without the reader stepping in between
    | IsrBegin | IsrEnd     // ... or in two halves, as on another core
    | Take(length: nat) | Receive(k: nat) | Copy | GiveBack | Resend | CreditStash | ClearFlag | Release
    | Debit(i: nat)         // a reader corrects the counter after giving up the mutex
  {
    predicate FromHardware() { Arrive? || Handle? || IsrBegin? || IsrEnd? }
  }

  ghost function Sum(s: seq<nat>): nat {
    if s == [] then 0 else s[0] + Sum(s[1..])
  }

  datatype Rx = Rx(
    cap: nat, depth: nat,           // ring capacity, hardware FIFO depth
    arrived: seq<Byte>, delivered: seq<Byte>,
    hw: seq<Byte>, ring: seq<Byte>,
    item: seq<Byte>, occupied: nat, // unread rest of the held piece, and the room it takes
    stash: seq<Byte>, full: bool,
    buffered: int,
    isr: Isr, phase: Phase, want: nat, copied: nat, debts: seq<nat>)
  {
    function Free(): int { cap - |ring| - occupied }

    /** The stash holds bytes that are nowhere else. */
    predicate StashLive() { isr == PushFailed || (full && phase != Resent && phase != Credited) }

    /** Everything received and not yet delivered, oldest first. */
    function Waiting(): seq<Byte> { item + ring + (if StashLive() then stash else []) + hw }

    /** Bytes pushed to the ring and not yet added to the counter. */
    function Credits(): nat {
      (if isr.Credit? then isr.n else 0) + (if phase == Resent then |stash| else 0)
    }

    /** Bytes delivered and not yet taken off the counter. */
    ghost function Debits(): nat { copied + Sum(debts) }

    ghost predicate Ordered() { delivered + Waiting() == arrived }

    ghost predicate Counted() { buffered == |ring| + |item| + Debits() - Credits() }

    ghost predicate Fits() {
      && |ring| + occupied <= cap && |item| <= occupied && |hw| <= depth && |stash| <= depth < cap
      && (item == [] && phase != Return ==> occupied == 0)
      && (phase == Return || phase == Test || phase == Resent || phase == Credited ==> item == [])
      && (phase == Away ==> copied == 0)
      && (phase == Resent || phase == Credited ==> full)
      && (isr != Idle ==> !full)
    }

    ghost predicate Good() { Ordered() && Counted() && Fits() }

    /** The reader can still get to the point where it sends the stash again. */
    ghost predicate NotWedged() {
      full ==> ring != [] || item != [] || phase == Return || phase == Test || phase == Resent || phase == Credited
    }

    function Begin(): Rx {
      if isr != Idle || full then this
      else if |hw| <= Free() then this.(stash := hw, hw := [], ring := ring + hw, isr := Credit(|hw|))
      else this.(stash := hw, hw := [], isr := PushFailed)
    }

    function End(): Rx {
      match isr
      case Idle => this
      case PushFailed => this.(full := true, isr := Idle)
      case Credit(n) => this.(buffered := buffered + n, isr := Idle)
    }

    /** An event that cannot happen in this state changes nothing. */
    function Step(e: RxEvent): Rx {
      match e
      case Arrive(b) =>
        if |hw| < depth then this.(hw := hw + [b], arrived := arrived + [b]) else this
      case Handle => if isr == Idle then Begin().End() else this
      case IsrBegin => Begin()
      case IsrEnd => End()
      case Take(length) =>
        if phase == Away then this.(phase := Loop, want := length, copied := 0) else this
      case Receive(k) =>
        if phase == Loop && 0 < want && item == [] && 0 < k <= |ring|
        then this.(item := ring[..k], occupied := k, ring := ring[k..]) else this
      case Copy =>
        if phase != Loop || want == 0 || item == [] then this
        else
          var n := Min(|item|, want);
          this.(delivered := delivered + item[..n], item := item[n..], want := want - n, copied := copied + n,
                phase := if n == |item| then Return else Loop)
      case GiveBack => if phase == Return then this.(occupied := 0, phase := Test) else this
      case Resend =>
        if phase != Test then this
        else if full && |stash| <= Free() then this.(ring := ring + stash, phase := Resent)
        else this.(phase := Loop)
      case CreditStash =>
        if phase == Resent then this.(buffered := buffered + |stash|, phase := Credited) else this
      case ClearFlag => if phase == Credited then this.(full := false, phase := Loop) else this
      case Release =>
        if phase == Loop && (want == 0 || (item == [] && ring == []))
        then this.(phase := Away, want := 0, copied := 0, debts := debts + [copied]) else this
      case Debit(i) =>
        if i < |debts| then this.(buffered := buffered - debts[i], debts := debts[..i] + debts[i + 1..]) else this
    }

    function Run(events: seq<RxEvent>): Rx
      decreases |events|
    {
      if events == [] then this else Step(events[0]).Run(events[1..])
    }
  }

  function Initial(cap: nat, depth: nat): Rx {
    Rx(cap, depth, [], [], [], [], [], 0, [], false, 0, Idle, Away, 0, 0, [])
  }

  lemma {:induction false} RunSplit(s: Rx, a: seq<RxEvent>, b: seq<RxEvent>)
    ensures s.Run(a + b) == s.Run(a).Run(b)
    decreases |a|
  {
    if a == [] {
      assert a + b == b;
    } else {
      assert (a + b)[1..] == a[1..] + b;
      RunSplit(s.Step(a[0]), a[1..], b);
    }
  }

  /** One more step at the end of a run. */
  lemma RunThen(s: Rx, a: seq<RxEvent>, e: RxEvent)
    ensures s.Run(a + [e]) == s.Run(a).Step(e)
  {
    RunSplit(s, a, [e]);
    assert s.Run(a).Run([e]) == s.Run(a).Step(e).Run([]);
  }

  /** Steps of the reader only. */
  predicate ByReader(events: seq<RxEvent>) { forall i | 0 <= i < |events| :: !events[i].FromHardware() }

  lemma ReaderThen(events: seq<RxEvent>, e: RxEvent)
    requires ByReader(events) && !e.FromHardware()
    ensures ByReader(events + [e])
  {
  }

  lemma {:induction false} SumSplit(s: seq<nat>, t: seq<nat>)
    ensures Sum(s + t) == Sum(s) + Sum(t)
  {
    if s == [] {
      assert s + t == t;
    } else {
      assert (s + t)[1..] == s[1..] + t;
      SumSplit(s[1..], t);
    }
  }

  lemma SumWithout(s: seq<nat>, i: nat)
    requires i < |s|
    ensures Sum(s) == s[i] + Sum(s[..i] + s[i + 1..])
  {
    assert s == s[..i] + s[i..] && s[i..][1..] == s[i + 1..];
    SumSplit(s[..i], s[i..]);
    SumSplit(s[..i], s[i + 1..]);
  }

  /** The handler's halves only move bytes from one place to the next. */
  lemma IsrKeepsWaiting(s: Rx)
    requires s.Good()
    ensures s.Begin().Waiting() == s.Waiting() && s.End().Waiting() == s.Waiting()
  {
    if s.isr == Idle && !s.full {
      assert s.item + (s.ring + s.hw) + [] + [] == s.item + s.ring + [] + s.hw;
      assert s.item + s.ring + s.hw + [] == s.item + s.ring + [] + s.hw;
    }
  }

  lemma ReceiveKeepsWaiting(s: Rx, k: nat)
    requires s.Good() && s.item == [] && k <= |s.ring|
    ensures s.(item := s.ring[..k], occupied := k, ring := s.ring[k..]).Waiting() == s.Waiting()
  {
    assert s.ring[..k] + s.ring[k..] == [] + s.ring;
  }

  lemma MoveHead(d: seq<Byte>, i: seq<Byte>, r: seq<Byte>, t: seq<Byte>, h: seq<Byte>, n: nat)
    requires n <= |i|
    ensures (d + i[..n]) + (i[n..] + r + t + h) == d + (i + r + t + h)
  {
    assert i[..n] + i[n..] == i;
  }

  lemma CopyMovesHead(s: Rx)
    requires s.Good()
    ensures s.Step(Copy).Ordered()
  {
    var r := s.Step(Copy);
    if r != s {
      var n := Min(|s.item|, s.want);
      MoveHead(s.delivered, s.item, s.ring, if s.StashLive() then s.stash else [], s.hw, n);
    }
  }

  lemma ResendKeepsWaiting(s: Rx)
    requires s.Good()
    ensures s.Step(Resend).Waiting() == s.Waiting()
  {
    if s.phase == Test && s.full {
      assert s.item + (s.ring + s.stash) + [] + s.hw == s.item + s.ring + s.stash + s.hw;
    }
  }

  lemma ArriveIsGood(s: Rx, b: Byte)
    requires s.Good()
    ensures s.Step(Arrive(b)).Good()
  {
    var x := s.item + s.ring + (if s.StashLive() then s.stash else []);
    assert s.delivered + (x + (s.hw + [b])) == s.delivered + (x + s.hw) + [b];
  }

  lemma EndIsGood(s: Rx)
    requires s.Good()
    ensures s.End().Good()
  {
    IsrKeepsWaiting(s);
  }

  lemma HandlerIsGood(s: Rx, e: RxEvent)
    requires s.Good() && e.FromHardware()
    ensures s.Step(e).Good()
  {
    match e
    case Arrive(b) => ArriveIsGood(s, b);
    case Handle =>
      BeginIsGood(s);
      EndIsGood(s.Begin());
    case IsrBegin => BeginIsGood(s);
    case IsrEnd => EndIsGood(s);
  }

  lemma ReaderIsOrdered(s: Rx, e: RxEvent)
    requires s.Good() && !e.FromHardware()
    ensures s.Step(e).Ordered()
  {
    if e.Receive? && s.item == [] && e.k <= |s.ring| {
      ReceiveKeepsWaiting(s, e.k);
    } else if e.Copy? {
      CopyMovesHead(s);
    } else if e.Resend? {
      ResendKeepsWaiting(s);
    } else {
      assert s.Step(e).Waiting() == s.Waiting();
    }
  }

  lemma BeginIsGood(s: Rx)
    requires s.Good()
    ensures s.Begin().Good()
  {
    IsrKeepsWaiting(s);
  }

  lemma ReaderIsCounted(s: Rx, e: RxEvent)
    requires s.Good() && !e.FromHardware()
    ensures s.Step(e).Counted()
  {
    if e.Release? {
      SumSplit(s.debts, [s.copied]);
    } else if e.Debit? && e.i < |s.debts| {
      SumWithout(s.debts, e.i);
    }
  }

  lemma ReaderFits(s: Rx, e: RxEvent)
    requires s.Good() && !e.FromHardware()
    ensures s.Step(e).Fits()
  {
  }

  lemma StepIsGood(s: Rx, e: RxEvent)
    requires s.Good()
    ensures s.Step(e).Good()
  {
    if e.FromHardware() {
      HandlerIsGood(s, e);
    } else {
      ReaderIsOrdered(s, e);
      ReaderIsCounted(s, e);
      ReaderFits(s, e);
    }
  }

  /** Conservation over every run, also when the handler and the reader overlap: delivered
      bytes, then the held piece, the ring, the stash while it is live and the hardware
      FIFO are exactly the bytes that arrived, in order; and the counter is the number of
      buffered bytes up to exactly the credits and debits in flight. */
  lemma {:induction false} RunIsGood(s: Rx, events: seq<RxEvent>)
    requires s.Good()
    ensures s.Run(events).Good()
    decreases |events|
  {
    if events != [] {
      StepIsGood(s, events[0]);
      RunIsGood(s.Step(events[0]), events[1..]);
    }
  }

  /** A pass of an idle handler, with the flag clear: the flag is set if and only if the FIFO load
      exceeds the free room.  Otherwise the whole load is at the end of the ring, and counted. */
  lemma HandlePushesExactly(s: Rx)
    requires s.Good() && s.isr == Idle && !s.full
    ensures var t := s.Step(Handle);
            && t.hw == [] && t.delivered == s.delivered && t.item == s.item && t.occupied == s.occupied
            && (t.full <==> |s.hw| > s.cap - |s.ring| - s.occupied)
            && (t.full ==> t.stash == s.hw && t.ring == s.ring && t.buffered == s.buffered)
            && (!t.full ==> t.ring == s.ring + s.hw && t.buffered == s.buffered + |s.hw|)
  {
  }

  /** The bytes that have arrived and not been delivered fit the ring, beside the room that the
      held piece takes. */
  ghost predicate RoomForAll(s: Rx) { |s.arrived| - |s.delivered| + s.occupied - |s.item| <= s.cap }

  /** ... in every state along a run. */
  ghost predicate AlwaysRoom(s: Rx, events: seq<RxEvent>)
    decreases |events|
  {
    RoomForAll(s) && (events == [] || AlwaysRoom(s.Step(events[0]), events[1..]))
  }

  lemma StepStaysOpen(s: Rx, e: RxEvent)
    requires s.Good() && !s.full && s.isr != PushFailed && RoomForAll(s)
    ensures !s.Step(e).full && s.Step(e).isr != PushFailed
  {
    assert |s.arrived| == |s.delivered| + |s.item| + |s.ring| + |s.hw|;
  }

  /** While there is room for everything, no push fails and the flag is never set. */
  lemma {:induction false} RunStaysOpen(s: Rx, events: seq<RxEvent>)
    requires s.Good() && !s.full && s.isr != PushFailed && AlwaysRoom(s, events)
    ensures !s.Run(events).full && s.Run(events).isr != PushFailed
    decreases |events|
  {
    if events != [] {
      StepStaysOpen(s, events[0]);
      StepIsGood(s, events[0]);
      RunStaysOpen(s.Step(events[0]), events[1..]);
    }
  }

  lemma StepIsNotWedged(s: Rx, e: RxEvent)
    requires s.Good() && s.NotWedged() && s.isr == Idle && !e.IsrBegin?
    ensures s.Step(e).NotWedged() && s.Step(e).isr == Idle
  {
  }

  /** As long as the handler runs undisturbed by the reader, a stash is never stranded. */
  lemma {:induction false} RunIsNotWedged(s: Rx, events: seq<RxEvent>)
    requires s.Good() && s.NotWedged() && s.isr == Idle
    requires forall i | 0 <= i < |events| :: !events[i].IsrBegin?
    ensures s.Run(events).NotWedged()
    decreases |events|
  {
    if events != [] {
      StepIsGood(s, events[0]);
      StepIsNotWedged(s, events[0]);
      RunIsNotWedged(s.Step(events[0]), events[1..]);
    }
  }

  /** The full flag is set and no reader step can ever send the stash again. */
  ghost predicate Wedged(s: Rx) {
    s.full && s.ring == [] && s.item == [] && s.isr == Idle && (s.phase == Away || s.phase == Loop)
  }

  /** A wedge is for ever: whatever happens, the port delivers nothing more. */
  lemma {:induction false} WedgedForever(s: Rx, events: seq<RxEvent>)
    requires Wedged(s)
    ensures Wedged(s.Run(events)) && s.Run(events).delivered == s.delivered
    decreases |events|
  {
    if events != [] {
      assert Wedged(s.Step(events[0])) && s.Step(events[0]).delivered == s.delivered;
      WedgedForever(s.Step(events[0]), events[1..]);
    }
  }

  /** The one step that wedges: the handler, held up since its push failed, sets the flag when
      the ring has been emptied and no reader is about to look at the flag. */
  ghost predicate Race(s: Rx, e: RxEvent) {
    && e.IsrEnd? && s.isr == PushFailed && s.ring == [] && s.item == []
    && (s.phase == Away || s.phase == Loop)
  }

  ghost predicate RaceFree(s: Rx, events: seq<RxEvent>)
    decreases |events|
  {
    events == [] || (!Race(s, events[0]) && RaceFree(s.Step(events[0]), events[1..]))
  }

  lemma StepWedgesExactlyOnRace(s: Rx, e: RxEvent)
    requires s.Good() && s.NotWedged()
    ensures s.Step(e).NotWedged() <==> !Race(s, e)
  {
  }

  /** The exact condition, over every run: the port ends up wedged if and only if the race
      happened somewhere along it. */
  lemma {:induction false} RunWedgesExactlyOnRace(s: Rx, events: seq<RxEvent>)
    requires s.Good() && s.NotWedged()
    ensures s.Run(events).NotWedged() <==> RaceFree(s, events)
    decreases |events|
  {
    if events != [] {
      var next := s.Step(events[0]);
      StepIsGood(s, events[0]);
      StepWedgesExactlyOnRace(s, events[0]);
      if Race(s, events[0]) {
        WedgedForever(next, events[1..]);
      } else {
        RunWedgesExactlyOnRace(next, events[1..]);
      }
    }
  }

  /** On another core the reader can empty the ring between the handler's failed push and
      its setting of the flag, and then the port is wedged with a byte in the stash. */
  lemma SplitHandlerCanWedge()
    ensures var s := Initial(2, 1).Step(Arrive(1)).Step(Handle).Step(Arrive(2)).Step(Handle).Step(Arrive(3))
                     .Step(IsrBegin).Step(Take(2)).Step(Receive(2)).Step(Copy).Step(GiveBack).Step(Resend)
                     .Step(Release).Step(IsrEnd);
            Wedged(s) && s.stash == [3] && s.delivered == [1, 2]
  {
    FillRing();
    FailPush();
    EmptyRing();
    SetFlag();
  }

  lemma FillRing()
    ensures Initial(2, 1).Step(Arrive(1)).Step(Handle).Step(Arrive(2)).Step(Handle)
         == Rx(2, 1, [1, 2], [], [], [1, 2], [], 0, [2], false, 2, Idle, Away, 0, 0, [])
  {
    var s := Initial(2, 1).Step(Arrive(1)).Step(Handle);
    assert s == Rx(2, 1, [1], [], [], [1], [], 0, [1], false, 1, Idle, Away, 0, 0, []);
  }

  lemma FailPush()
    ensures Rx(2, 1, [1, 2], [], [], [1, 2], [], 0, [2], false, 2, Idle, Away, 0, 0, []).Step(Arrive(3)).Step(IsrBegin)
         == Rx(2, 1, [1, 2, 3], [], [], [1, 2], [], 0, [3], false, 2, PushFailed, Away, 0, 0, [])
  {
  }

  lemma EmptyRing()
    ensures Rx(2, 1, [1, 2, 3], [], [], [1, 2], [], 0, [3], false, 2, PushFailed, Away, 0, 0, [])
            .Step(Take(2)).Step(Receive(2)).Step(Copy)
         == Rx(2, 1, [1, 2, 3], [1, 2], [], [], [], 2, [3], false, 2, PushFailed, Return, 0, 2, [])
  {
    var s := Rx(2, 1, [1, 2, 3], [], [], [1, 2], [], 0, [3], false, 2, PushFailed, Away, 0, 0, []);
    assert s.Step(Take(2)).Step(Receive(2))
        == Rx(2, 1, [1, 2, 3], [], [], [], [1, 2], 2, [3], false, 2, PushFailed, Loop, 2, 0, []);
  }

  lemma SetFlag()
    ensures Rx(2, 1, [1, 2, 3], [1, 2], [], [], [], 2, [3], false, 2, PushFailed, Return, 0, 2, [])
            .Step(GiveBack).Step(Resend).Step(Release).Step(IsrEnd)
         == Rx(2, 1, [1, 2, 3], [1, 2], [], [], [], 0, [3], true, 2, Idle, Away, 0, 0, [2])
  {
  }

  /** The driver object between calls. */
  class RxPort {
    const cap: nat
    const depth: nat
    var arrived: seq<Byte>
    var delivered: seq<Byte>
    var hw: seq<Byte>
    var ring: seq<Byte>
    var item: seq<Byte>
    var occupied: nat
    var stash: seq<Byte>
    var full: bool
    var buffered: int

    ghost function State(): Rx reads this {
      Rx(cap, depth, arrived, delivered, hw, ring, item, occupied, stash, full, buffered, Idle, Away, 0, 0, [])
    }

    ghost predicate Valid() reads this { State().Good() && State().NotWedged() }

    /** Buffered bytes, oldest first, with the stash behind them. */
    ghost function Stored(): seq<Byte> reads this { item + ring + (if full then stash else []) }

    /** Installation refuses a ring that is not larger than the hardware FIFO. */
    constructor (bufferSize: nat, fifoDepth: nat)
      requires fifoDepth < bufferSize
      ensures Valid() && State() == Initial(bufferSize, fifoDepth)
    {
      cap, depth := bufferSize, fifoDepth;
      arrived, delivered, hw, ring, item, occupied, stash, full, buffered := [], [], [], [], [], 0, [], false, 0;
    }

    /** The receive branch of the interrupt handler. */
    method HandleRx()
      requires Valid()
      modifies this
      ensures Valid() && State() == old(State()).Step(Handle)
      ensures old(full) ==> State() == old(State())
      ensures !old(full) ==> hw == [] && (full <==> |old(hw)| > cap - |old(ring)| - occupied)
      ensures !old(full) && full ==> stash == old(hw) && ring == old(ring) && buffered == old(buffered)
      ensures !old(full) && !full ==> ring == old(ring) + old(hw) && buffered == old(buffered) + |old(hw)|
    {
      StepIsGood(State(), Handle);
      StepIsNotWedged(State(), Handle);
      if !full {
        stash := hw;
        hw := [];
        if |stash| > cap - |ring| - occupied {
          full := true;
        } else {
          ring := ring + stash;
          buffered := buffered + |stash|;
        }
      }
    }

    /** The machine's state inside a read call, with `data` copied out and `want` bytes to go. */
    ghost function At(phase: Phase, data: seq<Byte>, want: nat): Rx reads this {
      Rx(cap, depth, arrived, delivered + data, hw, ring, item, occupied, stash, full, buffered, Idle, phase,
         want, |data|, [])
    }

    /** The reader's steps `events` have led from `start` to here. */
    ghost predicate Reached(phase: Phase, data: seq<Byte>, want: nat, start: Rx, events: seq<RxEvent>) reads this {
      At(phase, data, want) == start.Run(events) && ByReader(events)
    }

    lemma ReachedBy(phase: Phase, data: seq<Byte>, want: nat, start: Rx, events: seq<RxEvent>, before: Rx, e: RxEvent)
      requires before == start.Run(events) && ByReader(events) && !e.FromHardware()
      requires At(phase, data, want) == before.Step(e)
      ensures Reached(phase, data, want, start, events + [e])
    {
      RunThen(start, events, e);
      ReaderThen(events, e);
    }

    /** Take a piece of the ring; where it ends depends on where the buffer wraps. */
    method Hold(ghost data: seq<Byte>, ghost want: nat, ghost start: Rx, ghost events: seq<RxEvent>)
      returns (ghost more: seq<RxEvent>)
      requires Reached(Loop, data, want, start, events) && item == [] && ring != [] && 0 < want
      modifies this`item, this`occupied, this`ring
      ensures Reached(Loop, data, want, start, more) && item != [] && |item| + |ring| == |old(ring)|
    {
      ghost var before := At(Loop, data, want);
      var k :| 0 < k <= |ring|;
      item, occupied, ring := ring[..k], k, ring[k..];
      more := events + [Receive(k)];
      ReachedBy(Loop, data, want, start, events, before, Receive(k));
    }

    /** Copy out of the held piece. */
    method CopyBytes(want: nat, ghost data: seq<Byte>, ghost start: Rx, ghost events: seq<RxEvent>)
      returns (bytes: seq<Byte>, ghost more: seq<RxEvent>)
      requires Reached(Loop, data, want, start, events) && item != [] && 0 < want
      modifies this`item
      ensures 0 < |bytes| <= want && bytes + item == old(item)
      ensures Reached(if item == [] then Return else Loop, data + bytes, want - |bytes|, start, more)
    {
      ghost var before := At(Loop, data, want);
      var n := Min(|item|, want);
      bytes, item := item[..n], item[n..];
      more := events + [Copy];
      assert delivered + (data + bytes) == delivered + data + bytes;
      ReachedBy(if item == [] then Return else Loop, data + bytes, want - n, start, events, before, Copy);
    }

    /** Give an emptied piece back to the ring buffer. */
    method ReturnItem(ghost data: seq<Byte>, ghost want: nat, ghost start: Rx, ghost events: seq<RxEvent>)
      returns (ghost more: seq<RxEvent>)
      requires Reached(Return, data, want, start, events)
      modifies this`occupied
      ensures Reached(Test, data, want, start, more) && occupied == 0
    {
      ghost var before := At(Return, data, want);
      occupied := 0;
      more := events + [GiveBack];
      ReachedBy(Test, data, want, start, events, before, GiveBack);
    }

    /** Send a waiting stash to the ring if it fits. */
    method SendStash(ghost data: seq<Byte>, ghost want: nat, ghost start: Rx, ghost events: seq<RxEvent>)
      returns (ghost more: seq<RxEvent>)
      requires Reached(Test, data, want, start, events) && occupied == 0
      modifies this`ring, this`buffered, this`full
      ensures Reached(Loop, data, want, start, more)
      ensures full <==> old(full) && |stash| > cap - |old(ring)|
      ensures if old(full) && !full then ring == old(ring) + stash && buffered == old(buffered) + |stash|
              else ring == old(ring) && buffered == old(buffered)
    {
      ghost var before := At(Test, data, want);
      more := events + [Resend];
      if full && |stash| <= cap - |ring| {
        ring := ring + stash;
        ReachedBy(Resent, data, want, start, events, before, Resend);
        more := CountStash(data, want, start, more);
      } else {
        ReachedBy(Loop, data, want, start, events, before, Resend);
      }
    }

    method CountStash(ghost data: seq<Byte>, ghost want: nat, ghost start: Rx, ghost events: seq<RxEvent>)
      returns (ghost more: seq<RxEvent>)
      requires Reached(Resent, data, want, start, events)
      modifies this`buffered, this`full
      ensures Reached(Loop, data, want, start, more) && !full && buffered == old(buffered) + |stash|
    {
      ghost var before := At(Resent, data, want);
      buffered := buffered + |stash|;
      ReachedBy(Credited, data, want, start, events, before, CreditStash);
      ghost var credited := At(Credited, data, want);
      full := false;
      ReachedBy(Loop, data, want, start, events + [CreditStash], credited, ClearFlag);
      more := events + [CreditStash] + [ClearFlag];
    }

    /** One turn of the read loop with a held piece. */
    method CopyOut(want: nat, ghost data: seq<Byte>, ghost start: Rx, ghost events: seq<RxEvent>)
      returns (bytes: seq<Byte>, ghost more: seq<RxEvent>)
      requires Reached(Loop, data, want, start, events) && item != [] && 0 < want
      modifies this`item, this`occupied, this`ring, this`buffered, this`full
      ensures 0 < |bytes| <= want && Reached(Loop, data + bytes, want - |bytes|, start, more)
      ensures full ==> old(full) && |bytes| + |item| + |ring| == old(|item| + |ring|)
    {
      bytes, more := CopyBytes(want, data, start, events);
      if |item| == 0 {
        more := ReturnItem(data + bytes, want - |bytes|, start, more);
        more := SendStash(data + bytes, want - |bytes|, start, more);
      }
    }

    /** The read loop: the counter is corrected only afterwards. */
    method ReadLoop(length: nat, ghost start: Rx, ghost events: seq<RxEvent>)
      returns (data: seq<Byte>, ghost want: nat, ghost more: seq<RxEvent>)
      requires Reached(Loop, [], length, start, events)
      modifies this`item, this`occupied, this`ring, this`buffered, this`full
      ensures Reached(Loop, data, want, start, more) && want == length - |data|
      ensures want == 0 || (item == [] && ring == [])
      ensures full ==> |data| + |item| + |ring| == old(|item| + |ring|)
    {
      data, want, more := [], length, events;
      var rest := length;
      while rest != 0
        invariant Reached(Loop, data, want, start, more) && want == rest == length - |data|
        invariant full ==> |data| + |item| + |ring| == old(|item| + |ring|)
      {
        if |item| == 0 {
          if |ring| == 0 {
            break;
          }
          more := Hold(data, want, start, more);
        }
        var bytes;
        bytes, more := CopyOut(rest, data, start, more);
        data, rest, want := data + bytes, rest - |bytes|, rest - |bytes|;
      }
    }

    /** Give up the mutex and take the bytes off the counter. */
    method Settle(data: seq<Byte>, ghost want: nat, ghost start: Rx, ghost events: seq<RxEvent>)
      returns (ghost more: seq<RxEvent>)
      requires Reached(Loop, data, want, start, events) && (want == 0 || (item == [] && ring == []))
      modifies this`delivered, this`buffered
      ensures State() == start.Run(more) && ByReader(more) && delivered == old(delivered) + data
    {
      ghost var before := At(Loop, data, want);
      more := events + [Release] + [Debit(0)];
      RunThen(start, events, Release);
      RunThen(start, events + [Release], Debit(0));
      ReaderThen(events, Release);
      ReaderThen(events + [Release], Debit(0));
      delivered := delivered + data;
      buffered := buffered - |data|;
      assert before.Step(Release).debts == [|data|];
    }

    /** One undisturbed read call is a run of the machine's reader steps.  It returns exactly as
        many of the oldest stored bytes as asked for and available, and a request that reaches
        past the ring frees the stash. */
    method ReadBytes(length: nat) returns (data: seq<Byte>, ghost events: seq<RxEvent>)
      requires Valid()
      modifies this
      ensures Valid() && State() == old(State()).Run(events) && ByReader(events)
      ensures delivered == old(delivered) + data && hw == old(hw) && arrived == old(arrived)
      ensures data + Stored() == old(Stored()) && |data| == Min(length, |old(Stored())|)
      ensures length >= old(|item| + |ring|) ==> !full
      ensures buffered == |ring| + |item|
    {
      ghost var start := State();
      events := [] + [Take(length)];
      ReachedBy(Loop, [], length, start, [], start, Take(length));
      ghost var want;
      data, want, events := ReadLoop(length, start, events);
      events := Settle(data, want, start, events);
      RunIsGood(start, events);
      RunIsNotWedged(start, events);
      Conserved(start, State(), data);
    }
  }

  /** Between read calls, what is delivered is taken off the front of what is stored. */
  lemma Conserved(s: Rx, t: Rx, data: seq<Byte>)
    requires s.Ordered() && t.Ordered() && s.isr == t.isr == Idle && s.phase == t.phase == Away
    requires t.delivered == s.delivered + data && t.arrived == s.arrived && t.hw == s.hw
    ensures data + (t.item + t.ring + (if t.full then t.stash else []))
         == s.item + s.ring + (if s.full then s.stash else [])
  {
    var a := s.item + s.ring + (if s.full then s.stash else []);
    var b := t.item + t.ring + (if t.full then t.stash else []);
    assert s.delivered + (a + s.hw) == s.delivered + data + (b + s.hw);
    Cancel(s.delivered, a, data, b, s.hw);
  }

  lemma Cancel(d: seq<Byte>, a: seq<Byte>, data: seq<Byte>, b: seq<Byte>, h: seq<Byte>)
    requires d + (a + h) == d + data + (b + h)
    ensures data + b == a
  {
    var x, y := d + (a + h), d + data + (b + h);
    assert x == d + a + h && y == d + (data + b) + h;
    assert x[|d|..|x| - |h|] == a && y[|d|..|y| - |h|] == data + b;
  }
}
