/** Buffered transmission of the UART driver.

    A writing task cuts a message into chunks and puts a descriptor (the message length)
    and the chunks into a ring buffer of whole items.  The interrupt handler takes items
    out again and re-parses them with nothing but a byte counter and a data pointer. */
module UartTx {
  import opened Arithmetic
  import opened Bytes

  datatype Item = Descriptor(size: nat) | Chunk(bytes: seq<Byte>)

  datatype Pointer = Null | At(rest: seq<Byte>)

  /** Payload bytes of the ring, in order. */
  ghost function Payload(ring: seq<Item>): seq<Byte> {
    if ring == [] then []
    else (if ring[0].Chunk? then ring[0].bytes else []) + Payload(ring[1..])
  }

  /** With `owed` bytes of the current message still to be found, the ring parses into
      non-empty messages, and at its end `open` bytes of the last one are missing. */
  ghost predicate Framed(owed: nat, ring: seq<Item>, open: nat)
    decreases |ring|
  {
    if ring == [] then owed == open
    else match ring[0]
      case Descriptor(n) => owed == 0 < n && Framed(n, ring[1..], open)
      case Chunk(b) => 0 < |b| <= owed && Framed(owed - |b|, ring[1..], open)
  }

  lemma {:induction false} AppendDescriptor(owed: nat, ring: seq<Item>, n: nat)
    requires Framed(owed, ring, 0) && 0 < n
    ensures Framed(owed, ring + [Descriptor(n)], n)
    ensures Payload(ring + [Descriptor(n)]) == Payload(ring)
    decreases |ring|
  {
    var longer := ring + [Descriptor(n)];
    if ring == [] {
      assert longer[1..] == [];
    } else {
      assert longer[1..] == ring[1..] + [Descriptor(n)];
      AppendDescriptor(if ring[0].Descriptor? then ring[0].size else owed - |ring[0].bytes|, ring[1..], n);
    }
  }

  lemma {:induction false} AppendChunk(owed: nat, ring: seq<Item>, open: nat, b: seq<Byte>)
    requires Framed(owed, ring, open) && 0 < |b| <= open
    ensures Framed(owed, ring + [Chunk(b)], open - |b|)
    ensures Payload(ring + [Chunk(b)]) == Payload(ring) + b
    decreases |ring|
  {
    var longer := ring + [Chunk(b)];
    if ring == [] {
      assert longer[1..] == [] && b + [] == b;
    } else {
      assert longer[1..] == ring[1..] + [Chunk(b)];
      AppendChunk(if ring[0].Descriptor? then ring[0].size else owed - |ring[0].bytes|, ring[1..], open, b);
      var first := if ring[0].Chunk? then ring[0].bytes else [];
      assert first + (Payload(ring[1..]) + b) == first + Payload(ring[1..]) + b;
    }
  }

  /** What can happen next: a task starts a message, queues a chunk or enables the interrupt; the
      handler makes a whole pass with room for `space` bytes, or, as on another core, a pass
      in steps: it enters, looks for something to send, and leaves.  A look moves `n` bytes and
      may `stop` the pass. */
  datatype Event =
    | Write(msg: seq<Byte>) | Push | Enable
    | Interrupt(space: nat)
    | Enter(space: nat) | Look(n: nat, stop: bool) | Leave

  /** Where the handler is: outside, in its loop with room for `rem` bytes, or past it.  `en` says
      that it will enable the interrupt again. */
  datatype Pass = Out | In(rem: nat, en: bool) | Past(en: bool) {
    /** Bytes in the ring will not be forgotten when this pass ends. */
    predicate Serves() { In? || (Past? && en) }
  }

  /** The driver seen as a plain byte pipe, without items or counters. */
  datatype Pipe = Pipe(written: seq<Byte>, sent: seq<Byte>, queued: seq<Byte>, toWrite: seq<Byte>,
                       toArm: bool, enabled: bool, pass: Pass) {
    /** No byte is lost, duplicated or reordered, and none waits for a dead interrupt. */
    ghost predicate Sound() {
      && sent + queued + toWrite == written
      && (queued != [] ==> enabled || toArm || pass.Serves())
      && (pass.In? ==> 0 < pass.rem || pass.en)
    }

    /** An event that cannot happen now (the task blocks, the interrupt is off) does nothing. */
    ghost function Step(e: Event, half: nat): Pipe {
      match e
      case Write(msg) =>
        if toWrite != [] || toArm then this else this.(written := written + msg, toWrite := msg)
      case Push =>
        var n := Min(|toWrite|, half);
        if toWrite == [] || toArm then this
        else this.(queued := queued + toWrite[..n], toWrite := toWrite[n..], toArm := true)
      case Enable =>
        if toArm then this.(toArm := false, enabled := true) else this
      case Interrupt(space) =>
        var n := Min(space, |queued|);
        if !enabled || space == 0 || pass != Out then this
        else this.(sent := sent + queued[..n], queued := queued[n..], enabled := 0 < n)
      case Enter(space) =>
        if !enabled || space == 0 || pass != Out then this else this.(enabled := false, pass := In(space, false))
      case Look(n, stop) =>
        if !pass.In? then this
        else if pass.rem == 0 then this.(pass := Past(pass.en))
        else if n > pass.rem || n > |queued| || (stop && queued != []) then this
        else this.(sent := sent + queued[..n], queued := queued[n..],
                   pass := if stop then Past(pass.en) else In(pass.rem - n, pass.en || 0 < n))
      case Leave =>
        if pass.Past? then this.(enabled := enabled || pass.en, pass := Out) else this
    }

    ghost function Run(events: seq<Event>, half: nat): Pipe
      decreases |events|
    {
      if events == [] then this else Step(events[0], half).Run(events[1..], half)
    }
  }

  lemma StepIsSound(p: Pipe, e: Event, half: nat)
    requires p.Sound()
    ensures p.Step(e, half).Sound() && p.sent <= p.Step(e, half).sent && p.written <= p.Step(e, half).written
  {
    match e
    case Write(msg) =>
      assert p.sent + p.queued + [] == p.sent + p.queued;
    case Push =>
      Shift(p.sent, [], p.queued, p.toWrite, Min(|p.toWrite|, half));
    case Enable =>
    case Interrupt(space) =>
      Regroup(p.sent, p.queued, Min(space, |p.queued|), p.toWrite);
    case Enter(space) =>
    case Look(n, stop) =>
      if n <= |p.queued| {
        Regroup(p.sent, p.queued, n, p.toWrite);
      }
    case Leave =>
  }

  /** A writing task can start a message: the one before is queued and its interrupt enabled. */
  ghost predicate TakesMessage(p: Pipe) { p.toWrite == [] && !p.toArm }

  /** The messages that the driver takes during a run, concatenated: a message comes when the
      writer before it is done, and is then taken whole. */
  ghost function Taken(p: Pipe, events: seq<Event>, half: nat): seq<Byte>
    decreases |events|
  {
    if events == [] then []
    else (if events[0].Write? && TakesMessage(p) then events[0].msg else [])
         + Taken(p.Step(events[0], half), events[1..], half)
  }

  /** What counts as written is exactly the concatenated messages. */
  lemma {:induction false} WrittenIsMessages(p: Pipe, events: seq<Event>, half: nat)
    ensures p.Run(events, half).written == p.written + Taken(p, events, half)
    decreases |events|
  {
    if events == [] {
      assert p.written + [] == p.written;
    } else {
      var msg := if events[0].Write? && TakesMessage(p) then events[0].msg else [];
      var next := p.Step(events[0], half);
      assert next.written == p.written + msg;
      WrittenIsMessages(next, events[1..], half);
      assert p.written + msg + Taken(next, events[1..], half) == p.written + (msg + Taken(next, events[1..], half));
    }
  }

  /** In every interleaving of one writer at a time with handler passes, the FIFO has
      received a prefix of the concatenated messages, and never takes a byte back. */
  lemma {:induction false} SentIsPrefix(p: Pipe, events: seq<Event>, half: nat)
    requires p.Sound()
    ensures p.Run(events, half).Sound()
    ensures p.sent <= p.Run(events, half).sent <= p.written + Taken(p, events, half)
    decreases |events|
  {
    WrittenIsMessages(p, events, half);
    if events == [] {
      assert p.sent <= p.sent + p.queued + p.toWrite;
    } else {
      StepIsSound(p, events[0], half);
      SentIsPrefix(p.Step(events[0], half), events[1..], half);
      WrittenIsMessages(p.Step(events[0], half), events[1..], half);
    }
  }

  /** No lost wakeup: when the task is done and interrupts have run until they stay off,
      every byte written has been sent. */
  lemma QuietMeansSent(p: Pipe)
    requires p.Sound() && p.toWrite == [] && !p.toArm && !p.enabled && p.pass == Out
    ensures p.sent == p.written
  {
    assert p.sent + p.queued + p.toWrite == p.sent;
  }

  class TxPort {
    const maxSize: nat          // largest item the ring takes
    const half: nat             // largest chunk a task queues
    var ring: seq<Item>
    var txLenTot: nat
    var txPtr: Pointer
    var txLenCur: nat
    var intEnabled: bool        // TX-empty interrupt
    var toWrite: seq<Byte>      // rest of the message the writing task is in
    var pass: Pass              // the handler's progress and its local variables
    var toArm: bool             // the task has pushed a chunk and not yet enabled the interrupt
    var fifo: seq<Byte>         // everything pushed to the hardware FIFO so far
    ghost var written: seq<Byte>  // all messages handed to the driver, concatenated

    /** Bytes that have been queued and not yet pushed to the FIFO. */
    ghost function Queued(): seq<Byte> reads this`txPtr, this`ring {
      (if txPtr.At? then txPtr.rest else []) + Payload(ring)
    }

    /** The handler's counters agree with what is in the ring. */
    ghost predicate InStep() reads this`txPtr, this`ring, this`txLenTot, this`txLenCur, this`toWrite {
      match txPtr
      case Null => Framed(txLenTot, ring, |toWrite|)
      case At(rest) => |rest| == txLenCur && 0 < txLenCur <= txLenTot && Framed(txLenTot - txLenCur, ring, |toWrite|)
    }

    ghost function Abs(): Pipe reads this {
      Pipe(written, fifo, Queued(), toWrite, toArm, intEnabled, pass)
    }

    ghost predicate Valid() reads this { 0 < half == maxSize / 2 && InStep() && Abs().Sound() }

    /** The install routine leaves txLenCur unset. */
    constructor (max: nat, garbage: nat)
      requires 2 <= max
      ensures Valid() && Abs() == Pipe([], [], [], [], false, false, Out) && maxSize == max
    {
      maxSize, half := max, max / 2;
      ring, txLenTot, txPtr, txLenCur := [], 0, Null, garbage;
      intEnabled, toWrite, toArm, fifo, written, pass := false, [], false, [], [], Out;
    }

    /** A task starts a message: an empty one is ignored, otherwise its descriptor is queued. */
    method BeginWrite(msg: seq<Byte>)
      requires Valid() && toWrite == [] && !toArm
      modifies this`ring, this`toWrite, this`written
      ensures Valid() && Abs() == old(Abs()).Step(Write(msg), half)
      ensures written == old(written) + msg && toWrite == msg
      ensures ring == old(ring) + if msg == [] then [] else [Descriptor(|msg|)]
    {
      StepIsSound(Abs(), Write(msg), half);
      if |msg| == 0 {
        assert written + msg == written;
        return;
      }
      AppendDescriptor(if txPtr.Null? then txLenTot else txLenTot - txLenCur, ring, |msg|);
      ring := ring + [Descriptor(|msg|)];
      toWrite := msg;
      written := written + msg;
    }

    /** The task queues its next chunk, at most half the largest item. */
    method PushChunk()
      requires Valid() && toWrite != [] && !toArm
      modifies this`ring, this`toWrite, this`toArm
      ensures Valid() && Abs() == old(Abs()).Step(Push, half)
      ensures var n := Min(|old(toWrite)|, maxSize / 2);
              0 < n && ring == old(ring) + [Chunk(old(toWrite)[..n])] && toWrite == old(toWrite)[n..]
    {
      StepIsSound(Abs(), Push, half);
      var n := Min(|toWrite|, maxSize / 2);
      var b := toWrite[..n];
      ghost var held := if txPtr.At? then txPtr.rest else [];
      AppendChunk(if txPtr.Null? then txLenTot else txLenTot - txLenCur, ring, |toWrite|, b);
      Shift([], held, Payload(ring), toWrite, n);
      ring := ring + [Chunk(b)];
      toWrite := toWrite[n..];
      toArm := true;
    }

    method Arm()
      requires Valid() && toArm
      modifies this`intEnabled, this`toArm
      ensures Valid() && Abs() == old(Abs()).Step(Enable, half) && intEnabled && !toArm
    {
      intEnabled := true;
      toArm := false;
    }

    /** Taking one item: a descriptor when no bytes are expected, else the next chunk.  The
        destructors `size` and `bytes` are only defined on an item of the right kind. */
    method TakeItem() returns (gotChunk: bool)
      requires InStep() && txPtr.Null? && ring != []
      modifies this`ring, this`txLenTot, this`txPtr, this`txLenCur
      ensures InStep() && Queued() == old(Queued()) && |ring| == |old(ring)| - 1
      ensures gotChunk == txPtr.At? && (gotChunk ==> 0 < txLenCur)
    {
      var head := ring[0];
      ring := ring[1..];
      gotChunk := false;
      if txLenTot == 0 {
        txPtr := Null;
        txLenTot := head.size;
      } else if txPtr.Null? {
        txPtr := At(head.bytes);
        gotChunk := true;
        txLenCur := |head.bytes|;
      }
    }

    /** Copying from the current chunk to the FIFO, as far as there is room. */
    method Fill(rem: nat) returns (n: nat)
      requires InStep() && txPtr.At? && 0 < rem
      modifies this`fifo, this`txLenTot, this`txPtr, this`txLenCur
      ensures InStep() && 0 < n <= rem && n <= |old(Queued())|
      ensures n < rem ==> txPtr.Null?
      ensures fifo == old(fifo) + old(Queued())[..n] && Queued() == old(Queued())[n..]
    {
      n := Min(txLenCur, rem);
      ghost var queued := Queued();
      assert queued[..n] == txPtr.rest[..n];
      assert queued[n..] == txPtr.rest[n..] + Payload(ring);
      fifo := fifo + txPtr.rest[..n];
      txPtr := At(txPtr.rest[n..]);
      txLenTot := txLenTot - n;
      txLenCur := txLenCur - n;
      if txLenCur == 0 {
        txPtr := Null;
      }
    }

    /** One turn of the handler's loop; `stop` when nothing can be taken from the ring. */
    method Turn(rem: nat) returns (n: nat, stop: bool)
      requires InStep() && 0 < rem
      modifies this`ring, this`fifo, this`txLenTot, this`txPtr, this`txLenCur
      ensures InStep() && n <= rem && n <= |old(Queued())|
      ensures fifo == old(fifo) + old(Queued())[..n] && Queued() == old(Queued())[n..]
      ensures stop ==> n == 0 && Queued() == []
      ensures !stop ==> |ring| + rem - n < |old(ring)| + rem
      ensures 0 < n < rem ==> txPtr.Null?
      ensures |ring| <= |old(ring)|
    {
      n, stop := 0, false;
      var got := txPtr.At?;
      if txLenTot == 0 || txPtr.Null? || txLenCur == 0 {
        if ring == [] {
          stop := true;
          return;
        }
        got := TakeItem();
      }
      if got {
        n := Fill(rem);
      }
    }

    /** The first `n` of the queued bytes have been moved to the FIFO. */
    ghost predicate Moved(start: seq<Byte>, queued: seq<Byte>, n: nat)
      reads this`txPtr, this`ring, this`txLenTot, this`txLenCur, this`toWrite, this`fifo
    {
      InStep() && n <= |queued| && fifo == start + queued[..n] && Queued() == queued[n..]
    }

    method TurnOn(rem: nat, ghost start: seq<Byte>, ghost queued: seq<Byte>, ghost n: nat)
      returns (k: nat, stop: bool, ghost m: nat)
      requires Moved(start, queued, n) && 0 < rem
      modifies this`ring, this`fifo, this`txLenTot, this`txPtr, this`txLenCur
      ensures k <= rem && m == n + k && Moved(start, queued, m)
      ensures stop ==> k == 0 && n == |queued|
      ensures !stop ==> |ring| + rem - k < |old(ring)| + rem
    {
      k, stop := Turn(rem);
      m := n + k;
      Advance(start, queued, n, k, m, fifo, Queued());
    }

    /** The handler's loop: it moves exactly as many queued bytes as fit. */
    method Pump(space: nat) returns (enTx: bool, ghost n: nat)
      requires InStep()
      modifies this`ring, this`fifo, this`txLenTot, this`txPtr, this`txLenCur
      ensures n == Min(space, |old(Queued())|) && enTx == (0 < n) && Moved(old(fifo), old(Queued()), n)
    {
      ghost var queued := Queued();
      var rem := space;
      enTx, n := false, 0;
      assert Moved(fifo, queued, 0);
      while rem != 0
        invariant Moved(old(fifo), queued, n) && rem == space - n && enTx == (0 < n)
        decreases |ring| + rem
      {
        var k, stop;
        k, stop, n := TurnOn(rem, old(fifo), queued, n);
        rem := rem - k;
        enTx := enTx || 0 < k;
        if stop {
          break;
        }
      }
    }

    /** One pass of the handler with room for `space` bytes refines the pipe's step. */
    method HandlerPass(space: nat)
      requires Valid() && intEnabled && 0 < space && pass == Out
      modifies this`ring, this`fifo, this`txLenTot, this`txPtr, this`txLenCur, this`intEnabled
      ensures Valid() && Abs() == old(Abs()).Step(Interrupt(space), half)
      ensures var n := Min(space, |old(Queued())|);
              Moved(old(fifo), old(Queued()), n) && intEnabled == (0 < n)
    {
      ghost var was := Abs();
      intEnabled := false;
      var enTx, n := Pump(space);
      if enTx {
        intEnabled := true;
      }
      PassIsStep(was, space, half, n, Abs());
    }

    /** The handler enters: it turns the interrupt off and notes the room in the FIFO. */
    method EnterPass(space: nat)
      requires Valid() && intEnabled && 0 < space && pass == Out
      modifies this`intEnabled, this`pass
      ensures Valid() && Abs() == old(Abs()).Step(Enter(space), half) && pass == In(space, false) && !intEnabled
    {
      intEnabled := false;
      pass := In(space, false);
    }

    /** One turn of its loop. */
    method LookOnce() returns (ghost e: Event)
      requires Valid() && pass.In?
      modifies this`ring, this`fifo, this`txLenTot, this`txPtr, this`txLenCur, this`pass
      ensures Valid() && e.Look? && Abs() == old(Abs()).Step(e, half)
      ensures if pass.In? then |ring| + pass.rem < |old(ring)| + old(pass.rem)
              else pass == Past(old(pass.en)) && (old(pass.rem) == 0 || Queued() == [])
    {
      e := Look(0, false);
      ghost var was := Abs();
      if pass.rem == 0 {
        pass := Past(pass.en);
      } else {
        var n, stop := Turn(pass.rem);
        e := Look(n, stop);
        pass := if stop then Past(pass.en) else In(pass.rem - n, pass.en || 0 < n);
        LookIsStep(was, n, stop, half, Abs());
      }
    }

    /** The handler leaves, and enables the interrupt if it has sent anything. */
    method LeavePass()
      requires Valid() && pass.Past?
      modifies this`intEnabled, this`pass
      ensures Valid() && Abs() == old(Abs()).Step(Leave, half)
      ensures pass == Out && intEnabled == (old(intEnabled) || old(pass.en))
    {
      if pass.en {
        intEnabled := true;
      }
      pass := Out;
    }

    /** A writer that finds no room for its next item never waits in vain: there are bytes for
        the handler to send, and its interrupt is on or it is at work. */
    lemma BlockedWriterIsServed(fits: Ring, item: Item)
      requires Valid() && !toArm && Roomy(fits, half) && Wanted(item) && !fits(txPtr.At?, ring, item)
      ensures Queued() != [] && (intEnabled || pass.Serves())
    {
      if Queued() == [] {
        QuietRing(txLenTot, ring, |toWrite|);
        assert false;
      }
    }

    /** The item that the writing task sends next: a descriptor between messages, else a chunk. */
    ghost predicate Wanted(item: Item) reads this {
      if toWrite == [] then item.Descriptor? else item == Chunk(toWrite[..Min(|toWrite|, half)])
    }
  }

  /** Whether the ring buffer, with an item held by the handler or not, takes one more item. */
  type Ring = (bool, seq<Item>, Item) -> bool

  /** An empty ring takes any item that is sent, and a chunk fits beside a single descriptor. */
  ghost predicate Roomy(fits: Ring, half: nat) {
    && (forall n :: fits(false, [], Descriptor(n)))
    && (forall b | 0 < |b| <= half :: fits(false, [], Chunk(b)))
    && (forall n, b | 0 < |b| <= half :: fits(false, [Descriptor(n)], Chunk(b)))
  }

  /** A parseable ring without payload holds at most the descriptor of an open message. */
  lemma QuietRing(owed: nat, ring: seq<Item>, open: nat)
    requires Framed(owed, ring, open) && Payload(ring) == []
    ensures ring == [] || (0 < open && ring == [Descriptor(open)])
  {
    if ring != [] {
      assert ring[0].Descriptor?;
      if ring[1..] != [] {
        assert false;
      }
    }
  }

  /** Interrupts alone make room for a blocked writer, within as many passes as bytes are queued. */
  method MakeRoom(port: TxPort, fits: Ring, item: Item, space: nat) returns (passes: nat)
    requires port.Valid() && !port.toArm && Roomy(fits, port.half) && port.Wanted(item) && 0 < space && port.pass == Out
    modifies port
    ensures port.Valid() && port.Wanted(item) && fits(port.txPtr.At?, port.ring, item)
    ensures port.toWrite == old(port.toWrite) && port.written == old(port.written) && passes <= |old(port.Queued())|
  {
    passes := 0;
    while !fits(port.txPtr.At?, port.ring, item)
      invariant port.Valid() && !port.toArm && port.Wanted(item) && port.pass == Out
      invariant port.toWrite == old(port.toWrite) && port.written == old(port.written)
      invariant passes + |port.Queued()| <= |old(port.Queued())|
      decreases |port.Queued()|
    {
      port.BlockedWriterIsServed(fits, item);
      port.HandlerPass(space);
      passes := passes + 1;
    }
  }

  lemma LookIsStep(was: Pipe, n: nat, stop: bool, half: nat, now: Pipe)
    requires was.Sound() && was.pass.In? && 0 < was.pass.rem && n <= was.pass.rem && n <= |was.queued|
    requires stop ==> was.queued == []
    requires now.sent == was.sent + was.queued[..n] && now.queued == was.queued[n..]
    requires now.written == was.written && now.toWrite == was.toWrite && now.toArm == was.toArm
    requires now.enabled == was.enabled
    requires now.pass == if stop then Past(was.pass.en) else In(was.pass.rem - n, was.pass.en || 0 < n)
    ensures now == was.Step(Look(n, stop), half) && now.Sound()
  {
    StepIsSound(was, Look(n, stop), half);
  }

  lemma PassIsStep(was: Pipe, space: nat, half: nat, n: nat, now: Pipe)
    requires was.Sound() && was.enabled && 0 < space && n == Min(space, |was.queued|)
    requires now.sent == was.sent + was.queued[..n] && now.queued == was.queued[n..]
    requires now.written == was.written && now.toWrite == was.toWrite && now.toArm == was.toArm
    requires now.enabled == (0 < n) && now.pass == was.pass == Out
    ensures now == was.Step(Interrupt(space), half) && now.Sound()
  {
    StepIsSound(was, Interrupt(space), half);
  }

  lemma {:induction false} RunThen(p: Pipe, events: seq<Event>, e: Event, half: nat)
    ensures p.Run(events + [e], half) == p.Run(events, half).Step(e, half)
    decreases |events|
  {
    if events == [] {
      assert events + [e] == [e] && [e][1..] == [];
      assert p.Run([e], half) == p.Step(e, half).Run([], half);
    } else {
      assert (events + [e])[1..] == events[1..] + [e];
      RunThen(p.Step(events[0], half), events[1..], e, half);
    }
  }

  /** The same event, except that what a look finds is not known beforehand. */
  predicate SameEvent(asked: Event, done: Event) { asked == done || (asked.Look? && done.Look?) }

  /** One event at the port, which does nothing if it cannot happen now. */
  method Do(port: TxPort, asked: Event) returns (ghost done: Event)
    requires port.Valid()
    modifies port
    ensures port.Valid() && SameEvent(asked, done) && port.Abs() == old(port.Abs()).Step(done, port.half)
  {
    done := asked;
    match asked
    case Write(msg) =>
      if |port.toWrite| == 0 && !port.toArm {
        port.BeginWrite(msg);
      }
    case Push =>
      if |port.toWrite| != 0 && !port.toArm {
        port.PushChunk();
      }
    case Enable =>
      if port.toArm {
        port.Arm();
      }
    case Interrupt(space) =>
      if port.intEnabled && 0 < space && port.pass == Out {
        port.HandlerPass(space);
      }
    case Enter(space) =>
      if port.intEnabled && 0 < space && port.pass == Out {
        port.EnterPass(space);
      }
    case Look(_, _) =>
      if port.pass.In? {
        done := port.LookOnce();
      }
    case Leave =>
      if port.pass.Past? {
        port.LeavePass();
      }
  }

  /** The driver refines the pipe over every run of events, also when handler and tasks overlap. */
  method Run(port: TxPort, events: seq<Event>) returns (ghost done: seq<Event>)
    requires port.Valid()
    modifies port
    ensures port.Valid() && |done| == |events| && forall i | 0 <= i < |done| :: SameEvent(events[i], done[i])
    ensures port.Abs() == old(port.Abs()).Run(done, port.half)
    ensures port.written == old(port.written) + Taken(old(port.Abs()), done, port.half)
    ensures old(port.fifo) <= port.fifo <= port.written
  {
    ghost var start, half := port.Abs(), port.half;
    done := [];
    for k := 0 to |events|
      invariant port.Valid() && |done| == k && forall i | 0 <= i < k :: SameEvent(events[i], done[i])
      invariant port.Abs() == start.Run(done, half)
    {
      ghost var e := Do(port, events[k]);
      RunThen(start, done, e, half);
      done := done + [e];
    }
    SentIsPrefix(start, done, half);
    WrittenIsMessages(start, done, half);
  }

  /** One whole message through the driver: pushed chunk by chunk with a handler pass whenever
      the interrupt is on, and sent to the last byte. */
  method Transmit(port: TxPort, msg: seq<Byte>, space: nat)
    requires port.Valid() && port.toWrite == [] && !port.toArm && 0 < space && port.pass == Out
    modifies port
    ensures port.Valid() && port.fifo == port.written == old(port.written) + msg
  {
    port.BeginWrite(msg);
    while |port.toWrite| != 0
      invariant port.Valid() && !port.toArm && port.pass == Out && port.written == old(port.written) + msg
      decreases |port.toWrite|
    {
      SendChunk(port, space);
    }
    Drain(port, space);
  }

  method SendChunk(port: TxPort, space: nat)
    requires port.Valid() && port.toWrite != [] && !port.toArm && 0 < space && port.pass == Out
    modifies port
    ensures port.Valid() && |port.toWrite| < |old(port.toWrite)| && !port.toArm && port.pass == Out
    ensures port.written == old(port.written)
  {
    port.PushChunk();
    port.Arm();
    port.HandlerPass(space);
  }

  /** Interrupts alone bring out every byte once the task is done. */
  method Drain(port: TxPort, space: nat)
    requires port.Valid() && port.toWrite == [] && !port.toArm && 0 < space && port.pass == Out
    modifies port
    ensures port.Valid() && port.fifo == port.written == old(port.written)
  {
    while port.intEnabled
      invariant port.Valid() && port.toWrite == [] && !port.toArm && port.written == old(port.written)
      invariant port.pass == Out
      decreases |port.Queued()|, port.intEnabled
    {
      port.HandlerPass(space);
    }
    QuietMeansSent(port.Abs());
  }

  lemma Shift(a: seq<Byte>, h: seq<Byte>, q: seq<Byte>, w: seq<Byte>, n: nat)
    requires n <= |w|
    ensures h + (q + w[..n]) == (h + q) + w[..n]
    ensures a + (h + (q + w[..n])) + w[n..] == a + (h + q) + w
    ensures (h + (q + w[..n])) + w[n..] == (h + q) + w
  {
    assert w == w[..n] + w[n..];
  }

  lemma Regroup(a: seq<Byte>, q: seq<Byte>, n: nat, b: seq<Byte>)
    requires n <= |q|
    ensures a + q[..n] + q[n..] + b == a + q + b
  {
    assert q[..n] + q[n..] == q;
  }

  lemma Advance(f: seq<Byte>, q: seq<Byte>, n: nat, k: nat, m: nat, f': seq<Byte>, q': seq<Byte>)
    requires m == n + k <= |q| && f' == f + q[..n] + q[n..][..k] && q' == q[n..][k..]
    ensures f' == f + q[..m] && q' == q[m..]
  {
    assert q[..n] + q[n..][..k] == q[..m];
  }
}
