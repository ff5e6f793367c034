# Verified model of the lighting rig

The repository holds a wireless lighting controller: controller firmware, a lighting server
on a system-on-chip, the DMX module in its FPGA, and the memory calibration firmware of the
board.  This project models the parts with the most intricate logic and proves them correct
for all inputs and all runs.

* **Memory calibration** (`Deskew`, `Centering`, `Calibration`, `BestRuns`, `DmSearch`,
  `DqsEnable`).  The memory test is an arbitrary function of half sweep, bit and position,
  where position is the DQ delay minus the DQS delay added since the sweep began.  The one
  hypothesis is that a bit's passing positions are contiguous; position 0, which both half
  sweeps test, may pass the first time and fail the second.  Tap limits are symbolic, with
  the DQS range at most the DQ range, as in this build.  The data-mask search has no
  hypothesis on the test but that it answers alike at position 0.
* **UART driver** (`UartTx`, `UartRx`).  Handler and tasks are interleaved steps over shared
  state.  Transmission is shown to refine a plain byte pipe, also when a handler pass on
  another core overlaps with the writing task.  Reception is a state machine in which handler,
  reader and counter corrections overlap freely; class `RxPort` ties the code to it: its
  handler is the machine's handle step, and a read call is a run of the machine's reader
  steps.
* **Lighting server** (`Dmx`, `Profiles`, `Fixtures`, `Rig`, `Highlight`, `Scenes`,
  `SceneFile`, `Server`).  The mode machine runs over fixtures with mirrors, the driver's
  shadow and the FPGA buffer.  `ServerApp.Valid` is the invariant of every reachable state; `Serve` runs any
  sequence of packets and worker steps.  Workers start and stop atomically; while alive they
  may write anything to their lights.  A ghost field records the universe at the last commit.
  Nothing in the source keeps fixtures from overlapping, so the ghost constant `apart` says
  whether they do, and what is promised of the slots of several lights at once is promised
  when they do not; all other invariants hold regardless.
* **Konami recognizer** (`Konami`).

## Where the code differs from what one would expect

Each of these is part of the model as the code has it, and a member states the exact
condition.

* The Konami action is accepted in every mode.  It leaves a worker running without an owner
  if and only if it arrives in chase, light selection or control selection
  (`Server.ServerApp.Handle`).  The firmware sends it only from idle.
* In light selection both joystick directions move the cursor down, and the long press clears
  the marks but not the highlight list, so confirming still takes the lights
  (`MoveCursor`, `UnselectAll`).
* On two cores the receive port can wedge for good: the reader empties the ring between the
  handler's failed push and its setting of the full flag (`UartRx.RunWedgesExactlyOnRace`).
* Write centering never moves DQS in this build, so it fails for every bit whose window lies
  left of position 0 (`Calibration.WritesCenter`).
* A driver write that crosses slot 512 changes the shadow, then throws, and the FPGA does not
  follow (`Dmx.DefaultDMX.SetDMX`).
* Deleting the last scene with the cursor off the list does not rewrite the scene file, which
  then no longer denotes the list (`Server.ServerApp.Store`).
* The fixture constructor tests its bound on a field that is not set yet and compares the name
  by reference; the reader's bound wraps for addresses near the largest integer
  (`Profiles.Construct`, `Profiles.RoundTrip`).

## Model

| member | source | states |
|---|---|---|
| `Deskew.Group.SweepDq` | SoC/hps_isw_handoff/soc_system_hps_0/sequencer.c:5139-5174 | First half sweep with the sticky mask and early stop: afterwards every bit's left and right edge is the recorded edge of its passing window over all DQ taps 0..max, in closed form, whether or not the loop stopped early |
| `Deskew.Group.RecordDqTap` | SoC/hps_isw_handoff/soc_system_hps_0/sequencer.c:5159-5172 | Recording one tap takes the closed-form edges after taps 0..d-1 to those after taps 0..d |
| `Deskew.Group.Handover` | SoC/hps_isw_handoff/soc_system_hps_0/sequencer.c:5178-5200 | Between the halves: right edges without a left edge become illegal, and the sticky mask holds exactly the bits with both edges (reads) or with a left edge (writes, lines 7307-7329) |
| `Deskew.Group.SweepDqsRead` | SoC/hps_isw_handoff/soc_system_hps_0/sequencer.c:5203-5260 | Second half sweep, read rule: edges equal the closed form over every DQS tap up to the limit, although the loop may stop early |
| `Deskew.Group.SweepDqsWrite` | SoC/hps_isw_handoff/soc_system_hps_0/sequencer.c:7332-7388 | Second half sweep, write rule, which can stop at tap 0: the same edges, with bits that passed only the first time marked marginal |
| `Deskew.Group.MarkMarginal` | SoC/hps_isw_handoff/soc_system_hps_0/sequencer.c:7352-7359 | On a stop at tap 0 the marginal pass yields exactly the edges that a completed tap 0 would have recorded |
| `Deskew.Group.RecordDqsTap` | SoC/hps_isw_handoff/soc_system_hps_0/sequencer.c:5232-5258 | Recording one DQS tap takes the closed-form edges after d taps to those after d+1, including the marginal and the left-of-zero cases |
| `Deskew.NothingAfter` | SoC/hps_isw_handoff/soc_system_hps_0/sequencer.c:5224-5231 | A bit that was seen and fails at tap d gets no new edge at any later tap, which is why the early stop is harmless |
| `Deskew.CompletedSweepIsExact` | SoC/hps_isw_handoff/soc_system_hps_0/sequencer.c:5274-5298 | After a completed sweep left = min(hi, max) and right = min(-lo, reach) for every window that meets the swept range, wherever it lies; an edge is illegal exactly when the window does not meet it |
| `Calibration.FindEdges` | SoC/hps_isw_handoff/soc_system_hps_0/sequencer.c:5130-5298 | Both halves and the window check, read or write rule: edges are the windows clipped to the swept range, and the check succeeds if and only if every bit has a passing position in range |
| `Centering.TargetIsCentred` | SoC/hps_isw_handoff/soc_system_hps_0/sequencer.c:5311-5355 | With C's truncating division and the upward bias, the margins at the target position differ by at most one tap and are non-negative for a non-empty window |
| `Centering.MidMinIsHalf` | SoC/hps_isw_handoff/soc_system_hps_0/sequencer.c:5311-5316 | The DQS move is half the smallest mid, rounded to the right |
| `Centering.DqsNeverClampsHigh` | SoC/hps_isw_handoff/soc_system_hps_0/sequencer.c:5323-5329 | With edges that a sweep can produce the upper DQS clamp never fires |
| `Centering.ReadPlacement` | SoC/hps_isw_handoff/soc_system_hps_0/sequencer.c:5353-5366 | The DQ shift makes up exactly what the DQS clamp took away: a bit ends at its target unless its DQ register tops out, and the lower DQ clamp never fires |
| `Centering.ReadBit` | SoC/hps_isw_handoff/soc_system_hps_0/sequencer.c:5353-5379 | Per bit: the register is legal; the position lies between the edges if and only if the window is not empty and its low end is within reach of the register; it is centred to half a tap, or the register has topped out left of the centre |
| `Centering.WritePlacement` | SoC/hps_isw_handoff/soc_system_hps_0/sequencer.c:7452-7490 | With DQS fixed only the lower DQ clamp can fire; the position lies between the edges if and only if the left edge is not negative and the window not empty; raised bits are centred to half a tap |
| `Centering.MinIndex` | SoC/hps_isw_handoff/soc_system_hps_0/sequencer.c:5300-5309 | Returns the first bit with the smallest left minus right edge |
| `Centering.StrobeMove` | SoC/hps_isw_handoff/soc_system_hps_0/sequencer.c:5311-5329 | The DQS setting is the start minus the biased half of the smallest mid, clamped to its range, and midMin the move that was possible |
| `Centering.ClampedShift` | SoC/hps_isw_handoff/soc_system_hps_0/sequencer.c:5353-5366 | The shifted register equals the unclamped shift clamped to [0, max] |
| `Calibration.ShiftBits` | SoC/hps_isw_handoff/soc_system_hps_0/sequencer.c:5348-5379 | All DQ registers are the clamped targets, and the two margins are the minima over the group of the distances of the reached positions from the two edges |
| `Calibration.CenterRead` | SoC/hps_isw_handoff/soc_system_hps_0/sequencer.c:5300-5416 | Read centering from swept edges: all registers legal, DQS never clamped high, no bit right of its centre by more than half a tap and none left of it unless its register topped out, and the verdict true exactly when every position is between its edges |
| `Calibration.CenterWrite` | SoC/hps_isw_handoff/soc_system_hps_0/sequencer.c:7413-7499 | Write centering from swept edges: DQS back at its start, all registers legal, and success depends only on the signs of the edges |
| `Calibration.VfifoCenter` | SoC/hps_isw_handoff/soc_system_hps_0/sequencer.c:5094-5444 | The whole read routine: fails if and only if some bit has no passing position in range (DQS restored, DQ at 0); otherwise every register is legal, DQS sits at the middle of the leftmost window or at 0, every bit is centred to half a tap or its register tops out left of the centre, and success is returned if and only if every operating point lies in its bit's window, equivalently if and only if the DQ register can bring every bit that far |
| `Calibration.WritesCenter` | SoC/hps_isw_handoff/soc_system_hps_0/sequencer.c:7228-7944 | The whole write routine: success if and only if every bit's window reaches position 0 or beyond and the longest mask run starts at or before 0; every bit is centred to half a tap or its delay is 0 and still right of the centre, the mask is in the middle of its run or at 0, and on success every bit and the mask work at their final, legal settings |
| `BestRuns.BestRunUnique` | SoC/hps_isw_handoff/soc_system_hps_0/sequencer.c:7670-7675 | The longest run, leftmost among ties, is unique, so the search has one right answer |
| `BestRuns.SweptIsExact` | SoC/hps_isw_handoff/soc_system_hps_0/sequencer.c:7657-7683 | Following one run and the best run so far yields the longest passing run of everything tested, leftmost among ties |
| `BestRuns.JoinIsIdle` | SoC/hps_isw_handoff/soc_system_hps_0/sequencer.c:7689-7693 | Position 0 is tested by both halves: testing it again changes nothing, and the open run goes on exactly when it touches 0 |
| `BestRuns.EarlyExitIsExact` | SoC/hps_isw_handoff/soc_system_hps_0/sequencer.c:7724-7727 | Stopping at a failing position with less room left than the best run is long does not change the answer |
| `DmSearch.SearchDm` | SoC/hps_isw_handoff/soc_system_hps_0/sequencer.c:7646-7730 | The two loops with join and early exit return the longest passing run of [-max, max - dqs], leftmost among ties, and win_best is 0 exactly when nothing passes |
| `DmSearch.PlaceDm` | SoC/hps_isw_handoff/soc_system_hps_0/sequencer.c:7732-7763 | The mask register is in [0, max] and is the middle of the run to half a tap, or 0 if the middle is right of 0; the margin is the distance to the run's left end, non-negative if and only if the position lies in the run, if and only if the run starts at or before 0 |
| `DqsEnable.ReduceToCycle` | SoC/hps_isw_handoff/soc_system_hps_0/sequencer.c:4552-4559 | The reduction loop ends, for a positive midpoint in (0, one cycle], and differs from it by whole cycles |
| `DqsEnable.CountPhases` | SoC/hps_isw_handoff/soc_system_hps_0/sequencer.c:4561-4562 | The number of phase taps brackets the midpoint |
| `DqsEnable.CountDelays` | SoC/hps_isw_handoff/soc_system_hps_0/sequencer.c:4563-4565 | The delay taps reach the midpoint from above with an error below one tap and never exceed the chain |
| `DqsEnable.SplitCentre` | SoC/hps_isw_handoff/soc_system_hps_0/sequencer.c:4549-4580 | Step 6 alone: phase and delay reach the reduced midpoint from above by less than one delay tap; a midpoint in phase 0 goes to phase 1, delay 0; the phase written is legal if and only if the midpoint is positive, which the earlier steps see to in this build, because they skip phase 0 and so begin the window at one phase tap or later (lines 4154-4160, 4210-4217) |
| `DqsEnable.DelayIsProduct` | SoC/hps_isw_handoff/soc_system_hps_0/sequencer.c:4557-4557 | Adding a tap delay k times is k times the delay |
| `UartTx.AppendDescriptor` | firmware/main/drivers/uart.c:816-824 | A descriptor behind complete messages keeps the ring parseable and adds no payload |
| `UartTx.AppendChunk` | firmware/main/drivers/uart.c:825-829 | A chunk of the open message keeps the ring parseable and appends its bytes to the payload |
| `UartTx.TxPort.constructor` | firmware/main/drivers/uart.c:1012-1019 | A fresh port is the empty pipe, whatever tx_len_cur holds |
| `UartTx.TxPort.BeginWrite` | firmware/main/drivers/uart.c:804-824 | Starting a message queues its descriptor and takes the whole message as written and to be sent; it is the pipe's write step, and an empty message is ignored |
| `UartTx.TxPort.PushChunk` | firmware/main/drivers/uart.c:825-829 | Queueing a chunk takes exactly the next min(rest, max_size/2) bytes, and is the pipe's push step |
| `UartTx.TxPort.Arm` | firmware/main/drivers/uart.c:830-830 | Enabling the interrupt is the pipe's enable step |
| `UartTx.TxPort.TakeItem` | firmware/main/drivers/uart.c:550-580 | The item taken when no bytes are owed is a descriptor and otherwise a chunk, and no queued byte is lost |
| `UartTx.TxPort.Fill` | firmware/main/drivers/uart.c:581-617 | Copying moves a prefix of the queued bytes to the FIFO and keeps the three counters in step with the ring |
| `UartTx.TxPort.Pump` | firmware/main/drivers/uart.c:544-618 | The handler's loop ends and moves exactly min(space, queued) bytes, in order |
| `UartTx.TxPort.HandlerPass` | firmware/main/drivers/uart.c:523-625 | A handler pass moves exactly min(space, queued) bytes in order, leaves the interrupt on exactly if that is not 0, and refines the pipe's interrupt step |
| `UartTx.TxPort.EnterPass` | firmware/main/drivers/uart.c:523-545 | Entering a pass turns the interrupt off, notes the room and is the pipe's enter step |
| `UartTx.TxPort.LookOnce` | firmware/main/drivers/uart.c:549-618 | One turn of the handler's loop is the pipe's look step, so a task may act between any two turns; it makes progress, or ends the pass because the FIFO is full or nothing is queued |
| `UartTx.TxPort.LeavePass` | firmware/main/drivers/uart.c:619-625 | Leaving a pass enables the interrupt exactly if something was sent and never turns off what a task enabled meanwhile |
| `UartTx.StepIsSound` | firmware/main/drivers/uart.c:549-618 | Every step, also inside a handler pass, keeps sent + queued + unwritten = written, never takes a sent byte back, and leaves no queued byte without an interrupt that is on, about to be, or being served |
| `UartTx.WrittenIsMessages` | firmware/main/drivers/uart.c:804-832 | Over every run, what counts as written is the concatenation of the messages of the write events that came when the writer before was done |
| `UartTx.SentIsPrefix` | firmware/main/drivers/uart.c:549-618 | In every interleaving the bytes in the FIFO are a prefix of the concatenation of the messages taken |
| `UartTx.QuietMeansSent` | firmware/main/drivers/uart.c:619-624 | When the writer is done, no pass is under way and the interrupt stays off, every byte has been sent |
| `UartTx.Run` | firmware/main/drivers/uart.c:549-832 | The port with rings, descriptors and counters refines the byte pipe over every run of events, with whole handler passes or passes that overlap with the writing task step by step |
| `UartTx.Drain` | firmware/main/drivers/uart.c:549-624 | Interrupts alone, with any positive space, bring out every written byte |
| `UartTx.Transmit` | firmware/main/drivers/uart.c:804-832 | One whole message, pushed chunk by chunk with a handler pass after each, is sent to the last byte behind everything before it |
| `UartTx.TxPort.BlockedWriterIsServed` | firmware/main/drivers/uart.c:824-831 | A writer that finds no room in the ring for its next descriptor or chunk has bytes queued before it and an interrupt that is on or being served |
| `UartTx.MakeRoom` | firmware/main/drivers/uart.c:813-831 | Interrupts alone make room for a blocked writer, within as many passes as bytes are queued |
| `UartRx.IsrKeepsWaiting` | firmware/main/drivers/uart.c:627-656 | Both halves of the handler only move bytes from one place to the next |
| `UartRx.StepIsGood` | firmware/main/drivers/uart.c:627-931 | Every step of handler or reader, also interleaved, keeps bytes in order, the counter exact up to credits and debits in flight, and the ring within its capacity |
| `UartRx.RunIsGood` | firmware/main/drivers/uart.c:627-931 | Over every run: delivered, held piece, ring, live stash and hardware FIFO concatenate to what arrived; rx_buffered_len equals ring plus held bytes plus outstanding debits minus outstanding credits |
| `UartRx.HandlePushesExactly` | firmware/main/drivers/uart.c:627-656 | From every good state: the flag is set if and only if the load exceeds the free room, else the load is at the ring's end and counted |
| `UartRx.RunStaysOpen` | firmware/main/drivers/uart.c:627-931 | Over every run in which the bytes not yet delivered always fit the ring beside the held piece, no push fails and the flag is never set |
| `UartRx.StepIsNotWedged` | firmware/main/drivers/uart.c:644-650 | With the handler undisturbed, a set full flag implies a ring byte, a held item or a reader about to send the stash again |
| `UartRx.RunIsNotWedged` | firmware/main/drivers/uart.c:911-924 | The same over every run with undisturbed handler passes |
| `UartRx.StepWedgesExactlyOnRace` | firmware/main/drivers/uart.c:644-649 | In general one step wedges the port if and only if it sets the flag after the reader emptied the ring since the failed push |
| `UartRx.RunWedgesExactlyOnRace` | firmware/main/drivers/uart.c:644-924 | Over every run, also on two cores: the port ends up wedged if and only if that race occurred |
| `UartRx.WedgedForever` | firmware/main/drivers/uart.c:886-926 | A wedged port never delivers another byte, whatever happens |
| `UartRx.SplitHandlerCanWedge` | firmware/main/drivers/uart.c:644-649 | A concrete interleaving of handler and reader that wedges the port with a byte in the stash |
| `UartRx.RxPort.constructor` | firmware/main/drivers/uart.c:994-1032 | A ring larger than the FIFO gives an initial state that is consistent and not wedged |
| `UartRx.RxPort.HandleRx` | firmware/main/drivers/uart.c:627-667 | The handler sets the full flag if and only if the FIFO load exceeds the free room, and then stashes it; otherwise the whole load is at the end of the ring and counted; with the flag set nothing happens; it is the machine's handle step |
| `UartRx.RxPort.SendStash` | firmware/main/drivers/uart.c:915-924 | The stash is sent again if and only if it fits, and then counted and the flag cleared; these are the machine's re-send, credit and clear steps |
| `UartRx.RxPort.CopyOut` | firmware/main/drivers/uart.c:901-925 | One turn of the read loop is a run of the machine's copy, give-back and re-send steps; the full flag stays set only if nothing was added to the ring |
| `UartRx.RxPort.ReadLoop` | firmware/main/drivers/uart.c:886-926 | The read loop ends, is a run of the machine's reader steps, and stops short of the request only on an empty ring |
| `UartRx.RxPort.ReadBytes` | firmware/main/drivers/uart.c:874-932 | A read call is a run of the machine's reader steps; it delivers exactly the oldest min(length, stored) bytes, also out of the stash, frees the stash if the request reaches past the ring, and leaves the port consistent, not wedged and the counter exact |
| `Konami.Recognizer.ClearKonami` | firmware/main/konami.c:11-16 | Both counters and the tick count are 0 |
| `Konami.Recognizer.KonamiTick` | firmware/main/konami.c:18-25 | A tick is the machine's tick step: counts up from 1 and clears after more than 300000 |
| `Konami.Recognizer.CheckKonami` | firmware/main/konami.c:27-169 | The branch cascade is the table-driven two-track automaton, in its state and in what it reports |
| `Konami.CounterTellsHistory` | firmware/main/konami.c:27-169 | In every run a counter of k > 0 means that the events since the last cleared state spell exactly the first k symbols of its code with at most 300000 ticks between neighbours, and gives the tick count |
| `Konami.SpellingCounts` | firmware/main/konami.c:27-169 | Conversely, spelling k symbols from a cleared state brings the counter to k |
| `Konami.CompleteExactly` | firmware/main/konami.c:27-169 | COMPLETE or REV_COMPLETE is reported if and only if the events since some cleared state, this one last, spell the whole code of 11 symbols in time |
| `Konami.SemicompleteExactly` | firmware/main/konami.c:27-169 | SEMICOMPLETE is reported if and only if the event is the 8th, 9th or 10th symbol of a code spelled in time since a cleared state |
| `Dmx.PackRoundTrip` | chuck_server/src/chuck/dmx/DefaultDMX.java:98-109 | Up to four bytes packed into 32 bits come back lane by lane |
| `Dmx.FpgaPatches` | dmx_module/dmx512.sv:35-66 | A packed write of size n changes exactly the n addressed slots of the FPGA buffer to the packed bytes |
| `Dmx.PatchThree` | chuck_server/src/chuck/lighting/FixtureProfile.java:322-331 | Three neighbouring slots in one write equal three single writes |
| `Dmx.DefaultDMX.SetDMX` | chuck_server/src/chuck/dmx/DefaultDMX.java:88-116 | Every argument error leaves shadow and FPGA alone; a valid write patches both alike; a write past slot 512 changes the shadow only and then throws |
| `Dmx.DefaultDMX.SetAll` | chuck_server/src/chuck/dmx/DefaultDMX.java:124-132 | Each of slots 1..512 is written exactly once and shadow equals FPGA; a bad value stops the call with exactly the slots before its group of four written |
| `Dmx.DefaultDMX.ClearDMX` | chuck_server/src/chuck/dmx/DefaultDMX.java:140-144 | Slots 1..512 are 0 in shadow and FPGA |
| `Dmx.DefaultDMX.GetDMX` | chuck_server/src/chuck/dmx/DefaultDMX.java:66-70 | Exactly addresses 1..512 are answered, with the shadow's value |
| `Profiles.BuildMap` | chuck_server/src/chuck/lighting/FixtureProfile.java:84-93 | Succeeds exactly when no name is empty or repeated, and then numbers the names in order, both ways |
| `Profiles.DefaultColor` | chuck_server/src/chuck/lighting/FixtureProfile.java:95-102 | The offset of the first colour name present, or -1 |
| `Profiles.Construct` | chuck_server/src/chuck/lighting/FixtureProfile.java:63-106 | Succeeds exactly for address >= 1, 1..512 channels, valid names and a name that is not the empty literal: the upper bound on the address is not enforced |
| `Profiles.Read` | chuck_server/src/chuck/lighting/FixtureProfile.java:134-178 | Accepts exactly a non-empty name, valid channel names, a colour offset in range and a wrapped sum of at most 513, and rebuilds the map |
| `Profiles.SortedKeysAreChannels` | chuck_server/src/chuck/lighting/FixtureProfile.java:125-131 | Whatever order the hash map has, the keys sorted by value are the channel list |
| `Profiles.RoundTrip` | chuck_server/src/chuck/lighting/FixtureProfile.java:119-178 | A constructed profile read back is the same profile if and only if its name is not empty, a colour channel exists and the bound passes in 32-bit arithmetic; it is rejected otherwise |
| `Profiles.WrappedAddressIsAccepted` | chuck_server/src/chuck/lighting/FixtureProfile.java:173-174 | A concrete fixture outside the universe that the bound lets through |
| `Fixtures.RangesStayExactlyIfApart` | chuck_server/src/chuck/lighting/FixtureProfile.java:262-369 | Arbitrary writes inside one fixture's range leave another fixture's slots alone if and only if the two ranges are disjoint |
| `Rig.Apply` | chuck_server/src/chuck/lighting/FixtureProfile.java:262-433 | Every fixture operation, accepted or refused, changes mirror and slots alike and as its arguments say, changes no slot outside the fixture, keeps shadow equal to FPGA, and keeps the fixture in sync if it was |
| `Rig.ApplyAmong` | chuck_server/src/chuck/lighting/FixtureProfile.java:262-433 | Among fixtures with disjoint ranges on one driver, an operation on one keeps every fixture in sync that was, and leaves the mirror and slots of all others alone |
| `Rig.Operate` | chuck_server/src/chuck/lighting/FixtureProfile.java:262-433 | Three-level coherence over every run of operations on disjoint fixtures: each mirror in sync stays equal to its slice of the shadow and of the FPGA buffer, and the fixture ends as if the operations on it had been the only ones |
| `Fixtures.FixtureProfile.SetChannelManual` | chuck_server/src/chuck/lighting/FixtureProfile.java:361-369 | Errors exactly for a bad channel or value; otherwise mirror and shadow change in that one slot alike, and an in-sync mirror stays in sync |
| `Fixtures.FixtureProfile.SetDimmerValue` | chuck_server/src/chuck/lighting/FixtureProfile.java:342-348 | The same for the dimmer; fails without a dimmer channel |
| `Fixtures.FixtureProfile.SetColor` | chuck_server/src/chuck/lighting/FixtureProfile.java:308-332 | The three colour slots change alike in mirror and shadow, on the packed path and on the one-by-one path; fails exactly without r, g and b |
| `Fixtures.FixtureProfile.SetDMXVals` | chuck_server/src/chuck/lighting/FixtureProfile.java:262-276 | All or nothing: on success mirror and slice equal the given values, on error nothing changed; nothing outside the range changes |
| `Fixtures.FixtureProfile.SyncLight` | chuck_server/src/chuck/lighting/FixtureProfile.java:391-393 | The mirror equals its slice |
| `Fixtures.FixtureProfile.ClearLight` | chuck_server/src/chuck/lighting/FixtureProfile.java:428-433 | Mirror and slice are all zero and nothing outside changes |
| `Highlight.HighlightThread.AddLight` | chuck_server/src/chuck/threads/HighlightThread.java:77-87 | Adds a light with its saved values unless present; the list stays duplicate-free and parallel to savedValues |
| `Highlight.HighlightThread.RemoveLight` | chuck_server/src/chuck/threads/HighlightThread.java:96-111 | Restores the light's saved values in mirror and universe, changes no other slot, and removes it and its row, leaving the others in order; a light not shown is left alone |
| `Highlight.HighlightThread.Redrum` | chuck_server/src/chuck/threads/HighlightThread.java:113-124 | Ends with an empty list, every light's mirror and, for lights that do not overlap, its slots of the universe back at the saved values, and returns the lights that were shown |
| `Highlight.HighlightThread.Pulse` | chuck_server/src/chuck/threads/HighlightThread.java:48-55 | The dimmer stays on its grid in [20, 255] and runs through the whole triangle wave between 255 and 20, turning only at its ends |
| `Highlight.AngleRuns` | chuck_server/src/chuck/threads/HighlightThread.java:48-55 | Any number of pulses moves the dimmer that far along its wave, so both ends come up within 94 pulses |
| `Highlight.HighlightThread.Show` | chuck_server/src/chuck/threads/HighlightThread.java:31-59 | The light's row is exactly its old row, or after a change of the list its slots with the default colour lit if no colour is, with the next dimmer value |
| `Highlight.RevealedIsLit` | chuck_server/src/chuck/threads/HighlightThread.java:35-46 | A fixture with a colour channel shows some colour after the list has changed |
| `Highlight.HighlightThread.Pass` | chuck_server/src/chuck/threads/HighlightThread.java:30-64 | A pass writes only inside its lights and refuses nothing, whatever their number; lights that do not overlap show consecutive values of the wave in mirror and universe; the list invariant is kept |
| `Scenes.StepsUndo` | chuck_server/src/chuck/lighting/SceneManager.java:101-126 | One step right and one step left undo each other, from every cursor position |
| `Scenes.WalkIsCyclic` | chuck_server/src/chuck/lighting/SceneManager.java:101-110 | Stepping right walks the cycle -1, 0, .., n-1 |
| `Scenes.SceneManager.GetNextScene` | chuck_server/src/chuck/lighting/SceneManager.java:101-110 | Moves the cursor one right and returns the scene under it |
| `Scenes.SceneManager.GetLastScene` | chuck_server/src/chuck/lighting/SceneManager.java:112-126 | Moves the cursor one left and returns the scene under it |
| `Scenes.SceneManager.DeleteScene` | chuck_server/src/chuck/lighting/SceneManager.java:86-91 | Removes the scene under the cursor, if any, and resets the cursor |
| `Scenes.SceneManager.DeleteSceneAt` | chuck_server/src/chuck/lighting/SceneManager.java:93-99 | Removes that scene if it exists; the cursor stays valid if and only if it is still below the count |
| `Scenes.SceneManager.UpdateFile` | chuck_server/src/chuck/lighting/SceneManager.java:40-60 | After the file is rewritten it denotes the scene list |
| `SceneFile.ParsePrint` | chuck_server/src/chuck/lighting/SceneManager.java:47-49 | Parsing the decimal text of any 32-bit integer gives it back |
| `SceneFile.ValueIsDecimal` | chuck_server/src/chuck/lighting/SceneManager.java:70-70 | A non-empty string of digits denotes the sum of its digits times powers of ten, and no other string denotes anything |
| `SceneFile.DigitsAreDecimal` | chuck_server/src/chuck/lighting/SceneManager.java:47-49 | The printed digits sum up to the number and have no leading zero |
| `SceneFile.SplitJoin` | chuck_server/src/chuck/lighting/SceneManager.java:67-67 | Splitting joined pieces gives them back |
| `SceneFile.UpdateSceneFile` | chuck_server/src/chuck/lighting/SceneManager.java:40-60 | The writer's loops produce the scene list's text |
| `SceneFile.ParseSceneFile` | chuck_server/src/chuck/lighting/SceneManager.java:62-76 | The reader, with all line ends of readLine, returns the scenes the text denotes if there are any, and fails otherwise |
| `SceneFile.WrittenFileReadsBack` | chuck_server/src/chuck/lighting/SceneManager.java:40-76 | The text of any list of 513-integer scenes denotes that list |
| `SceneFile.SaveAndReload` | chuck_server/src/chuck/lighting/SceneManager.java:40-76 | Writing and reading back any list of 513-integer scenes returns it |
| `Server.ServerApp.RevertScene` | chuck_server/src/chuck/threads/ServerAppThread.java:851-864 | Slots 1..512 show the snapshot, and the mirror of every selected light equals its slots |
| `Server.ServerApp.ClearSelected` | chuck_server/src/chuck/threads/ServerAppThread.java:866-870 | No light is marked selected |
| `Server.ServerApp.StartHighlight` | chuck_server/src/chuck/threads/ServerAppThread.java:920-924 | A new worker on exactly the current light |
| `Server.ServerApp.RedrumHighlight` | chuck_server/src/chuck/threads/ServerAppThread.java:926-938 | Called on a live worker; returns its lights and leaves none running |
| `Server.ServerApp.InChase` | chuck_server/src/chuck/threads/ServerAppThread.java:209-235 | Only B2 leaves, and then the universe shows the last commit; otherwise the action leaves it alone |
| `Server.ServerApp.Browse` | chuck_server/src/chuck/threads/ServerAppThread.java:242-269 | Browsing moves the cursor cyclically, shows the scene under it and leaves the snapshot alone |
| `Server.ServerApp.Store` | chuck_server/src/chuck/threads/ServerAppThread.java:285-325 | Storing appends the universe only when the cursor is off the list; deleting drops the scene under the cursor and shows the last commit, or drops the last scene and goes black; a scene file that denoted the list still does if and only if the press did not drop the last scene in that second way |
| `Server.ServerApp.CommitAndSelect` | chuck_server/src/chuck/threads/ServerAppThread.java:270-275 | Records the universe as the snapshot and highlights the current light |
| `Server.ServerApp.InIdle` | chuck_server/src/chuck/threads/ServerAppThread.java:236-335 | Mode, commit, universe, scene list and cursor after every action, with all invariants kept |
| `Server.ServerApp.MoveCursor` | chuck_server/src/chuck/threads/ServerAppThread.java:342-367 | Both directions move to the next lower light cyclically; a light is highlighted afterwards if and only if it is the new current light, or was highlighted and is not the one left unless that is selected; the universe shows the last commit if the light left was not selected |
| `Server.ServerApp.UnselectAll` | chuck_server/src/chuck/threads/ServerAppThread.java:375-378 | Clears the marks but leaves the highlight list as it was |
| `Server.ServerApp.ConfirmLights` | chuck_server/src/chuck/threads/ServerAppThread.java:379-404 | The highlighted lights become the selected ones (never none), canChangeDMX holds exactly when they agree in channel count, and the universe shows the last commit |
| `Server.ServerApp.CancelLights` | chuck_server/src/chuck/threads/ServerAppThread.java:405-414 | Back to idle with no worker, no marks and the universe of the last commit |
| `Server.ServerApp.InLightSelection` | chuck_server/src/chuck/threads/ServerAppThread.java:336-416 | Mode, cursor, highlighted lights, marks and universe after every action, with the invariants; leaving shows the last commit, and confirming takes exactly the highlighted lights |
| `Server.ServerApp.SwitchControl` | chuck_server/src/chuck/threads/ServerAppThread.java:423-480 | The worker of the neighbouring control replaces the running one; the universe shows the last commit unless the raw control was skipped |
| `Server.ServerApp.ConfirmControl` | chuck_server/src/chuck/threads/ServerAppThread.java:481-503 | Stops the right worker and enters its mode; raw mode starts from the last commit at channel 0, the other modes leave the universe alone |
| `Server.ServerApp.CancelControl` | chuck_server/src/chuck/threads/ServerAppThread.java:504-524 | Back to light selection on the last commit with one highlight worker |
| `Server.ServerApp.BackToControl` | chuck_server/src/chuck/threads/ServerAppThread.java:538-545 | Back from a control its worker starts again, on the last commit exactly if the source reverts |
| `Server.ServerApp.InControlSelection` | chuck_server/src/chuck/threads/ServerAppThread.java:417-526 | Mode, control, channel index and universe after every action, with the invariants |
| `Server.ServerApp.InColorWheel` | chuck_server/src/chuck/threads/ServerAppThread.java:527-568 | Paint every selected light: exactly its three colour channels, in its mirror and in the universe, and nothing else in the universe; commit and back leave the universe alone |
| `Server.ServerApp.OnSelected` | chuck_server/src/chuck/threads/ServerAppThread.java:553-560 | An operation on all selected lights changes each mirror row exactly as on one light, the universe alike where lights do not overlap, and no slot outside them |
| `Server.ServerApp.EditChannels` | chuck_server/src/chuck/threads/ServerAppThread.java:575-643 | Channel index on a ring; every selected light's current channel, and no other, moves by the step unless it would leave 0..255, or all go dark, in the mirrors and in the universe; the channel exists on each of them |
| `Server.ServerApp.InDmxMode` | chuck_server/src/chuck/threads/ServerAppThread.java:569-646 | Edits as above; channel index below every selected light's channel count; cancel shows the last commit, and every other action leaves the universe alone |
| `Server.ServerApp.InPreset` | chuck_server/src/chuck/threads/ServerAppThread.java:647-695 | Preset index on a ring, every selected light painted with it in its mirror and in the universe, and nothing else in the universe; every other action leaves the universe alone |
| `Server.ServerApp.InParty` | chuck_server/src/chuck/threads/ServerAppThread.java:696-824 | Every fixture takes the level and its colour (white in scary mode) in its mirror and in the universe, none refused; every other packet leaves the universe alone, and only a long press leaves the mode |
| `Server.ServerApp.FlashAll` | chuck_server/src/chuck/threads/ServerAppThread.java:743-754 | All fixtures: mirror rows and, unless fixtures overlap, slots take exactly the level and the colour |
| `Server.ServerApp.Handle` | chuck_server/src/chuck/threads/ServerAppThread.java:165-829 | One packet: mode by the table, the mode's own effect on universe, lights, indices and scenes, commit exactly on B1 in idle and the three control modes, light selection always begun with the current light alone, all invariants kept if and only if the packet does not strand a worker (Konami in a mode with a live worker) |
| `Server.ServerApp.WorkerWrite` | chuck_server/src/chuck/threads/ServerAppThread.java:872-955 | A live worker may write any channel of its own lights at any time: exactly that slot changes, an illegal write changes nothing, and no invariant breaks |
| `Server.ServerApp.HighlightPass` | chuck_server/src/chuck/threads/HighlightThread.java:30-64 | The highlight worker may run at any time without breaking an invariant: it changes only its lights, and shows the next values of the wave on them |
| `Server.ServerApp.ChaseStep` | chuck_server/src/chuck/threads/ChaseThread.java:29-45 | A live chase shows a whole scene without breaking an invariant |
| `Server.EnteredFrom` | chuck_server/src/chuck/threads/ServerAppThread.java:207-824 | The mode table from the other side: for every mode exactly which mode, action, control and number of scenes lead into it |
| `Server.ColoredShows` | chuck_server/src/chuck/lighting/FixtureProfile.java:308-332 | A painted row shows the colour on its three channels and differs nowhere else |
| `Server.StepMovesOne` | chuck_server/src/chuck/threads/ServerAppThread.java:585-616 | A stepped row differs in the one channel, which moves by the step exactly if that stays in 0..255 |
| `Server.FlashShows` | chuck_server/src/chuck/threads/ServerAppThread.java:743-754 | A flashed row shows level and colour and differs nowhere else |
| `Server.ControlsAreARing` | chuck_server/src/chuck/threads/ServerAppThread.java:423-480 | Left and right walk a ring of the offered controls in opposite directions |
| `Server.JumpsExactlyOverRaw` | chuck_server/src/chuck/threads/ServerAppThread.java:432-443 | The scene is not reverted exactly when the step passes over the raw control that is not offered |
| `Server.ListedIsExact` | chuck_server/src/chuck/threads/ServerAppThread.java:285-325 | The scene list gains the universe at its end, or loses exactly the scene under the cursor or else the last one |
| `Server.Serve` | chuck_server/src/chuck/threads/ServerAppThread.java:139-849 | Over every run of packets and worker steps: exactly the mode's worker is live, indices are in range, the selected lights' mirrors equal their slots while a control is chosen or used, and every return from light selection or chase to idle shows the universe of the last commit |
| `Server.CancelLeadsHome` | chuck_server/src/chuck/threads/ServerAppThread.java:207-694 | From every mode that is entered by selecting, as many cancel presses as its depth (1 to 3), with any worker steps in between, lead to idle on the universe last committed |
| `Server.PaintCommitCancel` | chuck_server/src/chuck/threads/ServerAppThread.java:527-561 | A colour painted and committed is exactly what the universe shows on those lights after a later selection is cancelled, however often the highlight worker ran |

## Left out

- Break transmission, `uart_flush`, the FIFO overflow reset, unbuffered transmission and several writers at a time: the byte-stream claims do not hold across them.
- The transmit ring's byte layout: whether it takes an item is a parameter, of which `MakeRoom` assumes that an empty ring takes any item sent and that a chunk fits beside one descriptor.
- UART FIFO depth and interrupt enable bits on reception: bytes arrive only while the hardware FIFO has room.
- Steps 1 to 5 of the DQS-enable search, write levelling, memory power-up and all memory types and calibration options that this build does not use.
- Bit masks: the sticky and test masks are sets of bit numbers; registers are sequences, and the two edge buffers become sequences after the sweeps.
- Calibration figures of merit and reports: they do not influence the result.
- `dmxShadow`, the FPGA buffer and the fixtures' mirrors are sequence-valued fields, not arrays; the source copies them on every hand-over.
- Scene files with values outside 0..255: the reader accepts them and they are refused only when shown.
- Fixtures are equipped with red, green, blue and dimmer channels and fit the universe in everything about the server; the single operations model the other cases as errors.
- File access, failures of device writes, packet parsing, heartbeats and the chase delay.
- The colour of a joystick position and the level and random colours of a motion reading are parameters of the command.
- Thread timing inside start and stop, `stopServer`, and the Java memory model.
- Button debouncing, LED animation, motion averaging, colour conversion, the user interface and the kernel driver: easy or outside the logic modelled here.
- Server.Serve: a Konami action that would strand a worker is dropped, because the firmware does not send it; `Server.ServerApp.Handle` states what the server does with it.
- UartRx.RxPort.ReadBytes: the call is undisturbed by the handler; interleavings are covered by `UartRx.RunIsGood`.
- Server.ServerApp.OnSelected: of the universe it speaks only when no two fixtures overlap; with overlapping fixtures the later write wins.
