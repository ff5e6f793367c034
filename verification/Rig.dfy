/** All fixtures on one driver: mirrors, driver shadow and FPGA buffer stay coherent. */
module Rig {
  import opened Dmx
  import opened Fixtures

  /** A fixture operation with its arguments (a colour has byte components). */
  datatype Operation =
    | Channel(channel: int, value: int)
    | Dimmer(value: int)
    | Color(r: int, g: int, b: int)
    | Values(values: seq<int>)
    | Clear
    | Sync
  {
    predicate Valid() { Color? ==> IsByte(r) && IsByte(g) && IsByte(b) }
  }

  ghost predicate Sharing(lights: seq<FixtureProfile>, d: DefaultDMX)
    reads lights`vals
  {
    forall f | f in lights :: f.Valid() && f.dmx == d
  }

  /** A fixture's row of channel values after an operation that writes; a refused one changes
      nothing. */
  function RowAfter(op: Operation, m: map<string, nat>, row: seq<int>): seq<int> {
    match op
    case Channel(c, v) => if 0 <= c < |row| && IsByte(v) then row[c := v] else row
    case Dimmer(v) => if IsByte(v) && "dimmer" in m && m["dimmer"] < |row| then row[m["dimmer"] := v] else row
    case Color(r, g, b) =>
      if "red" in m && "green" in m && "blue" in m && m["red"] < |row| && m["green"] < |row| && m["blue"] < |row|
      then WithThree(row, m["red"], m["green"], m["blue"], r, g, b) else row
    case Values(vs) => if |vs| == |row| && AllBytes(vs) then vs else row
    case Clear => seq(|row|, _ => 0)
    case Sync => row
  }

  ghost function RowIf(touched: bool, op: Operation, g: FixtureProfile, row: seq<int>): seq<int> {
    if touched then RowAfter(op, g.profile.channelMap, row) else row
  }

  /** One operation on one fixture, accepted or refused: mirror and slots change alike, no slot
      outside it changes, and it is in sync afterwards if it was before. */
  method Apply(f: FixtureProfile, op: Operation)
    requires f.Valid() && f.dmx.Valid() && op.Valid()
    modifies f`vals, f.dmx
    ensures f.Valid() && f.dmx.Valid()
    ensures OnlyInside(old(f.dmx.shadow), f.dmx.shadow, f.profile.address, f.n)
    ensures old(f.Synced()) || op.Clear? || op.Sync? ==> f.Synced()
    ensures f.Slice(f.dmx.shadow) == RowAfter(op, f.profile.channelMap, old(f.Slice(f.dmx.shadow)))
    ensures f.vals == if op.Sync? then f.Slice(f.dmx.shadow) else RowAfter(op, f.profile.channelMap, old(f.vals))
  {
    match op
    case Channel(c, v) => var _ := f.SetChannelManual(c, v);
    case Dimmer(v) => var _ := f.SetDimmerValue(v);
    case Color(r, g, b) => var _ := f.SetColor(r, g, b);
    case Values(vs) => var _ := f.SetDMXVals(vs);
    case Clear => f.ClearLight();
    case Sync => f.SyncLight();
  }

  /** ... and, for fixtures with disjoint ranges, so is every other fixture on the driver. */
  method ApplyAmong(lights: seq<FixtureProfile>, k: nat, op: Operation, ghost d: DefaultDMX)
    requires d.Valid() && Sharing(lights, d) && k < |lights| && op.Valid()
    modifies lights`vals, d
    ensures d.Valid() && Sharing(lights, d)
    ensures forall g | g in lights && g != lights[k] :: g.vals == old(g.vals)
    ensures AllApart(lights) ==> forall g | g in lights && old(g.SyncedWith(d)) :: g.SyncedWith(d)
    ensures AllApart(lights) ==> forall g | g in lights && g != lights[k] :: g.Slice(d.shadow) == old(g.Slice(d.shadow))
    ensures forall g | g in lights && old(g.SyncedWith(d)) :: g.vals == RowIf(lights[k] == g, op, g, old(g.vals))
  {
    var f := lights[k];
    assert f in lights;
    Apply(f, op);
    forall g | AllApart(lights) && g in lights && g != f
      ensures g.Slice(d.shadow) == old(g.Slice(d.shadow))
    {
      SliceKept(f, g, old(d.shadow), d.shadow);
    }
  }

  /** A fixture's row after those of the steps that concern it. */
  ghost function RowsAfter(lights: seq<FixtureProfile>, g: FixtureProfile, steps: seq<(nat, Operation)>, row: seq<int>)
    : seq<int>
    requires forall i | 0 <= i < |steps| :: steps[i].0 < |lights|
  {
    if steps == [] then row
    else
      var last := |steps| - 1;
      RowIf(lights[steps[last].0] == g, steps[last].1, g, RowsAfter(lights, g, steps[..last], row))
  }

  lemma RowsStep(lights: seq<FixtureProfile>, g: FixtureProfile, steps: seq<(nat, Operation)>, row: seq<int>, i: nat)
    requires i < |steps| && forall i | 0 <= i < |steps| :: steps[i].0 < |lights|
    ensures RowsAfter(lights, g, steps[..i + 1], row)
         == RowIf(lights[steps[i].0] == g, steps[i].1, g, RowsAfter(lights, g, steps[..i], row))
  {
    assert steps[..i + 1][..i] == steps[..i];
  }

  /** Three-level coherence over every run of operations on fixtures with disjoint ranges: each
      mirror that equals its slice of the shadow keeps doing so, the shadow equals the FPGA
      buffer, and so the FPGA sends what the mirrors show; and each of these fixtures ends as if
      the operations on it had been the only ones. */
  method Operate(lights: seq<FixtureProfile>, steps: seq<(nat, Operation)>, ghost d: DefaultDMX)
    requires d.Valid() && Sharing(lights, d) && AllApart(lights)
    requires forall i | 0 <= i < |steps| :: steps[i].0 < |lights| && steps[i].1.Valid()
    modifies lights`vals, d
    ensures d.Valid() && Sharing(lights, d)
    ensures forall g | g in lights && old(g.SyncedWith(d)) ::
      g.SyncedWith(d) && g.vals == g.Slice(d.wire) == RowsAfter(lights, g, steps, old(g.vals))
  {
    for i := 0 to |steps|
      invariant d.Valid() && Sharing(lights, d)
      invariant forall g | g in lights && old(g.SyncedWith(d)) ::
        g.SyncedWith(d) && g.vals == RowsAfter(lights, g, steps[..i], old(g.vals))
    {
      ApplyAmong(lights, steps[i].0, steps[i].1, d);
      forall g | g in lights && old(g.SyncedWith(d))
        ensures g.vals == RowsAfter(lights, g, steps[..i + 1], old(g.vals))
      {
        RowsStep(lights, g, steps, old(g.vals), i);
      }
    }
    assert steps[..|steps|] == steps;
    forall g | g in lights ensures g.Slice(d.wire) == g.Slice(d.shadow) {
      WireSlice(g, d);
    }
  }

  /** Every fixture lies in the part of the universe that the FPGA sends. */
  lemma WireSlice(g: FixtureProfile, d: DefaultDMX)
    requires g.WellFormed() && d.Valid()
    ensures g.Slice(d.wire) == g.Slice(d.shadow)
  {
    var a, n := g.profile.address, g.n;
    assert d.wire[1..][a - 1..a - 1 + n] == d.wire[a..a + n];
    assert d.shadow[1..][a - 1..a - 1 + n] == d.shadow[a..a + n];
  }
}
