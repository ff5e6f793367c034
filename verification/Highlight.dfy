/** The highlighting worker: the lights being shown, the values to restore them to, and the
    pulsing dimmer. */
module Highlight {
  import opened Dmx
  import opened Fixtures
  import opened Profiles

  const STEP := 5
  const LOW := 25
  const HIGH := 255

  /** Steps from one end of the dimmer's range to the other. */
  const HALF := 47

  function NextAngle(a: nat): nat { if a + 1 == 2 * HALF then 0 else a + 1 }

  /** The dimmer's value along its way: a triangle between 255 and 20. */
  function Wave(a: nat): int { if a <= HALF then 255 - STEP * a else 20 + STEP * (a - HALF) }

  /** The angle k steps on. */
  function AngleAfter(a: nat, k: nat): nat { if k == 0 then a else NextAngle(AngleAfter(a, k - 1)) }

  /** What the i-th light of a pass shows. */
  function LevelAt(start: nat, i: nat): int { Wave(AngleAfter(start, i + 1)) }

  /** The dimmer's angle, by the direction it moves in. */
  function AngleOf(direction: int, dimmer: int): nat
    requires dimmer % STEP == 0 && 20 <= dimmer <= 255
  {
    if direction == -STEP then 51 - dimmer / STEP
    else if dimmer == 255 then 0 else HALF + dimmer / STEP - 4
  }

  lemma PulseTurns(direction: int, dimmer: int, turned: int, moved: int)
    requires dimmer % STEP == 0 && 20 <= dimmer <= 255 && (direction == STEP || direction == -STEP)
    requires turned == if direction == -STEP && dimmer < LOW then STEP
                       else if direction == STEP && dimmer >= HIGH then -STEP else direction
    requires moved == dimmer + turned
    ensures moved % STEP == 0 && 20 <= moved <= 255
    ensures AngleOf(turned, moved) == NextAngle(AngleOf(direction, dimmer)) && moved == Wave(AngleOf(turned, moved))
  {
    var q := dimmer / STEP;
    assert dimmer == STEP * q && moved == STEP * (if turned == STEP then q + 1 else q - 1);
  }

  /** Within one round, every value of the wave comes up: in particular both ends. */
  lemma {:induction false} AngleRuns(a: nat, k: nat)
    requires a < 2 * HALF && k <= 2 * HALF
    ensures AngleAfter(a, k) == if a + k < 2 * HALF then a + k else a + k - 2 * HALF
  {
    if k > 0 {
      AngleRuns(a, k - 1);
    }
  }

  /** Lights that share the driver `d` and can be written. */
  ghost predicate Ready(lights: seq<FixtureProfile>, d: DefaultDMX)
    reads lights`vals
  {
    forall f | f in lights :: ReadyLight(f, d)
  }

  ghost predicate ReadyLight(f: FixtureProfile, d: DefaultDMX)
    reads f`vals
  {
    f.Valid() && f.Equipped() && f.dmx == d
  }

  ghost predicate Distinct(lights: seq<FixtureProfile>) {
    forall i, j | 0 <= i < j < |lights| :: lights[i] != lights[j]
  }

  /** The dimmer's value in a row of the light's channel values. */
  ghost function DimmerIn(f: FixtureProfile, row: seq<int>): int {
    if "dimmer" in f.profile.channelMap && f.profile.channelMap["dimmer"] < |row|
    then row[f.profile.channelMap["dimmer"]] else -1
  }

  /** The light's dimmer is at this level, in its mirror and in the driver. */
  ghost predicate DimmedTo(f: FixtureProfile, d: DefaultDMX, level: int)
    reads f`vals, d
  {
    DimmerIn(f, f.vals) == level == DimmerIn(f, f.Slice(d.shadow))
  }

  /** The wave stays within 20..255. */
  lemma WaveInRange(a: nat)
    requires a < 2 * HALF
    ensures 20 <= Wave(a) <= 255
  {
  }

  /** A row of the light's channel values, with the default colour lit if no colour is. */
  function Revealed(p: Profile, row: seq<int>): (r: seq<int>)
    ensures |r| == |row|
  {
    if ColorLit(p, row) || !(0 <= p.colorOffs < |row|) then row else row[p.colorOffs := 255]
  }

  /** A fixture with a colour channel shows some colour then. */
  lemma RevealedIsLit(p: Profile, row: seq<int>)
    requires IsDefaultColor(p.colorOffs, p.channelMap) && Profiles.HasColor(p.channelMap)
    requires forall k | k in p.channelMap :: p.channelMap[k] < |row|
    ensures ColorLit(p, Revealed(p, row))
  {
    var i :| 0 <= i < |COLOR_NAMES| && COLOR_NAMES[i] in p.channelMap && p.colorOffs == p.channelMap[COLOR_NAMES[i]];
  }

  class HighlightThread {
    var lights: seq<FixtureProfile>
    var saved: seq<seq<int>>
    var updateDefault: bool
    var running: bool
    var direction: int
    var dimmer: int

    /** No light twice, and one saved row of the right length for each. */
    ghost predicate Valid() reads this {
      && Distinct(lights) && |saved| == |lights| && PulseOk()
      && (forall i | 0 <= i < |lights| :: |saved[i]| == lights[i].n && AllBytes(saved[i]))
    }

    /** The dimmer moves on a grid of 5 and stays in [20, 255]. */
    ghost predicate PulseOk() reads this {
      (direction == STEP || direction == -STEP) && dimmer % STEP == 0 && 20 <= dimmer <= 255
    }

    constructor ()
      ensures Valid() && lights == []
    {
      lights, saved, updateDefault, running := [], [], false, true;
      direction, dimmer := -STEP, 255;
    }

    method AddLight(light: FixtureProfile)
      requires Valid() && light.Valid()
      modifies this
      ensures Valid() && direction == old(direction) && dimmer == old(dimmer)
      ensures lights == if light in old(lights) then old(lights) else old(lights) + [light]
      ensures saved == if light in old(lights) then old(saved) else old(saved) + [light.vals]
      ensures updateDefault == (old(updateDefault) || light !in old(lights)) && running == old(running)
    {
      if light !in lights {
        lights := lights + [light];
        saved := saved + [light.vals];
        updateDefault := true;
      }
    }

    method UpdateDefaultColor()
      requires Valid()
      modifies this`updateDefault
      ensures Valid() && updateDefault
    {
      updateDefault := true;
    }

    method IndexOf(light: FixtureProfile) returns (i: nat)
      requires light in lights
      ensures i < |lights| && lights[i] == light && light !in lights[..i]
    {
      i := 0;
      while lights[i] != light
        invariant i < |lights| && light !in lights[..i]
        decreases |lights| - i
      {
        i := i + 1;
      }
    }

    /** Restore the light's saved values and forget it; a light not shown is left alone.
        `at` is where it was in the list. */
    method RemoveLight(light: FixtureProfile, ghost d: DefaultDMX) returns (ghost at: nat)
      requires Valid() && d.Valid() && Ready(lights, d)
      modifies this`lights, this`saved, light`vals, d
      ensures Valid() && d.Valid() && Ready(old(lights), d)
      ensures light !in old(lights) ==> lights == old(lights) && saved == old(saved) && d.shadow == old(d.shadow)
      ensures light !in old(lights) ==> light.vals == old(light.vals)
      ensures light in old(lights) ==>
                && at < |old(lights)| && old(lights)[at] == light && light.vals == old(saved)[at] && light.Synced()
                && OnlyInside(old(d.shadow), d.shadow, light.profile.address, light.n)
                && lights == old(lights)[..at] + old(lights)[at + 1..]
                && saved == old(saved)[..at] + old(saved)[at + 1..]
      ensures forall f :: f in lights <==> f in old(lights) && f != light
    {
      at := 0;
      if light in lights {
        var i := IndexOf(light);
        at := i;
        var e := light.SetDMXVals(saved[i]);
        ghost var was := lights;
        saved := saved[..i] + saved[i + 1..];
        lights := lights[..i] + lights[i + 1..];
        Without(was, i);
      }
    }

    /** Removing the first light drops the first row. */
    method RemoveFirst(first: FixtureProfile, ghost d: DefaultDMX)
      requires Valid() && d.Valid() && Ready(lights, d) && lights != [] && first == lights[0]
      modifies this`lights, this`saved, first`vals, d
      ensures Valid() && d.Valid() && first.Valid() && first.SyncedWith(d)
      ensures OnlyInside(old(d.shadow), d.shadow, first.profile.address, first.n)
      ensures lights == old(lights)[1..] && saved == old(saved)[1..] && first.vals == old(saved)[0]
    {
      assert first in lights;
      ghost var at := RemoveLight(first, d);
      assert at == 0 && first in old(lights);
    }

    /** Stop: every light gets its saved values back, in the universe too if the lights do not
        overlap, and the lights shown are returned. */
    method Redrum(ghost d: DefaultDMX) returns (shown: seq<FixtureProfile>)
      requires Valid() && d.Valid() && Ready(lights, d)
      modifies this, lights`vals, d
      ensures Valid() && d.Valid() && shown == old(lights) && lights == [] && !running && Ready(shown, d)
      ensures forall i | 0 <= i < |shown| :: shown[i].vals == old(saved)[i]
      ensures AllApart(shown) ==> forall i | 0 <= i < |shown| :: shown[i].Slice(d.shadow) == old(saved)[i]
    {
      running := false;
      shown := lights;
      ghost var rows, k := saved, 0;
      while |lights| != 0
        invariant Restoring(shown, rows, k, d) && !running && shown == old(lights) && rows == old(saved)
        decreases |lights|
      {
        var first := lights[0];
        RestoreNext(shown, rows, k, first, d);
        k := k + 1;
      }
    }

    /** The first k lights shown have their rows back; the others are still in the list. */
    ghost predicate Restoring(shown: seq<FixtureProfile>, rows: seq<seq<int>>, k: nat, d: DefaultDMX)
      reads this, shown`vals, d
    {
      && Valid() && d.Valid() && Ready(shown, d) && Distinct(shown)
      && k <= |shown| == |rows| && lights == shown[k..] && saved == rows[k..]
      && (forall i | 0 <= i < k :: shown[i].vals == rows[i])
      && (AllApart(shown) ==> forall i | 0 <= i < k :: shown[i].Slice(d.shadow) == rows[i])
    }

    method RestoreNext(ghost shown: seq<FixtureProfile>, ghost rows: seq<seq<int>>, ghost k: nat, first: FixtureProfile,
                       ghost d: DefaultDMX)
      requires Restoring(shown, rows, k, d) && k < |shown| && first == lights[0]
      modifies this`lights, this`saved, first`vals, d
      ensures Restoring(shown, rows, k + 1, d) && |lights| == |old(lights)| - 1
    {
      Tail(shown, k);
      Tail(rows, k);
      assert shown[k] in shown;
      RemoveFirst(first, d);
      OthersKept(shown, first, old(d.shadow), d.shadow);
    }

    /** Where the dimmer is on its way from 255 down to 20 and up again. */
    ghost function Angle(): nat
      requires PulseOk()
      reads this
    {
      AngleOf(direction, dimmer)
    }

    /** Reverse at either end, then move one step: the dimmer runs through the whole wave. */
    method Pulse()
      requires PulseOk()
      modifies this`direction, this`dimmer
      ensures PulseOk() && Angle() == NextAngle(old(Angle())) && dimmer == Wave(Angle())
    {
      if direction == -STEP && dimmer < LOW {
        direction := STEP;
      } else if direction == STEP && dimmer >= HIGH {
        direction := -STEP;
      }
      dimmer := dimmer + direction;
      PulseTurns(old(direction), old(dimmer), direction, dimmer);
    }

    /** One light of a pass.  When the list has changed, its mirror is first brought up to date,
        and a light without any colour is given its default colour. */
    method Show(light: FixtureProfile, ghost d: DefaultDMX) returns (e: Ended)
      requires Valid() && d.Valid() && light.Valid() && light.Equipped() && light.dmx == d
      modifies this`direction, this`dimmer, light`vals, d
      ensures Valid() && d.Valid() && light.Valid() && e == Fine
      ensures Angle() == NextAngle(old(Angle())) && dimmer == Wave(Angle())
      ensures OnlyInside(old(d.shadow), d.shadow, light.profile.address, light.n)
      ensures var p := light.profile;
              && light.vals == (if updateDefault then Revealed(p, light.Slice(old(d.shadow))) else old(light.vals))
                               [p.channelMap["dimmer"] := dimmer]
              && light.Slice(d.shadow) == (if updateDefault then Revealed(p, light.Slice(old(d.shadow)))
                                           else light.Slice(old(d.shadow)))[p.channelMap["dimmer"] := dimmer]
    {
      if updateDefault {
        Reveal(light, d);
      }
      Pulse();
      e := light.SetDimmerValue(dimmer);
    }

    static method Reveal(light: FixtureProfile, ghost d: DefaultDMX)
      requires d.Valid() && light.Valid() && light.Equipped() && light.dmx == d
      modifies light`vals, d
      ensures d.Valid() && light.Valid() && OnlyInside(old(d.shadow), d.shadow, light.profile.address, light.n)
      ensures light.vals == light.Slice(d.shadow) == Revealed(light.profile, light.Slice(old(d.shadow)))
    {
      light.SyncLight();
      if !light.HasColor() {
        var _ := light.SetChannelManual(light.profile.colorOffs, 255);
      }
    }

    /** One pass over the lights: no write is refused, whatever their number, nothing outside them
        changes, and, if they do not overlap, they show the next values of the wave in turn. */
    method Pass(ghost d: DefaultDMX) returns (thrown: bool)
      requires Valid() && d.Valid() && Ready(lights, d)
      modifies this`direction, this`dimmer, this`updateDefault, lights`vals, d
      ensures Valid() && d.Valid() && Ready(lights, d) && !thrown && !updateDefault
      ensures OnlyLights(lights, old(d.shadow), d.shadow)
      ensures running ==> Angle() == AngleAfter(old(Angle()), |lights|)
      ensures running && AllApart(lights) ==> ShownUpTo(|lights|, old(Angle()), d)
    {
      thrown := false;
      for k := 0 to |lights|
        invariant Valid() && d.Valid() && Ready(lights, d) && !thrown && OnlyLights(lights, old(d.shadow), d.shadow)
        invariant running ==> Angle() == AngleAfter(old(Angle()), k)
        invariant running && AllApart(lights) ==> ShownUpTo(k, old(Angle()), d)
      {
        if !running {
          break;
        }
        ghost var was := d.shadow;
        var e := ShowNext(k, lights[k], old(Angle()), d);
        OneMoreLight(lights, lights[k], old(d.shadow), was, d.shadow);
        thrown := thrown || e != Fine;
      }
      updateDefault := false;
    }

    /** The first k lights show consecutive values of the wave. */
    ghost predicate ShownUpTo(k: nat, start: nat, d: DefaultDMX)
      requires k <= |lights|
      reads this, lights`vals, d
    {
      forall i: nat | i < k :: DimmedTo(lights[i], d, LevelAt(start, i))
    }

    method ShowNext(ghost k: nat, light: FixtureProfile, ghost start: nat, ghost d: DefaultDMX) returns (e: Ended)
      requires Valid() && d.Valid() && Ready(lights, d) && k < |lights| && light == lights[k]
      requires Angle() == AngleAfter(start, k)
      modifies this`direction, this`dimmer, light`vals, d
      ensures Valid() && d.Valid() && Ready(lights, d) && e == Fine && light.WellFormed()
      ensures Angle() == AngleAfter(start, k + 1) && OnlyInside(old(d.shadow), d.shadow, light.profile.address, light.n)
      ensures AllApart(lights) && old(ShownUpTo(k, start, d)) ==> ShownUpTo(k + 1, start, d)
    {
      assert light in lights && ReadyLight(light, d);
      e := ShowLevel(k, light, start, d);
      OthersKept(lights, light, old(d.shadow), d.shadow);
    }

    method ShowLevel(ghost k: nat, light: FixtureProfile, ghost start: nat, ghost d: DefaultDMX) returns (e: Ended)
      requires Valid() && d.Valid() && ReadyLight(light, d) && Angle() == AngleAfter(start, k)
      modifies this`direction, this`dimmer, light`vals, d
      ensures Valid() && d.Valid() && ReadyLight(light, d) && e == Fine && Angle() == AngleAfter(start, k + 1)
      ensures OnlyInside(old(d.shadow), d.shadow, light.profile.address, light.n)
      ensures DimmedTo(light, d, LevelAt(start, k))
    {
      e := Show(light, d);
    }
  }

  /** The universe changed at most inside these lights. */
  ghost predicate OnlyLights(lights: seq<FixtureProfile>, was: seq<int>, now: seq<int>) {
    |was| == |now| && forall i | 0 <= i < |was| && Outside(lights, i) :: now[i] == was[i]
  }

  ghost predicate Outside(lights: seq<FixtureProfile>, i: int) { forall f | f in lights :: !f.Covers(i) }

  lemma OneMoreLight(lights: seq<FixtureProfile>, f: FixtureProfile, was: seq<int>, mid: seq<int>, now: seq<int>)
    requires OnlyLights(lights, was, mid) && f in lights && f.WellFormed()
    requires OnlyInside(mid, now, f.profile.address, f.n)
    ensures OnlyLights(lights, was, now)
  {
    forall i | 0 <= i < |was| && Outside(lights, i) ensures now[i] == was[i] {
      assert !f.Covers(i);
    }
  }

  /** Writes inside one light leave the slots of lights beside it alone. */
  lemma OthersKept(lights: seq<FixtureProfile>, f: FixtureProfile, was: seq<int>, now: seq<int>)
    requires f in lights && f.WellFormed() && OnlyInside(was, now, f.profile.address, f.n)
    ensures AllApart(lights) ==>
            forall g {:trigger g.Slice(now)} | g in lights && g != f :: g.Slice(now) == g.Slice(was)
  {
    forall g | AllApart(lights) && g in lights && g != f ensures g.Slice(now) == g.Slice(was) {
      SliceKept(f, g, was, now);
    }
  }

  lemma Tail<T>(s: seq<T>, k: nat)
    requires k < |s|
    ensures s[k..][0] == s[k] && s[k..][1..] == s[k + 1..]
  {
  }

  lemma Without(s: seq<FixtureProfile>, i: nat)
    requires i < |s| && Distinct(s)
    ensures Distinct(s[..i] + s[i + 1..])
    ensures forall f :: f in s[..i] + s[i + 1..] <==> f in s && f != s[i]
  {
  }
}
