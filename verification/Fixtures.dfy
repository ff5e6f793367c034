/** A lighting fixture: a mirror of its slots of the universe, written together with the
    driver. */
module Fixtures {
  import opened Dmx
  import opened Profiles

  /** How a fixture operation ends: the source throws in the last two cases, before it
      writes anything. */
  datatype Ended = Fine | BadArgument | Unsupported

  /** The universe changed only inside [a, a + n). */
  ghost predicate OnlyInside(was: seq<int>, now: seq<int>, a: nat, n: nat) {
    |was| == |now| && forall i | 0 <= i < |was| && !(a <= i < a + n) :: now[i] == was[i]
  }

  /** The ranges [a, a + n) and [b, b + m) do not meet. */
  predicate RangesApart(a: int, n: nat, b: int, m: nat) { a + n <= b || b + m <= a }

  ghost predicate Apart(f: FixtureProfile, g: FixtureProfile) {
    RangesApart(f.profile.address, f.n, g.profile.address, g.n)
  }

  ghost predicate AllApart(lights: seq<FixtureProfile>) {
    forall f, g {:trigger Apart(f, g)} | f in lights && g in lights && f != g :: Apart(f, g)
  }

  /** Writes inside one range leave another range alone, whatever they are, if and only if the
      two ranges do not meet. */
  lemma RangesStayExactlyIfApart(a: nat, n: nat, b: nat, m: nat)
    requires 1 <= n && 1 <= m && a + n <= SLOTS && b + m <= SLOTS
    ensures RangesApart(a, n, b, m) <==>
            forall was, now | |was| == SLOTS && OnlyInside(was, now, a, n) :: now[b..b + m] == was[b..b + m]
  {
    if !RangesApart(a, n, b, m) {
      var i := if a <= b then b else a;
      var was := seq(SLOTS, _ => 0);
      var now := was[i := 1];
      assert OnlyInside(was, now, a, n) && now[b..b + m][i - b] != was[b..b + m][i - b];
    }
  }

  /** Operations on one fixture leave the slots of a fixture beside it alone. */
  lemma SliceKept(f: FixtureProfile, g: FixtureProfile, was: seq<int>, now: seq<int>)
    requires 0 <= f.profile.address && OnlyInside(was, now, f.profile.address, f.n) && Apart(f, g)
    ensures g.Slice(now) == g.Slice(was)
  {
  }

  /** Writing a slot of a range writes the same place of its slice. */
  lemma SliceUpdate(u: seq<int>, a: nat, n: nat, i: nat, v: int)
    requires a + n <= |u| && i < n
    ensures u[a + i := v][a..a + n] == u[a..a + n][i := v]
    ensures OnlyInside(u, u[a + i := v], a, n)
  {
  }

  /** `s` with three places written. */
  function WithThree(s: seq<int>, i: nat, j: nat, k: nat, x: int, y: int, z: int): (r: seq<int>)
    requires i < |s| && j < |s| && k < |s|
    ensures |r| == |s| && (AllBytes(s) && IsByte(x) && IsByte(y) && IsByte(z) ==> AllBytes(r))
  {
    s[i := x][j := y][k := z]
  }

  lemma SliceThree(u: seq<int>, a: nat, n: nat, i: nat, j: nat, k: nat, x: int, y: int, z: int)
    requires a + n <= |u| && i < n && j < n && k < n
    ensures var now := WithThree(u, a + i, a + j, a + k, x, y, z);
            OnlyInside(u, now, a, n) && now[a..a + n] == WithThree(u[a..a + n], i, j, k, x, y, z)
  {
    SliceUpdate(u, a, n, i, x);
    SliceUpdate(u[a + i := x], a, n, j, y);
    SliceUpdate(u[a + i := x][a + j := y], a, n, k, z);
  }

  lemma PrefixGrows(s: seq<int>, t: seq<int>, i: nat)
    requires i < |s| == |t| && s[..i] == t[..i]
    ensures s[i := t[i]][..i + 1] == t[..i + 1]
  {
    assert t[..i + 1] == t[..i] + [t[i]];
  }

  /** Some colour channel of the row is not 0. */
  predicate ColorLit(p: Profile, row: seq<int>) {
    exists i | 0 <= i < |COLOR_NAMES| ::
      COLOR_NAMES[i] in p.channelMap && p.channelMap[COLOR_NAMES[i]] < |row| && row[p.channelMap[COLOR_NAMES[i]]] != 0
  }

  class FixtureProfile {
    const dmx: DefaultDMX
    const profile: Profile
    const n: nat            // number of channels
    var vals: seq<int>      // the mirror
    var selected: bool

    /** Offsets are distinct and below the number of channels, which fit the universe. */
    ghost predicate WellFormed() {
      && 1 <= profile.address && 1 <= n && profile.address + n <= SLOTS
      && (forall k | k in profile.channelMap :: profile.channelMap[k] < n)
      && (forall j, k | j in profile.channelMap && k in profile.channelMap && j != k ::
            profile.channelMap[j] != profile.channelMap[k])
    }

    /** Has everything the server's modes write to. */
    ghost predicate Equipped() {
      && "red" in profile.channelMap && "green" in profile.channelMap && "blue" in profile.channelMap
      && "dimmer" in profile.channelMap && 0 <= profile.colorOffs < n
    }

    ghost predicate Valid() reads this`vals { WellFormed() && |vals| == n && AllBytes(vals) }

    /** The fixture's slots of a universe. */
    ghost function Slice(u: seq<int>): seq<int> {
      if 0 <= profile.address && profile.address + n <= |u| then u[profile.address..profile.address + n] else []
    }

    ghost predicate Covers(i: int) { profile.address <= i < profile.address + n }

    /** The mirror equals its slice of the driver's shadow. */
    ghost predicate SyncedWith(d: DefaultDMX) reads this`vals, d { vals == Slice(d.shadow) }

    ghost predicate Synced() reads this, dmx { SyncedWith(dmx) }

    constructor (driver: DefaultDMX, p: Profile, channels: seq<string>)
      requires 1 <= p.address && 1 <= |channels| && p.address + |channels| <= SLOTS
      requires Numbers(p.channelMap, channels)
      ensures Valid() && dmx == driver && profile == p && !selected && n == |channels| && vals == seq(n, _ => 0)
    {
      dmx, profile, selected := driver, p, false;
      n := |channels|;
      vals := seq(|channels|, _ => 0);
    }

    /** One channel, in the mirror and in the driver. */
    method PutChannel(i: nat, v: int)
      requires Valid() && dmx.Valid() && i < n && IsByte(v)
      modifies this`vals, dmx
      ensures Valid() && dmx.Valid() && OnlyInside(old(dmx.shadow), dmx.shadow, profile.address, n)
      ensures vals == old(vals)[i := v] && dmx.shadow == old(dmx.shadow)[profile.address + i := v]
      ensures Slice(dmx.shadow) == old(Slice(dmx.shadow))[i := v]
    {
      vals := vals[i := v];
      SliceUpdate(dmx.shadow, profile.address, n, i, v);
      WriteSlot(i, v);
    }

    method WriteSlot(offset: nat, v: int)
      requires WellFormed() && dmx.Valid() && IsByte(v) && offset < n
      modifies dmx
      ensures dmx.Valid() && dmx.shadow == old(dmx.shadow)[profile.address + offset := v]
    {
      var o := dmx.SetDMX(profile.address + offset, [v]);
    }

    method SetChannelManual(channel: int, value: int) returns (e: Ended)
      requires Valid() && dmx.Valid()
      modifies this`vals, dmx
      ensures Valid() && dmx.Valid() && OnlyInside(old(dmx.shadow), dmx.shadow, profile.address, n)
      ensures e == if 0 <= channel < n && IsByte(value) then Fine else BadArgument
      ensures e == Fine ==> && vals == old(vals)[channel := value]
                            && dmx.shadow == old(dmx.shadow)[profile.address + channel := value]
                            && Slice(dmx.shadow) == old(Slice(dmx.shadow))[channel := value]
      ensures e != Fine ==> vals == old(vals) && dmx.shadow == old(dmx.shadow)
      ensures old(Synced()) ==> Synced()
    {
      if channel < 0 || channel >= |vals| || value < 0 || value > 255 {
        return BadArgument;
      }
      PutChannel(channel, value);
      return Fine;
    }

    method SetDimmerValue(value: int) returns (e: Ended)
      requires Valid() && dmx.Valid()
      modifies this`vals, dmx
      ensures Valid() && dmx.Valid() && OnlyInside(old(dmx.shadow), dmx.shadow, profile.address, n)
      ensures e == if !IsByte(value) then BadArgument else if "dimmer" in profile.channelMap then Fine else Unsupported
      ensures e == Fine ==> var d := profile.channelMap["dimmer"];
                && vals == old(vals)[d := value] && dmx.shadow == old(dmx.shadow)[profile.address + d := value]
                && Slice(dmx.shadow) == old(Slice(dmx.shadow))[d := value]
      ensures e != Fine ==> vals == old(vals) && dmx.shadow == old(dmx.shadow)
      ensures old(Synced()) ==> Synced()
    {
      if value < 0 || value > 255 {
        return BadArgument;
      }
      if "dimmer" !in profile.channelMap {
        return Unsupported;
      }
      PutChannel(profile.channelMap["dimmer"], value);
      return Fine;
    }

    /** The three colour channels; in the default layout they go out in one packed write,
        with the same effect. */
    method SetColor(r: int, g: int, b: int) returns (e: Ended)
      requires Valid() && dmx.Valid() && IsByte(r) && IsByte(g) && IsByte(b)
      modifies this`vals, dmx
      ensures Valid() && dmx.Valid() && OnlyInside(old(dmx.shadow), dmx.shadow, profile.address, n)
      ensures e == if "red" in profile.channelMap && "green" in profile.channelMap && "blue" in profile.channelMap
                   then Fine else Unsupported
      ensures e == Fine ==> var m, a := profile.channelMap, profile.address;
                && vals == WithThree(old(vals), m["red"], m["green"], m["blue"], r, g, b)
                && dmx.shadow == WithThree(old(dmx.shadow), a + m["red"], a + m["green"], a + m["blue"], r, g, b)
                && Slice(dmx.shadow) == WithThree(old(Slice(dmx.shadow)), m["red"], m["green"], m["blue"], r, g, b)
      ensures e != Fine ==> vals == old(vals) && dmx.shadow == old(dmx.shadow)
      ensures old(Synced()) ==> Synced()
    {
      var m := profile.channelMap;
      if !("red" in m && "green" in m && "blue" in m) {
        return Unsupported;
      }
      PutThree(m["red"], m["green"], m["blue"], r, g, b);
      return Fine;
    }

    method PutThree(red: nat, green: nat, blue: nat, r: int, g: int, b: int)
      requires Valid() && dmx.Valid() && IsByte(r) && IsByte(g) && IsByte(b)
      requires red < n && green < n && blue < n && red != green && green != blue && red != blue
      modifies this`vals, dmx
      ensures Valid() && dmx.Valid() && OnlyInside(old(dmx.shadow), dmx.shadow, profile.address, n)
      ensures vals == WithThree(old(vals), red, green, blue, r, g, b)
      ensures var a := profile.address;
              dmx.shadow == WithThree(old(dmx.shadow), a + red, a + green, a + blue, r, g, b)
      ensures Slice(dmx.shadow) == WithThree(old(Slice(dmx.shadow)), red, green, blue, r, g, b)
    {
      vals := WithThree(vals, red, green, blue, r, g, b);
      ThreeInside(dmx.shadow, red, green, blue, r, g, b);
      WriteColor(red, green, blue, r, g, b);
    }

    lemma ThreeInside(u: seq<int>, red: nat, green: nat, blue: nat, r: int, g: int, b: int)
      requires WellFormed() && |u| == SLOTS && red < n && green < n && blue < n
      ensures var now := WithThree(u, profile.address + red, profile.address + green, profile.address + blue, r, g, b);
              && OnlyInside(u, now, profile.address, n)
              && Slice(now) == WithThree(Slice(u), red, green, blue, r, g, b)
    {
      SliceThree(u, profile.address, n, red, green, blue, r, g, b);
    }

    method WriteColor(red: nat, green: nat, blue: nat, r: int, g: int, b: int)
      requires WellFormed() && dmx.Valid() && IsByte(r) && IsByte(g) && IsByte(b)
      requires red < n && green < n && blue < n && red != green && green != blue && red != blue
      modifies dmx
      ensures dmx.Valid()
      ensures var a := profile.address;
              dmx.shadow == WithThree(old(dmx.shadow), a + red, a + green, a + blue, r, g, b)
    {
      if red == 1 && green == 2 && blue == 3 {
        PatchThree(dmx.shadow, profile.address + 1, r, g, b);
        var o := dmx.SetDMX(profile.address + red, [r, g, b]);
      } else {
        WriteSlot(red, r);
        WriteSlot(green, g);
        WriteSlot(blue, b);
      }
    }

    method SetDMXVals(values: seq<int>) returns (e: Ended)
      requires Valid() && dmx.Valid()
      modifies this`vals, dmx
      ensures Valid() && dmx.Valid() && OnlyInside(old(dmx.shadow), dmx.shadow, profile.address, n)
      ensures e == if |values| == n && AllBytes(values) then Fine else BadArgument
      ensures e == Fine ==> vals == values && Synced()
      ensures e != Fine ==> vals == old(vals) && dmx.shadow == old(dmx.shadow)
    {
      if |values| != |vals| || !AllBytes(values) {
        return BadArgument;
      }
      PutAll(values);
      return Fine;
    }

    method PutAll(values: seq<int>)
      requires Valid() && dmx.Valid() && |values| == n && AllBytes(values)
      modifies this`vals, dmx
      ensures Valid() && dmx.Valid() && OnlyInside(old(dmx.shadow), dmx.shadow, profile.address, n)
      ensures vals == values && Synced()
    {
      for i := 0 to n
        invariant Valid() && dmx.Valid() && OnlyInside(old(dmx.shadow), dmx.shadow, profile.address, n)
        invariant vals[..i] == values[..i] && Slice(dmx.shadow)[..i] == values[..i]
      {
        PrefixGrows(vals, values, i);
        PrefixGrows(Slice(dmx.shadow), values, i);
        PutChannel(i, values[i]);
      }
      assert Slice(dmx.shadow)[..n] == Slice(dmx.shadow);
    }

    /** Bring the mirror up to date after the driver was written directly. */
    method SyncLight()
      requires Valid() && dmx.Valid()
      modifies this`vals
      ensures Valid() && Synced()
    {
      vals := dmx.shadow[profile.address..profile.address + n];
    }

    method ClearLight()
      requires Valid() && dmx.Valid()
      modifies this`vals, dmx
      ensures Valid() && dmx.Valid() && OnlyInside(old(dmx.shadow), dmx.shadow, profile.address, n)
      ensures vals == seq(n, _ => 0) && Synced()
    {
      ghost var zero := seq(n, _ => 0);
      for i := 0 to n
        invariant Valid() && dmx.Valid() && OnlyInside(old(dmx.shadow), dmx.shadow, profile.address, n)
        invariant vals[..i] == zero[..i] && Slice(dmx.shadow)[..i] == zero[..i]
      {
        PrefixGrows(vals, zero, i);
        PrefixGrows(Slice(dmx.shadow), zero, i);
        var e := SetChannelManual(i, 0);
      }
      assert Slice(dmx.shadow)[..n] == Slice(dmx.shadow);
    }

    /** Some colour channel is lit. */
    predicate HasColor()
      requires Valid()
      reads this
    {
      ColorLit(profile, vals)
    }
  }
}
