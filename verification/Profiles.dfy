/** Fixture profiles as values: construction and serialization. */
module Profiles {
  import opened JavaInt

  /** Channel names are mapped to offsets; the fixture's slots start at `address`. */
  datatype Profile = Profile(name: string, address: int, colorOffs: int, channelMap: map<string, nat>)

  datatype Result = Ok(profile: Profile) | Error

  const COLOR_NAMES: seq<string> := ["red", "green", "blue", "amber", "white"]

  /** `m` numbers the channels in order. */
  ghost predicate Numbers(m: map<string, nat>, channels: seq<string>) {
    && (forall i: nat | i < |channels| :: channels[i] in m && m[channels[i]] == i)
    && (forall k | k in m :: m[k] < |channels| && channels[m[k]] == k)
  }

  ghost predicate NoEmptyNoTwice(channels: seq<string>) {
    && (forall i | 0 <= i < |channels| :: channels[i] != "")
    && (forall i, j | 0 <= i < j < |channels| :: channels[i] != channels[j])
  }

  /** The loop shared by constructor and reader: number the names, refusing empty and
      repeated ones. */
  method BuildMap(channels: seq<string>) returns (ok: bool, m: map<string, nat>)
    ensures ok <==> NoEmptyNoTwice(channels)
    ensures ok ==> Numbers(m, channels)
  {
    m := map[];
    for i: nat := 0 to |channels|
      invariant NoEmptyNoTwice(channels[..i]) && Numbers(m, channels[..i])
    {
      if channels[i] == "" {
        return false, m;
      }
      if channels[i] in m {
        assert channels[m[channels[i]]] == channels[..i][m[channels[i]]] == channels[i];
        return false, m;
      }
      m := m[channels[i] := i];
      assert channels[..i + 1] == channels[..i] + [channels[i]];
    }
    assert channels[..|channels|] == channels;
    return true, m;
  }

  ghost predicate HasColor(m: map<string, nat>) { exists i | 0 <= i < |COLOR_NAMES| :: COLOR_NAMES[i] in m }

  /** `offs` is the offset of the first colour name that is a channel, or -1. */
  ghost predicate IsDefaultColor(offs: int, m: map<string, nat>) {
    if HasColor(m) then
      exists i | 0 <= i < |COLOR_NAMES| ::
        COLOR_NAMES[i] in m && offs == m[COLOR_NAMES[i]] && forall j | 0 <= j < i :: COLOR_NAMES[j] !in m
    else offs == -1
  }

  method DefaultColor(m: map<string, nat>) returns (offs: int)
    ensures IsDefaultColor(offs, m)
  {
    offs := -1;
    for i := 0 to |COLOR_NAMES|
      invariant offs == -1 && forall j | 0 <= j < i :: COLOR_NAMES[j] !in m
    {
      if COLOR_NAMES[i] in m {
        return m[COLOR_NAMES[i]];
      }
    }
  }

  /** A profile the constructor can build. */
  ghost predicate Constructed(p: Profile, name: string, address: int, channels: seq<string>) {
    && p.name == name && p.address == address && 1 <= address <= INT_MAX && 1 <= |channels| <= 512
    && NoEmptyNoTwice(channels) && Numbers(p.channelMap, channels) && IsDefaultColor(p.colorOffs, p.channelMap)
  }

  /** The constructor.  It compares the name with the empty literal by reference, so only
      that literal is refused, and it tests the bound on the address field before the
      field is set, so the address is not bounded above. */
  method Construct(name: string, emptyLiteral: bool, address: int, channels: seq<string>) returns (r: Result)
    requires IsInt(address) && (emptyLiteral ==> name == "")
    ensures r.Ok? <==> !emptyLiteral && 1 <= address && 1 <= |channels| <= 512 && NoEmptyNoTwice(channels)
    ensures r.Ok? ==> Constructed(r.profile, name, address, channels)
  {
    if emptyLiteral || address < 1 || |channels| < 1 || |channels| > 512 {
      return Error;
    }
    var unset := 0;
    if Add(|channels|, unset) > 513 {
      return Error;
    }
    var ok, m := BuildMap(channels);
    if !ok {
      return Error;
    }
    var offs := DefaultColor(m);
    return Ok(Profile(name, address, offs, m));
  }

  /** The object stream of one fixture. */
  datatype Stream = Stream(name: string, address: int, colorOffs: int, channels: seq<string>)

  /** The map's keys in ascending order of their offsets, each once. */
  ghost predicate SortedKeys(m: map<string, nat>, names: seq<string>) {
    && (forall i | 0 <= i < |names| :: names[i] in m)
    && (forall k | k in m :: k in names)
    && (forall i, j | 0 <= i < j < |names| :: names[i] != names[j])
    && (forall i, j | 0 <= i < j < |names| :: m[names[i]] <= m[names[j]])
  }

  /** A stream that writing `p` can produce. */
  ghost predicate WrittenAs(p: Profile, s: Stream) {
    s.name == p.name && s.address == p.address && s.colorOffs == p.colorOffs && SortedKeys(p.channelMap, s.channels)
  }

  /** The sum that the reader compares with 513 wraps, so an address near the largest integer
      passes. */
  ghost predicate PassesBound(address: int, channels: nat) {
    channels + address <= 513 || channels + address > INT_MAX
  }

  ghost predicate ReadAs(s: Stream, r: Result) {
    if s.name != "" && NoEmptyNoTwice(s.channels)
       && 0 <= s.colorOffs < |s.channels| && PassesBound(s.address, |s.channels|)
    then && r.Ok? && r.profile.name == s.name && r.profile.address == s.address
         && r.profile.colorOffs == s.colorOffs && Numbers(r.profile.channelMap, s.channels)
    else r == Error
  }

  method Read(s: Stream) returns (r: Result)
    requires IsInt(s.address) && |s.channels| <= INT_MAX
    ensures ReadAs(s, r)
  {
    if |s.name| == 0 {
      return Error;
    }
    var ok, m := BuildMap(s.channels);
    if !ok {
      return Error;
    }
    if s.colorOffs < 0 || s.colorOffs >= |s.channels| {
      return Error;
    }
    if Add(|s.channels|, s.address) > 513 {
      return Error;
    }
    return Ok(Profile(s.name, s.address, s.colorOffs, m));
  }

  /** The first i sorted keys are the first i channels. */
  lemma {:induction false} SortedPrefix(m: map<string, nat>, channels: seq<string>, names: seq<string>, i: nat)
    requires Numbers(m, channels) && SortedKeys(m, names) && i <= |names|
    ensures i <= |channels| && names[..i] == channels[..i]
    decreases i
  {
    if 0 < i {
      var k := i - 1;
      SortedPrefix(m, channels, names, k);
      SameAt(names, channels, k);
      NextKey(m, channels, names, k);
    }
  }

  lemma SameAt(s: seq<string>, t: seq<string>, k: nat)
    requires k <= |s| && k <= |t| && s[..k] == t[..k]
    ensures forall j: nat | j < k :: s[j] == t[j]
  {
    assert forall j: nat | j < k :: s[j] == s[..k][j] == t[..k][j] == t[j];
  }

  lemma NextKey(m: map<string, nat>, channels: seq<string>, names: seq<string>, k: nat)
    requires Numbers(m, channels) && SortedKeys(m, names) && k < |names| && k <= |channels|
    requires forall j: nat | j < k :: names[j] == channels[j]
    ensures k < |channels| && names[k] == channels[k]
  {
    var v := m[names[k]];
    assert channels[v] == names[k] && k <= v;
    assert channels[k] in names;
    var j: nat :| j < |names| && names[j] == channels[k];
    assert m[names[j]] == k;
  }

  /** Whatever order the map is kept in, its keys sorted by offset are the channels again. */
  lemma SortedKeysAreChannels(m: map<string, nat>, channels: seq<string>, names: seq<string>)
    requires Numbers(m, channels) && SortedKeys(m, names)
    ensures names == channels
  {
    var n := |names|;
    SortedPrefix(m, channels, names, n);
    SameAt(names, channels, n);
    if 0 < |channels| {
      var last := |channels| - 1;
      assert channels[last] in m && channels[last] in names;
      var j: nat :| j < n && names[j] == channels[last];
      assert m[channels[j]] == j == last;
    }
  }

  lemma NumbersUnique(m: map<string, nat>, m': map<string, nat>, channels: seq<string>)
    requires Numbers(m, channels) && Numbers(m', channels)
    ensures m == m'
  {
    forall k | k in m ensures k in m' && m[k] == m'[k] {
      assert channels[m[k]] == k;
    }
    forall k | k in m' ensures k in m {
      assert channels[m'[k]] == k;
    }
  }

  /** Round trip: any stream written for a constructed profile is read back as the same
      profile, unless the name is empty, no channel is a colour or the fixture sticks out
      of the universe; then it is refused, except where the sum of address and length wraps. */
  lemma RoundTrip(p: Profile, name: string, address: int, channels: seq<string>, s: Stream, r: Result)
    requires Constructed(p, name, address, channels) && WrittenAs(p, s) && ReadAs(s, r)
    ensures r == if name != "" && HasColor(p.channelMap) && PassesBound(address, |channels|) then Ok(p) else Error
  {
    SortedKeysAreChannels(p.channelMap, channels, s.channels);
    if r.Ok? {
      NumbersUnique(p.channelMap, r.profile.channelMap, channels);
    }
  }

  /** The intended bound is not enforced: this fixture lies outside the universe. */
  lemma WrappedAddressIsAccepted()
    ensures var p := Profile("spot", INT_MAX, 0, map["red" := 0]);
            Constructed(p, "spot", INT_MAX, ["red"]) && ReadAs(Stream("spot", INT_MAX, 0, ["red"]), Ok(p))
  {
    var m: map<string, nat> := map["red" := 0];
    assert COLOR_NAMES[0] == "red" && HasColor(m) && IsDefaultColor(0, m) && Numbers(m, ["red"]);
  }
}
