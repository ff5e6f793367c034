/** The lighting server's mode machine over the DMX universe. */
module Server {
  import opened Dmx
  import opened Fixtures
  import opened Highlight
  import opened Scenes

  datatype Mode = Chase | Idle | LightSelection | ControlSelection | ColorWheel | DmxMode | Preset | Party | Scary

  datatype Action = Up | Down | Left | Right | B1 | B2 | Ps2 | Ps2Long | B12 | Konami | RevKonami

  datatype Color = Color(r: int, g: int, b: int) {
    predicate Valid() { IsByte(r) && IsByte(g) && IsByte(b) }
  }

  const WHITE := Color(255, 255, 255)

  const PRESETS: seq<Color> :=
    [WHITE, Color(255, 0, 0), Color(255, 255, 0), Color(0, 255, 0), Color(0, 255, 255), Color(0, 0, 255),
     Color(255, 0, 255), Color(0, 0, 0)]

  const DMX_STEP := 5

  /** A parsed data packet.  The colour a joystick position stands for, and the level and
      random colours a motion reading leads to, come with it. */
  datatype Command = User(action: Action) | Joystick(color: Color) | Gyro(level: int, colors: seq<Color>) {
    ghost predicate Valid(lights: nat) {
      match this
      case User(_) => true
      case Joystick(c) => c.Valid()
      case Gyro(level, cs) => IsByte(level) && |cs| == lights && forall i | 0 <= i < |cs| :: cs[i].Valid()
    }
  }

  /** The user confirms what the universe shows: this is what a later cancel returns to. */
  predicate Commits(mode: Mode, c: Command) {
    c == User(B1) && (mode == Idle || mode == ColorWheel || mode == DmxMode || mode == Preset)
  }

  /** The mode a user action leads to, given the control under the cursor and whether there are
      enough scenes for a chase. */
  function NextMode(mode: Mode, a: Action, control: int, scenes: nat): Mode {
    if a == Konami then Party
    else
      match mode
      case Chase => if a == B2 then Idle else mode
      case Idle =>
        if a == B1 then LightSelection else if a == B2 && scenes > 1 then Chase
        else if a == RevKonami then Scary else mode
      case LightSelection => if a == B1 then ControlSelection else if a == B2 then Idle else mode
      case ControlSelection =>
        if a == B2 then LightSelection
        else if a != B1 then mode
        else if control == -1 then DmxMode else if control == 0 then ColorWheel else Preset
      case ColorWheel => if a == B1 then LightSelection else if a == B2 then ControlSelection else mode
      case DmxMode => if a == B1 then LightSelection else if a == B2 then ControlSelection else mode
      case Preset => if a == B1 then LightSelection else if a == B2 then ControlSelection else mode
      case Party => if a == Ps2Long then Idle else mode
      case Scary => if a == Ps2Long then Idle else mode
  }

  /** The mode table seen from the other side: what leads into each mode. */
  lemma EnteredFrom(mode: Mode, a: Action, control: int, scenes: nat)
    requires -1 <= control <= 1
    ensures var now := NextMode(mode, a, control, scenes);
            && (now == Chase <==> a != Konami && ((mode == Chase && a != B2) || (mode == Idle && a == B2 && 2 <= scenes)))
            && (now == LightSelection <==> (Commits(mode, User(a)) || (mode == ControlSelection && a == B2)
                                            || (mode == LightSelection && a != B1 && a != B2 && a != Konami)))
            && (now == ControlSelection <==>
                  || (mode == LightSelection && a == B1)
                  || ((mode == ColorWheel || mode == DmxMode || mode == Preset) && a == B2)
                  || (mode == ControlSelection && a != B1 && a != B2 && a != Konami))
            && (forall m | m == DmxMode || m == ColorWheel || m == Preset :: now == m <==>
                  || (mode == ControlSelection && a == B1 && control == ControlOf(m))
                  || (mode == m && a != B1 && a != B2 && a != Konami))
            && (now == Party <==> a == Konami || (mode == Party && a != Ps2Long))
            && (now == Scary <==> (mode == Idle && a == RevKonami) || (mode == Scary && a != Ps2Long && a != Konami))
  {
  }

  /** The position of a mode among the controls. */
  function ControlOf(mode: Mode): int { if mode == DmxMode then -1 else if mode == ColorWheel then 0 else 1 }

  function ModeAfter(mode: Mode, c: Command, control: int, scenes: nat): Mode {
    if c.User? then NextMode(mode, c.action, control, scenes) else mode
  }

  /** Back to idle from choosing lights or from a chase. */
  predicate Returns(was: Mode, now: Mode) { (was == LightSelection || was == Chase) && now == Idle }

  /** A control is being chosen or used. */
  predicate Choosing(mode: Mode) {
    mode == ControlSelection || mode == ColorWheel || mode == DmxMode || mode == Preset
  }

  /** A mode whose worker is running. */
  predicate HasWorker(mode: Mode) { mode == Chase || mode == LightSelection || mode == ControlSelection }

  /** What a mode does to a light: paint it, step a channel unless that leaves its range, black
      it out, or flash it with a level and a colour. */
  datatype LightOp = Paint(color: Color) | Step(channel: int, delta: int) | Black | Flash(level: int, color: Color) {
    predicate Valid() {
      match this
      case Paint(c) => c.Valid()
      case Step(_, _) => true
      case Black => true
      case Flash(v, c) => IsByte(v) && c.Valid()
    }
  }

  /** A light's row of channel values after the operation, by its channel map. */
  function After(op: LightOp, m: map<string, nat>, row: seq<int>): seq<int> {
    match op
    case Paint(c) => Colored(m, row, c)
    case Step(ch, delta) => if 0 <= ch < |row| && IsByte(row[ch] + delta) then row[ch := row[ch] + delta] else row
    case Black => seq(|row|, _ => 0)
    case Flash(level, c) =>
      Colored(m, if "dimmer" in m && m["dimmer"] < |row| then row[m["dimmer"] := level] else row, c)
  }

  function Colored(m: map<string, nat>, row: seq<int>, c: Color): seq<int> {
    if "red" in m && "green" in m && "blue" in m && m["red"] < |row| && m["green"] < |row| && m["blue"] < |row|
    then WithThree(row, m["red"], m["green"], m["blue"], c.r, c.g, c.b) else row
  }

  /** A coloured row shows the colour and differs nowhere else. */
  lemma ColoredShows(m: map<string, nat>, row: seq<int>, c: Color)
    requires "red" in m && "green" in m && "blue" in m
    requires m["red"] < |row| && m["green"] < |row| && m["blue"] < |row|
    requires m["red"] != m["green"] && m["green"] != m["blue"] && m["red"] != m["blue"]
    ensures var now := Colored(m, row, c);
            && |now| == |row| && now[m["red"]] == c.r && now[m["green"]] == c.g && now[m["blue"]] == c.b
            && forall i | 0 <= i < |row| && i != m["red"] && i != m["green"] && i != m["blue"] :: now[i] == row[i]
  {
  }

  /** A stepped row differs in one channel at most, which moves by `delta` unless that leaves its
      range. */
  lemma StepMovesOne(m: map<string, nat>, row: seq<int>, ch: nat, delta: int)
    requires ch < |row|
    ensures var now := After(Step(ch, delta), m, row);
            && |now| == |row| && (forall i | 0 <= i < |row| && i != ch :: now[i] == row[i])
            && (0 <= row[ch] + delta <= 255 ==> now[ch] - row[ch] == delta)
            && (!(0 <= row[ch] + delta <= 255) ==> now[ch] == row[ch])
  {
  }

  /** A flashed row shows level and colour and differs nowhere else. */
  lemma FlashShows(m: map<string, nat>, row: seq<int>, level: int, c: Color)
    requires forall s | s in {"red", "green", "blue", "dimmer"} :: s in m && m[s] < |row|
    requires m["red"] != m["green"] && m["green"] != m["blue"] && m["red"] != m["blue"]
    requires m["dimmer"] != m["red"] && m["dimmer"] != m["green"] && m["dimmer"] != m["blue"]
    ensures var now := After(Flash(level, c), m, row);
            && |now| == |row| && now[m["dimmer"]] == level
            && now[m["red"]] == c.r && now[m["green"]] == c.g && now[m["blue"]] == c.b
            && forall i | 0 <= i < |row| && i != m["red"] && i != m["green"] && i != m["blue"] && i != m["dimmer"] ::
                 now[i] == row[i]
  {
    assert "red" in {"red", "green", "blue", "dimmer"} && "green" in {"red", "green", "blue", "dimmer"};
    assert "blue" in {"red", "green", "blue", "dimmer"} && "dimmer" in {"red", "green", "blue", "dimmer"};
    ColoredShows(m, row[m["dimmer"] := level], c);
  }

  /** The controls in the order in which a step to the left visits them. */
  function Controls(raw: bool): seq<int> { if raw then [1, 0, -1] else [1, 0] }

  /** The control to the left or right; the raw channel control is skipped when the lights
      differ in their number of channels. */
  function ControlBeside(left: bool, control: int, raw: bool): int {
    if left then
      if control == -1 then 1 else if control == 1 then 0 else if raw then -1 else 1
    else
      if control == -1 then 0 else if control == 0 then 1 else if raw then -1 else 0
  }

  /** The step passes over the place of the raw channel control, which is not offered. */
  predicate JumpsRaw(left: bool, control: int, raw: bool) { !raw && control == if left then 0 else 1 }

  lemma JumpsExactlyOverRaw(left: bool, control: int, raw: bool)
    requires 0 <= control <= 1
    ensures JumpsRaw(left, control, raw) <==> !raw && ControlBeside(left, control, true) == -1
  {
  }

  /** The controls form a ring, without the raw one if it is not offered. */
  lemma ControlsAreARing(raw: bool, i: nat)
    requires i < |Controls(raw)|
    ensures var ring := Controls(raw);
            && ControlBeside(true, ring[i], raw) == ring[Higher(i, |ring|)]
            && ControlBeside(false, ring[i], raw) == ring[Lower(i, |ring|)]
  {
  }

  /** One more scene at the end, or exactly one scene less. */
  lemma ListedIsExact(long: bool, i: int, list: seq<Universe>, u: Universe)
    requires -1 <= i < |list|
    ensures var now := Listed(long, i, list, u); var k := if i == -1 then |list| - 1 else i;
            if !long then now == if i == -1 then list + [u] else list
            else if list == [] then now == []
            else |now| == |list| - 1 && forall j | 0 <= j < |now| :: now[j] == list[if j < k then j else j + 1]
  {
  }

  /** A universe with one channel of a light written; an illegal write changes nothing. */
  ghost function WithChannel(u: Universe, f: FixtureProfile, channel: int, value: int): (r: Universe)
    ensures |r| == |u|
    ensures forall i | 0 <= i < |u| && i != f.profile.address + channel :: r[i] == u[i]
    ensures 0 <= channel < f.n && IsByte(value) && 0 <= f.profile.address + channel < |u| ==>
              r[f.profile.address + channel] == value
  {
    if 0 <= channel < f.n && IsByte(value) && 0 <= f.profile.address + channel < |u|
    then u[f.profile.address + channel := value] else u
  }

  /** Two universes show the same (slot 0 is the start code). */
  ghost predicate SameLook(u: Universe, v: Universe) { |u| == |v| == SLOTS && u[1..] == v[1..] }

  /** The highlighted lights after the cursor has moved: the light it left is gone unless it is
      selected, the one it entered is there. */
  ghost predicate CursorMoved(now: seq<FixtureProfile>, was: seq<FixtureProfile>, left: FixtureProfile,
                              entered: FixtureProfile, kept: bool) {
    && entered in now && (forall f | f in now :: f == entered || (f in was && (f != left || kept)))
    && (forall f | f in was && (f != left || kept) :: f in now)
  }

  ghost predicate CursorLeft(now: seq<FixtureProfile>, was: seq<FixtureProfile>, left: FixtureProfile, kept: bool) {
    && (forall f | f in now :: f in was && (f != left || kept))
    && (forall f | f in was && (f != left || kept) :: f in now)
  }

  ghost predicate CursorEntered(now: seq<FixtureProfile>, was: seq<FixtureProfile>, entered: FixtureProfile) {
    && entered in now && (forall f | f in now :: f == entered || f in was) && (forall f | f in was :: f in now)
  }

  lemma LeftAndEntered(now: seq<FixtureProfile>, mid: seq<FixtureProfile>, was: seq<FixtureProfile>,
                       left: FixtureProfile, entered: FixtureProfile, kept: bool)
    requires CursorLeft(mid, was, left, kept) && CursorEntered(now, mid, entered)
    ensures CursorMoved(now, was, left, entered, kept)
  {
  }

  /** The actions that, in idle, concern the scene list. */
  predicate EditsScenes(a: Action) { a == Left || a == Right || a == Down || a == Ps2 || a == Ps2Long }

  /** The scene list after a short or long press: the universe is added when the cursor is off
      the list; the scene under the cursor, or else the last one, is deleted. */
  function Listed(long: bool, i: int, list: seq<Universe>, u: Universe): seq<Universe> {
    if !long then list + (if i == -1 then [u] else [])
    else
      var k := if i == -1 then |list| - 1 else i;
      if 0 <= k < |list| then list[..k] + list[k + 1..] else list
  }

  /** One lower or one higher on a ring of n positions. */
  function Lower(i: int, n: nat): int { if i == 0 then n - 1 else i - 1 }

  function Higher(i: int, n: nat): int { if i + 1 >= n then 0 else i + 1 }

  class ServerApp {
    const dmx: DefaultDMX
    const profiles: seq<FixtureProfile>
    const scenes: SceneManager
    var mode: Mode
    var selectedLights: seq<FixtureProfile>  // empty stands for null
    var canChangeDmx: bool
    // live worker references
    var highlight: HighlightThread?
    var chase: bool
    var presetVisual: bool
    var rainbow: bool
    var dmxVisual: bool
    var lightIndex: int
    var presetIndex: int
    var controlIndex: int
    var channelIndex: int
    ghost var committed: Universe            // the universe at the last commit
    ghost const apart: bool                  // no two fixtures overlap, which nothing in the source checks

    /** Driver, fixtures and scenes are in order. */
    ghost predicate Rig() reads dmx, scenes, profiles`vals {
      dmx.Valid() && scenes.Valid() && Ready(profiles, dmx)
    }

    /** Indices are in range, and the snapshot is the last commit. */
    ghost predicate Core() reads this, dmx, scenes, profiles`vals {
      && Rig() && Distinct(profiles) && 0 <= lightIndex < |profiles| && 0 <= presetIndex < |PRESETS|
      && Within(selectedLights) && scenes.current == committed && (apart ==> AllApart(profiles))
    }

    /** The mirrors of the selected lights equal their slots of the universe. */
    ghost predicate InStep() reads this, dmx, profiles`vals requires Within(selectedLights) {
      forall f | f in selectedLights :: f.SyncedWith(dmx)
    }

    /** While a control is chosen or used, what the selected lights' mirrors say is what the
        universe shows. */
    ghost predicate Coherent() reads this, dmx, profiles`vals requires Within(selectedLights) {
      apart && Choosing(mode) ==> InStep()
    }

    /** Only slots of this light changed, and so none of any light beside it. */
    ghost predicate Beside(f: FixtureProfile, was: Universe, now: Universe) {
      && f.WellFormed() && OnlyInside(was, now, f.profile.address, f.n)
      && (apart ==> forall g {:trigger g.Slice(now)} | g in profiles && g != f :: g.Slice(now) == g.Slice(was))
    }

    lemma StaysBeside(f: FixtureProfile, was: Universe, now: Universe)
      requires (apart ==> AllApart(profiles)) && f in profiles && f.WellFormed()
      requires OnlyInside(was, now, f.profile.address, f.n)
      ensures Beside(f, was, now)
    {
      OthersKept(profiles, f, was, now);
    }

    ghost predicate Within(lights: seq<FixtureProfile>) { forall f | f in lights :: f in profiles }

    ghost predicate Unmarked() reads profiles`selected { forall f | f in profiles :: !f.selected }

    /** Exactly the worker that belongs to the mode is live. */
    ghost predicate Agreement() reads this {
      && (chase <==> mode == Chase)
      && (highlight != null <==> mode == LightSelection)
      && (presetVisual <==> mode == ControlSelection && controlIndex == 1)
      && (rainbow <==> mode == ControlSelection && controlIndex == 0)
      && (dmxVisual <==> mode == ControlSelection && controlIndex == -1)
    }

    /** Past light selection there are selected lights, and the raw channel mode is entered
        only when they all have the same number of channels. */
    ghost predicate Selection() reads this {
      Choosing(mode) ==>
        && selectedLights != [] && Distinct(selectedLights) && -1 <= controlIndex <= 1
        && (mode == ColorWheel ==> controlIndex == 0) && (mode == Preset ==> controlIndex == 1)
        && (mode == DmxMode ==> controlIndex == -1 && 0 <= channelIndex < selectedLights[0].n)
        && (controlIndex == -1 ==> canChangeDmx)
        && (canChangeDmx ==> forall f | f in selectedLights :: f.n == selectedLights[0].n)
    }

    /** While lights are selected, the highlighted ones include the current light and every
        selected light; otherwise no light is marked selected. */
    ghost predicate Highlighted() reads this, profiles`selected, highlight {
      if mode == LightSelection then
        && highlight != null && highlight.Valid()
        && Within(highlight.lights)
        && (forall f | f in profiles && f.selected :: f in highlight.lights)
        && 0 <= lightIndex < |profiles| && profiles[lightIndex] in highlight.lights
      else
        Unmarked()
    }

    ghost predicate Valid() reads this, dmx, scenes, profiles, highlight {
      Core() && Agreement() && Selection() && Highlighted() && Coherent()
    }

    /** The universe shows the snapshot (slot 0 is the start code). */
    ghost predicate Reverted() reads dmx, scenes {
      |dmx.shadow| == |scenes.current| == SLOTS && dmx.shadow[1..] == scenes.current[1..]
    }

    constructor (driver: DefaultDMX, lights: seq<FixtureProfile>, manager: SceneManager)
      requires driver.Valid() && manager.Valid() && lights != [] && Distinct(lights) && Ready(lights, driver)
      requires manager.current == driver.shadow && forall f | f in lights :: !f.selected
      ensures Valid() && mode == Idle && dmx == driver && profiles == lights && scenes == manager
      ensures committed == driver.shadow && apart == AllApart(lights)
    {
      dmx, profiles, scenes := driver, lights, manager;
      mode, selectedLights, canChangeDmx := Idle, [], false;
      highlight, chase, presetVisual, rainbow, dmxVisual := null, false, false, false, false;
      lightIndex, presetIndex, controlIndex, channelIndex := 0, 0, 0, 0;
      committed, apart := driver.shadow, AllApart(lights);
    }

    /** Write a whole universe and bring the selected lights' mirrors up to date. */
    method RevertScene()
      requires Core()
      modifies dmx, profiles`vals
      ensures Core() && Reverted() && InStep()
    {
      var o, end := dmx.SetAll(scenes.current);
      SyncSelected();
    }

    method SyncSelected()
      requires Core()
      modifies profiles`vals
      ensures Core() && InStep()
    {
      for k := 0 to |selectedLights|
        invariant Core() && forall j | 0 <= j < k :: selectedLights[j].SyncedWith(dmx)
      {
        assert selectedLights[k] in profiles;
        selectedLights[k].SyncLight();
      }
    }

    method ClearSelected()
      requires Core()
      modifies profiles`selected
      ensures Core() && Unmarked()
    {
      for k := 0 to |profiles|
        invariant Core() && forall j | 0 <= j < k :: !profiles[j].selected
      {
        assert profiles[k] in profiles;
        profiles[k].selected := false;
      }
    }

    method ClearAndRevert()
      requires Core()
      modifies dmx, profiles
      ensures Core() && Reverted() && Unmarked() && InStep()
    {
      ClearSelected();
      RevertScene();
    }

    method StartHighlight()
      requires Core() && highlight == null
      modifies this`highlight
      ensures Core() && highlight != null && fresh(highlight) && highlight.Valid()
      ensures highlight.lights == [profiles[lightIndex]]
    {
      highlight := new HighlightThread();
      assert profiles[lightIndex] in profiles;
      highlight.AddLight(profiles[lightIndex]);
    }

    /** Light selection begins with no other worker and no mark. */
    method BeginSelection()
      requires Core() && Unmarked() && mode == LightSelection && highlight == null
      requires !chase && !presetVisual && !rainbow && !dmxVisual
      modifies this`highlight
      ensures Valid() && fresh(highlight) && highlight.lights == [profiles[lightIndex]]
    {
      StartHighlight();
    }

    /** Stop the highlighting worker: requires that it is there. */
    method RedrumHighlight() returns (shown: seq<FixtureProfile>)
      requires Core() && highlight != null && highlight.Valid() && Within(highlight.lights)
      modifies this`highlight, highlight, dmx, profiles`vals
      ensures Core() && highlight == null && shown == old(highlight.lights)
    {
      assert forall i | 0 <= i < |highlight.lights| :: highlight.lights[i] in profiles;
      shown := highlight.Redrum(dmx);
      highlight := null;
    }

    method RedrumPreset()
      requires presetVisual
      modifies this`presetVisual
      ensures !presetVisual
    {
      presetVisual := false;
    }

    method RedrumRainbow()
      requires rainbow
      modifies this`rainbow
      ensures !rainbow
    {
      rainbow := false;
    }

    method RedrumDmxVisual()
      requires dmxVisual
      modifies this`dmxVisual
      ensures !dmxVisual
    {
      dmxVisual := false;
    }

    /** Start the worker that belongs to the control under the cursor. */
    method StartVisual()
      requires mode == ControlSelection && -1 <= controlIndex <= 1 && highlight == null && !chase
      requires !presetVisual && !rainbow && !dmxVisual
      modifies this`presetVisual, this`rainbow, this`dmxVisual
      ensures Agreement()
    {
      if controlIndex == 1 {
        presetVisual := true;
      } else if controlIndex == 0 {
        rainbow := true;
      } else {
        dmxVisual := true;
      }
    }

    static method WriteLight(f: FixtureProfile, op: LightOp, ghost d: DefaultDMX)
      requires d.Valid() && ReadyLight(f, d) && op.Valid() && (op.Step? ==> 0 <= op.channel < f.n)
      modifies d, f`vals
      ensures d.Valid() && ReadyLight(f, d) && OnlyInside(old(d.shadow), d.shadow, f.profile.address, f.n)
      ensures f.vals == After(op, f.profile.channelMap, old(f.vals))
      ensures old(f.SyncedWith(d)) ==> f.SyncedWith(d)
      ensures !op.Step? ==> f.Slice(d.shadow) == After(op, f.profile.channelMap, old(f.Slice(d.shadow)))
    {
      match op
      case Paint(c) =>
        var e := f.SetColor(c.r, c.g, c.b);
      case Step(channel, delta) =>
        var v := f.vals[channel] + delta;
        if IsByte(v) {
          var e := f.SetChannelManual(channel, v);
        }
      case Black => f.ClearLight();
      case Flash(level, c) =>
        var e := f.SetDimmerValue(level);
        e := f.SetColor(c.r, c.g, c.b);
    }

    /** One light; no write is refused.  The universe takes the new row if the mirror was in
        step, and in any case if the operation does not depend on the row before. */
    method OnLight(f: FixtureProfile, op: LightOp)
      requires Core() && f in profiles && op.Valid() && (op.Step? ==> 0 <= op.channel < f.n)
      modifies dmx, f`vals
      ensures Core() && Beside(f, old(dmx.shadow), dmx.shadow)
      ensures f.vals == After(op, f.profile.channelMap, old(f.vals))
      ensures old(f.SyncedWith(dmx)) ==> f.SyncedWith(dmx)
      ensures !op.Step? ==> f.Slice(dmx.shadow) == After(op, f.profile.channelMap, old(f.Slice(dmx.shadow)))
    {
      assert ReadyLight(f, dmx);
      WriteLight(f, op, dmx);
      StaysBeside(f, old(dmx.shadow), dmx.shadow);
    }

    /** Every selected light has been operated on, in its mirror and, unless lights overlap, in
        the universe; nothing else in the universe has changed. */
    twostate predicate Applied(op: LightOp)
      reads this, dmx, profiles`vals
    {
      && OnlyLights(selectedLights, old(dmx.shadow), dmx.shadow)
      && (forall f | f in selectedLights && f in profiles :: f.vals == After(op, f.profile.channelMap, old(f.vals)))
      && (apart ==> forall f | f in selectedLights && f in profiles :: f.Slice(dmx.shadow) == f.vals)
    }

    method OnSelected(op: LightOp)
      requires Core() && op.Valid() && Distinct(selectedLights) && (apart ==> InStep())
      requires op.Step? ==> forall f | f in selectedLights :: 0 <= op.channel < f.n
      modifies dmx, profiles`vals
      ensures Core() && (apart ==> InStep()) && Applied(op)
    {
      for k := 0 to |selectedLights|
        invariant Core() && (apart ==> InStep()) && OnlyLights(selectedLights, old(dmx.shadow), dmx.shadow)
        invariant forall j | 0 <= j < k ::
          selectedLights[j].vals == After(op, selectedLights[j].profile.channelMap, old(selectedLights[j].vals))
        invariant forall j | k <= j < |selectedLights| :: selectedLights[j].vals == old(selectedLights[j].vals)
      {
        assert selectedLights[k] in selectedLights;
        ghost var was := dmx.shadow;
        OnLight(selectedLights[k], op);
        OneMoreLight(selectedLights, selectedLights[k], old(dmx.shadow), was, dmx.shadow);
      }
    }

    /** Show a stored or current scene; its values are in range, so nothing is refused. */
    method ShowUniverse(u: Universe)
      requires Core() && IsUniverse(u)
      modifies dmx
      ensures Core() && dmx.shadow[1..] == u[1..]
    {
      var o, end := dmx.SetAll(u);
    }

    twostate predicate ChaseEffect(a: Action)
      reads this, dmx
    {
      if a == B2 then SameLook(dmx.shadow, committed) else dmx.shadow == old(dmx.shadow)
    }

    /** Leaving the chase also returns to the last commit. */
    method InChase(a: Action)
      requires Valid() && mode == Chase && a != Konami
      modifies this`mode, this`chase, dmx, profiles`vals
      ensures Valid() && committed == old(committed) && mode == NextMode(Chase, a, 0, 0)
      ensures ChaseEffect(a)
    {
      if a == B2 {
        mode := Idle;
        chase := false;
        RevertScene();
      }
    }

    /** Light selection always begins with the current light alone. */
    twostate predicate Begins()
      reads this, highlight
    {
      mode == LightSelection && old(mode) != LightSelection ==>
        highlight != null && 0 <= lightIndex < |profiles| && highlight.lights == [profiles[lightIndex]]
    }

    /** Keep what the universe shows and go (back) to light selection. */
    method CommitAndSelect()
      requires Valid() && !HasWorker(mode)
      modifies this`mode, this`highlight, this`committed, scenes
      ensures Valid() && mode == LightSelection && fresh(highlight) && committed == old(dmx.shadow)
      ensures scenes.scenes == old(scenes.scenes) && highlight.lights == [profiles[lightIndex]]
    {
      mode := LightSelection;
      scenes.SetCurrentScene(dmx.shadow);
      committed := dmx.shadow;
      BeginSelection();
    }

    /** Browsing the stored scenes leaves the snapshot alone. */
    method Browse(a: Action)
      requires Core() && (a == Left || a == Right || a == Down)
      modifies dmx, scenes
      ensures Core() && dmx.shadow[1..] == scenes.Shown()[1..] && scenes.scenes == old(scenes.scenes)
      ensures a == Left ==> scenes.index == LastIndex(old(scenes.index), |scenes.scenes|)
      ensures a == Right ==> scenes.index == NextIndex(old(scenes.index), |scenes.scenes|)
      ensures a == Down ==> scenes.index == -1
    {
      var u := scenes.current;
      if a == Left {
        u := scenes.GetLastScene();
      } else if a == Right {
        u := scenes.GetNextScene();
      } else {
        scenes.SetCurrentScene(scenes.current);
      }
      ShowUniverse(u);
    }

    /** Deleting the last scene, with the cursor off the list, does not rewrite the scene file. */
    predicate LeavesFileStale(long: bool, i: int, list: seq<Universe>) { long && i == -1 && list != [] }

    /** Storing and deleting scenes leaves the snapshot alone.  A scene file that denotes the list
        keeps doing so, except in that one case. */
    method Store(long: bool)
      requires Core()
      modifies dmx, scenes, profiles`vals
      ensures Core() && scenes.index == (if long then -1 else old(scenes.index))
      ensures !long ==> dmx.shadow == old(dmx.shadow)
      ensures scenes.scenes == Listed(long, old(scenes.index), old(scenes.scenes), old(dmx.shadow))
      ensures long && old(scenes.index) != -1 ==> dmx.shadow[1..] == committed[1..]
      ensures long && old(scenes.index) == -1 ==> forall i | 1 <= i < SLOTS :: dmx.shadow[i] == 0
      ensures old(scenes.Filed()) ==>
                (scenes.Filed() <==> !LeavesFileStale(long, old(scenes.index), old(scenes.scenes)))
    {
      if !long {
        if scenes.index == -1 {
          scenes.AddScene(dmx.shadow);
          scenes.UpdateFile();
        }
      } else if scenes.index != -1 {
        scenes.DeleteScene();
        scenes.UpdateFile();
        RevertScene();
      } else {
        scenes.DeleteSceneAt(|scenes.scenes| - 1);
        dmx.ClearDMX();
      }
    }

    /** The actions on the scene list. */
    method EditScenes(a: Action)
      requires Valid() && mode == Idle && EditsScenes(a)
      modifies dmx, scenes, profiles`vals
      ensures Valid() && IdleEffect(a)
    {
      if a == Ps2 || a == Ps2Long {
        Store(a == Ps2Long);
      } else {
        Browse(a);
      }
    }

    ghost predicate ScenesEdited(a: Action, index: int, list: seq<Universe>, u: Universe)
      reads scenes, dmx
    {
      && scenes.Valid()
      && (a == Left ==> scenes.index == LastIndex(index, |list|))
      && (a == Right ==> scenes.index == NextIndex(index, |list|))
      && (a == Down ==> scenes.index == -1)
      && (a == Left || a == Right || a == Down ==>
            && scenes.scenes == list
            && |dmx.shadow| == SLOTS && dmx.shadow[1..] == scenes.Shown()[1..])
      && (a == Ps2 || a == Ps2Long ==> scenes.scenes == Listed(a == Ps2Long, index, list, u))
    }

    /** What an action in idle does to universe, scene list and cursor. */
    twostate predicate IdleEffect(a: Action)
      reads this, dmx, scenes
    {
      && ScenesEdited(a, old(scenes.index), old(scenes.scenes), old(dmx.shadow))
      && (a == Ps2 || !EditsScenes(a) ==> dmx.shadow == old(dmx.shadow))
      && (!EditsScenes(a) ==> scenes.scenes == old(scenes.scenes))
      && (a == Ps2Long && old(scenes.index) != -1 ==> SameLook(dmx.shadow, committed))
      && (a == Ps2Long && old(scenes.index) == -1 ==>
            |dmx.shadow| == SLOTS && forall i | 1 <= i < SLOTS :: dmx.shadow[i] == 0)
    }

    method InIdle(a: Action)
      requires Valid() && mode == Idle && a != Konami
      modifies this`mode, this`highlight, this`committed, this`chase, dmx, scenes, profiles`vals
      ensures Valid() && (highlight == null || fresh(highlight))
      ensures committed == if a == B1 then old(dmx.shadow) else old(committed)
      ensures mode == NextMode(Idle, a, 0, |old(scenes.scenes)|)
      ensures IdleEffect(a) && Begins()
    {
      if EditsScenes(a) {
        EditScenes(a);
      } else {
        Depart(a);
      }
    }

    /** The actions that may lead out of idle. */
    method Depart(a: Action)
      requires Valid() && mode == Idle && a != Konami && !EditsScenes(a)
      modifies this`mode, this`highlight, this`committed, this`chase, scenes
      ensures Valid() && (highlight == null || fresh(highlight))
      ensures committed == if a == B1 then old(dmx.shadow) else old(committed)
      ensures mode == NextMode(Idle, a, 0, |old(scenes.scenes)|) && scenes.scenes == old(scenes.scenes)
      ensures Begins()
    {
      if a == B1 {
        CommitAndSelect();
      } else {
        LeaveIdle(a);
      }
    }

    /** On to a chase, if there are scenes enough, or to scary mode. */
    method LeaveIdle(a: Action)
      requires Valid() && mode == Idle && a != Konami && a != B1
      modifies this`mode, this`chase
      ensures Valid() && mode == NextMode(Idle, a, 0, |scenes.scenes|)
    {
      if a == B2 && |scenes.scenes| > 1 {
        mode := Chase;
        chase := true;
      } else if a == RevKonami {
        mode := Scary;
      }
    }

    /** Move on to the next lower light; both joystick directions do this.  A light that is
        not selected stops being highlighted when the cursor leaves it. */
    method MoveCursor()
      requires Valid() && mode == LightSelection
      modifies this`lightIndex, highlight, dmx, profiles`vals
      ensures Valid() && mode == LightSelection && highlight == old(highlight)
      ensures lightIndex == Lower(old(lightIndex), |profiles|)
      ensures var left := profiles[old(lightIndex)];
              && CursorMoved(highlight.lights, old(highlight.lights), left, profiles[lightIndex], left.selected)
              && SameLook(dmx.shadow, if left.selected then old(dmx.shadow) else committed)
              && (!left.selected ==> highlight.updateDefault)
    {
      ghost var left := profiles[lightIndex];
      LeaveLight();
      ghost var mid := highlight.lights;
      EnterNext();
      LeftAndEntered(highlight.lights, mid, old(highlight.lights), left, profiles[lightIndex], left.selected);
    }

    /** The cursor is on its way: all selected lights are highlighted. */
    ghost predicate Moving() reads this, dmx, scenes, profiles, highlight {
      && Core() && mode == LightSelection && highlight != null && highlight.Valid() && Within(highlight.lights)
      && forall f | f in profiles && f.selected :: f in highlight.lights
    }

    method EnterNext()
      requires Moving()
      modifies this`lightIndex, highlight
      ensures Core() && Highlighted() && (old(highlight.updateDefault) ==> highlight.updateDefault)
      ensures lightIndex == Lower(old(lightIndex), |profiles|)
      ensures CursorEntered(highlight.lights, old(highlight.lights), profiles[lightIndex])
    {
      lightIndex := lightIndex - 1;
      if lightIndex < 0 {
        lightIndex := |profiles| - 1;
      }
      EnterLight();
    }

    method EnterLight()
      requires Moving()
      modifies highlight
      ensures Core() && Highlighted() && (old(highlight.updateDefault) ==> highlight.updateDefault)
      ensures CursorEntered(highlight.lights, old(highlight.lights), profiles[lightIndex])
    {
      assert profiles[lightIndex] in profiles;
      if !profiles[lightIndex].selected {
        highlight.AddLight(profiles[lightIndex]);
      }
    }

    method LeaveLight()
      requires Valid() && mode == LightSelection
      modifies highlight, dmx, profiles`vals
      ensures Moving()
      ensures var light := profiles[lightIndex];
              && CursorLeft(highlight.lights, old(highlight.lights), light, light.selected)
              && SameLook(dmx.shadow, if light.selected then old(dmx.shadow) else committed)
              && (!light.selected ==> highlight.updateDefault)
    {
      var light := profiles[lightIndex];
      assert light in profiles;
      if !light.selected {
        ghost var at := highlight.RemoveLight(light, dmx);
        RevertScene();
        highlight.UpdateDefaultColor();
      }
    }

    /** The selected lights agree in their number of channels. */
    method CompareChannels()
      requires selectedLights != []
      modifies this`canChangeDmx
      ensures canChangeDmx <==> forall f | f in selectedLights :: f.n == selectedLights[0].n
    {
      var temp := selectedLights[0].n;
      for k := 0 to |selectedLights|
        invariant temp == selectedLights[0].n && forall j | 0 <= j < k :: selectedLights[j].n == temp
        invariant 0 < k ==> canChangeDmx
      {
        if temp != selectedLights[k].n {
          canChangeDmx := false;
          assert selectedLights[k] in selectedLights;
          return;
        }
        canChangeDmx := true;
        temp := selectedLights[k].n;
      }
    }

    /** Lights are selected, all workers are stopped, and whether channels can be changed one by
        one is known. */
    ghost predicate Offering() reads this, dmx, scenes, profiles`vals {
      && Core() && highlight == null && !chase && !presetVisual && !rainbow && !dmxVisual
      && selectedLights != [] && Distinct(selectedLights)
      && (canChangeDmx ==> forall f | f in selectedLights :: f.n == selectedLights[0].n)
    }

    /** The highlighted lights become the selected ones. */
    method TakeHighlighted()
      requires Core() && highlight != null && highlight.Valid() && highlight.lights != []
      requires Within(highlight.lights) && !chase && !presetVisual && !rainbow && !dmxVisual
      modifies this`highlight, this`selectedLights, this`canChangeDmx, highlight, dmx, profiles`vals
      ensures Offering() && selectedLights == old(highlight.lights)
      ensures canChangeDmx <==> forall f | f in selectedLights :: f.n == selectedLights[0].n
    {
      selectedLights := RedrumHighlight();
      CompareChannels();
    }

    /** On to choosing a control for the highlighted lights. */
    method ConfirmLights()
      requires Valid() && mode == LightSelection
      modifies this`mode, this`highlight, this`selectedLights, this`canChangeDmx, this`controlIndex
      modifies this`presetVisual, this`rainbow, this`dmxVisual, highlight, dmx, profiles
      ensures Valid() && mode == ControlSelection && committed == old(committed)
      ensures selectedLights == old(highlight.lights) && controlIndex == 1
      ensures canChangeDmx <==> forall f | f in selectedLights :: f.n == selectedLights[0].n
      ensures dmx.shadow[1..] == committed[1..]
    {
      mode := ControlSelection;
      TakeHighlighted();
      OfferControls();
    }

    method OfferControls()
      requires Offering() && mode == ControlSelection
      modifies this`controlIndex, this`presetVisual, this`rainbow, this`dmxVisual, dmx, profiles
      ensures Valid() && controlIndex == 1 && Reverted()
    {
      ClearOffering();
      OfferFirst();
    }

    method ClearOffering()
      requires Offering()
      modifies dmx, profiles
      ensures Offering() && Reverted() && Unmarked() && InStep()
    {
      ClearAndRevert();
    }

    method OfferFirst()
      requires Offering() && mode == ControlSelection && Unmarked() && InStep()
      modifies this`controlIndex, this`presetVisual, this`rainbow, this`dmxVisual
      ensures Valid() && controlIndex == 1
    {
      controlIndex := 1;
      StartVisual();
    }

    /** Cancel: whatever was shown, the universe returns to the last commit. */
    method CancelLights()
      requires Valid() && mode == LightSelection
      modifies this`mode, this`highlight, highlight, dmx, profiles
      ensures Valid() && mode == Idle && committed == old(committed) && dmx.shadow[1..] == committed[1..]
    {
      var _ := RedrumHighlight();
      ClearAndRevert();
      mode := Idle;
    }

    /** What an action in light selection does to cursor, list, marks and universe. */
    twostate predicate SelectionEffect(a: Action)
      requires old(highlight) != null
      reads this, dmx, profiles, highlight
    {
      && 0 <= lightIndex < |profiles| && 0 <= old(lightIndex) < |profiles|
      && lightIndex == (if a == Left || a == Right then Lower(old(lightIndex), |profiles|) else old(lightIndex))
      && (a == Left || a == Right ==>
            var left := profiles[old(lightIndex)];
            && highlight != null
            && CursorMoved(highlight.lights, old(highlight.lights), left, profiles[lightIndex], left.selected)
            && SameLook(dmx.shadow, if left.selected then old(dmx.shadow) else committed))
      && (a == Ps2 ==>
            forall f | f in profiles ::
              f.selected == if f == profiles[lightIndex] then !old(f.selected) else old(f.selected))
      && (a == Ps2Long ==> Unmarked())
      && (a != Ps2 && a != Ps2Long && a != B1 && a != B2 ==> forall f | f in profiles :: f.selected == old(f.selected))
      && (a == B1 || a == B2 ==> SameLook(dmx.shadow, committed))
      && (a == B1 ==> selectedLights == old(highlight.lights) && controlIndex == 1)
      && (a == B1 && !canChangeDmx ==> exists f | f in selectedLights :: f.n != selectedLights[0].n)
      && (a != B1 ==> selectedLights == old(selectedLights))
      && (a != Left && a != Right && a != B1 && a != B2 ==>
            highlight != null && dmx.shadow == old(dmx.shadow) && highlight.lights == old(highlight.lights))
    }

    method InLightSelection(a: Action)
      requires Valid() && mode == LightSelection && a != Konami
      modifies this`mode, this`lightIndex, this`highlight, this`selectedLights, this`canChangeDmx, this`controlIndex
      modifies this`presetVisual, this`rainbow, this`dmxVisual, highlight, dmx, profiles
      ensures Valid() && committed == old(committed)
      ensures highlight == null || highlight == old(highlight)
      ensures mode == NextMode(LightSelection, a, 0, 0) && SelectionEffect(a)
    {
      if a == B1 {
        ConfirmLights();
      } else if a == B2 {
        CancelLights();
      } else {
        Choose(a);
      }
    }

    /** The actions within light selection. */
    method Choose(a: Action)
      requires Valid() && mode == LightSelection && a != Konami && a != B1 && a != B2
      modifies this`lightIndex, highlight, dmx, profiles
      ensures Valid() && SelectionEffect(a)
    {
      match a
      case Left => MoveCursor();
      case Right => MoveCursor();
      case Ps2 => ToggleLight();
      case Ps2Long => UnselectAll();
      case _ =>
    }

    method ToggleLight()
      requires Valid() && mode == LightSelection
      modifies profiles`selected
      ensures Valid()
      ensures forall f | f in profiles ::
        f.selected == if f == profiles[lightIndex] then !old(f.selected) else old(f.selected)
    {
      var light := profiles[lightIndex];
      assert light in profiles;
      light.selected := !light.selected;
    }

    /** Clears the marks, but the lights stay in the highlight list, so confirming still takes
        them. */
    method UnselectAll()
      requires Valid() && mode == LightSelection
      modifies profiles`selected, highlight
      ensures Valid() && highlight.lights == old(highlight.lights)
      ensures Unmarked()
    {
      ClearSelected();
      highlight.AddLight(profiles[lightIndex]);
    }

    /** Stop the control worker that is running, whichever it is. */
    method StopControl()
      requires Agreement() && Selection() && mode == ControlSelection
      modifies this`presetVisual, this`rainbow, this`dmxVisual
      ensures !presetVisual && !rainbow && !dmxVisual
    {
      if controlIndex == -1 {
        RedrumDmxVisual();
      } else if controlIndex == 0 {
        RedrumRainbow();
      } else {
        RedrumPreset();
      }
    }

    function Neighbour(left: bool): int
      reads this
    {
      ControlBeside(left, controlIndex, canChangeDmx)
    }

    /** Stepping over the missing raw channel control does not revert the scene. */
    predicate Jumps(left: bool)
      reads this
    {
      JumpsRaw(left, controlIndex, canChangeDmx)
    }

    method SwitchControl(left: bool)
      requires Valid() && mode == ControlSelection
      modifies this`controlIndex, this`presetVisual, this`rainbow, this`dmxVisual, dmx, profiles`vals
      ensures Valid() && mode == ControlSelection && controlIndex == old(Neighbour(left))
      ensures dmx.shadow[1..] == if old(Jumps(left)) then old(dmx.shadow[1..]) else committed[1..]
    {
      var next := Neighbour(left);
      var jump := Jumps(left);
      StopControl();
      controlIndex := next;
      Resume(!jump);
    }

    /** Start the worker of the control under the cursor, possibly on the last commit. */
    method Resume(revert: bool)
      requires Core() && Selection() && Unmarked() && mode == ControlSelection && highlight == null && !chase
      requires !presetVisual && !rainbow && !dmxVisual && (revert || Coherent())
      modifies this`presetVisual, this`rainbow, this`dmxVisual, dmx, profiles`vals
      ensures Valid() && if revert then SameLook(dmx.shadow, committed) else dmx.shadow == old(dmx.shadow)
    {
      if revert {
        RevertScene();
      }
      StartVisual();
    }

    method ConfirmControl()
      requires Valid() && mode == ControlSelection
      modifies this`mode, this`channelIndex, this`presetVisual, this`rainbow, this`dmxVisual, dmx, profiles`vals
      ensures Valid() && committed == old(committed) && highlight == null
      ensures mode == if old(controlIndex) == -1 then DmxMode else if old(controlIndex) == 0 then ColorWheel else Preset
      ensures if mode == DmxMode then SameLook(dmx.shadow, committed) else dmx.shadow == old(dmx.shadow)
      ensures channelIndex == if mode == DmxMode then 0 else old(channelIndex)
    {
      StopControl();
      if controlIndex == -1 {
        EnterDmxMode();
      } else {
        EnterPainting();
      }
    }

    method EnterPainting()
      requires Core() && mode == ControlSelection && 0 <= controlIndex && Selection() && Unmarked() && Coherent()
      requires highlight == null && !chase && !presetVisual && !rainbow && !dmxVisual
      modifies this`mode
      ensures Valid() && mode == if controlIndex == 0 then ColorWheel else Preset
    {
      if controlIndex == 0 {
        mode := ColorWheel;
      } else {
        mode := Preset;
      }
    }

    method EnterDmxMode()
      requires Core() && mode == ControlSelection && controlIndex == -1 && Selection() && Unmarked()
      requires highlight == null && !chase && !presetVisual && !rainbow && !dmxVisual
      modifies this`mode, this`channelIndex, dmx, profiles`vals
      ensures Valid() && mode == DmxMode && channelIndex == 0 && dmx.shadow[1..] == committed[1..]
    {
      RevertScene();
      channelIndex := 0;
      mode := DmxMode;
      assert ReadyLight(selectedLights[0], dmx) by {
        assert selectedLights[0] in selectedLights && selectedLights[0] in profiles;
      }
    }

    method CancelControl()
      requires Valid() && mode == ControlSelection
      modifies this`mode, this`highlight, this`presetVisual, this`rainbow, this`dmxVisual, dmx, profiles`vals
      ensures Valid() && mode == LightSelection && committed == old(committed) && fresh(highlight) && Begins()
      ensures dmx.shadow[1..] == committed[1..]
    {
      StopControl();
      RevertScene();
      mode := LightSelection;
      BeginSelection();
    }

    /** What an action does to the control under the cursor and to the universe. */
    twostate predicate ControlEffect(a: Action)
      reads this, dmx
    {
      && controlIndex == (if a == Left || a == Right then old(Neighbour(a == Left)) else old(controlIndex))
      && channelIndex == (if a == B1 && old(controlIndex) == -1 then 0 else old(channelIndex))
      && SameLook(dmx.shadow,
                  if a == Left || a == Right then (if old(Jumps(a == Left)) then old(dmx.shadow) else committed)
                  else if a == B2 || (a == B1 && old(controlIndex) == -1) then committed else old(dmx.shadow))
    }

    method InControlSelection(a: Action)
      requires Valid() && mode == ControlSelection && a != Konami
      modifies this`mode, this`highlight, this`controlIndex, this`channelIndex
      modifies this`presetVisual, this`rainbow, this`dmxVisual, dmx, profiles`vals
      ensures Valid() && (highlight == null || fresh(highlight))
      ensures mode == NextMode(ControlSelection, a, old(controlIndex), 0) && ControlEffect(a) && Begins()
    {
      match a
      case Left => SwitchControl(true);
      case Right => SwitchControl(false);
      case B1 => ConfirmControl();
      case B2 => CancelControl();
      case _ =>
    }

    /** Back from a control to choosing one: its worker starts again. */
    method BackToControl(revert: bool)
      requires Valid() && (mode == ColorWheel || mode == DmxMode || mode == Preset)
      modifies this`mode, this`presetVisual, this`rainbow, this`dmxVisual, dmx, profiles`vals
      ensures Valid() && mode == ControlSelection && committed == old(committed) && highlight == null
      ensures if revert then SameLook(dmx.shadow, committed) else dmx.shadow == old(dmx.shadow)
    {
      mode := ControlSelection;
      Resume(revert);
    }

    twostate predicate WheelEffect(c: Command)
      reads this, dmx, profiles`vals
    {
      if c.Joystick? then Applied(Paint(c.color)) else dmx.shadow == old(dmx.shadow)
    }

    method InColorWheel(c: Command)
      requires Valid() && mode == ColorWheel && c.Valid(|profiles|) && c != User(Konami)
      modifies this`mode, this`highlight, this`committed, this`presetVisual, this`rainbow, this`dmxVisual
      modifies dmx, scenes, profiles`vals
      ensures Valid() && (highlight == null || fresh(highlight))
      ensures mode == if c.User? then NextMode(ColorWheel, c.action, 0, 0) else ColorWheel
      ensures scenes.scenes == old(scenes.scenes)
      ensures committed == if c == User(B1) then old(dmx.shadow) else old(committed)
      ensures WheelEffect(c) && Begins()
    {
      if c == User(B1) {
        CommitAndSelect();
      } else if c == User(B2) {
        BackToControl(false);
      } else if c.Joystick? {
        OnSelected(Paint(c.color));
      }
    }

    /** The raw channel mode moves the channel index on a ring, steps that channel of every
        selected light, which all have it, or blacks them out. */
    method EditChannels(a: Action)
      requires Valid() && mode == DmxMode && (a == Left || a == Right || a == Up || a == Down || a == Ps2)
      modifies this`channelIndex, dmx, profiles`vals
      ensures Valid() && ChannelsEdited(a)
    {
      match a
      case Left => MoveChannel(true);
      case Right => MoveChannel(false);
      case Up => OnSelected(Step(channelIndex, DMX_STEP));
      case Down => OnSelected(Step(channelIndex, -DMX_STEP));
      case Ps2 => OnSelected(Black);
    }

    method MoveChannel(left: bool)
      requires Valid() && mode == DmxMode
      modifies this`channelIndex
      ensures Valid()
      ensures channelIndex == if left then Lower(old(channelIndex), selectedLights[0].n)
                              else Higher(old(channelIndex), selectedLights[0].n)
    {
      if left {
        channelIndex := channelIndex - 1;
        if channelIndex < 0 {
          channelIndex := selectedLights[0].n - 1;
        }
      } else {
        channelIndex := channelIndex + 1;
        if channelIndex >= selectedLights[0].n {
          channelIndex := 0;
        }
      }
    }

    twostate predicate ChannelsEdited(a: Action)
      reads this, dmx, profiles`vals
    {
      && selectedLights != []
      && channelIndex == (if a == Left then Lower(old(channelIndex), selectedLights[0].n)
                          else if a == Right then Higher(old(channelIndex), selectedLights[0].n)
                          else old(channelIndex))
      && (a != Up && a != Down && a != Ps2 && a != B2 ==> dmx.shadow == old(dmx.shadow))
      && (a == B2 ==> SameLook(dmx.shadow, committed))
      && (a == Up ==> Applied(Step(channelIndex, DMX_STEP)))
      && (a == Down ==> Applied(Step(channelIndex, -DMX_STEP)))
      && (a == Ps2 ==> Applied(Black))
    }

    method InDmxMode(a: Action)
      requires Valid() && mode == DmxMode && a != Konami
      modifies this`mode, this`highlight, this`committed, this`channelIndex
      modifies this`presetVisual, this`rainbow, this`dmxVisual, dmx, scenes, profiles`vals
      ensures Valid() && (highlight == null || fresh(highlight)) && mode == NextMode(DmxMode, a, 0, 0)
      ensures scenes.scenes == old(scenes.scenes)
      ensures committed == if a == B1 then old(dmx.shadow) else old(committed)
      ensures ChannelsEdited(a) && Begins()
    {
      if a == B1 {
        CommitAndSelect();
      } else if a == B2 {
        BackToControl(true);
      } else if a == Left || a == Right || a == Up || a == Down || a == Ps2 {
        EditChannels(a);
      }
    }

    /** The neighbouring preset, on all selected lights. */
    method StepPreset(left: bool)
      requires Core() && Distinct(selectedLights) && (apart ==> InStep())
      modifies this`presetIndex, dmx, profiles`vals
      ensures Core() && (apart ==> InStep()) && Applied(Paint(PRESETS[presetIndex]))
      ensures presetIndex == if left then Lower(old(presetIndex), |PRESETS|) else Higher(old(presetIndex), |PRESETS|)
    {
      if left {
        presetIndex := presetIndex - 1;
        if presetIndex < 0 {
          presetIndex := |PRESETS| - 1;
        }
      } else {
        presetIndex := presetIndex + 1;
        if presetIndex >= |PRESETS| {
          presetIndex := 0;
        }
      }
      OnSelected(Paint(PRESETS[presetIndex]));
    }

    twostate predicate PresetEffect(a: Action)
      reads this, dmx, profiles`vals
    {
      && 0 <= presetIndex < |PRESETS|
      && presetIndex == (if a == Left then Lower(old(presetIndex), |PRESETS|)
                         else if a == Right then Higher(old(presetIndex), |PRESETS|) else old(presetIndex))
      && if a == Left || a == Right then Applied(Paint(PRESETS[presetIndex])) else dmx.shadow == old(dmx.shadow)
    }

    method InPreset(a: Action)
      requires Valid() && mode == Preset && a != Konami
      modifies this`mode, this`highlight, this`committed, this`presetIndex, this`presetVisual, this`rainbow, this`dmxVisual
      modifies dmx, scenes, profiles`vals
      ensures Valid() && (highlight == null || fresh(highlight)) && mode == NextMode(Preset, a, 0, 0)
      ensures scenes.scenes == old(scenes.scenes)
      ensures committed == if a == B1 then old(dmx.shadow) else old(committed)
      ensures PresetEffect(a) && Begins()
    {
      match a
      case Left => StepPreset(true);
      case Right => StepPreset(false);
      case B1 => CommitAndSelect();
      case B2 => BackToControl(false);
      case _ =>
    }

    /** Row `now` of fixture j is row `was`, flashed if `done`. */
    ghost predicate FlashedRow(j: nat, done: bool, level: int, c: Color, was: seq<int>, now: seq<int>)
      requires j < |profiles|
    {
      now == if done then After(Flash(level, c), profiles[j].profile.channelMap, was) else was
    }

    /** Mirrors, and universe unless fixtures overlap, after the first k fixtures are flashed. */
    twostate predicate Flashed(k: nat, level: int, colors: seq<Color>)
      requires |colors| == |profiles|
      reads dmx, profiles`vals
    {
      forall j: nat | j < |profiles| ::
        && FlashedRow(j, j < k, level, colors[j], old(profiles[j].vals), profiles[j].vals)
        && (apart ==> FlashedRow(j, j < k, level, colors[j],
                                 profiles[j].Slice(old(dmx.shadow)), profiles[j].Slice(dmx.shadow)))
    }

    /** Party and scary mode: every fixture takes a level and a colour; no write is refused. */
    method FlashAll(level: int, colors: seq<Color>)
      requires Core() && IsByte(level) && |colors| == |profiles| && forall i | 0 <= i < |colors| :: colors[i].Valid()
      modifies dmx, profiles`vals
      ensures Core() && Flashed(|profiles|, level, colors)
    {
      for k := 0 to |profiles|
        invariant Core() && Flashed(k, level, colors)
      {
        FlashNext(k, profiles[k], level, colors[k]);
      }
    }

    /** Fixture k is flashed, and no other row changes. */
    method FlashNext(k: nat, f: FixtureProfile, level: int, c: Color)
      requires Core() && IsByte(level) && c.Valid() && k < |profiles| && f == profiles[k]
      modifies dmx, f`vals
      ensures Core()
      ensures forall j: nat | j < |profiles| ::
        FlashedRow(j, j == k, level, c, old(profiles[j].vals), profiles[j].vals)
      ensures apart ==> forall j: nat | j < |profiles| ::
        FlashedRow(j, j == k, level, c, profiles[j].Slice(old(dmx.shadow)), profiles[j].Slice(dmx.shadow))
    {
      assert f in profiles;
      OnLight(f, Flash(level, c));
      assert forall j: nat | j < |profiles| && j != k :: profiles[j] in profiles && profiles[j] != f;
    }

    function Whites(): (w: seq<Color>)
      ensures |w| == |profiles|
    {
      seq(|profiles|, _ => WHITE)
    }

    twostate predicate PartyEffect(c: Command)
      requires c.Valid(|profiles|)
      reads dmx, profiles`vals
    {
      if c.Gyro? then Flashed(|profiles|, c.level, if old(mode) == Party then c.colors else Whites())
      else dmx.shadow == old(dmx.shadow)
    }

    method InParty(c: Command)
      requires Valid() && (mode == Party || mode == Scary) && c.Valid(|profiles|) && c != User(Konami)
      modifies this`mode, dmx, profiles`vals
      ensures Valid() && mode == if c.User? then NextMode(old(mode), c.action, 0, 0) else old(mode)
      ensures PartyEffect(c)
    {
      if c == User(Ps2Long) {
        mode := Idle;
      } else if c.Gyro? {
        FlashAll(c.level, if mode == Party then c.colors else Whites());
      }
    }

    /** What a packet does in the mode that it finds: see the modes' own effects. */
    twostate predicate PacketEffect(c: Command)
      requires c.Valid(|profiles|) && (old(mode) == LightSelection ==> old(highlight) != null)
      reads this, dmx, scenes, profiles, highlight
    {
      && (old(mode) == ColorWheel ==> WheelEffect(c))
      && (old(mode) == Party || old(mode) == Scary ==> PartyEffect(c))
      && (c.User? && old(mode) == Chase ==> ChaseEffect(c.action))
      && (c.User? && old(mode) == Idle ==> IdleEffect(c.action))
      && (c.User? && old(mode) == LightSelection ==> SelectionEffect(c.action))
      && (c.User? && old(mode) == ControlSelection ==> ControlEffect(c.action))
      && (c.User? && old(mode) == DmxMode ==> ChannelsEdited(c.action))
      && (c.User? && old(mode) == Preset ==> PresetEffect(c.action))
      && (!c.User? && old(mode) != ColorWheel && old(mode) != Party && old(mode) != Scary ==>
            dmx.shadow == old(dmx.shadow))
      && (old(mode) != LightSelection ==> selectedLights == old(selectedLights) && lightIndex == old(lightIndex))
      && (old(mode) != Preset ==> presetIndex == old(presetIndex))
      && (old(mode) != DmxMode && old(mode) != ControlSelection ==> channelIndex == old(channelIndex))
      && (old(mode) != LightSelection && old(mode) != ControlSelection ==> controlIndex == old(controlIndex))
      && (old(mode) != Idle ==> scenes.scenes == old(scenes.scenes))
      && Begins()
    }

    /** One data packet.  The mode machine stays consistent except for one case: the Konami
        action switches to party mode from anywhere, and strands a worker that is running. */
    method Handle(c: Command)
      requires Valid() && c.Valid(|profiles|)
      modifies this, dmx, scenes, profiles, highlight
      ensures Strands(old(mode), c) ==> !Agreement()
      ensures !Strands(old(mode), c) ==> Valid()
      ensures committed == if Commits(old(mode), c) then old(dmx.shadow) else old(committed)
      ensures mode == ModeAfter(old(mode), c, old(controlIndex), |old(scenes.scenes)|)
      ensures c != User(Konami) ==> PacketEffect(c)
      ensures c == User(Konami) ==> dmx.shadow == old(dmx.shadow)
      ensures Returns(old(mode), mode) ==> Valid() && dmx.shadow[1..] == committed[1..]
      ensures highlight == null || highlight == old(highlight) || fresh(highlight)
    {
      if c == User(Konami) {
        mode := Party;
      } else {
        Dispatch(c);
      }
    }

    method Dispatch(c: Command)
      requires Valid() && c.Valid(|profiles|) && c != User(Konami)
      modifies this, dmx, scenes, profiles, highlight
      ensures Valid()
      ensures committed == if Commits(old(mode), c) then old(dmx.shadow) else old(committed)
      ensures mode == ModeAfter(old(mode), c, old(controlIndex), |old(scenes.scenes)|)
      ensures PacketEffect(c)
      ensures Returns(old(mode), mode) ==> dmx.shadow[1..] == committed[1..]
      ensures highlight == null || highlight == old(highlight) || fresh(highlight)
    {
      if Choosing(mode) {
        DispatchChoosing(c);
      } else if mode == Party || mode == Scary {
        Celebrate(c);
      } else if c.User? && mode == LightSelection {
        Select(c.action);
      } else if c.User? {
        Act(c.action);
      }
    }

    method Celebrate(c: Command)
      requires Valid() && c.Valid(|profiles|) && c != User(Konami) && (mode == Party || mode == Scary)
      modifies this`mode, dmx, profiles`vals
      ensures Valid() && PacketEffect(c)
      ensures mode == ModeAfter(old(mode), c, old(controlIndex), |old(scenes.scenes)|)
    {
      InParty(c);
    }

    method Select(a: Action)
      requires Valid() && a != Konami && mode == LightSelection
      modifies this`mode, this`lightIndex, this`highlight, this`selectedLights, this`canChangeDmx, this`controlIndex
      modifies this`presetVisual, this`rainbow, this`dmxVisual, highlight, dmx, profiles
      ensures Valid() && PacketEffect(User(a)) && committed == old(committed)
      ensures mode == NextMode(old(mode), a, old(controlIndex), |old(scenes.scenes)|)
      ensures mode == Idle ==> dmx.shadow[1..] == committed[1..]
      ensures highlight == null || highlight == old(highlight)
    {
      InLightSelection(a);
    }

    /** A packet while a control is chosen or used. */
    method DispatchChoosing(c: Command)
      requires Valid() && c.Valid(|profiles|) && c != User(Konami) && Choosing(mode)
      modifies this`mode, this`highlight, this`committed, this`channelIndex, this`presetIndex, this`controlIndex
      modifies this`presetVisual, this`rainbow, this`dmxVisual, dmx, scenes, profiles`vals
      ensures Valid() && PacketEffect(c) && (highlight == null || fresh(highlight))
      ensures committed == if Commits(old(mode), c) then old(dmx.shadow) else old(committed)
      ensures mode == ModeAfter(old(mode), c, old(controlIndex), |old(scenes.scenes)|)
    {
      if mode == ColorWheel {
        InColorWheel(c);
      } else if c.User? && mode == ControlSelection {
        InControlSelection(c.action);
      } else if c.User? {
        ActOnSelected(c.action);
      }
    }

    /** A user action in one of the modes that only listen to user actions. */
    method Act(a: Action)
      requires Valid() && a != Konami && (mode == Chase || mode == Idle)
      modifies this`mode, this`highlight, this`committed, this`chase, dmx, scenes, profiles`vals
      ensures Valid() && mode == NextMode(old(mode), a, old(controlIndex), |old(scenes.scenes)|)
      ensures committed == if Commits(old(mode), User(a)) then old(dmx.shadow) else old(committed)
      ensures Returns(old(mode), mode) ==> dmx.shadow[1..] == committed[1..]
      ensures highlight == null || highlight == old(highlight) || fresh(highlight)
      ensures PacketEffect(User(a))
    {
      match mode
      case Chase => InChase(a);
      case Idle => InIdle(a);
    }

    method ActOnSelected(a: Action)
      requires Valid() && a != Konami && (mode == DmxMode || mode == Preset)
      modifies this`mode, this`highlight, this`committed, this`channelIndex, this`presetIndex
      modifies this`presetVisual, this`rainbow, this`dmxVisual, dmx, scenes, profiles`vals
      ensures Valid() && mode == NextMode(old(mode), a, old(controlIndex), |old(scenes.scenes)|)
      ensures committed == if Commits(old(mode), User(a)) then old(dmx.shadow) else old(committed)
      ensures highlight == null || fresh(highlight)
      ensures PacketEffect(User(a))
    {
      match mode
      case DmxMode => InDmxMode(a);
      case Preset => InPreset(a);
    }

    /** A control worker writes any channel of one of its lights. */
    method WorkerWrite(k: nat, channel: int, value: int)
      requires Valid()
      modifies dmx, profiles`vals
      ensures Valid() && OnlyLights(selectedLights, old(dmx.shadow), dmx.shadow)
      ensures (presetVisual || rainbow || dmxVisual) && k < |selectedLights| ==>
        dmx.shadow == WithChannel(old(dmx.shadow), selectedLights[k], channel, value)
      ensures !presetVisual && !rainbow && !dmxVisual ==> dmx.shadow == old(dmx.shadow)
    {
      if (presetVisual || rainbow || dmxVisual) && k < |selectedLights| {
        assert selectedLights[k] in selectedLights && selectedLights[k] in profiles;
        WriteChannel(selectedLights[k], channel, value);
        OneMoreLight(selectedLights, selectedLights[k], old(dmx.shadow), old(dmx.shadow), dmx.shadow);
      }
    }

    method WriteChannel(f: FixtureProfile, channel: int, value: int)
      requires Core() && f in profiles
      modifies dmx, f`vals
      ensures Core() && Beside(f, old(dmx.shadow), dmx.shadow)
      ensures old(f.SyncedWith(dmx)) ==> f.SyncedWith(dmx)
      ensures dmx.shadow == WithChannel(old(dmx.shadow), f, channel, value)
    {
      assert ReadyLight(f, dmx);
      var _ := f.SetChannelManual(channel, value);
      StaysBeside(f, old(dmx.shadow), dmx.shadow);
    }

    /** The highlighting worker makes one pass. */
    method HighlightPass()
      requires Valid()
      modifies dmx, profiles`vals, highlight
      ensures Valid() && (highlight == null ==> dmx.shadow == old(dmx.shadow))
      ensures highlight != null ==>
        && highlight.lights == old(highlight.lights) && OnlyLights(highlight.lights, old(dmx.shadow), dmx.shadow)
        && (highlight.running && AllApart(highlight.lights) ==>
              highlight.ShownUpTo(|highlight.lights|, old(highlight.Angle()), dmx))
    {
      if highlight != null {
        assert forall i | 0 <= i < |highlight.lights| :: highlight.lights[i] in profiles;
        var thrown := highlight.Pass(dmx);
      }
    }

    /** The chase worker shows one of the scenes. */
    method ChaseStep(k: nat)
      requires Valid()
      modifies dmx
      ensures Valid()
      ensures if chase && k < |scenes.scenes| then SameLook(dmx.shadow, scenes.scenes[k]) else dmx.shadow == old(dmx.shadow)
    {
      if chase && k < |scenes.scenes| {
        ShowUniverse(scenes.scenes[k]);
      }
    }
  }

  /** A fixture's slots do not include the start code. */
  lemma SliceWithoutStart(f: FixtureProfile, u: Universe, v: Universe)
    requires f.WellFormed() && |u| == |v| == SLOTS && u[1..] == v[1..]
    ensures f.Slice(u) == f.Slice(v)
  {
    var a, n := f.profile.address, f.n;
    assert u[1..][a - 1..a - 1 + n] == u[a..a + n] && v[1..][a - 1..a - 1 + n] == v[a..a + n];
  }

  lemma SlicesWithoutStart(lights: seq<FixtureProfile>, u: Universe, v: Universe)
    requires |u| == |v| == SLOTS && u[1..] == v[1..] && forall f | f in lights :: f.WellFormed()
    ensures forall f | f in lights :: f.Slice(u) == f.Slice(v)
  {
    forall f | f in lights ensures f.Slice(u) == f.Slice(v) {
      SliceWithoutStart(f, u, v);
    }
  }

  /** A colour that was painted and committed is what the universe shows on those lights after a
      selection that was cancelled, however often the highlighting worker ran meanwhile. */
  method PaintCommitCancel(s: ServerApp, c: Color, passes: nat)
    requires s.Valid() && s.mode == ColorWheel && c.Valid() && s.apart
    modifies s, s.dmx, s.scenes, s.profiles
    ensures s.Valid() && s.mode == Idle
    ensures forall f | f in old(s.selectedLights) ::
      f.Slice(s.dmx.shadow) == Colored(f.profile.channelMap, old(f.vals), c)
  {
    ghost var lights := s.selectedLights;
    PaintLook(s, c);
    ghost var look := s.dmx.shadow;
    CommitThenCancel(s, passes);
    SlicesWithoutStart(lights, look, s.dmx.shadow);
  }

  method PaintLook(s: ServerApp, c: Color)
    requires s.Valid() && s.mode == ColorWheel && c.Valid() && s.apart
    modifies s, s.dmx, s.scenes, s.profiles
    ensures s.Valid() && s.mode == ColorWheel && forall f | f in old(s.selectedLights) :: f.WellFormed()
    ensures forall f | f in old(s.selectedLights) ::
      f.Slice(s.dmx.shadow) == Colored(f.profile.channelMap, old(f.vals), c)
  {
    assert forall f | f in s.selectedLights :: ReadyLight(f, s.dmx);
    s.InColorWheel(Joystick(c));
    assert s.Applied(Paint(c));
  }

  method CommitThenCancel(s: ServerApp, passes: nat)
    requires s.Valid() && s.mode == ColorWheel
    modifies s, s.dmx, s.scenes, s.profiles
    ensures s.Valid() && s.mode == Idle && |old(s.dmx.shadow)| == SLOTS
    ensures s.dmx.shadow[1..] == old(s.dmx.shadow)[1..]
  {
    Commit(s);
    RunHighlight(s, passes);
    Cancel(s);
  }

  method Commit(s: ServerApp)
    requires s.Valid() && s.mode == ColorWheel
    modifies s, s.dmx, s.scenes, s.profiles
    ensures s.Valid() && s.mode == LightSelection && s.committed == old(s.dmx.shadow) && fresh(s.highlight)
  {
    s.InColorWheel(User(B1));
  }

  method Cancel(s: ServerApp)
    requires s.Valid() && s.mode == LightSelection
    modifies s, s.highlight, s.dmx, s.profiles
    ensures s.Valid() && s.mode == Idle && SameLook(s.dmx.shadow, old(s.committed))
  {
    s.InLightSelection(B2);
  }

  method RunHighlight(s: ServerApp, passes: nat)
    requires s.Valid()
    modifies s.dmx, s.profiles`vals, s.highlight
    ensures s.Valid()
  {
    for i := 0 to passes
      invariant s.Valid()
    {
      s.HighlightPass();
    }
  }

  predicate Strands(mode: Mode, c: Command) { c == User(Konami) && HasWorker(mode) }

  datatype Event = Packet(c: Command) | Write(k: nat, channel: int, value: int) | Pulse | ChaseTo(k: nat)

  /** What can be seen of the server between two events. */
  datatype Snap = Snap(mode: Mode, universe: Universe, committed: Universe, control: int, scenes: nat)

  ghost function Look(s: ServerApp): Snap
    reads s, s.dmx, s.scenes
  {
    Snap(s.mode, s.dmx.shadow, s.committed, s.controlIndex, |s.scenes.scenes|)
  }

  /** Packets move the mode as the table says, except for a stranding one, which is not sent,
      and workers do not.  A commit records the universe and nothing else changes the record;
      a return to idle shows it. */
  ghost predicate StepRestores(was: Snap, e: Event, now: Snap) {
    && now.mode == (if e.Packet? && !Strands(was.mode, e.c) then ModeAfter(was.mode, e.c, was.control, was.scenes)
                    else was.mode)
    && now.committed == (if e.Packet? && Commits(was.mode, e.c) then was.universe else was.committed)
    && (Returns(was.mode, now.mode) ==> Restored(now))
  }

  /** The universe shows the last commit. */
  ghost predicate Restored(s: Snap) {
    |s.universe| == |s.committed| == SLOTS && s.universe[1..] == s.committed[1..]
  }

  /** `trace` is a run on `events` in which every step is as StepRestores says. */
  ghost predicate CancelsRestore(trace: seq<Snap>, events: seq<Event>) {
    |trace| == |events| + 1 && forall k | 0 <= k < |events| :: StepRestores(trace[k], events[k], trace[k + 1])
  }

  lemma ExtendTrace(trace: seq<Snap>, events: seq<Event>, k: nat, now: Snap)
    requires k < |events| && CancelsRestore(trace, events[..k]) && StepRestores(trace[k], events[k], now)
    ensures CancelsRestore(trace + [now], events[..k + 1])
  {
    assert forall j | 0 <= j < k :: StepRestores(trace[j], events[..k][j], trace[j + 1]);
  }

  /** Cancel presses it takes from a mode to idle. */
  function Depth(mode: Mode): nat {
    match mode
    case Chase => 1
    case LightSelection => 1
    case ControlSelection => 2
    case ColorWheel => 3
    case DmxMode => 3
    case Preset => 3
    case _ => 0
  }

  /** The cancel presses among the events from k on. */
  function Cancels(events: seq<Event>, k: nat): nat
    requires k <= |events|
    decreases |events| - k
  {
    if k == |events| then 0 else (if events[k] == Packet(User(B2)) then 1 else 0) + Cancels(events, k + 1)
  }

  /** Pressing cancel as often as the mode is deep, with any worker steps in between, leads to
      idle on the universe that was last committed. */
  lemma {:induction false} CancelLeadsHome(trace: seq<Snap>, events: seq<Event>, k: nat) returns (home: nat)
    requires CancelsRestore(trace, events) && k <= |events|
    requires forall j | k <= j < |events| && events[j].Packet? :: events[j].c == User(B2)
    requires 0 < Depth(trace[k].mode) <= Cancels(events, k)
    ensures k < home <= |events| && trace[home].mode == Idle
    ensures trace[home].committed == trace[k].committed && Restored(trace[home])
    decreases |events| - k
  {
    assert StepRestores(trace[k], events[k], trace[k + 1]);
    if trace[k + 1].mode == Idle {
      home := k + 1;
    } else {
      home := CancelLeadsHome(trace, events, k + 1);
    }
  }

  /** Over every run of packets and worker steps the server stays consistent and every return
      to idle shows the universe of the last commit.  The controller sends the Konami action
      only when no worker runs; otherwise it is dropped here. */
  method Serve(s: ServerApp, events: seq<Event>) returns (ghost trace: seq<Snap>)
    requires s.Valid()
    requires forall k | 0 <= k < |events| && events[k].Packet? :: events[k].c.Valid(|s.profiles|)
    modifies s, s.dmx, s.scenes, s.profiles, s.highlight
    ensures s.Valid() && CancelsRestore(trace, events)
    ensures trace[0] == old(Look(s)) && trace[|events|] == Look(s)
  {
    trace := [Look(s)];
    for k := 0 to |events|
      invariant s.Valid() && CancelsRestore(trace, events[..k])
      invariant trace[0] == old(Look(s)) && trace[k] == Look(s)
      invariant s.highlight == null || s.highlight == old(s.highlight) || fresh(s.highlight)
    {
      Advance(s, events[k]);
      ghost var now := Look(s);
      ExtendTrace(trace, events, k, now);
      trace := trace + [now];
    }
    assert events[..|events|] == events;
  }

  method Advance(s: ServerApp, e: Event)
    requires s.Valid() && (e.Packet? ==> e.c.Valid(|s.profiles|))
    modifies s, s.dmx, s.scenes, s.profiles, s.highlight
    ensures s.Valid() && StepRestores(old(Look(s)), e, Look(s))
    ensures e.Packet? && e.c != User(Konami) ==> s.PacketEffect(e.c)
    ensures e.Write? && (s.presetVisual || s.rainbow || s.dmxVisual) && e.k < |s.selectedLights| ==>
      s.dmx.shadow == WithChannel(old(s.dmx.shadow), s.selectedLights[e.k], e.channel, e.value)
    ensures e.Pulse? && s.highlight != null && s.highlight.running && AllApart(s.highlight.lights) ==>
      s.highlight.ShownUpTo(|s.highlight.lights|, old(s.highlight.Angle()), s.dmx)
    ensures e.ChaseTo? && s.chase && e.k < |s.scenes.scenes| ==> SameLook(s.dmx.shadow, s.scenes.scenes[e.k])
    ensures s.highlight == null || s.highlight == old(s.highlight) || fresh(s.highlight)
  {
    match e
    case Packet(c) =>
      if !Strands(s.mode, c) {
        s.Handle(c);
      }
    case Write(k, channel, value) => s.WorkerWrite(k, channel, value);
    case Pulse => s.HighlightPass();
    case ChaseTo(k) => s.ChaseStep(k);
  }
}
