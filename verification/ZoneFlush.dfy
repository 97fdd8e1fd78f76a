/**
 Flushing a zone to its devices through the idempotency cache: one record per device and kind,
 trusted until it is `refreshAge` old. The devices are registers, one per key; a handler call
 that fails leaves its register alone.
 */
module ZoneFlush {
  import opened Wrappers
  import opened Canonical
  import ZoneRecord
  import opened Decimal
  import opened Sequences

  datatype DeviceType = UnspecifiedDevice | BasicLight | ColorLight | Relay | OtherDevice

  datatype Kind = PowerKind | LevelKind | TemperatureKind | HueKind

  datatype Key = Key(device: string, kind: Kind)

  /** What a register holds. */
  datatype Reading = Switched(on: bool) | Level(n: int) | Hue(color: string)

  datatype Record = Record(value: string, ts: int)

  datatype World = World(
    settings: ZoneRecord.Zone, devices: map<string, DeviceType>,
    applied: map<Key, Record>, refreshAge: int, registers: map<Key, Reading>)

  /**
   What one flush meets: the limiter, which handler calls fail, the clock at each cache lookup and
   at each record written, and the colours that random calls pick. A flush visits a key at most once.
   */
  datatype Conditions = Conditions(
    selects: string -> bool, fails: Key -> bool, checked: Key -> int, marked: Key -> int, picks: string -> string)

  predicate Covers(kind: Kind, t: DeviceType) {
    match kind
    case PowerKind => t == BasicLight || t == ColorLight || t == Relay
    case LevelKind => t == BasicLight || t == ColorLight
    case TemperatureKind => t == ColorLight
    case HueKind => t == ColorLight
  }

  function DesiredLevel(z: ZoneRecord.Zone): int {
    if z.brightnessValue > 0.0 then BrightnessToDevice(z.brightnessValue) else LegacyBrightness(z.brightness)
  }

  function DesiredMireds(z: ZoneRecord.Zone): int {
    if z.kelvin > 0 then KelvinToMireds(z.kelvin) else LegacyColorTemp(z.colorTemp)
  }

  function Desired(z: ZoneRecord.Zone, kind: Kind): Reading {
    match kind
    case PowerKind => Switched(z.state != Off)
    case LevelKind => Level(DesiredLevel(z))
    case TemperatureKind => Level(DesiredMireds(z))
    case HueKind => Hue(z.color)
  }

  function Render(r: Reading): string {
    match r
    case Switched(on) => if on then "ZONE_STATE_ON" else "ZONE_STATE_OFF"
    case Level(n) => Itoa(n)
    case Hue(color) => color
  }

  predicate HasKind(kind: Kind, r: Reading) {
    match kind
    case PowerKind => r.Switched?
    case LevelKind => r.Level?
    case TemperatureKind => r.Level?
    case HueKind => r.Hue?
  }

  /** Comparing rendered values is comparing values. */
  lemma RenderInjective(kind: Kind, r: Reading, q: Reading)
    requires HasKind(kind, r) && HasKind(kind, q) && Render(r) == Render(q)
    ensures r == q
  {
    match r
    case Switched(on) => assert |"ZONE_STATE_ON"| != |"ZONE_STATE_OFF"|;
    case Level(n) => ItoaInjective(n, q.n);
    case Hue(color) =>
  }

  // -------------------------------------------------------------------- passes

  function Selected(w: World, c: Conditions, kind: Kind, names: set<string>): set<Key> {
    set d | d in names && d in w.devices && Covers(kind, w.devices[d]) && c.selects(d) :: Key(d, kind)
  }

  predicate Suppressed(applied: map<Key, Record>, refreshAge: int, now: int, k: Key, desired: string) {
    k in applied && now - applied[k].ts < refreshAge && applied[k].value == desired
  }

  /** The calls made: all selected keys without the cache, those it does not suppress with it. */
  function Attempted(cached: bool, w: World, c: Conditions, kind: Kind, names: set<string>): set<Key> {
    set k | k in Selected(w, c, kind, names)
            && !(cached && Suppressed(w.applied, w.refreshAge, c.checked(k), k, Render(Desired(w.settings, kind))))
  }

  function Sent(cached: bool, w: World, c: Conditions, kind: Kind, names: set<string>): set<Key> {
    set k | k in Attempted(cached, w, c, kind, names) && !c.fails(k)
  }

  function SetAll(registers: map<Key, Reading>, ks: set<Key>, r: Reading): map<Key, Reading> {
    registers + map k | k in ks :: r
  }

  function MarkAll(applied: map<Key, Record>, ks: set<Key>, c: Conditions, value: string): map<Key, Record> {
    applied + map k | k in ks :: Record(value, c.marked(k))
  }

  /** One handler loop over the devices in `names`, in whatever order. */
  function PassOver(cached: bool, w: World, c: Conditions, kind: Kind, names: set<string>): World {
    var desired := Desired(w.settings, kind);
    var sent := Sent(cached, w, c, kind, names);
    w.(registers := SetAll(w.registers, sent, desired), applied := MarkAll(w.applied, sent, c, Render(desired)))
  }

  function Pass(cached: bool, w: World, c: Conditions, kind: Kind): World {
    PassOver(cached, w, c, kind, w.devices.Keys)
  }

  predicate PassOk(cached: bool, w: World, c: Conditions, kind: Kind) {
    forall k <- Attempted(cached, w, c, kind, w.devices.Keys) :: !c.fails(k)
  }

  /** Random colours go to the devices without looking at the cache or recording anything. */
  function RandomOver(w: World, c: Conditions, names: set<string>): World {
    w.(registers := w.registers + map k | k in Sent(false, w, c, HueKind, names) :: Hue(c.picks(k.device)))
  }

  function RandomPass(w: World, c: Conditions): World {
    RandomOver(w, c, w.devices.Keys)
  }

  // --------------------------------------------------------------------- flush

  /** The kinds a flush in this state asserts through the cache. */
  function KindsOf(s: ZoneState): seq<Kind> {
    match s
    case StateUnspecified => []
    case On => [PowerKind, LevelKind, TemperatureKind]
    case OffTimer => [PowerKind, LevelKind, TemperatureKind]
    case Off => [PowerKind]
    case Color => [HueKind, LevelKind]
    case RandomColor => [LevelKind]
  }

  function Passes(cached: bool, w: World, c: Conditions, kinds: seq<Kind>): (World, bool) {
    if kinds == [] then (w, true)
    else
      var (w', ok) := Passes(cached, w, c, kinds[..|kinds| - 1]);
      var kind := kinds[|kinds| - 1];
      (Pass(cached, w', c, kind), ok && PassOk(cached, w', c, kind))
  }

  function Flush(cached: bool, w: World, c: Conditions): (World, bool) {
    match w.settings.state
    case StateUnspecified => (w.(settings := w.settings.(state := Off)), true)
    case RandomColor =>
      var (w', ok) := Passes(cached, RandomPass(w, c), c, [LevelKind]);
      (w', ok && PassOk(false, w, c, HueKind))
    case _ => Passes(cached, w, c, KindsOf(w.settings.state))
  }

  // ----------------------------------------------------------- cache soundness

  /** Every record is what the register holds. */
  ghost predicate Sound(w: World) {
    && (forall k <- w.registers :: HasKind(k.kind, w.registers[k]))
    && (forall k <- w.applied :: k in w.registers && Render(w.registers[k]) == w.applied[k].value)
  }

  lemma SuppressedHolds(w: World, now: int, k: Key)
    requires Sound(w) && Suppressed(w.applied, w.refreshAge, now, k, Render(Desired(w.settings, k.kind)))
    ensures k in w.registers && w.registers[k] == Desired(w.settings, k.kind)
  {
    RenderInjective(k.kind, w.registers[k], Desired(w.settings, k.kind));
  }

  /** After a pass the selected keys hold the desired value unless their call failed; no other key has moved. */
  ghost predicate Asserted(w: World, c: Conditions, kind: Kind, r: map<Key, Reading>) {
    && (forall k <- Selected(w, c, kind, w.devices.Keys) ::
          !c.fails(k) ==> k in r && r[k] == Desired(w.settings, kind))
    && (forall k :: k !in Selected(w, c, kind, w.devices.Keys) || c.fails(k) ==>
          (k in r <==> k in w.registers) && (k in r ==> r[k] == w.registers[k]))
  }

  lemma AssertedUnique(w: World, c: Conditions, kind: Kind, r: map<Key, Reading>, q: map<Key, Reading>)
    requires Asserted(w, c, kind, r) && Asserted(w, c, kind, q)
    ensures r == q
  {
    assert forall k :: k in r <==> k in q;
  }

  lemma PassAsserts(cached: bool, w: World, c: Conditions, kind: Kind)
    requires Sound(w)
    ensures Asserted(w, c, kind, Pass(cached, w, c, kind).registers)
  {
    var w' := Pass(cached, w, c, kind);
    forall k | k in Selected(w, c, kind, w.devices.Keys) && k !in Attempted(cached, w, c, kind, w.devices.Keys)
      ensures k in w.registers && w.registers[k] == Desired(w.settings, kind)
    {
      SuppressedHolds(w, c.checked(k), k);
    }
  }

  lemma PassSound(cached: bool, w: World, c: Conditions, kind: Kind)
    requires Sound(w)
    ensures Sound(Pass(cached, w, c, kind))
  {
  }

  /** A pass through the cache leaves the registers as sending everything does. */
  lemma PassInvisible(w: World, v: World, c: Conditions, kind: Kind)
    requires Sound(w) && Sound(v) && SameDevices(w, v)
    ensures SameDevices(Pass(true, w, c, kind), Pass(false, v, c, kind))
  {
    PassAsserts(true, w, c, kind);
    PassAsserts(false, v, c, kind);
    assert Asserted(v, c, kind, Pass(true, w, c, kind).registers);
    AssertedUnique(v, c, kind, Pass(true, w, c, kind).registers, Pass(false, v, c, kind).registers);
  }

  /** Equal in everything but the cache. */
  predicate SameDevices(w: World, v: World) {
    w.settings == v.settings && w.devices == v.devices && w.refreshAge == v.refreshAge && w.registers == v.registers
  }

  // ------------------------------------------------------------- whole flushes

  predicate SelectedFor(w: World, c: Conditions, kinds: seq<Kind>, k: Key) {
    k.kind in kinds && k.device in w.devices && Covers(k.kind, w.devices[k.device]) && c.selects(k.device)
  }

  /**
   The registers `r` hold the desired value at every selected key whose call did not fail, and at
   every selected key when no error was returned; the rest is as it was.
   */
  ghost predicate Reached(w: World, c: Conditions, kinds: seq<Kind>, ok: bool, r: map<Key, Reading>) {
    && (forall k :: SelectedFor(w, c, kinds, k) && (ok || !c.fails(k)) ==>
          k in r && r[k] == Desired(w.settings, k.kind))
    && (forall k :: !SelectedFor(w, c, kinds, k) || c.fails(k) ==>
          (k in r <==> k in w.registers) && (k in r ==> r[k] == w.registers[k]))
  }

  lemma PassReaches(cached: bool, w: World, c: Conditions, kind: Kind)
    requires Sound(w)
    ensures Reached(w, c, [kind], PassOk(cached, w, c, kind), Pass(cached, w, c, kind).registers)
  {
    PassAsserts(cached, w, c, kind);
    var all := Selected(w, c, kind, w.devices.Keys);
    forall k ensures k in all <==> SelectedFor(w, c, [kind], k) {
      PassSelects(w, c, kind, k);
    }
    forall k | k in all && c.fails(k) && PassOk(cached, w, c, kind)
      ensures k in w.registers && w.registers[k] == Desired(w.settings, kind)
    {
      assert k !in Attempted(cached, w, c, kind, w.devices.Keys);
      SuppressedHolds(w, c.checked(k), k);
    }
  }

  lemma SelectedSnoc(w: World, c: Conditions, kinds: seq<Kind>, kind: Kind, k: Key)
    ensures SelectedFor(w, c, kinds + [kind], k) <==> SelectedFor(w, c, kinds, k) || SelectedFor(w, c, [kind], k)
  {
  }

  lemma ReachedNext(
    w: World, c: Conditions, kinds: seq<Kind>, ok: bool, w1: World, kind: Kind, ok1: bool, r: map<Key, Reading>)
    requires kind !in kinds && w1.settings == w.settings && w1.devices == w.devices
    requires Reached(w, c, kinds, ok, w1.registers) && Reached(w1, c, [kind], ok1, r)
    ensures Reached(w, c, kinds + [kind], ok && ok1, r)
  {
    forall k
      ensures SelectedFor(w, c, kinds + [kind], k) <==> SelectedFor(w, c, kinds, k) || SelectedFor(w1, c, [kind], k)
    {
      SelectedSnoc(w, c, kinds, kind, k);
    }
  }

  ghost predicate Distinct(kinds: seq<Kind>) {
    forall i, j :: 0 <= i < j < |kinds| ==> kinds[i] != kinds[j]
  }

  lemma PassesSnoc(cached: bool, w: World, c: Conditions, kinds: seq<Kind>, kind: Kind)
    ensures var (w1, ok) := Passes(cached, w, c, kinds);
            Passes(cached, w, c, kinds + [kind]) == (Pass(cached, w1, c, kind), ok && PassOk(cached, w1, c, kind))
  {
    assert (kinds + [kind])[..|kinds|] == kinds;
  }

  predicate SameSetup(w: World, w': World) {
    w'.settings == w.settings && w'.devices == w.devices && w'.refreshAge == w.refreshAge
  }

  ghost predicate ReachedBy(cached: bool, w: World, c: Conditions, kinds: seq<Kind>) {
    var (w', ok) := Passes(cached, w, c, kinds);
    Sound(w') && SameSetup(w, w') && Reached(w, c, kinds, ok, w'.registers)
  }

  lemma PassesReachNext(cached: bool, w: World, c: Conditions, kinds: seq<Kind>, kind: Kind)
    requires kind !in kinds && ReachedBy(cached, w, c, kinds)
    ensures ReachedBy(cached, w, c, kinds + [kind])
  {
    var (w1, ok) := Passes(cached, w, c, kinds);
    PassesSnoc(cached, w, c, kinds, kind);
    PassSound(cached, w1, c, kind);
    PassReaches(cached, w1, c, kind);
    ReachedNext(w, c, kinds, ok, w1, kind, PassOk(cached, w1, c, kind), Pass(cached, w1, c, kind).registers);
  }

  lemma ReachedNothing(cached: bool, w: World, c: Conditions)
    requires Sound(w)
    ensures ReachedBy(cached, w, c, [])
  {
  }

  lemma DistinctSnoc(kinds: seq<Kind>, kind: Kind)
    requires Distinct(kinds + [kind])
    ensures Distinct(kinds) && kind !in kinds
  {
    var all := kinds + [kind];
    assert all[|kinds|] == kind;
    assert forall i :: 0 <= i < |kinds| ==> all[i] == kinds[i];
  }

  lemma PassesReach(cached: bool, w: World, c: Conditions, kinds: seq<Kind>)
    requires Sound(w) && Distinct(kinds)
    ensures ReachedBy(cached, w, c, kinds)
  {
    SnocInduction((ks: seq<Kind>) => Distinct(ks) ==> ReachedBy(cached, w, c, ks), (k: Kind) => true, kinds) by {
      ReachedNothing(cached, w, c);
      forall ks: seq<Kind>, k: Kind | (Distinct(ks) ==> ReachedBy(cached, w, c, ks)) && Distinct(ks + [k])
        ensures ReachedBy(cached, w, c, ks + [k])
      {
        DistinctSnoc(ks, k);
        PassesReachNext(cached, w, c, ks, k);
      }
    }
  }

  /**
   After a flush that returned nil in any state but RandomColor every selected actuator holds the
   desired values, whether its calls were sent or suppressed; and records still tell the truth.
   */
  lemma FlushReaches(cached: bool, w: World, c: Conditions)
    requires Sound(w) && w.settings.state != RandomColor
    ensures var (w', ok) := Flush(cached, w, c);
            Sound(w') && Reached(w, c, KindsOf(w.settings.state), ok, w'.registers)
  {
    PassesReach(cached, w, c, KindsOf(w.settings.state));
  }

  // ------------------------------------------- what the devices hold, in numbers

  /** The level of a zone: 254 at full, within half a step in between; without a continuous value, by its name. */
  predicate LevelFits(z: ZoneRecord.Zone, n: int) {
    if z.brightnessValue > 0.0 then
      var v := if z.brightnessValue > 1.0 then 254.0 else 254.0 * z.brightnessValue;
      -0.5 <= n as real - v <= 0.5
    else
      n == match z.brightness
           case BrightnessUnspecified => 0
           case VeryLow => 70
           case Low => 90
           case LowPlus => 95
           case Dim => 110
           case DimPlus => 125
           case Full => 254
  }

  /** The colour temperature of a zone in mireds: within a half of a million over Kelvin, or by its name. */
  predicate MiredsFit(z: ZoneRecord.Zone, n: int) {
    if z.kelvin > 0 then -0.5 <= n as real - 1000000.0 / (z.kelvin as real) <= 0.5
    else
      n == match z.colorTemp
           case ColorTempUnspecified => 0
           case FirstLight => 100
           case Morning => 200
           case Day => 300
           case LateAfternoon => 300
           case Evening => 500
  }

  lemma DesiredFits(z: ZoneRecord.Zone)
    ensures LevelFits(z, DesiredLevel(z)) && MiredsFit(z, DesiredMireds(z))
  {
    if z.brightnessValue > 0.0 {
      RoundNearest((if z.brightnessValue > 1.0 then 1.0 else z.brightnessValue) * 254.0);
    }
    if z.kelvin > 0 {
      RoundNearest(1000000.0 / (z.kelvin as real));
    }
  }

  predicate IsLight(t: DeviceType) {
    t == BasicLight || t == ColorLight
  }

  predicate Switchable(t: DeviceType) {
    IsLight(t) || t == Relay
  }

  ghost predicate HoldsPower(w: World, c: Conditions, r: map<Key, Reading>, on: bool) {
    forall d :: d in w.devices && c.selects(d) && Switchable(w.devices[d]) ==>
      Key(d, PowerKind) in r && r[Key(d, PowerKind)] == Switched(on)
  }

  ghost predicate HoldsLevels(w: World, c: Conditions, r: map<Key, Reading>) {
    forall d :: d in w.devices && c.selects(d) && IsLight(w.devices[d]) ==>
      && Key(d, LevelKind) in r && r[Key(d, LevelKind)].Level?
      && LevelFits(w.settings, r[Key(d, LevelKind)].n)
  }

  ghost predicate HoldsMireds(w: World, c: Conditions, r: map<Key, Reading>) {
    forall d :: d in w.devices && c.selects(d) && w.devices[d] == ColorLight ==>
      && Key(d, TemperatureKind) in r && r[Key(d, TemperatureKind)].Level?
      && MiredsFit(w.settings, r[Key(d, TemperatureKind)].n)
  }

  ghost predicate HoldsHue(w: World, c: Conditions, r: map<Key, Reading>) {
    forall d :: d in w.devices && c.selects(d) && w.devices[d] == ColorLight ==>
      Key(d, HueKind) in r && r[Key(d, HueKind)] == Hue(w.settings.color)
  }

  /** A register that a device of this type has. */
  predicate HasRegister(t: DeviceType, kind: Kind) {
    match kind
    case PowerKind => Switchable(t)
    case LevelKind => IsLight(t)
    case TemperatureKind => t == ColorLight
    case HueKind => t == ColorLight
  }

  /** Only registers of `kinds` have moved, and only those that selected devices have. */
  ghost predicate OnlyMoved(w: World, c: Conditions, r: map<Key, Reading>, kinds: set<Kind>) {
    forall k: Key ::
      !(k.kind in kinds && k.device in w.devices && c.selects(k.device) && HasRegister(w.devices[k.device], k.kind)) ==>
        (k in r <==> k in w.registers) && (k in r ==> r[k] == w.registers[k])
  }

  lemma ReachedHolds(w: World, c: Conditions, kinds: seq<Kind>, r: map<Key, Reading>)
    requires Reached(w, c, kinds, true, r)
    ensures PowerKind in kinds ==> HoldsPower(w, c, r, w.settings.state != Off)
    ensures LevelKind in kinds ==> HoldsLevels(w, c, r)
    ensures TemperatureKind in kinds ==> HoldsMireds(w, c, r)
    ensures HueKind in kinds ==> HoldsHue(w, c, r)
    ensures OnlyMoved(w, c, r, set k | k in kinds)
  {
    DesiredFits(w.settings);
    forall d | d in w.devices && c.selects(d)
      ensures PowerKind in kinds && Switchable(w.devices[d]) ==> SelectedFor(w, c, kinds, Key(d, PowerKind))
      ensures LevelKind in kinds && IsLight(w.devices[d]) ==> SelectedFor(w, c, kinds, Key(d, LevelKind))
      ensures TemperatureKind in kinds && w.devices[d] == ColorLight ==>
                SelectedFor(w, c, kinds, Key(d, TemperatureKind))
      ensures HueKind in kinds && w.devices[d] == ColorLight ==> SelectedFor(w, c, kinds, Key(d, HueKind))
    {
    }
  }

  /** After a nil flush of a zone that is on, its devices are on, its lights at its level and colour temperature. */
  lemma {:induction false} OnZoneHolds(cached: bool, w: World, c: Conditions)
    requires Sound(w) && Flush(cached, w, c).1 && (w.settings.state == On || w.settings.state == OffTimer)
    ensures var r := Flush(cached, w, c).0.registers;
            && HoldsPower(w, c, r, true) && HoldsLevels(w, c, r) && HoldsMireds(w, c, r)
            && OnlyMoved(w, c, r, {PowerKind, LevelKind, TemperatureKind})
  {
    FlushReaches(cached, w, c);
    ReachedHolds(w, c, KindsOf(w.settings.state), Flush(cached, w, c).0.registers);
  }

  /** After a nil flush of a zone that is off, its devices are off and nothing else has moved. */
  lemma {:induction false} OffZoneHolds(cached: bool, w: World, c: Conditions)
    requires Sound(w) && Flush(cached, w, c).1 && w.settings.state == Off
    ensures var r := Flush(cached, w, c).0.registers; HoldsPower(w, c, r, false) && OnlyMoved(w, c, r, {PowerKind})
  {
    FlushReaches(cached, w, c);
    ReachedHolds(w, c, KindsOf(w.settings.state), Flush(cached, w, c).0.registers);
  }

  /** After a nil flush of a zone with a colour, its colour lights show it and its lights are at its level. */
  lemma {:induction false} ColorZoneHolds(cached: bool, w: World, c: Conditions)
    requires Sound(w) && Flush(cached, w, c).1 && w.settings.state == Color
    ensures var r := Flush(cached, w, c).0.registers;
            HoldsHue(w, c, r) && HoldsLevels(w, c, r) && OnlyMoved(w, c, r, {HueKind, LevelKind})
  {
    FlushReaches(cached, w, c);
    ReachedHolds(w, c, KindsOf(w.settings.state), Flush(cached, w, c).0.registers);
  }

  /** A zone without a state becomes Off and sends nothing. */
  lemma FreshZoneSendsNothing(cached: bool, w: World, c: Conditions)
    requires w.settings.state == StateUnspecified
    ensures Flush(cached, w, c) == (w.(settings := w.settings.(state := Off)), true)
  {
  }

  lemma {:induction false} PassesInvisible(w: World, v: World, c: Conditions, kinds: seq<Kind>)
    requires Sound(w) && Sound(v) && SameDevices(w, v) && Distinct(kinds)
    ensures SameDevices(Passes(true, w, c, kinds).0, Passes(false, v, c, kinds).0)
    ensures Passes(false, v, c, kinds).1 ==> Passes(true, w, c, kinds).1
  {
    if kinds != [] {
      var init, kind := kinds[..|kinds| - 1], kinds[|kinds| - 1];
      PassesInvisible(w, v, c, init);
      PassesReach(true, w, c, init);
      PassesReach(false, v, c, init);
      PassInvisible(Passes(true, w, c, init).0, Passes(false, v, c, init).0, c, kind);
      AttemptedWithin(Passes(true, w, c, init).0, Passes(false, v, c, init).0, c, kind);
    }
  }

  lemma AttemptedWithin(w: World, v: World, c: Conditions, kind: Kind)
    requires SameDevices(w, v)
    ensures PassOk(false, v, c, kind) ==> PassOk(true, w, c, kind)
  {
    assert Attempted(true, w, c, kind, w.devices.Keys) <= Attempted(false, v, c, kind, v.devices.Keys);
  }

  lemma FlushInvisible(w: World, v: World, c: Conditions)
    requires Sound(w) && Sound(v) && SameDevices(w, v) && w.settings.state != RandomColor
    ensures SameDevices(Flush(true, w, c).0, Flush(false, v, c).0)
    ensures Flush(false, v, c).1 ==> Flush(true, w, c).1
  {
    PassesInvisible(w, v, c, KindsOf(w.settings.state));
  }

  // ---------------------------------------------------------------------- runs

  datatype Event =
    | Configure(settings: ZoneRecord.Zone)
    | SetDevice(name: string, deviceType: DeviceType)
    | SetRefreshAge(age: int)
    | FlushNow(conditions: Conditions)

  function Step(cached: bool, w: World, e: Event): World {
    match e
    case Configure(settings) => w.(settings := settings)
    case SetDevice(name, t) => if name == "" || t == UnspecifiedDevice then w else w.(devices := w.devices[name := t])
    case SetRefreshAge(age) => w.(refreshAge := age)
    case FlushNow(c) => Flush(cached, w, c).0
  }

  function Run(cached: bool, w: World, es: seq<Event>): World {
    if es == [] then w else Step(cached, Run(cached, w, es[..|es| - 1]), es[|es| - 1])
  }

  const DEFAULT_REFRESH_AGE := 300_000_000_000

  const NEW_WORLD := World(ZoneRecord.FRESH_ZONE, map[], map[], DEFAULT_REFRESH_AGE, map[])

  ghost predicate NeverRandom(es: seq<Event>) {
    forall i :: 0 <= i < |es| && es[i].Configure? ==> es[i].settings.state != RandomColor
  }

  lemma FlushKeepsState(cached: bool, w: World, c: Conditions)
    requires Sound(w) && w.settings.state != RandomColor
    ensures Flush(cached, w, c).0.settings.state != RandomColor
  {
    PassesReach(cached, w, c, KindsOf(w.settings.state));
  }

  lemma StepKeeps(cached: bool, w: World, e: Event)
    requires Sound(w) && w.settings.state != RandomColor
    requires e.Configure? ==> e.settings.state != RandomColor
    ensures Sound(Step(cached, w, e)) && Step(cached, w, e).settings.state != RandomColor
  {
    if e.FlushNow? {
      FlushReaches(cached, w, e.conditions);
      FlushKeepsState(cached, w, e.conditions);
    }
  }

  /** In every reachable state each record is what the device holds. */
  lemma {:induction false} RunSound(cached: bool, es: seq<Event>)
    requires NeverRandom(es)
    ensures Sound(Run(cached, NEW_WORLD, es))
    ensures Run(cached, NEW_WORLD, es).settings.state != RandomColor
  {
    if es != [] {
      RunSound(cached, es[..|es| - 1]);
      StepKeeps(cached, Run(cached, NEW_WORLD, es[..|es| - 1]), es[|es| - 1]);
    }
  }

  lemma StepInvisible(w: World, v: World, e: Event)
    requires Sound(w) && Sound(v) && SameDevices(w, v) && w.settings.state != RandomColor
    ensures SameDevices(Step(true, w, e), Step(false, v, e))
  {
    if e.FlushNow? {
      FlushInvisible(w, v, e.conditions);
    }
  }

  /** Over whole runs the cache is invisible: the devices hold what they would if everything were sent. */
  lemma {:induction false} CacheInvisible(es: seq<Event>)
    requires NeverRandom(es)
    ensures SameDevices(Run(true, NEW_WORLD, es), Run(false, NEW_WORLD, es))
  {
    if es != [] {
      var init := es[..|es| - 1];
      CacheInvisible(init);
      RunSound(true, init);
      RunSound(false, init);
      StepInvisible(Run(true, NEW_WORLD, init), Run(false, NEW_WORLD, init), es[|es| - 1]);
    }
  }

  // ---------------------------------------------- devices that the cache misses

  /** The records and registers of `w` and `w'` are the same at `k`. */
  predicate SameAt(w: World, w': World, k: Key) {
    && (k in w.registers <==> k in w'.registers) && (k in w.registers ==> w.registers[k] == w'.registers[k])
    && (k in w.applied <==> k in w'.applied) && (k in w.applied ==> w.applied[k] == w'.applied[k])
  }

  predicate Holds(w: World, k: Key, r: Reading) {
    k in w.registers && w.registers[k] == r
  }

  predicate SuppressedAt(w: World, c: Conditions, k: Key) {
    Suppressed(w.applied, w.refreshAge, c.checked(k), k, Render(Desired(w.settings, k.kind)))
  }

  /** From any state, sound or not: a selected key is set unless it is suppressed, and nothing else moves. */
  ghost predicate Exact(w: World, c: Conditions, kinds: seq<Kind>, w': World, ok: bool) {
    && (forall k :: SelectedFor(w, c, kinds, k) && ok ==>
          if SuppressedAt(w, c, k) then SameAt(w, w', k) else Holds(w', k, Desired(w.settings, k.kind)))
    && (forall k :: !SelectedFor(w, c, kinds, k) ==> SameAt(w, w', k))
  }

  lemma PassSelects(w: World, c: Conditions, kind: Kind, k: Key)
    ensures k in Selected(w, c, kind, w.devices.Keys) <==> SelectedFor(w, c, [kind], k)
  {
    assert k.kind == kind ==> k == Key(k.device, kind);
  }

  lemma PassElsewhere(w: World, c: Conditions, kind: Kind, k: Key)
    requires k !in Sent(true, w, c, kind, w.devices.Keys)
    ensures SameAt(w, Pass(true, w, c, kind), k)
  {
  }

  lemma PassExact(w: World, c: Conditions, kind: Kind)
    ensures Exact(w, c, [kind], Pass(true, w, c, kind), PassOk(true, w, c, kind))
  {
    var w', ok := Pass(true, w, c, kind), PassOk(true, w, c, kind);
    var sent := Sent(true, w, c, kind, w.devices.Keys);
    forall k | SelectedFor(w, c, [kind], k) && ok
      ensures if SuppressedAt(w, c, k) then SameAt(w, w', k) else Holds(w', k, Desired(w.settings, k.kind))
    {
      PassSelects(w, c, kind, k);
      if SuppressedAt(w, c, k) {
        assert k !in sent;
        PassElsewhere(w, c, kind, k);
      } else {
        assert k in sent;
      }
    }
    forall k | !SelectedFor(w, c, [kind], k) ensures SameAt(w, w', k) {
      PassSelects(w, c, kind, k);
      assert k !in sent;
      PassElsewhere(w, c, kind, k);
    }
  }

  lemma ExactNext(w: World, c: Conditions, kinds: seq<Kind>, w1: World, ok: bool, kind: Kind, w2: World, ok1: bool)
    requires kind !in kinds && w1.settings == w.settings && w1.devices == w.devices && w1.refreshAge == w.refreshAge
    requires Exact(w, c, kinds, w1, ok) && Exact(w1, c, [kind], w2, ok1)
    ensures Exact(w, c, kinds + [kind], w2, ok && ok1)
  {
    forall k
      ensures SelectedFor(w, c, kinds + [kind], k) <==> SelectedFor(w, c, kinds, k) || SelectedFor(w1, c, [kind], k)
    {
      SelectedSnoc(w, c, kinds, kind, k);
    }
    forall k | SelectedFor(w1, c, [kind], k) ensures SuppressedAt(w, c, k) <==> SuppressedAt(w1, c, k) {
      assert SameAt(w, w1, k);
    }
  }

  ghost predicate ExactBy(w: World, c: Conditions, kinds: seq<Kind>) {
    var (w', ok) := Passes(true, w, c, kinds);
    Exact(w, c, kinds, w', ok) && SameSetup(w, w')
  }

  lemma PassesExactNext(w: World, c: Conditions, kinds: seq<Kind>, kind: Kind)
    requires kind !in kinds && ExactBy(w, c, kinds)
    ensures ExactBy(w, c, kinds + [kind])
  {
    var (w1, ok) := Passes(true, w, c, kinds);
    PassesSnoc(true, w, c, kinds, kind);
    PassExact(w1, c, kind);
    ExactNext(w, c, kinds, w1, ok, kind, Pass(true, w1, c, kind), PassOk(true, w1, c, kind));
  }

  lemma ExactNothing(w: World, c: Conditions)
    ensures ExactBy(w, c, [])
  {
  }

  lemma PassesExact(w: World, c: Conditions, kinds: seq<Kind>)
    requires Distinct(kinds)
    ensures ExactBy(w, c, kinds)
  {
    SnocInduction((ks: seq<Kind>) => Distinct(ks) ==> ExactBy(w, c, ks), (k: Kind) => true, kinds) by {
      ExactNothing(w, c);
      forall ks: seq<Kind>, k: Kind | (Distinct(ks) ==> ExactBy(w, c, ks)) && Distinct(ks + [k])
        ensures ExactBy(w, c, ks + [k])
      {
        DistinctSnoc(ks, k);
        PassesExactNext(w, c, ks, k);
      }
    }
  }

  /**
   Drift: whatever the registers hold, after a flush that returned nil a selected actuator holds the
   desired value iff it held it before or its record is older than the refresh age or of another value.
   */
  lemma DriftCorrected(w: World, c: Conditions, k: Key)
    requires w.settings.state != RandomColor && Flush(true, w, c).1
    requires SelectedFor(w, c, KindsOf(w.settings.state), k)
    ensures Holds(Flush(true, w, c).0, k, Desired(w.settings, k.kind)) <==>
            Holds(w, k, Desired(w.settings, k.kind)) || !SuppressedAt(w, c, k)
  {
    PassesExact(w, c, KindsOf(w.settings.state));
  }

  /**
   A drifted actuator is set right by the first nil flush that looks at its record `refreshAge` or more after
   it was written, and by none that looks earlier and wants what the record says.
   */
  lemma {:induction false} DriftCorrectedAfterRefreshAge(w: World, c: Conditions, k: Key)
    requires w.settings.state != RandomColor && Flush(true, w, c).1
    requires SelectedFor(w, c, KindsOf(w.settings.state), k) && k in w.applied
    requires !Holds(w, k, Desired(w.settings, k.kind))
    ensures c.checked(k) >= w.applied[k].ts + w.refreshAge ==>
              Holds(Flush(true, w, c).0, k, Desired(w.settings, k.kind))
    ensures c.checked(k) < w.applied[k].ts + w.refreshAge
            && w.applied[k].value == Render(Desired(w.settings, k.kind)) ==>
              !Holds(Flush(true, w, c).0, k, Desired(w.settings, k.kind))
  {
    DriftCorrected(w, c, k);
  }

  function HueKey(d: string): Key {
    Key(d, HueKind)
  }

  /** A random colour call for this light is made and goes through. */
  predicate RandomReaches(w: World, c: Conditions, d: string) {
    SelectedFor(w, c, [HueKind], HueKey(d)) && !c.fails(HueKey(d))
  }

  /** The light shows `pick` if there is one, else what it showed; its record stays either way. */
  predicate PickedAt(w: World, w': World, d: string, pick: Option<string>) {
    && SameAt(w'.(registers := w.registers), w, HueKey(d))
    && (if pick.Some? then Holds(w', HueKey(d), Hue(pick.value)) else SameAt(w', w, HueKey(d)))
  }

  function PickOf(w: World, c: Conditions, d: string): Option<string> {
    if RandomReaches(w, c, d) then Some(c.picks(d)) else None
  }

  lemma RandomPassAt(w: World, c: Conditions, d: string)
    ensures PickedAt(w, RandomPass(w, c), d, PickOf(w, c, d))
  {
    PassSelects(w, c, HueKind, HueKey(d));
    var sent := Sent(false, w, c, HueKind, w.devices.Keys);
    assert HueKey(d) in sent <==> RandomReaches(w, c, d);
  }

  lemma LevelsElsewhere(w: World, c: Conditions, d: string)
    ensures var w' := Passes(true, w, c, [LevelKind]).0; SameSetup(w, w') && SameAt(w, w', HueKey(d))
  {
    PassesExact(w, c, [LevelKind]);
  }

  lemma RandomFlushAt(w: World, c: Conditions, d: string)
    requires w.settings.state == RandomColor
    ensures var w' := Flush(true, w, c).0; SameSetup(w, w') && PickedAt(w, w', d, PickOf(w, c, d))
  {
    RandomPassAt(w, c, d);
    LevelsElsewhere(RandomPass(w, c), c, d);
  }

  /** After a flush with random colours each colour light shows what was picked for it, unless its call failed. */
  lemma RandomZoneHolds(w: World, c: Conditions, d: string)
    requires w.settings.state == RandomColor
    requires d in w.devices && c.selects(d) && w.devices[d] == ColorLight && !c.fails(Key(d, HueKind))
    ensures Holds(Flush(true, w, c).0, Key(d, HueKind), Hue(c.picks(d)))
  {
    RandomFlushAt(w, c, d);
  }

  /** Any number of flushes in a zone that wants random colours. */
  function RandomFlushes(w: World, cs: seq<Conditions>): World {
    if cs == [] then w else Flush(true, RandomFlushes(w, cs[..|cs| - 1]), cs[|cs| - 1]).0
  }

  /** The colour picked by the last of these flushes that reached the light. */
  function LastPick(w: World, cs: seq<Conditions>, d: string): Option<string> {
    if cs == [] then None
    else if RandomReaches(w, cs[|cs| - 1], d) then Some(cs[|cs| - 1].picks(d))
    else LastPick(w, cs[..|cs| - 1], d)
  }

  lemma PickedNext(w: World, w1: World, w2: World, d: string, pick: Option<string>, c: Conditions)
    requires SameSetup(w, w1) && PickedAt(w, w1, d, pick) && PickedAt(w1, w2, d, PickOf(w1, c, d))
    ensures PickedAt(w, w2, d, if RandomReaches(w, c, d) then Some(c.picks(d)) else pick)
  {
    assert RandomReaches(w, c, d) == RandomReaches(w1, c, d);
  }

  lemma {:induction false} RandomFlushesAt(w: World, cs: seq<Conditions>, d: string)
    requires w.settings.state == RandomColor
    ensures var w' := RandomFlushes(w, cs); SameSetup(w, w') && PickedAt(w, w', d, LastPick(w, cs, d))
  {
    if cs != [] {
      var init, last := cs[..|cs| - 1], cs[|cs| - 1];
      RandomFlushesAt(w, init, d);
      var w1 := RandomFlushes(w, init);
      RandomFlushAt(w1, last, d);
      PickedNext(w, w1, Flush(true, w1, last).0, d, LastPick(w, init, d), last);
    }
  }

  /**
   Random colours do not pass through the cache. When a colour is asked for after any number of them,
   a light misses it iff the last random colour that reached it is another one and a record of the
   colour from before is still fresh.
   */
  lemma {:induction false} ColorAfterRandom(w: World, cs: seq<Conditions>, color: string, c: Conditions, d: string)
    requires Sound(w) && w.settings.state == RandomColor
    requires d in w.devices && w.devices[d] == ColorLight && c.selects(d)
    requires Flush(true, Recolored(RandomFlushes(w, cs), color), c).1
    ensures var k, pick := HueKey(d), LastPick(w, cs, d);
            var w' := Flush(true, Recolored(RandomFlushes(w, cs), color), c).0;
            Holds(w', k, Hue(color)) <==>
            !(pick.Some? && pick.value != color && Suppressed(w.applied, w.refreshAge, c.checked(k), k, color))
  {
    RandomFlushesAt(w, cs, d);
    var w1 := RandomFlushes(w, cs);
    MissedAt(w, w1, LastPick(w, cs, d), color, c, d);
    DriftCorrected(Recolored(w1, color), c, HueKey(d));
  }

  lemma MissedAt(w: World, w1: World, pick: Option<string>, color: string, c: Conditions, d: string)
    requires Sound(w) && SameSetup(w, w1) && PickedAt(w, w1, d, pick)
    ensures var k, x := HueKey(d), Recolored(w1, color);
            (Holds(x, k, Hue(color)) || !SuppressedAt(x, c, k)) <==>
            !(pick.Some? && pick.value != color && Suppressed(w.applied, w.refreshAge, c.checked(k), k, color))
  {
    var k, x := HueKey(d), Recolored(w1, color);
    assert SuppressedAt(x, c, k) <==> Suppressed(w.applied, w.refreshAge, c.checked(k), k, color);
    if SuppressedAt(x, c, k) {
      RenderInjective(HueKind, w.registers[k], Hue(color));
    }
  }

  /** The zone after it was asked for a colour. */
  function Recolored(w: World, color: string): World {
    w.(settings := w.settings.(state := Color, color := color))
  }

  lemma {:induction false} CalmPassesOk(w: World, c: Conditions, kinds: seq<Kind>)
    requires forall k :: !c.fails(k)
    ensures Passes(true, w, c, kinds).1
  {
    if kinds != [] {
      CalmPassesOk(w, c, kinds[..|kinds| - 1]);
    }
  }

  /** A lamp that shows white, with a fresh record of it, in a zone that now wants random colours. */
  const LAMP := World(
    ZoneRecord.FRESH_ZONE.(state := RandomColor), map["lamp" := ColorLight],
    map[Key("lamp", HueKind) := Record("#ffffff", 0)], DEFAULT_REFRESH_AGE,
    map[Key("lamp", HueKind) := Hue("#ffffff")])

  const CALM := Conditions(_ => true, _ => false, _ => 1, _ => 1, _ => "#006c7f")

  /** Asked for white again it stays on the random colour, and no error is returned. */
  lemma {:induction false} RandomColorSticks()
    ensures Sound(LAMP)
    ensures var (w, ok) := Flush(true, Recolored(RandomFlushes(LAMP, [CALM]), "#ffffff"), CALM);
            ok && !Holds(w, HueKey("lamp"), Hue("#ffffff"))
  {
    CalmColorOk(RandomFlushes(LAMP, [CALM]));
    LampIsSound();
    LampPick();
    ColorAfterRandom(LAMP, [CALM], "#ffffff", CALM, "lamp");
  }

  lemma LampPick()
    ensures LastPick(LAMP, [CALM], "lamp") == Some("#006c7f")
  {
  }

  lemma CalmColorOk(w: World)
    ensures Flush(true, Recolored(w, "#ffffff"), CALM).1
  {
    CalmPassesOk(Recolored(w, "#ffffff"), CALM, KindsOf(Color));
  }

  lemma LampIsSound()
    ensures Sound(LAMP) && LAMP.settings.state == RandomColor
    ensures Suppressed(LAMP.applied, LAMP.refreshAge, CALM.checked(HueKey("lamp")), HueKey("lamp"), "#ffffff")
  {
  }
}
