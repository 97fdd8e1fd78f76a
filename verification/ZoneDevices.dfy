/** The zone object that flushes: its handler loops visit the devices in no particular order. */
module ZoneDevices {
  import opened Canonical
  import ZoneRecord
  import opened ZoneFlush

  predicate Wanted(w: World, c: Conditions, k: Key) {
    k.device in w.devices && Covers(k.kind, w.devices[k.device]) && c.selects(k.device)
  }

  /** Is a call made for this key? */
  predicate Calls(cached: bool, w: World, c: Conditions, k: Key) {
    Wanted(w, c, k) && !(cached && SuppressedAt(w, c, k))
  }

  function Put(w: World, c: Conditions, k: Key): World {
    var desired := Desired(w.settings, k.kind);
    w.(registers := w.registers[k := desired], applied := w.applied[k := Record(Render(desired), c.marked(k))])
  }

  /** What the loop does at one device. */
  function Visit(w: World, c: Conditions, k: Key): World {
    if Calls(true, w, c, k) && !c.fails(k) then Put(w, c, k) else w
  }

  function VisitRandom(w: World, c: Conditions, k: Key): World {
    if Calls(false, w, c, k) && !c.fails(k) then w.(registers := w.registers[k := Hue(c.picks(k.device))]) else w
  }

  lemma AttemptedNext(cached: bool, w: World, c: Conditions, kind: Kind, names: set<string>, d: string)
    ensures Attempted(cached, w, c, kind, names + {d})
            == Attempted(cached, w, c, kind, names) + if Calls(cached, w, c, Key(d, kind)) then {Key(d, kind)} else {}
  {
  }

  lemma SentNext(cached: bool, w: World, c: Conditions, kind: Kind, names: set<string>, d: string)
    ensures var k := Key(d, kind);
            Sent(cached, w, c, kind, names + {d})
            == Sent(cached, w, c, kind, names) + if Calls(cached, w, c, k) && !c.fails(k) then {k} else {}
  {
    AttemptedNext(cached, w, c, kind, names, d);
  }

  lemma VisitedBefore(w: World, c: Conditions, kind: Kind, names: set<string>, d: string)
    requires d !in names
    ensures Calls(true, PassOver(true, w, c, kind, names), c, Key(d, kind)) == Calls(true, w, c, Key(d, kind))
  {
    assert Key(d, kind) !in Sent(true, w, c, kind, names);
  }

  lemma PutNext(w: World, c: Conditions, kind: Kind, names: set<string>, d: string)
    requires Sent(true, w, c, kind, names + {d}) == Sent(true, w, c, kind, names) + {Key(d, kind)}
    ensures PassOver(true, w, c, kind, names + {d}) == Put(PassOver(true, w, c, kind, names), c, Key(d, kind))
  {
    var sent, desired := Sent(true, w, c, kind, names), Desired(w.settings, kind);
    SetNext(w.registers, sent, Key(d, kind), desired);
    MarkNext(w.applied, sent, Key(d, kind), c, Render(desired));
  }

  lemma SetNext(m: map<Key, Reading>, ks: set<Key>, k: Key, r: Reading)
    ensures SetAll(m, ks + {k}, r) == SetAll(m, ks, r)[k := r]
  {
  }

  lemma MarkNext(m: map<Key, Record>, ks: set<Key>, k: Key, c: Conditions, value: string)
    ensures MarkAll(m, ks + {k}, c, value) == MarkAll(m, ks, c, value)[k := Record(value, c.marked(k))]
  {
  }

  lemma PassOverNext(w: World, c: Conditions, kind: Kind, names: set<string>, d: string)
    requires d !in names
    ensures PassOver(true, w, c, kind, names + {d}) == Visit(PassOver(true, w, c, kind, names), c, Key(d, kind))
  {
    SentNext(true, w, c, kind, names, d);
    VisitedBefore(w, c, kind, names, d);
    if Calls(true, w, c, Key(d, kind)) && !c.fails(Key(d, kind)) {
      PutNext(w, c, kind, names, d);
    } else {
      assert Sent(true, w, c, kind, names + {d}) == Sent(true, w, c, kind, names);
    }
  }

  lemma RandomOverNext(w: World, c: Conditions, names: set<string>, d: string)
    ensures RandomOver(w, c, names + {d}) == VisitRandom(RandomOver(w, c, names), c, HueKey(d))
  {
    SentNext(false, w, c, HueKind, names, d);
    if Calls(false, w, c, HueKey(d)) && !c.fails(HueKey(d)) {
      assert RandomOver(w, c, names + {d}).registers
          == RandomOver(w, c, names).registers[HueKey(d) := Hue(c.picks(d))];
    } else {
      assert Sent(false, w, c, HueKind, names + {d}) == Sent(false, w, c, HueKind, names);
    }
  }

  /** The whole of a handler loop so far: the world it made and whether a call has failed. */
  ghost predicate LoopState(cached: bool, w: World, c: Conditions, kind: Kind, done: set<string>, w': World, ok: bool) {
    && w' == (if cached then PassOver(true, w, c, kind, done) else RandomOver(w, c, done))
    && (ok <==> forall k <- Attempted(cached, w, c, kind, done) :: !c.fails(k))
  }

  lemma LoopStart(cached: bool, w: World, c: Conditions, kind: Kind)
    ensures LoopState(cached, w, c, kind, {}, w, true)
  {
    assert Sent(cached, w, c, kind, {}) == {} && Sent(false, w, c, HueKind, {}) == {};
  }

  lemma LoopNext(cached: bool, w: World, c: Conditions, kind: Kind, done: set<string>, w': World, ok: bool, d: string)
    requires LoopState(cached, w, c, kind, done, w', ok) && d !in done && (!cached ==> kind == HueKind)
    ensures var k := Key(d, kind);
            LoopState(cached, w, c, kind, done + {d}, if cached then Visit(w', c, k) else VisitRandom(w', c, k),
                      ok && !(Calls(cached, w', c, k) && c.fails(k)))
  {
    AttemptedNext(cached, w, c, kind, done, d);
    if cached {
      PassOverNext(w, c, kind, done, d);
      VisitedBefore(w, c, kind, done, d);
    } else {
      RandomOverNext(w, c, done, d);
    }
  }

  function VisitOne(cached: bool, w: World, c: Conditions, k: Key): World {
    if cached then Visit(w, c, k) else VisitRandom(w, c, k)
  }

  /** A handler loop over the devices in the order in which the map happens to yield them. */
  function VisitAll(cached: bool, w: World, c: Conditions, kind: Kind, order: seq<string>): (World, bool) {
    if order == [] then (w, true)
    else
      var (w1, ok) := VisitAll(cached, w, c, kind, order[..|order| - 1]);
      var k := Key(order[|order| - 1], kind);
      (VisitOne(cached, w1, c, k), ok && !(Calls(cached, w1, c, k) && c.fails(k)))
  }

  lemma VisitSnoc(cached: bool, w: World, c: Conditions, kind: Kind, order: seq<string>, d: string)
    ensures var (w1, ok) := VisitAll(cached, w, c, kind, order);
            var k := Key(d, kind);
            VisitAll(cached, w, c, kind, order + [d])
            == (VisitOne(cached, w1, c, k), ok && !(Calls(cached, w1, c, k) && c.fails(k)))
  {
    assert (order + [d])[..|order|] == order;
  }

  ghost predicate Once(order: seq<string>) {
    forall i, j :: 0 <= i < j < |order| ==> order[i] != order[j]
  }

  function Names(order: seq<string>): set<string> {
    set d | d in order
  }

  lemma {:induction false} VisitsAmount(cached: bool, w: World, c: Conditions, kind: Kind, order: seq<string>)
    requires Once(order) && (!cached ==> kind == HueKind)
    ensures var (w', ok) := VisitAll(cached, w, c, kind, order);
            LoopState(cached, w, c, kind, Names(order), w', ok)
  {
    if order == [] {
      LoopStart(cached, w, c, kind);
      assert Names(order) == {};
    } else {
      var init, d := order[..|order| - 1], order[|order| - 1];
      VisitsAmount(cached, w, c, kind, init);
      var (w1, ok) := VisitAll(cached, w, c, kind, init);
      LoopNext(cached, w, c, kind, Names(init), w1, ok, d);
      assert Names(order) == Names(init) + {d};
    }
  }

  /** Whatever order the devices come in, the loop does the same to them and reports the same. */
  lemma OrderIrrelevant(cached: bool, w: World, c: Conditions, kind: Kind, order: seq<string>)
    requires Once(order) && Names(order) == w.devices.Keys && (!cached ==> kind == HueKind)
    ensures VisitAll(cached, w, c, kind, order)
            == (if cached then Pass(true, w, c, kind) else RandomPass(w, c), PassOk(cached, w, c, kind))
  {
    VisitsAmount(cached, w, c, kind, order);
  }

  /** The keys of a map in some order. */
  method Enumerate(names: set<string>) returns (order: seq<string>)
    ensures Once(order) && Names(order) == names
  {
    order := [];
    var todo := names;
    while todo != {}
      invariant Once(order) && todo <= names && Names(order) == names - todo
      decreases |todo|
    {
      var d :| d in todo;
      assert d !in Names(order);
      assert Names(order + [d]) == Names(order) + {d};
      todo, order := todo - {d}, order + [d];
    }
  }

  class Zone {
    const name: string
    var settings: ZoneRecord.Zone
    var devices: map<string, DeviceType>
    var applied: map<Key, Record>
    var refreshAge: int
    /** The devices themselves. */
    var registers: map<Key, Reading>

    ghost function Model(): World
      reads this
    {
      World(settings, devices, applied, refreshAge, registers)
    }

    constructor (name: string)
      ensures Model() == NEW_WORLD && this.name == name
    {
      this.name := name;
      settings, devices, applied := ZoneRecord.FRESH_ZONE, map[], map[];
      refreshAge, registers := DEFAULT_REFRESH_AGE, map[];
    }

    method SetRefreshAge(age: int)
      modifies this
      ensures Model() == Step(true, old(Model()), ZoneFlush.SetRefreshAge(age))
    {
      refreshAge := age;
    }

    /** A missing handler, name or type is refused. */
    method SetDevice(device: string, deviceType: DeviceType, hasHandler: bool) returns (ok: bool)
      modifies this
      ensures ok <==> hasHandler && device != "" && deviceType != UnspecifiedDevice
      ensures Model() == if ok then Step(true, old(Model()), ZoneFlush.SetDevice(device, deviceType)) else old(Model())
    {
      if !hasHandler {
        return false;
      }
      if device == "" || deviceType == UnspecifiedDevice {
        return false;
      }
      devices := devices[device := deviceType];
      return true;
    }

    method MarkApplied(k: Key, value: string, now: int)
      modifies this`applied
      ensures applied == old(applied)[k := Record(value, now)]
    {
      applied := applied[k := Record(value, now)];
    }

    /** One device in a cached handler loop. */
    method HandleDevice(c: Conditions, k: Key) returns (failed: bool)
      requires k.device in devices
      modifies this
      ensures Model() == Visit(old(Model()), c, k)
      ensures failed <==> Calls(true, old(Model()), c, k) && c.fails(k)
    {
      var desired := Desired(settings, k.kind);
      if !Covers(k.kind, devices[k.device]) || !c.selects(k.device) {
        return false;
      }
      if Suppressed(applied, refreshAge, c.checked(k), k, Render(desired)) {
        return false;
      }
      if c.fails(k) {
        return true;
      }
      registers := registers[k := desired];
      MarkApplied(k, Render(desired), c.marked(k));
      return false;
    }

    /** One cached handler loop: power, level, colour temperature or colour. */
    method Handle(c: Conditions, kind: Kind) returns (ok: bool)
      modifies this
      ensures Model() == Pass(true, old(Model()), c, kind)
      ensures ok == PassOk(true, old(Model()), c, kind)
    {
      ghost var w := Model();
      var order := Enumerate(devices.Keys);
      ok := true;
      for i := 0 to |order|
        invariant devices == w.devices
        invariant (Model(), ok) == VisitAll(true, w, c, kind, order[..i])
      {
        VisitSnoc(true, w, c, kind, order[..i], order[i]);
        assert order[..i + 1] == order[..i] + [order[i]];
        assert order[i] in Names(order);
        var failed := HandleDevice(c, Key(order[i], kind));
        ok := ok && !failed;
      }
      assert order[..|order|] == order;
      OrderIrrelevant(true, w, c, kind, order);
    }

    method RandomizeDevice(c: Conditions, d: string) returns (failed: bool)
      requires d in devices
      modifies this
      ensures Model() == VisitRandom(old(Model()), c, HueKey(d))
      ensures failed <==> Calls(false, old(Model()), c, HueKey(d)) && c.fails(HueKey(d))
    {
      if !Covers(HueKind, devices[d]) || !c.selects(d) {
        return false;
      }
      if c.fails(HueKey(d)) {
        return true;
      }
      registers := registers[HueKey(d) := Hue(c.picks(d))];
      return false;
    }

    /** The loop that bypasses the cache. */
    method HandleRandomColor(c: Conditions) returns (ok: bool)
      modifies this
      ensures Model() == RandomPass(old(Model()), c)
      ensures ok == PassOk(false, old(Model()), c, HueKind)
    {
      ghost var w := Model();
      var order := Enumerate(devices.Keys);
      ok := true;
      for i := 0 to |order|
        invariant devices == w.devices
        invariant (Model(), ok) == VisitAll(false, w, c, HueKind, order[..i])
      {
        VisitSnoc(false, w, c, HueKind, order[..i], order[i]);
        assert order[..i + 1] == order[..i] + [order[i]];
        assert order[i] in Names(order);
        var failed := RandomizeDevice(c, order[i]);
        ok := ok && !failed;
      }
      assert order[..|order|] == order;
      OrderIrrelevant(false, w, c, HueKind, order);
    }

    /** Push the settings out to the devices; a zone without a name refuses. */
    method Flush(c: Conditions) returns (ok: bool)
      modifies this
      ensures name == "" ==> Model() == old(Model()) && !ok
      ensures name != "" ==> (Model(), ok) == ZoneFlush.Flush(true, old(Model()), c)
    {
      if name == "" {
        return false;
      }
      match settings.state {
        case StateUnspecified =>
          settings := settings.(state := Off);
          ok := true;
        case On | OffTimer => ok := FlushOn(c);
        case Off =>
          PassesOne(Model(), c, PowerKind);
          ok := Handle(c, PowerKind);
        case Color =>
          PassesTwo(Model(), c, HueKind, LevelKind);
          ok := Handle(c, HueKind);
          var levels := Handle(c, LevelKind);
          ok := ok && levels;
        case RandomColor =>
          PassesOne(RandomPass(Model(), c), c, LevelKind);
          ok := HandleRandomColor(c);
          var levels := Handle(c, LevelKind);
          ok := ok && levels;
      }
    }

    method FlushOn(c: Conditions) returns (ok: bool)
      modifies this
      ensures (Model(), ok) == Passes(true, old(Model()), c, [PowerKind, LevelKind, TemperatureKind])
    {
      PassesTwo(Model(), c, PowerKind, LevelKind);
      PassesSnoc(true, Model(), c, [PowerKind, LevelKind], TemperatureKind);
      assert [PowerKind, LevelKind] + [TemperatureKind] == [PowerKind, LevelKind, TemperatureKind];
      ok := Handle(c, PowerKind);
      var levels := Handle(c, LevelKind);
      var temperatures := Handle(c, TemperatureKind);
      ok := ok && levels && temperatures;
    }
  }

  lemma PassesOne(w: World, c: Conditions, kind: Kind)
    ensures Passes(true, w, c, [kind]) == (Pass(true, w, c, kind), PassOk(true, w, c, kind))
  {
    PassesSnoc(true, w, c, [], kind);
    assert [] + [kind] == [kind];
  }

  lemma PassesTwo(w: World, c: Conditions, a: Kind, b: Kind)
    ensures var w1 := Pass(true, w, c, a);
            Passes(true, w, c, [a, b]) == (Pass(true, w1, c, b), PassOk(true, w, c, a) && PassOk(true, w1, c, b))
  {
    PassesOne(w, c, a);
    PassesSnoc(true, w, c, [a], b);
    assert [a] + [b] == [a, b];
  }
}
