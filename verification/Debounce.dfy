/**
 The debounce state of the matcher and its lock-sized steps.

 Each function below is what one critical section of the matcher does. `Run`
 composes them in any order with any arguments, so it covers every interleaving of
 concurrent events, timer callbacks (also callbacks that run after Stop) and edits
 of the Binding list. `State.log` is the history of observations and dispatches in
 lock order; the theorems speak of the history alone.
 */
module Debounce {
  import opened Wrappers
  import opened Bindings

  datatype Key = Key(property: string, device: string)

  datatype Entry = Entry(
    value: string, firstSeen: int, fired: set<string>, device: Device, timers: map<string, nat>)

  /** A timer handed to the scheduler and neither delivered nor stopped. */
  datatype Callback = Callback(key: Key, binding: string, due: int)

  datatype Record =
    | Observed(key: Key, value: string, at: int)
    | Dispatched(key: Key, binding: string, minDuration: int, at: int)

  datatype State = State(
    entries: map<Key, Entry>, pending: map<nat, Callback>, nextTimer: nat, log: seq<Record>)

  /** `deferred` is false when no activate callback is wired. */
  datatype Config = Config(deferred: bool, epsilon: int)

  const INITIAL := State(map[], map[], 0, [])

  function KeyOf(ev: Event): Key {
    Key(ev.property, ev.device.name)
  }

  // ------------------------------------------------------------------- steps

  function Observe(s: State, ev: Event, now: int): State {
    var key := KeyOf(ev);
    var s' := s.(log := s.log + [Observed(key, ev.value, now)]);
    if key in s.entries && s.entries[key].value == ev.value then
      s'.(entries := s.entries[key := s.entries[key].(device := ev.device)])
    else
      s'.(entries := s.entries[key := Entry(ev.value, now, {}, ev.device, map[])],
          pending := if key in s.entries then s.pending - s.entries[key].timers.Values else s.pending)
  }

  predicate CanDispatch(s: State, w: Candidate, key: Key, now: int) {
    && key in s.entries
    && w.name !in s.entries[key].fired
    && now - s.entries[key].firstSeen >= w.minDuration
  }

  function Dispatch(s: State, w: Candidate, key: Key, now: int): State {
    if CanDispatch(s, w, key, now) then
      s.(entries := s.entries[key := s.entries[key].(fired := s.entries[key].fired + {w.name})],
         log := s.log + [Dispatched(key, w.name, w.minDuration, now)])
    else s
  }

  function Schedule(s: State, w: Candidate, key: Key, now: int, cfg: Config): State {
    if !cfg.deferred || key !in s.entries || w.name in s.entries[key].fired || w.name in s.entries[key].timers then
      s
    else
      var fireAt := s.entries[key].firstSeen + w.minDuration + cfg.epsilon;
      var due := if fireAt - now <= 0 then now + cfg.epsilon else fireAt;
      s.(entries := s.entries[key := s.entries[key].(timers := s.entries[key].timers[w.name := s.nextTimer])],
         pending := s.pending[s.nextTimer := Callback(key, w.name, due)],
         nextTimer := s.nextTimer + 1)
  }

  /** The first critical section of a timer callback: forget the timer. */
  function BeginFire(s: State, key: Key, binding: string): State {
    if key !in s.entries then s
    else s.(entries := s.entries[key := s.entries[key].(timers := s.entries[key].timers - {binding})])
  }

  /** The scheduler hands a timer over; its callback runs afterwards. */
  function Expire(s: State, id: nat): State {
    s.(pending := s.pending - {id})
  }

  datatype Action =
    | DoObserve(ev: Event, now: int)
    | DoDispatch(w: Candidate, key: Key, now: int)
    | DoSchedule(w: Candidate, key: Key, now: int)
    | DoBeginFire(key: Key, binding: string)
    | DoExpire(id: nat)

  function Step(s: State, a: Action, cfg: Config): State {
    match a
    case DoObserve(ev, now) => Observe(s, ev, now)
    case DoDispatch(w, key, now) => Dispatch(s, w, key, now)
    case DoSchedule(w, key, now) => Schedule(s, w, key, now, cfg)
    case DoBeginFire(key, binding) => BeginFire(s, key, binding)
    case DoExpire(id) => Expire(s, id)
  }

  function Run(s: State, actions: seq<Action>, cfg: Config): State {
    if actions == [] then s
    else Step(Run(s, actions[..|actions| - 1], cfg), actions[|actions| - 1], cfg)
  }

  // ---------------------------------------------------- claims on the history

  predicate ObservesKey(r: Record, key: Key) {
    r.Observed? && r.key == key
  }

  predicate Dispatches(r: Record, key: Key, binding: string) {
    r.Dispatched? && r.key == key && r.binding == binding
  }

  /** The value last observed for `key`. */
  function LastValue(log: seq<Record>, key: Key): Option<string> {
    if log == [] then None
    else if ObservesKey(log[|log| - 1], key) then Some(log[|log| - 1].value)
    else LastValue(log[..|log| - 1], key)
  }

  /** Record `o` opens a stable-value window: the value before it was another, or none. */
  predicate Opens(log: seq<Record>, o: nat, key: Key)
    requires o < |log|
  {
    ObservesKey(log[o], key) && LastValue(log[..o], key) != Some(log[o].value)
  }

  /** No observation of `key` in log[o..i) differs from the one at `o`. */
  predicate Stable(log: seq<Record>, o: nat, i: nat, key: Key)
    requires o < i <= |log| && ObservesKey(log[o], key)
  {
    forall k :: o < k < i && ObservesKey(log[k], key) ==> log[k].value == log[o].value
  }

  predicate NoDispatch(log: seq<Record>, o: nat, i: nat, key: Key, binding: string)
    requires o < i <= |log|
  {
    forall k :: o < k < i ==> !Dispatches(log[k], key, binding)
  }

  predicate JustifiedBy(log: seq<Record>, i: nat, o: nat)
    requires i < |log| && log[i].Dispatched?
  {
    && o < i
    && Opens(log, o, log[i].key)
    && Stable(log, o, i, log[i].key)
    && NoDispatch(log, o, i, log[i].key, log[i].binding)
    && log[i].at - log[o].at >= log[i].minDuration
  }

  /**
   Every dispatch lies in a stable-value window that opened at least its MinDuration
   earlier and in which that Binding had not been dispatched before.
   */
  ghost predicate Safe(log: seq<Record>) {
    forall i :: 0 <= i < |log| && log[i].Dispatched? ==> exists o: nat :: JustifiedBy(log, i, o)
  }

  // --------------------------------------------------------------- invariant

  /** The open window of `key`, as the entry remembers it, is the one in the history. */
  ghost predicate WindowAt(log: seq<Record>, o: nat, key: Key, e: Entry) {
    && o < |log|
    && Opens(log, o, key) && log[o].value == e.value && log[o].at == e.firstSeen
    && Stable(log, o, |log|, key)
    && forall b :: b in e.fired <==> !NoDispatch(log, o, |log|, key, b)
  }

  ghost predicate Explained(log: seq<Record>, key: Key, e: Entry) {
    && LastValue(log, key) == Some(e.value)
    && exists o: nat :: WindowAt(log, o, key, e)
  }

  ghost predicate Inv(s: State) {
    && Safe(s.log)
    && (forall key :: key in s.entries ==> Explained(s.log, key, s.entries[key]))
    && (forall key :: key !in s.entries ==> LastValue(s.log, key) == None)
  }

  lemma LastValueSnoc(log: seq<Record>, r: Record, key: Key)
    ensures LastValue(log + [r], key) == if ObservesKey(r, key) then Some(r.value) else LastValue(log, key)
  {
    assert (log + [r])[..|log|] == log;
  }

  lemma OpensSnoc(log: seq<Record>, r: Record, o: nat, key: Key)
    requires o < |log|
    ensures Opens(log + [r], o, key) == Opens(log, o, key)
  {
    assert (log + [r])[..o] == log[..o];
  }

  lemma SafeSnoc(log: seq<Record>, r: Record)
    requires Safe(log)
    requires r.Dispatched? ==> exists o: nat :: JustifiedBy(log + [r], |log|, o)
    ensures Safe(log + [r])
  {
    var log' := log + [r];
    forall i | 0 <= i < |log'| && log'[i].Dispatched? ensures exists o: nat :: JustifiedBy(log', i, o) {
      if i < |log| {
        var o: nat :| JustifiedBy(log, i, o);
        OpensSnoc(log, r, o, log[i].key);
        assert JustifiedBy(log', i, o);
      }
    }
  }

  /** Appending a record that does not concern the open window of `key` keeps it explained. */
  lemma ExplainedSnoc(log: seq<Record>, r: Record, key: Key, e: Entry)
    requires Explained(log, key, e)
    requires ObservesKey(r, key) ==> r.value == e.value
    ensures !(r.Dispatched? && r.key == key) ==> Explained(log + [r], key, e)
    ensures r.Dispatched? && r.key == key ==>
              Explained(log + [r], key, e.(fired := e.fired + {r.binding}))
  {
    var log' := log + [r];
    var o: nat :| WindowAt(log, o, key, e);
    LastValueSnoc(log, r, key);
    OpensSnoc(log, r, o, key);
    var e' := if r.Dispatched? && r.key == key then e.(fired := e.fired + {r.binding}) else e;
    forall b ensures b in e'.fired <==> !NoDispatch(log', o, |log'|, key, b) {
      if !NoDispatch(log, o, |log|, key, b) {
        var k :| o < k < |log| && Dispatches(log[k], key, b);
        assert Dispatches(log'[k], key, b);
      }
      assert log'[|log|] == r;
    }
    assert WindowAt(log', o, key, e');
  }

  lemma OpeningExplained(log: seq<Record>, key: Key, value: string, now: int, device: Device)
    requires LastValue(log, key) != Some(value)
    ensures Explained(log + [Observed(key, value, now)], key, Entry(value, now, {}, device, map[]))
  {
    var r := Observed(key, value, now);
    LastValueSnoc(log, r, key);
    assert (log + [r])[..|log|] == log;
    assert WindowAt(log + [r], |log|, key, Entry(value, now, {}, device, map[]));
  }

  lemma ObserveKeepsInv(s: State, ev: Event, now: int)
    requires Inv(s)
    ensures Inv(Observe(s, ev, now))
  {
    var s', k := Observe(s, ev, now), KeyOf(ev);
    var r := Observed(k, ev.value, now);
    SafeSnoc(s.log, r);
    forall key ensures key in s'.entries ==> Explained(s'.log, key, s'.entries[key])
      ensures key !in s'.entries ==> LastValue(s'.log, key) == None
    {
      LastValueSnoc(s.log, r, key);
      if key != k {
        if key in s.entries {
          ExplainedSnoc(s.log, r, key, s.entries[key]);
        }
      } else if key in s.entries && s.entries[key].value == ev.value {
        ExplainedSnoc(s.log, r, key, s.entries[key]);
        var o: nat :| WindowAt(s'.log, o, key, s.entries[key]);
        assert WindowAt(s'.log, o, key, s'.entries[key]);
      } else {
        OpeningExplained(s.log, key, ev.value, now, ev.device);
      }
    }
  }

  lemma DispatchJustified(s: State, w: Candidate, key: Key, now: int)
    requires Inv(s) && CanDispatch(s, w, key, now)
    ensures Safe(Dispatch(s, w, key, now).log)
  {
    var r := Dispatched(key, w.name, w.minDuration, now);
    var o: nat :| WindowAt(s.log, o, key, s.entries[key]);
    OpensSnoc(s.log, r, o, key);
    assert NoDispatch(s.log, o, |s.log|, key, w.name);
    assert JustifiedBy(s.log + [r], |s.log|, o);
    SafeSnoc(s.log, r);
  }

  lemma DispatchKeepsInv(s: State, w: Candidate, key: Key, now: int)
    requires Inv(s)
    ensures Inv(Dispatch(s, w, key, now))
  {
    if CanDispatch(s, w, key, now) {
      var s' := Dispatch(s, w, key, now);
      var r := Dispatched(key, w.name, w.minDuration, now);
      DispatchJustified(s, w, key, now);
      forall k ensures k in s'.entries ==> Explained(s'.log, k, s'.entries[k])
        ensures k !in s'.entries ==> LastValue(s'.log, k) == None
      {
        LastValueSnoc(s.log, r, k);
        if k in s.entries {
          ExplainedSnoc(s.log, r, k, s.entries[k]);
        }
      }
    }
  }

  /** Steps that leave the history and every window alone. */
  lemma SameWindowsKeepInv(s: State, s': State)
    requires Inv(s) && s'.log == s.log && s'.entries.Keys == s.entries.Keys
    requires forall k :: k in s.entries ==> SameWindow(s.entries[k], s'.entries[k])
    ensures Inv(s')
  {
    forall k | k in s'.entries ensures Explained(s'.log, k, s'.entries[k]) {
      var o: nat :| WindowAt(s.log, o, k, s.entries[k]);
      assert WindowAt(s'.log, o, k, s'.entries[k]);
    }
  }

  predicate SameWindow(e: Entry, e': Entry) {
    e'.value == e.value && e'.firstSeen == e.firstSeen && e'.fired == e.fired
  }

  lemma StepKeepsInv(s: State, a: Action, cfg: Config)
    requires Inv(s)
    ensures Inv(Step(s, a, cfg))
  {
    match a
    case DoObserve(ev, now) => ObserveKeepsInv(s, ev, now);
    case DoDispatch(w, key, now) => DispatchKeepsInv(s, w, key, now);
    case DoSchedule(_, _, _) => SameWindowsKeepInv(s, Step(s, a, cfg));
    case DoBeginFire(_, _) => SameWindowsKeepInv(s, Step(s, a, cfg));
    case DoExpire(_) => SameWindowsKeepInv(s, Step(s, a, cfg));
  }

  lemma {:induction false} RunKeepsInv(actions: seq<Action>, cfg: Config)
    ensures Inv(Run(INITIAL, actions, cfg))
  {
    if actions != [] {
      RunKeepsInv(actions[..|actions| - 1], cfg);
      StepKeepsInv(Run(INITIAL, actions[..|actions| - 1], cfg), actions[|actions| - 1], cfg);
    }
  }

  // ---------------------------------------------------------------- theorems

  /** Whatever the interleaving, between two dispatches of one Binding a new window opened. */
  lemma AtMostOncePerWindow(actions: seq<Action>, cfg: Config, key: Key, binding: string, i: nat, j: nat)
    requires var log := Run(INITIAL, actions, cfg).log;
             i < j < |log| && Dispatches(log[i], key, binding) && Dispatches(log[j], key, binding)
    ensures var log := Run(INITIAL, actions, cfg).log;
            exists o: nat :: i < o < j && Opens(log, o, key)
  {
    RunKeepsInv(actions, cfg);
    var log := Run(INITIAL, actions, cfg).log;
    var o: nat :| JustifiedBy(log, j, o);
    assert i != o;
  }

  lemma {:induction false} StableLastValue(log: seq<Record>, o: nat, i: nat, key: Key)
    requires o < i <= |log| && ObservesKey(log[o], key) && Stable(log, o, i, key)
    ensures LastValue(log[..i], key) == Some(log[o].value)
  {
    assert log[..i][..i - 1] == log[..i - 1];
    if i - 1 > o && !ObservesKey(log[i - 1], key) {
      StableLastValue(log, o, i - 1, key);
    }
  }

  /** By its clock reading, every observation of `key` later than `since` was of `value`. */
  predicate DwellsSince(log: seq<Record>, key: Key, value: string, since: int) {
    forall k :: 0 <= k < |log| && ObservesKey(log[k], key) && log[k].at > since ==> log[k].value == value
  }

  /** No earlier observation of another value carries a later clock reading than the opening at `o`. */
  predicate NotOvertaken(log: seq<Record>, o: nat, key: Key)
    requires o < |log| && ObservesKey(log[o], key)
  {
    forall k :: 0 <= k < o && ObservesKey(log[k], key) && log[k].at > log[o].at ==> log[k].value == log[o].value
  }

  /** The same, as the entry remembers its opening. */
  predicate OpeningNotOvertaken(s: State, key: Key)
    requires key in s.entries
  {
    DwellsSince(s.log, key, s.entries[key].value, s.entries[key].firstSeen)
  }

  /** The condition concerns the opening alone: what the window has seen since cannot break it. */
  lemma OvertakenAtOpening(s: State, key: Key, o: nat)
    requires key in s.entries && WindowAt(s.log, o, key, s.entries[key])
    ensures OpeningNotOvertaken(s, key) <==> NotOvertaken(s.log, o, key)
  {
  }

  lemma LaterDispatchesDwell(s: State, w: Candidate, key: Key)
    requires key in s.entries && w.name !in s.entries[key].fired
    ensures DispatchesDwell(s, w, key) <==> OpeningNotOvertaken(s, key)
  {
    assert CanDispatch(s, w, key, s.entries[key].firstSeen + w.minDuration);
  }

  /** Every dispatch the entry allows, whenever it comes, has by the clock seen no other value for MinDuration. */
  ghost predicate DispatchesDwell(s: State, w: Candidate, key: Key)
    requires key in s.entries
  {
    forall now :: CanDispatch(s, w, key, now) ==>
                    DwellsSince(s.log, key, s.entries[key].value, now - w.minDuration)
  }

  /**
   In every reachable state, the dispatches that an open window still allows a Binding satisfy the
   dwell claim in clock terms iff the reading that opened the window was not overtaken.
   */
  lemma DwellExact(actions: seq<Action>, cfg: Config, key: Key, w: Candidate)
    requires var s := Run(INITIAL, actions, cfg); key in s.entries && w.name !in s.entries[key].fired
    ensures var s := Run(INITIAL, actions, cfg);
            exists o: nat :: WindowAt(s.log, o, key, s.entries[key])
                             && (DispatchesDwell(s, w, key) <==> NotOvertaken(s.log, o, key))
  {
    RunKeepsInv(actions, cfg);
    var s := Run(INITIAL, actions, cfg);
    var o: nat :| WindowAt(s.log, o, key, s.entries[key]);
    OvertakenAtOpening(s, key, o);
    LaterDispatchesDwell(s, w, key);
  }

  /** The window that opened at `o` justifies the dispatch at `i`, in clock terms too if it was not overtaken. */
  predicate DwellsFrom(log: seq<Record>, i: nat, o: nat)
    requires i < |log| && log[i].Dispatched?
  {
    var key := log[i].key;
    && o < i && Opens(log, o, key) && Stable(log, o, i, key)
    && log[o].at <= log[i].at - log[i].minDuration
    && LastValue(log[..i], key) == Some(log[o].value)
    && (NotOvertaken(log, o, key) ==> DwellsSince(log[..i], key, log[o].value, log[i].at - log[i].minDuration))
  }

  lemma JustifiedDwells(log: seq<Record>, i: nat, o: nat)
    requires i < |log| && log[i].Dispatched? && JustifiedBy(log, i, o)
    ensures DwellsFrom(log, i, o)
  {
    StableLastValue(log, o, i, log[i].key);
  }

  /**
   Whatever the interleaving, at a dispatch the current value had been observed at least
   MinDuration ago and no other value since; and, when the reading that opened the window was
   not overtaken, every observation of the last MinDuration by the clock agreed with it.
   */
  lemma DwellBeforeDispatch(actions: seq<Action>, cfg: Config, i: nat)
    requires var log := Run(INITIAL, actions, cfg).log; i < |log| && log[i].Dispatched?
    ensures exists o: nat :: DwellsFrom(Run(INITIAL, actions, cfg).log, i, o)
  {
    RunKeepsInv(actions, cfg);
    var log := Run(INITIAL, actions, cfg).log;
    var o: nat :| JustifiedBy(log, i, o);
    JustifiedDwells(log, i, o);
  }

  /**
   The clock is read before the lock is taken. A reading that overtakes another goroutine's
   observation makes the entry look older than it is, and the dwell claim in clock terms fails.
   A run in which it does:
   */
  lemma OvertakenClockReadingBreaksDwell(d: Device, w: Candidate, cfg: Config)
    requires w.minDuration == 10
    ensures var key := Key("p", d.name);
            var log := Run(INITIAL, [DoObserve(Event("p", "off", d), 10), DoObserve(Event("p", "on", d), 0),
                                     DoDispatch(w, key, 11)], cfg).log;
            && |log| == 3 && Dispatches(log[2], key, w.name)
            && ObservesKey(log[0], key) && log[0].at > log[2].at - w.minDuration
            && LastValue(log[..2], key) != Some(log[0].value)
  {
    var key := Key("p", d.name);
    var a, b, c := DoObserve(Event("p", "off", d), 10), DoObserve(Event("p", "on", d), 0), DoDispatch(w, key, 11);
    assert [a, b, c][..2] == [a, b] && [a, b][..1] == [a] && [a][..0] == [];
    var s1 := Step(INITIAL, a, cfg);
    assert Run(INITIAL, [a], cfg) == s1;
    var s2 := Step(s1, b, cfg);
    assert Run(INITIAL, [a, b], cfg) == s2;
    assert s2.entries[key].firstSeen == 0;
    var s3 := Step(s2, c, cfg);
    assert Run(INITIAL, [a, b, c], cfg) == s3;
    assert s3.log == [Observed(key, "off", 10), Observed(key, "on", 0), Dispatched(key, w.name, 10, 11)];
    assert LastValue(s3.log[..2], key) == Some("on");
  }
}
