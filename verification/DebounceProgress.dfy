/**
 Whole matcher calls: serving an event and running a timer callback, each taken as one
 step, together with the scheduler that owes a callback for every armed timer.

 The main result is `NoLostFire`: as long as a window survives, a winning Binding has
 either been dispatched exactly once in it, or the scheduler still owes its callback.
 */
module DebounceProgress {
  import opened Wrappers
  import opened Bindings
  import opened Debounce

  // -------------------------------------------------------------- whole calls

  /** The clock readings of one event: when its value is observed and, per winner, at dispatch and at arming. */
  datatype Readings = Readings(observed: int, dispatch: string -> int, schedule: string -> int)

  /** A winner's timer is armed at most epsilon after its dispatch was tried. */
  ghost predicate Prompt(r: Readings, cfg: Config) {
    forall name :: r.schedule(name) <= r.dispatch(name) + cfg.epsilon
  }

  /** One winner of an event: dispatch now, or arm its timer. The result is what the caller activates. */
  function ServeOne(s: State, w: Candidate, key: Key, r: Readings, cfg: Config): (State, seq<string>) {
    var now := r.dispatch(w.name);
    if w.minDuration <= 0 then (s, [w.condition])
    else if CanDispatch(s, w, key, now) && w.condition != "" then (Dispatch(s, w, key, now), [w.condition])
    else (Schedule(Dispatch(s, w, key, now), w, key, r.schedule(w.name), cfg), [])
  }

  function Serve(s: State, ws: seq<Candidate>, key: Key, r: Readings, cfg: Config): (State, seq<string>) {
    if ws == [] then (s, [])
    else
      var (s1, out) := Serve(s, ws[..|ws| - 1], key, r, cfg);
      var (s2, more) := ServeOne(s1, ws[|ws| - 1], key, r, cfg);
      (s2, out + more)
  }

  /** An inbound event. A failed List returns before anything is observed. */
  function Arrive(s: State, list: Option<seq<Binding>>, ev: Event, r: Readings, cfg: Config): (State, seq<string>) {
    match list
    case None => (s, [])
    case Some(bs) => Serve(Observe(s, ev, r.observed), Winners(bs, ev), KeyOf(ev), r, cfg)
  }

  /** The first Binding of that name, if it still matches. */
  function FindNamed(bs: seq<Binding>, name: string, ev: Event): Option<Candidate> {
    if bs == [] then None
    else if bs[0].name == name then if Matches(bs[0], ev) then Some(CandidateOf(bs[0])) else None
    else FindNamed(bs[1..], name, ev)
  }

  /** A timer callback. The result is what it activates. */
  function Fire(s: State, list: Option<seq<Binding>>, key: Key, binding: string, now: int): (State, seq<string>) {
    if key !in s.entries then (s, [])
    else
      var s1 := BeginFire(s, key, binding);
      var e := s.entries[key];
      var ev := Event(key.property, e.value, e.device);
      if binding in e.fired || list.None? then (s1, [])
      else
        match FindNamed(list.value, binding, ev)
        case None => (s1, [])
        case Some(w) =>
          if w.minDuration <= 0 then (s1, [])
          else (Dispatch(s1, w, KeyOf(ev), now),
                if CanDispatch(s1, w, KeyOf(ev), now) && w.condition != "" then [w.condition] else [])
  }

  // --------------------------------------------------------- what is activated

  /** A winner activates its Condition at once without MinDuration, else when this call has marked it fired. */
  function Activates(w: Candidate, before: set<string>, after: set<string>): seq<string> {
    if w.minDuration <= 0 || (w.name in after - before && w.condition != "") then [w.condition] else []
  }

  function Activations(ws: seq<Candidate>, before: set<string>, after: set<string>): seq<string> {
    if ws == [] then []
    else Activations(ws[..|ws| - 1], before, after) + Activates(ws[|ws| - 1], before, after)
  }

  lemma {:induction false} ActivationsUnmoved(ws: seq<Candidate>, before: set<string>, after: set<string>, name: string)
    requires forall i :: 0 <= i < |ws| ==> ws[i].name != name
    ensures Activations(ws, before, after) == Activations(ws, before, after + {name})
  {
    if ws != [] {
      ActivationsUnmoved(ws[..|ws| - 1], before, after, name);
    }
  }

  function NamesOf(ws: seq<Candidate>): set<string> {
    set i | 0 <= i < |ws| :: ws[i].name
  }

  function FiredOn(s: State, key: Key): set<string>
    requires key in s.entries
  {
    s.entries[key].fired
  }

  lemma ServeOneActivates(s: State, w: Candidate, key: Key, r: Readings, cfg: Config)
    requires key in s.entries
    ensures var (s', out) := ServeOne(s, w, key, r, cfg);
            && key in s'.entries
            && (FiredOn(s', key) == FiredOn(s, key) || FiredOn(s', key) == FiredOn(s, key) + {w.name})
            && out == Activates(w, FiredOn(s, key), FiredOn(s', key))
  {
  }

  lemma {:induction false} ServeActivates(s: State, ws: seq<Candidate>, key: Key, r: Readings, cfg: Config)
    requires key in s.entries && DistinctNames(ws)
    ensures var (s', out) := Serve(s, ws, key, r, cfg);
            && key in s'.entries && FiredOn(s, key) <= FiredOn(s', key)
            && FiredOn(s', key) - FiredOn(s, key) <= NamesOf(ws)
            && out == Activations(ws, FiredOn(s, key), FiredOn(s', key))
  {
    if ws != [] {
      var init, w := ws[..|ws| - 1], ws[|ws| - 1];
      ServeActivates(s, init, key, r, cfg);
      var s1 := Serve(s, init, key, r, cfg).0;
      ServeOneActivates(s1, w, key, r, cfg);
      ActivationsUnmoved(init, FiredOn(s, key), FiredOn(s1, key), w.name);
      var s2 := ServeOne(s1, w, key, r, cfg).0;
      assert w.name !in FiredOn(s1, key) - FiredOn(s, key);
      assert Activates(w, FiredOn(s1, key), FiredOn(s2, key)) == Activates(w, FiredOn(s, key), FiredOn(s2, key));
      assert NamesOf(ws) == NamesOf(init) + {w.name};
    }
  }

  /**
   What an event activates: in the winners' order, the Conditions of those without MinDuration and of those
   that this very event has marked fired in the window; nothing else, and nothing when listing failed.
   */
  lemma ArriveActivates(s: State, list: Option<seq<Binding>>, ev: Event, r: Readings, cfg: Config)
    requires list.Some? ==> UniqueNames(list.value)
    ensures var (s', out) := Arrive(s, list, ev, r, cfg);
            if list.None? then s' == s && out == []
            else KeyOf(ev) in s'.entries
                 && var before := FiredOn(Observe(s, ev, r.observed), KeyOf(ev));
                    out == Activations(Winners(list.value, ev), before, FiredOn(s', KeyOf(ev)))
  {
    if list.Some? {
      WinnersDistinctNames(list.value, ev);
      ServeActivates(Observe(s, ev, r.observed), Winners(list.value, ev), KeyOf(ev), r, cfg);
    }
  }

  lemma WinnersDistinctNames(bs: seq<Binding>, ev: Event)
    requires UniqueNames(bs)
    ensures DistinctNames(Winners(bs, ev))
  {
    WinnersExact(bs, ev);
    var ws := Winners(bs, ev);
    forall i, j | 0 <= i < j < |ws| ensures ws[i].name != ws[j].name {
      NameOrder(ws[i].name, ws[j].name);
    }
  }

  /** A lone Binding without MinDuration activates its Condition on the events it matches and on no others. */
  lemma LoneBindingActivates(s: State, b: Binding, ev: Event, r: Readings, cfg: Config)
    requires b.trigger.minDuration <= 0
    ensures Arrive(s, Some([b]), ev, r, cfg).1 == if Matches(b, ev) then [b.condition] else []
  {
    LoneWinner(b, ev);
    var s1 := Observe(s, ev, r.observed);
    var ws := Winners([b], ev);
    if Matches(b, ev) {
      assert ws[..0] == [];
      assert Serve(s1, [], KeyOf(ev), r, cfg) == (s1, []);
      assert [] + [b.condition] == [b.condition];
    }
  }

  lemma LoneWinner(b: Binding, ev: Event)
    ensures Winners([b], ev) == if Matches(b, ev) then [CandidateOf(b)] else []
  {
    assert [b][..0] == [];
    var cs := Candidates([b], ev);
    assert Candidates([], ev) == [];
    assert cs == Contribution(b, ev);
    if Matches(b, ev) {
      assert cs[1..] == [];
      assert Sort(cs) == Insert(cs[0], []) == [CandidateOf(b)];
      assert [CandidateOf(b)][1..] == [];
      assert TopTier([CandidateOf(b)], CandidateOf(b).score) == [CandidateOf(b)] + [] == [CandidateOf(b)];
    }
  }

  /** So a Binding for some values of a property, on any device, activates on exactly those. */
  lemma ValuesBindingActivates(
    s: State, name: string, property: string, values: seq<string>, condition: string, ev: Event, r: Readings,
    cfg: Config)
    requires property != "" && values != []
    ensures var b := Binding(name, Trigger(property, "", values, ANY_DEVICE, 0), condition);
            Arrive(s, Some([b]), ev, r, cfg).1
            == if ev.property == property && ev.value in values then [condition] else []
  {
    LoneBindingActivates(s, Binding(name, Trigger(property, "", values, ANY_DEVICE, 0), condition), ev, r, cfg);
  }

  /** And one for a property of one device activates on every value from that device. */
  lemma DeviceBindingActivates(
    s: State, name: string, property: string, device: string, condition: string, ev: Event, r: Readings, cfg: Config)
    requires property != "" && device != ""
    ensures var b := Binding(name, Trigger(property, "", [], ANY_DEVICE.(device := device), 0), condition);
            Arrive(s, Some([b]), ev, r, cfg).1
            == if ev.property == property && ev.device.name == device then [condition] else []
  {
    var b := Binding(name, Trigger(property, "", [], ANY_DEVICE.(device := device), 0), condition);
    LoneBindingActivates(s, b, ev, r, cfg);
  }

  /** The scan finds a Binding iff there is one of that name that still matches. */
  lemma {:induction false} FindNamedExact(bs: seq<Binding>, name: string, ev: Event, w: Candidate)
    requires UniqueNames(bs)
    ensures FindNamed(bs, name, ev) == Some(w) <==>
            exists b :: b in bs && b.name == name && Matches(b, ev) && w == CandidateOf(b)
  {
    if bs != [] {
      FindNamedExact(bs[1..], name, ev, w);
      assert bs == [bs[0]] + bs[1..];
      if bs[0].name == name {
        forall b | b in bs && b.name == name ensures b == bs[0] {
          SameName(bs, b, bs[0]);
        }
      }
    }
  }

  /**
   A callback activates something only for a Binding of that name which is still listed, still matches the
   current value of the device and has not fired in the window; and then it is that Binding's Condition.
   */
  lemma {:induction false} FireActivatesExact(
    s: State, bs: seq<Binding>, key: Key, binding: string, now: int, c: string)
    requires UniqueNames(bs) && key in s.entries && s.entries[key].device.name == key.device
    ensures Fire(s, Some(bs), key, binding, now).1 == [c] <==>
            exists b :: && b in bs && b.name == binding && b.condition == c && c != ""
                        && Matches(b, Event(key.property, s.entries[key].value, s.entries[key].device))
                        && binding !in s.entries[key].fired
                        && 0 < b.trigger.minDuration <= now - s.entries[key].firstSeen
  {
    var ev := Event(key.property, s.entries[key].value, s.entries[key].device);
    var found := FindNamed(bs, binding, ev);
    if found.Some? {
      FindNamedExact(bs, binding, ev, found.value);
      forall b | b in bs && b.name == binding ensures CandidateOf(b) == found.value {
        var b' :| b' in bs && b'.name == binding && found.value == CandidateOf(b');
        SameName(bs, b, b');
      }
    } else {
      forall b | b in bs && b.name == binding ensures !Matches(b, ev) {
        FindNamedExact(bs, binding, ev, CandidateOf(b));
      }
    }
  }

  /** A new value takes every timer of its key from the scheduler, and no timer of another key. */
  lemma ObserveStopsTimers(s: State, ev: Event, now: int)
    requires KeyOf(ev) in s.entries && Scheduled(s)
    ensures var stopped := s.entries[KeyOf(ev)].timers.Values;
            var s' := Observe(s, ev, now);
            if s.entries[KeyOf(ev)].value == ev.value then s'.pending == s.pending
            else s'.pending.Keys == s.pending.Keys - stopped && s'.entries[KeyOf(ev)].timers == map[]
  {
  }

  /**
   The one timer a Binding gets in a window: it is due epsilon past the dwell while
   that is ahead of the clock and epsilon from now afterwards, so it is never due
   before the dwell is over, never in the past, and no earlier timer changes.
   */
  lemma ScheduleDue(s: State, w: Candidate, key: Key, now: int, cfg: Config)
    requires Scheduled(s) && key in s.entries && cfg.deferred && cfg.epsilon > 0
    requires w.name !in s.entries[key].fired
    ensures var s' := Schedule(s, w, key, now, cfg);
            && w.name in s'.entries[key].timers && TimerKnown(s', key, w.name)
            && (forall id :: id in s.pending ==> id in s'.pending && s'.pending[id] == s.pending[id])
            && (w.name in s.entries[key].timers ==> s' == s)
            && (w.name !in s.entries[key].timers ==>
                  var id := s'.entries[key].timers[w.name];
                  var over := s.entries[key].firstSeen + w.minDuration;
                  && s'.pending.Keys == s.pending.Keys + {id} && id !in s.pending
                  && s'.pending[id].due > now && s'.pending[id].due >= over + cfg.epsilon
                  && (now < over + cfg.epsilon ==> s'.pending[id].due == over + cfg.epsilon)
                  && (now >= over + cfg.epsilon ==> s'.pending[id].due == now + cfg.epsilon))
  {
    assert w.name in s.entries[key].timers ==> TimerKnown(s, key, w.name);
  }

  // ------------------------------------------------------- scheduler invariant

  /** A recorded timer is pending with the scheduler, on behalf of that key and Binding. */
  predicate TimerKnown(s: State, key: Key, b: string)
    requires key in s.entries && b in s.entries[key].timers
  {
    var id := s.entries[key].timers[b];
    id in s.pending && s.pending[id].key == key && s.pending[id].binding == b
  }

  ghost predicate Scheduled(s: State) {
    && (forall id :: id in s.pending ==> id < s.nextTimer)
    && (forall key, b :: key in s.entries && b in s.entries[key].timers ==> TimerKnown(s, key, b))
    && (forall key :: key in s.entries ==> s.entries[key].device.name == key.device)
  }

  lemma ObserveScheduled(s: State, ev: Event, now: int)
    requires Scheduled(s)
    ensures Scheduled(Observe(s, ev, now))
    ensures forall id :: id in s.pending && s.pending[id].key != KeyOf(ev) ==> id in Observe(s, ev, now).pending
  {
    var s', k := Observe(s, ev, now), KeyOf(ev);
    if k in s.entries {
      forall b | b in s.entries[k].timers ensures s.pending[s.entries[k].timers[b]].key == k {
        assert TimerKnown(s, k, b);
      }
    }
    forall key, b | key in s'.entries && b in s'.entries[key].timers ensures TimerKnown(s', key, b) {
      assert TimerKnown(s, key, b);
    }
  }

  /** What serving winners of `key` never does: forget a pending timer, observe, touch another key or its window. */
  predicate Quiet(s: State, s': State, key: Key) {
    && s'.entries.Keys == s.entries.Keys
    && (forall id :: id in s.pending ==> id in s'.pending && s'.pending[id] == s.pending[id])
    && s.log <= s'.log
    && (forall i :: |s.log| <= i < |s'.log| ==> s'.log[i].Dispatched?)
    && (forall k :: k in s.entries && k != key ==> s'.entries[k] == s.entries[k])
    && (key in s.entries ==>
          && s'.entries[key].value == s.entries[key].value
          && s'.entries[key].firstSeen == s.entries[key].firstSeen
          && s'.entries[key].device == s.entries[key].device
          && s.entries[key].fired <= s'.entries[key].fired)
  }

  lemma QuietTransitive(s: State, t: State, u: State, key: Key)
    requires Quiet(s, t, key) && Quiet(t, u, key)
    ensures Quiet(s, u, key)
  {
  }

  lemma DispatchQuiet(s: State, w: Candidate, key: Key, now: int)
    ensures Quiet(s, Dispatch(s, w, key, now), key)
  {
  }

  lemma DispatchScheduled(s: State, w: Candidate, key: Key, now: int)
    requires Scheduled(s)
    ensures Scheduled(Dispatch(s, w, key, now))
  {
    var s' := Dispatch(s, w, key, now);
    forall k, b | k in s'.entries && b in s'.entries[k].timers ensures TimerKnown(s', k, b) {
      assert TimerKnown(s, k, b);
    }
  }

  lemma ScheduleQuiet(s: State, w: Candidate, key: Key, now: int, cfg: Config)
    requires s.nextTimer !in s.pending
    ensures Quiet(s, Schedule(s, w, key, now, cfg), key)
  {
  }

  lemma ScheduleScheduled(s: State, w: Candidate, key: Key, now: int, cfg: Config)
    requires Scheduled(s)
    ensures Scheduled(Schedule(s, w, key, now, cfg))
  {
    var s' := Schedule(s, w, key, now, cfg);
    forall k, b | k in s'.entries && b in s'.entries[k].timers ensures TimerKnown(s', k, b) {
      if k != key || b in s.entries[k].timers {
        assert TimerKnown(s, k, b);
      }
    }
  }

  lemma ServeOneScheduled(s: State, w: Candidate, key: Key, r: Readings, cfg: Config)
    requires Scheduled(s)
    ensures Scheduled(ServeOne(s, w, key, r, cfg).0)
    ensures Quiet(s, ServeOne(s, w, key, r, cfg).0, key)
  {
    DispatchScheduled(s, w, key, r.dispatch(w.name));
    ScheduleScheduled(Dispatch(s, w, key, r.dispatch(w.name)), w, key, r.schedule(w.name), cfg);
    ServeOneQuiet(s, w, key, r, cfg);
  }

  lemma {:induction false} ServeScheduled(s: State, ws: seq<Candidate>, key: Key, r: Readings, cfg: Config)
    requires Scheduled(s)
    ensures var s' := Serve(s, ws, key, r, cfg).0; Scheduled(s') && Quiet(s, s', key)
  {
    if ws != [] {
      var s1 := Serve(s, ws[..|ws| - 1], key, r, cfg).0;
      ServeScheduled(s, ws[..|ws| - 1], key, r, cfg);
      ServeOneScheduled(s1, ws[|ws| - 1], key, r, cfg);
      QuietTransitive(s, s1, Serve(s, ws, key, r, cfg).0, key);
    }
  }

  lemma {:induction false} ServeKeepsInv(s: State, ws: seq<Candidate>, key: Key, r: Readings, cfg: Config)
    requires Inv(s)
    ensures Inv(Serve(s, ws, key, r, cfg).0)
  {
    if ws != [] {
      var s1, w := Serve(s, ws[..|ws| - 1], key, r, cfg).0, ws[|ws| - 1];
      ServeKeepsInv(s, ws[..|ws| - 1], key, r, cfg);
      StepKeepsInv(s1, DoDispatch(w, key, r.dispatch(w.name)), cfg);
      StepKeepsInv(Dispatch(s1, w, key, r.dispatch(w.name)), DoSchedule(w, key, r.schedule(w.name)), cfg);
    }
  }

  lemma ArriveKeeps(s: State, list: Option<seq<Binding>>, ev: Event, r: Readings, cfg: Config)
    requires Scheduled(s) && Inv(s)
    ensures Scheduled(Arrive(s, list, ev, r, cfg).0)
    ensures Inv(Arrive(s, list, ev, r, cfg).0)
  {
    if list.Some? {
      ObserveKeepsInv(s, ev, r.observed);
      ObserveScheduled(s, ev, r.observed);
      ServeScheduled(Observe(s, ev, r.observed), Winners(list.value, ev), KeyOf(ev), r, cfg);
      ServeKeepsInv(Observe(s, ev, r.observed), Winners(list.value, ev), KeyOf(ev), r, cfg);
    }
  }

  lemma FireKeepsInv(s: State, list: Option<seq<Binding>>, key: Key, binding: string, now: int, cfg: Config)
    requires Inv(s)
    ensures Inv(Fire(s, list, key, binding, now).0)
  {
    if key in s.entries {
      var s1 := BeginFire(s, key, binding);
      StepKeepsInv(s, DoBeginFire(key, binding), cfg);
      var ev := Event(key.property, s.entries[key].value, s.entries[key].device);
      if list.Some? {
        var found := FindNamed(list.value, binding, ev);
        if found.Some? {
          StepKeepsInv(s1, DoDispatch(found.value, KeyOf(ev), now), cfg);
        }
      }
    }
  }

  /** All of `Scheduled` except that timer `id` may be recorded for `key` and `binding` though it is gone. */
  ghost predicate ScheduledBut(s: State, id: nat, key: Key, binding: string) {
    && (forall i :: i in s.pending ==> i < s.nextTimer)
    && (forall k, b :: k in s.entries && b in s.entries[k].timers ==>
          TimerKnown(s, k, b) || (k == key && b == binding && s.entries[k].timers[b] == id))
    && (forall k :: k in s.entries ==> s.entries[k].device.name == k.device)
  }

  lemma BeginFireScheduled(s: State, id: nat, key: Key, binding: string)
    requires ScheduledBut(s, id, key, binding)
    ensures Scheduled(BeginFire(s, key, binding))
  {
    var s' := BeginFire(s, key, binding);
    forall k, b | k in s'.entries && b in s'.entries[k].timers ensures TimerKnown(s', k, b) {
      assert TimerKnown(s, k, b);
    }
  }

  lemma FireScheduled(s: State, id: nat, list: Option<seq<Binding>>, key: Key, binding: string, now: int)
    requires ScheduledBut(s, id, key, binding)
    ensures Scheduled(Fire(s, list, key, binding, now).0)
  {
    BeginFireScheduled(s, id, key, binding);
    if key in s.entries {
      var ev := Event(key.property, s.entries[key].value, s.entries[key].device);
      if list.Some? {
        var found := FindNamed(list.value, binding, ev);
        if found.Some? {
          DispatchScheduled(BeginFire(s, key, binding), found.value, KeyOf(ev), now);
        }
      }
    }
  }

  lemma FireQuiet(s: State, list: Option<seq<Binding>>, key: Key, binding: string, now: int)
    requires key in s.entries ==> s.entries[key].device.name == key.device
    ensures var s' := Fire(s, list, key, binding, now).0;
            && Quiet(s, s', key) && s'.pending == s.pending
            && (key in s.entries ==> s'.entries[key].timers == s.entries[key].timers - {binding})
  {
  }

  lemma ExpireScheduled(s: State, id: nat)
    requires Scheduled(s) && id in s.pending
    ensures ScheduledBut(Expire(s, id), id, s.pending[id].key, s.pending[id].binding)
  {
    var x := Expire(s, id);
    forall k, b | k in x.entries && b in x.entries[k].timers
      ensures TimerKnown(x, k, b)
              || (k == s.pending[id].key && b == s.pending[id].binding && x.entries[k].timers[b] == id)
    {
      assert TimerKnown(s, k, b);
    }
  }

  /** Handing over a timer and running its callback, as one step. */
  function Deliver(s: State, list: Option<seq<Binding>>, id: nat, now: int): (State, seq<string>)
    requires id in s.pending
  {
    Fire(Expire(s, id), list, s.pending[id].key, s.pending[id].binding, now)
  }

  lemma {:induction false} DeliverKeeps(s: State, list: Option<seq<Binding>>, id: nat, now: int, cfg: Config)
    requires Scheduled(s) && Inv(s) && id in s.pending
    ensures Scheduled(Deliver(s, list, id, now).0)
    ensures Inv(Deliver(s, list, id, now).0)
  {
    StepKeepsInv(s, DoExpire(id), cfg);
    FireKeepsInv(Expire(s, id), list, s.pending[id].key, s.pending[id].binding, now, cfg);
    ExpireScheduled(s, id);
    FireScheduled(Expire(s, id), id, list, s.pending[id].key, s.pending[id].binding, now);
  }

  // ------------------------------------------------------------ windows at work

  /** When a window opened, and whether its calls since are known to be prompt. */
  datatype Opening = Opening(time: int, prompt: bool)

  /** The window of event `ev0`, opened `at` some time, is open, and its recorded timers fire at the right moment. */
  ghost predicate WindowOpen(s: State, bs: seq<Binding>, ev0: Event, at: Opening, cfg: Config) {
    var key := KeyOf(ev0);
    && key in s.entries
    && s.entries[key].value == ev0.value && s.entries[key].device == ev0.device
    && s.entries[key].firstSeen == at.time
    && forall b :: b in s.entries[key].timers ==> TimerFits(s, bs, ev0, at, cfg, b)
  }

  ghost predicate TimerFits(s: State, bs: seq<Binding>, ev0: Event, at: Opening, cfg: Config, b: string)
    requires KeyOf(ev0) in s.entries && b in s.entries[KeyOf(ev0)].timers
  {
    var id := s.entries[KeyOf(ev0)].timers[b];
    exists w :: w in Winners(bs, ev0) && w.name == b
      && id in s.pending && Owed(s.pending[id], KeyOf(ev0), w, at, cfg)
  }

  /** When a timer that is armed in time fires: MinDuration and epsilon after the opening. */
  function FireAt(w: Candidate, start: int, cfg: Config): int {
    start + w.minDuration + cfg.epsilon
  }

  /**
   A callback for `w`, due on time or, when it was armed too late for that, epsilon after arming; on time
   if the window's calls were prompt.
   */
  predicate Owed(cb: Callback, key: Key, w: Candidate, at: Opening, cfg: Config) {
    var fireAt := FireAt(w, at.time, cfg);
    && cb.key == key && cb.binding == w.name
    && (cb.due == fireAt || (!at.prompt && cb.due >= fireAt + cfg.epsilon))
  }

  /** The scheduler owes `w` a callback. */
  ghost predicate Armed(s: State, ev0: Event, w: Candidate, at: Opening, cfg: Config) {
    exists id :: id in s.pending && Owed(s.pending[id], KeyOf(ev0), w, at, cfg)
  }

  ghost predicate Served(s: State, ev0: Event, w: Candidate, at: Opening, cfg: Config)
    requires KeyOf(ev0) in s.entries
  {
    w.minDuration > 0 ==> w.name in s.entries[KeyOf(ev0)].fired || Armed(s, ev0, w, at, cfg)
  }

  lemma WinnersDistinct(bs: seq<Binding>, ev: Event, w: Candidate, w': Candidate)
    requires UniqueNames(bs) && w in Winners(bs, ev) && w' in Winners(bs, ev) && w.name == w'.name
    ensures w == w'
  {
    WinnersExact(bs, ev);
    NameOrder(w.name, w'.name);
  }

  lemma QuietKeepsServed(s: State, s': State, ev0: Event, w: Candidate, at: Opening, cfg: Config)
    requires KeyOf(ev0) in s.entries && Quiet(s, s', KeyOf(ev0)) && Served(s, ev0, w, at, cfg)
    ensures Served(s', ev0, w, at, cfg)
  {
    if w.minDuration > 0 && w.name !in s.entries[KeyOf(ev0)].fired {
      var id :| id in s.pending && Owed(s.pending[id], KeyOf(ev0), w, at, cfg);
      assert id in s'.pending;
    }
  }

  lemma FitsInQuiet(s: State, s': State, bs: seq<Binding>, ev0: Event, at: Opening, cfg: Config, b: string)
    requires KeyOf(ev0) in s.entries && KeyOf(ev0) in s'.entries && Quiet(s, s', KeyOf(ev0))
    requires b in s.entries[KeyOf(ev0)].timers && b in s'.entries[KeyOf(ev0)].timers
    requires s'.entries[KeyOf(ev0)].timers[b] == s.entries[KeyOf(ev0)].timers[b]
    requires TimerFits(s, bs, ev0, at, cfg, b)
    ensures TimerFits(s', bs, ev0, at, cfg, b)
  {
    var id := s.entries[KeyOf(ev0)].timers[b];
    var w :| w in Winners(bs, ev0) && w.name == b && id in s.pending && Owed(s.pending[id], KeyOf(ev0), w, at, cfg);
    assert id in s'.pending;
  }

  /** Serving one winner keeps the timers there are, and a new one is that winner's, due on time. */
  lemma ServeOneTimers(s: State, w: Candidate, key: Key, r: Readings, at: Opening, cfg: Config)
    requires key in s.entries && s.nextTimer !in s.pending && cfg.epsilon >= 0 && s.entries[key].firstSeen == at.time
    requires at.prompt ==> Prompt(r, cfg)
    ensures var s' := ServeOne(s, w, key, r, cfg).0;
            && key in s'.entries
            && forall b :: b in s'.entries[key].timers ==>
                 if b in s.entries[key].timers then s'.entries[key].timers[b] == s.entries[key].timers[b]
                 else b == w.name && s'.entries[key].timers[b] in s'.pending
                      && Owed(s'.pending[s'.entries[key].timers[b]], key, w, at, cfg)
  {
  }

  lemma ServeOneQuiet(s: State, w: Candidate, key: Key, r: Readings, cfg: Config)
    requires s.nextTimer !in s.pending
    ensures Quiet(s, ServeOne(s, w, key, r, cfg).0, key)
  {
    var d := Dispatch(s, w, key, r.dispatch(w.name));
    DispatchQuiet(s, w, key, r.dispatch(w.name));
    ScheduleQuiet(d, w, key, r.schedule(w.name), cfg);
    QuietTransitive(s, d, Schedule(d, w, key, r.schedule(w.name), cfg), key);
  }

  lemma ServeOneFits(s: State, bs: seq<Binding>, ev0: Event, w: Candidate, at: Opening, r: Readings, cfg: Config)
    requires s.nextTimer !in s.pending && cfg.epsilon >= 0 && (at.prompt ==> Prompt(r, cfg))
    requires WindowOpen(s, bs, ev0, at, cfg) && w in Winners(bs, ev0)
    ensures WindowOpen(ServeOne(s, w, KeyOf(ev0), r, cfg).0, bs, ev0, at, cfg)
  {
    var key := KeyOf(ev0);
    var s' := ServeOne(s, w, key, r, cfg).0;
    ServeOneQuiet(s, w, key, r, cfg);
    ServeOneTimers(s, w, key, r, at, cfg);
    FitsAll(s, s', bs, ev0, w, at, cfg);
  }

  lemma FitsAll(s: State, s': State, bs: seq<Binding>, ev0: Event, w: Candidate, at: Opening, cfg: Config)
    requires WindowOpen(s, bs, ev0, at, cfg) && w in Winners(bs, ev0)
    requires KeyOf(ev0) in s'.entries && Quiet(s, s', KeyOf(ev0))
    requires var e, e' := s.entries[KeyOf(ev0)], s'.entries[KeyOf(ev0)];
             forall b :: b in e'.timers ==>
               if b in e.timers then e'.timers[b] == e.timers[b]
               else b == w.name && e'.timers[b] in s'.pending && Owed(s'.pending[e'.timers[b]], KeyOf(ev0), w, at, cfg)
    ensures WindowOpen(s', bs, ev0, at, cfg)
  {
    var key := KeyOf(ev0);
    forall b | b in s'.entries[key].timers ensures TimerFits(s', bs, ev0, at, cfg, b) {
      if b in s.entries[key].timers {
        FitsInQuiet(s, s', bs, ev0, at, cfg, b);
      }
    }
  }

  lemma ServeOneArms(s: State, bs: seq<Binding>, ev0: Event, w: Candidate, at: Opening, r: Readings, cfg: Config)
    requires Scheduled(s) && UniqueNames(bs) && cfg.deferred && cfg.epsilon >= 0 && (at.prompt ==> Prompt(r, cfg))
    requires WindowOpen(s, bs, ev0, at, cfg) && w in Winners(bs, ev0)
    ensures var s' := ServeOne(s, w, KeyOf(ev0), r, cfg).0;
            WindowOpen(s', bs, ev0, at, cfg) && Served(s', ev0, w, at, cfg)
  {
    var key := KeyOf(ev0);
    var s' := ServeOne(s, w, key, r, cfg).0;
    ServeOneFits(s, bs, ev0, w, at, r, cfg);
    if w.minDuration > 0 && w.name !in s'.entries[key].fired {
      assert w.name in s'.entries[key].timers;
      assert TimerFits(s', bs, ev0, at, cfg, w.name);
      var w' :| w' in Winners(bs, ev0) && w'.name == w.name
        && Owed(s'.pending[s'.entries[key].timers[w.name]], key, w', at, cfg);
      WinnersDistinct(bs, ev0, w, w');
    }
  }

  lemma {:induction false} ServeArms(
    s: State, bs: seq<Binding>, ev0: Event, ws: seq<Candidate>, at: Opening, r: Readings, cfg: Config)
    requires Scheduled(s) && UniqueNames(bs) && cfg.deferred && cfg.epsilon >= 0 && (at.prompt ==> Prompt(r, cfg))
    requires WindowOpen(s, bs, ev0, at, cfg) && forall w :: w in ws ==> w in Winners(bs, ev0)
    ensures var s' := Serve(s, ws, KeyOf(ev0), r, cfg).0;
            WindowOpen(s', bs, ev0, at, cfg) && forall w :: w in ws ==> Served(s', ev0, w, at, cfg)
  {
    if ws != [] {
      var init, last := ws[..|ws| - 1], ws[|ws| - 1];
      assert ws == init + [last];
      var s1 := Serve(s, init, KeyOf(ev0), r, cfg).0;
      ServeArms(s, bs, ev0, init, at, r, cfg);
      ServeScheduled(s, init, KeyOf(ev0), r, cfg);
      ServeOneArms(s1, bs, ev0, last, at, r, cfg);
      ServeOneScheduled(s1, last, KeyOf(ev0), r, cfg);
      var s' := ServeOne(s1, last, KeyOf(ev0), r, cfg).0;
      forall w | w in ws ensures Served(s', ev0, w, at, cfg) {
        if w != last {
          QuietKeepsServed(s1, s', ev0, w, at, cfg);
        }
      }
    }
  }

  /** What holds between whole calls while the window is open. */
  ghost predicate WindowServed(s: State, bs: seq<Binding>, ev0: Event, at: Opening, cfg: Config) {
    && Scheduled(s)
    && WindowOpen(s, bs, ev0, at, cfg)
    && forall w :: w in Winners(bs, ev0) ==> Served(s, ev0, w, at, cfg)
  }

  // --------------------------------------------------------------------- runs

  datatype CallStep =
    | Arrival(ev: Event, readings: Readings)
    | Delivery(id: nat, now: int)
    | StaleCallback(key: Key, binding: string, now: int)  // runs although its timer was stopped

  /** A scheduler delivers only what is pending, and not early. */
  predicate Enabled(s: State, st: CallStep) {
    st.Delivery? ==> st.id in s.pending && st.now >= s.pending[st.id].due
  }

  /**
   The step does not end the window: an event for its key repeats the value, from the unchanged device;
   and it is prompt if the window's calls are to be.
   */
  ghost predicate Within(st: CallStep, ev0: Event, prompt: bool, cfg: Config) {
    st.Arrival? && KeyOf(st.ev) == KeyOf(ev0) ==> st.ev == ev0 && (prompt ==> Prompt(st.readings, cfg))
  }

  function Next(s: State, bs: seq<Binding>, st: CallStep, cfg: Config): State
    requires Enabled(s, st)
  {
    match st
    case Arrival(ev, r) => Arrive(s, Some(bs), ev, r, cfg).0
    case Delivery(id, now) => Deliver(s, Some(bs), id, now).0
    case StaleCallback(key, binding, now) => Fire(s, Some(bs), key, binding, now).0
  }

  /** `s'` is reached from `s` by `steps`, none of which ends the window of `ev0`. */
  ghost predicate Reaches(
    s: State, bs: seq<Binding>, steps: seq<CallStep>, ev0: Event, prompt: bool, cfg: Config, s': State)
    decreases |steps|
  {
    if steps == [] then s' == s
    else
      && Enabled(s, steps[0]) && Within(steps[0], ev0, prompt, cfg)
      && Reaches(Next(s, bs, steps[0], cfg), bs, steps[1..], ev0, prompt, cfg, s')
  }

  /** Only observations of `value` were added for `key`. */
  ghost predicate Extends(s: State, s': State, key: Key, value: string) {
    && s.log <= s'.log
    && forall i :: |s.log| <= i < |s'.log| && ObservesKey(s'.log[i], key) ==> s'.log[i].value == value
  }

  /** Any change that leaves this key's entry alone and keeps its pending callbacks keeps the window served. */
  lemma ElsewhereKeepsServed(s: State, s': State, bs: seq<Binding>, ev0: Event, at: Opening, cfg: Config)
    requires WindowServed(s, bs, ev0, at, cfg) && Scheduled(s')
    requires KeyOf(ev0) in s'.entries && s'.entries[KeyOf(ev0)] == s.entries[KeyOf(ev0)]
    requires forall id :: id in s.pending && s.pending[id].key == KeyOf(ev0) ==>
               id in s'.pending && s'.pending[id] == s.pending[id]
    ensures WindowServed(s', bs, ev0, at, cfg)
  {
    var key := KeyOf(ev0);
    forall b | b in s'.entries[key].timers ensures TimerFits(s', bs, ev0, at, cfg, b) {
      assert TimerFits(s, bs, ev0, at, cfg, b);
    }
    forall w | w in Winners(bs, ev0) ensures Served(s', ev0, w, at, cfg) {
      if w.minDuration > 0 && w.name !in s.entries[key].fired {
        var id :| id in s.pending && Owed(s.pending[id], key, w, at, cfg);
        assert id in s'.pending;
      }
    }
  }

  /** What an arrival adds to the log: its observation, then dispatches only. */
  lemma ArriveLog(s: State, bs: seq<Binding>, ev: Event, r: Readings, cfg: Config)
    requires Scheduled(s)
    ensures var s' := Arrive(s, Some(bs), ev, r, cfg).0;
            && Scheduled(s') && s.log + [Observed(KeyOf(ev), ev.value, r.observed)] <= s'.log
            && forall i :: |s.log| < i < |s'.log| ==> s'.log[i].Dispatched?
  {
    ObserveScheduled(s, ev, r.observed);
    ServeScheduled(Observe(s, ev, r.observed), Winners(bs, ev), KeyOf(ev), r, cfg);
    assert Observe(s, ev, r.observed).log == s.log + [Observed(KeyOf(ev), ev.value, r.observed)];
  }

  lemma ArriveExtends(s: State, bs: seq<Binding>, ev: Event, r: Readings, ev0: Event, prompt: bool, cfg: Config)
    requires Scheduled(s) && Within(Arrival(ev, r), ev0, prompt, cfg)
    ensures Extends(s, Arrive(s, Some(bs), ev, r, cfg).0, KeyOf(ev0), ev0.value)
  {
    ArriveLog(s, bs, ev, r, cfg);
    var s' := Arrive(s, Some(bs), ev, r, cfg).0;
    assert s.log <= s.log + [Observed(KeyOf(ev), ev.value, r.observed)] <= s'.log;
    assert s'.log[|s.log|] == Observed(KeyOf(ev), ev.value, r.observed);
  }

  /** The event repeats the value of the window: the window stays, and all winners are served again. */
  lemma RepeatKeepsServed(s: State, bs: seq<Binding>, r: Readings, ev0: Event, at: Opening, cfg: Config)
    requires UniqueNames(bs) && cfg.deferred && cfg.epsilon >= 0 && (at.prompt ==> Prompt(r, cfg))
    requires WindowServed(s, bs, ev0, at, cfg)
    ensures WindowServed(Arrive(s, Some(bs), ev0, r, cfg).0, bs, ev0, at, cfg)
  {
    var s1 := Observe(s, ev0, r.observed);
    ObserveScheduled(s, ev0, r.observed);
    ServeScheduled(s1, Winners(bs, ev0), KeyOf(ev0), r, cfg);
    assert s1.entries == s.entries && s1.pending == s.pending;
    forall b | b in s1.entries[KeyOf(ev0)].timers ensures TimerFits(s1, bs, ev0, at, cfg, b) {
      assert TimerFits(s, bs, ev0, at, cfg, b);
    }
    ServeArms(s1, bs, ev0, Winners(bs, ev0), at, r, cfg);
  }

  lemma ElsewhereArrivalKeepsServed(
    s: State, bs: seq<Binding>, ev: Event, r: Readings, ev0: Event, at: Opening, cfg: Config)
    requires WindowServed(s, bs, ev0, at, cfg) && KeyOf(ev) != KeyOf(ev0)
    ensures WindowServed(Arrive(s, Some(bs), ev, r, cfg).0, bs, ev0, at, cfg)
  {
    var s1 := Observe(s, ev, r.observed);
    ObserveScheduled(s, ev, r.observed);
    ServeScheduled(s1, Winners(bs, ev), KeyOf(ev), r, cfg);
    ElsewhereKeepsServed(s, s1, bs, ev0, at, cfg);
    ElsewhereKeepsServed(s1, Arrive(s, Some(bs), ev, r, cfg).0, bs, ev0, at, cfg);
  }

  lemma ArrivalKeepsServed(s: State, bs: seq<Binding>, ev: Event, r: Readings, ev0: Event, at: Opening, cfg: Config)
    requires UniqueNames(bs) && cfg.deferred && cfg.epsilon >= 0
    requires WindowServed(s, bs, ev0, at, cfg) && Within(Arrival(ev, r), ev0, at.prompt, cfg)
    ensures var s' := Arrive(s, Some(bs), ev, r, cfg).0;
            WindowServed(s', bs, ev0, at, cfg) && Extends(s, s', KeyOf(ev0), ev0.value)
  {
    ArriveExtends(s, bs, ev, r, ev0, at.prompt, cfg);
    if KeyOf(ev) == KeyOf(ev0) {
      RepeatKeepsServed(s, bs, r, ev0, at, cfg);
    } else {
      ElsewhereArrivalKeepsServed(s, bs, ev, r, ev0, at, cfg);
    }
  }

  lemma {:induction false} FindNamedFinds(bs: seq<Binding>, ev: Event, b: Binding)
    requires UniqueNames(bs) && b in bs && Matches(b, ev)
    ensures FindNamed(bs, b.name, ev) == Some(CandidateOf(b))
  {
    if bs[0] != b {
      assert b in bs[1..];
      var i :| 0 <= i < |bs[1..]| && bs[1..][i] == b;
      assert bs[i + 1] == b;
      FindNamedFinds(bs[1..], ev, b);
    }
  }

  /** A callback of this key on time dispatches its Binding if that has not happened yet. */
  lemma TimelyFireDispatches(s: State, bs: seq<Binding>, ev0: Event, w: Candidate, t0: int, now: int, cfg: Config)
    requires UniqueNames(bs) && KeyOf(ev0) in s.entries
    requires s.entries[KeyOf(ev0)].value == ev0.value && s.entries[KeyOf(ev0)].device == ev0.device
    requires s.entries[KeyOf(ev0)].firstSeen == t0
    requires w in Winners(bs, ev0) && w.minDuration > 0 && now >= t0 + w.minDuration
    ensures w.name in Fire(s, Some(bs), KeyOf(ev0), w.name, now).0.entries[KeyOf(ev0)].fired
  {
    WinnerFound(bs, ev0, w);
    FireOf(s, bs, ev0, w, now);
  }

  lemma WinnerFound(bs: seq<Binding>, ev: Event, w: Candidate)
    requires UniqueNames(bs) && w in Winners(bs, ev)
    ensures FindNamed(bs, w.name, ev) == Some(w)
  {
    WinnersExact(bs, ev);
    var b :| Wins(bs, ev, b) && w == CandidateOf(b);
    FindNamedFinds(bs, ev, b);
  }

  lemma FireOf(s: State, bs: seq<Binding>, ev0: Event, w: Candidate, now: int)
    requires KeyOf(ev0) in s.entries
    requires s.entries[KeyOf(ev0)].value == ev0.value && s.entries[KeyOf(ev0)].device == ev0.device
    requires FindNamed(bs, w.name, ev0) == Some(w) && w.minDuration > 0
    requires now >= s.entries[KeyOf(ev0)].firstSeen + w.minDuration
    ensures w.name in Fire(s, Some(bs), KeyOf(ev0), w.name, now).0.entries[KeyOf(ev0)].fired
  {
    assert Event(KeyOf(ev0).property, ev0.value, ev0.device) == ev0;
  }

  lemma FireKeepsServed(
    s: State, id: nat, bs: seq<Binding>, key: Key, binding: string, now: int, ev0: Event, at: Opening, cfg: Config)
    requires UniqueNames(bs) && cfg.epsilon >= 0
    requires WindowServed(s, bs, ev0, at, cfg)
    requires id in s.pending ==>
               s.pending[id].key == key && s.pending[id].binding == binding && now >= s.pending[id].due
    ensures var s' := Fire(Expire(s, id), Some(bs), key, binding, now).0;
            WindowServed(s', bs, ev0, at, cfg) && Extends(s, s', KeyOf(ev0), ev0.value)
  {
    var x := Expire(s, id);
    var s' := Fire(x, Some(bs), key, binding, now).0;
    if id in s.pending {
      ExpireScheduled(s, id);
    } else {
      assert x == s;
    }
    FireScheduled(x, id, Some(bs), key, binding, now);
    FireQuiet(x, Some(bs), key, binding, now);
    if key != KeyOf(ev0) {
      ElsewhereKeepsServed(s, s', bs, ev0, at, cfg);
    } else {
      forall b | b in s'.entries[key].timers ensures TimerFits(s', bs, ev0, at, cfg, b) {
        assert b in s.entries[key].timers && b != binding;
        assert TimerFits(s, bs, ev0, at, cfg, b);
      }
      forall w | w in Winners(bs, ev0) ensures Served(s', ev0, w, at, cfg) {
        if w.minDuration > 0 && w.name !in s.entries[key].fired {
          var due :| due in s.pending && Owed(s.pending[due], key, w, at, cfg);
          if due == id {
            TimelyFireDispatches(x, bs, ev0, w, at.time, now, cfg);
          } else {
            assert due in s'.pending;
          }
        }
      }
    }
  }

  lemma NextKeepsServed(s: State, bs: seq<Binding>, st: CallStep, ev0: Event, at: Opening, cfg: Config)
    requires UniqueNames(bs) && cfg.deferred && cfg.epsilon >= 0
    requires WindowServed(s, bs, ev0, at, cfg) && Enabled(s, st) && Within(st, ev0, at.prompt, cfg)
    ensures WindowServed(Next(s, bs, st, cfg), bs, ev0, at, cfg)
    ensures Extends(s, Next(s, bs, st, cfg), KeyOf(ev0), ev0.value)
  {
    match st
    case Arrival(ev, r) => ArrivalKeepsServed(s, bs, ev, r, ev0, at, cfg);
    case Delivery(id, now) => FireKeepsServed(s, id, bs, s.pending[id].key, s.pending[id].binding, now, ev0, at, cfg);
    case StaleCallback(key, binding, now) =>
      assert s.nextTimer !in s.pending;
      assert Expire(s, s.nextTimer) == s;
      FireKeepsServed(s, s.nextTimer, bs, key, binding, now, ev0, at, cfg);
  }

  lemma NextKeepsInv(s: State, bs: seq<Binding>, st: CallStep, cfg: Config)
    requires Scheduled(s) && Inv(s) && Enabled(s, st)
    ensures Inv(Next(s, bs, st, cfg))
  {
    match st
    case Arrival(ev, r) => ArriveKeeps(s, Some(bs), ev, r, cfg);
    case Delivery(id, now) => DeliverKeeps(s, Some(bs), id, now, cfg);
    case StaleCallback(key, binding, now) => FireKeepsInv(s, Some(bs), key, binding, now, cfg);
  }

  lemma {:induction false} RunKeepsServed(
    s: State, bs: seq<Binding>, steps: seq<CallStep>, ev0: Event, at: Opening, cfg: Config, s': State)
    requires UniqueNames(bs) && cfg.deferred && cfg.epsilon >= 0 && Inv(s)
    requires WindowServed(s, bs, ev0, at, cfg) && Reaches(s, bs, steps, ev0, at.prompt, cfg, s')
    ensures WindowServed(s', bs, ev0, at, cfg)
    ensures Extends(s, s', KeyOf(ev0), ev0.value) && Inv(s')
    decreases |steps|
  {
    if steps != [] {
      NextKeepsServed(s, bs, steps[0], ev0, at, cfg);
      NextKeepsInv(s, bs, steps[0], cfg);
      RunKeepsServed(Next(s, bs, steps[0], cfg), bs, steps[1..], ev0, at, cfg, s');
    }
  }

  lemma OpeningServes(s: State, bs: seq<Binding>, ev0: Event, r: Readings, prompt: bool, cfg: Config)
    requires Scheduled(s) && UniqueNames(bs) && cfg.deferred && cfg.epsilon >= 0 && (prompt ==> Prompt(r, cfg))
    requires KeyOf(ev0) in s.entries ==> s.entries[KeyOf(ev0)].value != ev0.value
    ensures WindowServed(Arrive(s, Some(bs), ev0, r, cfg).0, bs, ev0, Opening(r.observed, prompt), cfg)
  {
    var s1 := Observe(s, ev0, r.observed);
    ObserveScheduled(s, ev0, r.observed);
    ServeScheduled(s1, Winners(bs, ev0), KeyOf(ev0), r, cfg);
    ServeArms(s1, bs, ev0, Winners(bs, ev0), Opening(r.observed, prompt), r, cfg);
  }

  /** Record `o` opens the window of `ev0`, which has lasted since. */
  ghost predicate OpenSince(log: seq<Record>, o: nat, ev0: Event, t0: int) {
    && o < |log| && log[o] == Observed(KeyOf(ev0), ev0.value, t0)
    && Opens(log, o, KeyOf(ev0)) && Stable(log, o, |log|, KeyOf(ev0))
  }

  lemma OpenedSince(s: State, s1: State, s': State, ev0: Event, t0: int)
    requires LastValue(s.log, KeyOf(ev0)) != Some(ev0.value)
    requires s.log + [Observed(KeyOf(ev0), ev0.value, t0)] <= s1.log
    requires forall i :: |s.log| < i < |s1.log| ==> s1.log[i].Dispatched?
    requires Extends(s1, s', KeyOf(ev0), ev0.value)
    ensures OpenSince(s'.log, |s.log|, ev0, t0)
  {
    var o := |s.log|;
    assert s1.log[o] == (s.log + [Observed(KeyOf(ev0), ev0.value, t0)])[o];
    assert s'.log[..o] == s.log;
    forall k | o < k < |s1.log| ensures !ObservesKey(s'.log[k], KeyOf(ev0)) {
      assert s'.log[k] == s1.log[k];
    }
  }

  /** While a window lasts no further window opens. */
  lemma NoReopening(log: seq<Record>, o: nat, p: nat, key: Key)
    requires o < p < |log| && Opens(log, o, key) && Stable(log, o, |log|, key)
    ensures !Opens(log, p, key)
  {
    assert Stable(log, o, p, key);
    StableLastValue(log, o, p, key);
  }

  /** Dispatched in log[o + 1..] at one position and at no other. */
  ghost predicate DispatchedOnce(log: seq<Record>, o: nat, key: Key, binding: string) {
    exists i :: OnlyDispatch(log, o, key, binding, i)
  }

  predicate OnlyDispatch(log: seq<Record>, o: nat, key: Key, binding: string, i: int) {
    && o < i < |log| && Dispatches(log[i], key, binding)
    && forall j :: o < j < |log| && j != i ==> !Dispatches(log[j], key, binding)
  }

  lemma JustifiedLater(log: seq<Record>, a: nat, b: nat, p: nat)
    requires a < b < |log| && log[a].Dispatched? && log[b].Dispatched?
    requires log[a].key == log[b].key && log[a].binding == log[b].binding && JustifiedBy(log, b, p)
    ensures a < p && Opens(log, p, log[b].key)
  {
    assert a != p;
    if p < a {
      assert NoDispatch(log, p, b, log[b].key, log[b].binding);
      assert Dispatches(log[a], log[b].key, log[b].binding);
    }
  }

  /** In a safe history the open window holds at most one dispatch of a Binding. */
  lemma OneDispatch(log: seq<Record>, o: nat, key: Key, binding: string, a: nat, b: nat)
    requires o < a < b < |log| && Opens(log, o, key) && Stable(log, o, |log|, key)
    requires Dispatches(log[b], key, binding) && exists p: nat :: JustifiedBy(log, b, p)
    ensures !Dispatches(log[a], key, binding)
  {
    if Dispatches(log[a], key, binding) {
      var p: nat :| JustifiedBy(log, b, p);
      JustifiedLater(log, a, b, p);
      NoReopening(log, o, p, key);
    }
  }

  lemma OneOpening(log: seq<Record>, o: nat, o': nat, key: Key)
    requires o < |log| && o' < |log| && Opens(log, o, key) && Opens(log, o', key)
    requires Stable(log, o, |log|, key) && Stable(log, o', |log|, key)
    ensures o == o'
  {
    if o < o' {
      NoReopening(log, o, o', key);
    } else if o' < o {
      NoReopening(log, o', o, key);
    }
  }

  lemma OnceInWindow(log: seq<Record>, o: nat, key: Key, binding: string)
    requires o < |log| && Opens(log, o, key) && Stable(log, o, |log|, key) && Safe(log)
    requires !NoDispatch(log, o, |log|, key, binding)
    ensures DispatchedOnce(log, o, key, binding)
  {
    var i :| o < i < |log| && Dispatches(log[i], key, binding);
    forall j | o < j < |log| && j != i ensures !Dispatches(log[j], key, binding) {
      if j < i {
        OneDispatch(log, o, key, binding, j, i);
      } else if Dispatches(log[j], key, binding) {
        OneDispatch(log, o, key, binding, i, j);
      }
    }
    assert OnlyDispatch(log, o, key, binding, i);
  }

  lemma FiredOnce(s: State, o: nat, key: Key, binding: string)
    requires Inv(s) && key in s.entries && o < |s.log|
    requires Opens(s.log, o, key) && Stable(s.log, o, |s.log|, key)
    ensures binding in s.entries[key].fired ==> DispatchedOnce(s.log, o, key, binding)
    ensures binding !in s.entries[key].fired ==> NoDispatch(s.log, o, |s.log|, key, binding)
  {
    var o' :| WindowAt(s.log, o', key, s.entries[key]);
    OneOpening(s.log, o, o', key);
    if binding in s.entries[key].fired {
      OnceInWindow(s.log, o, key, binding);
    }
  }

  // -------------------------------------------------------- reachable states

  /** One call with whatever Binding list it got (None when listing failed) and the wiring at that time. */
  datatype Call = Call(list: Option<seq<Binding>>, step: CallStep, cfg: Config)

  function After(s: State, c: Call): State
    requires Enabled(s, c.step)
  {
    match c.step
    case Arrival(ev, r) => Arrive(s, c.list, ev, r, c.cfg).0
    case Delivery(id, now) => Deliver(s, c.list, id, now).0
    case StaleCallback(key, binding, now) => Fire(s, c.list, key, binding, now).0
  }

  ghost predicate Leads(s: State, calls: seq<Call>, s': State)
    decreases |calls|
  {
    if calls == [] then s' == s
    else Enabled(s, calls[0].step) && Leads(After(s, calls[0]), calls[1..], s')
  }

  /** Some calls lead here from the empty matcher. */
  ghost predicate Reachable(s: State) {
    exists calls :: Leads(INITIAL, calls, s)
  }

  lemma StaleKeepsScheduled(s: State, list: Option<seq<Binding>>, key: Key, binding: string, now: int)
    requires Scheduled(s)
    ensures Scheduled(Fire(s, list, key, binding, now).0)
  {
    FireScheduled(s, s.nextTimer, list, key, binding, now);
  }

  lemma AfterKeeps(s: State, c: Call)
    requires Scheduled(s) && Inv(s) && Enabled(s, c.step)
    ensures Scheduled(After(s, c)) && Inv(After(s, c))
  {
    match c.step
    case Arrival(ev, r) => ArriveKeeps(s, c.list, ev, r, c.cfg);
    case Delivery(id, now) => DeliverKeeps(s, c.list, id, now, c.cfg);
    case StaleCallback(key, binding, now) =>
      StaleKeepsScheduled(s, c.list, key, binding, now);
      FireKeepsInv(s, c.list, key, binding, now, c.cfg);
  }

  lemma {:induction false} LeadsKeeps(s: State, calls: seq<Call>, s': State)
    requires Scheduled(s) && Inv(s) && Leads(s, calls, s')
    ensures Scheduled(s') && Inv(s')
    decreases |calls|
  {
    if calls != [] {
      AfterKeeps(s, calls[0]);
      LeadsKeeps(After(s, calls[0]), calls[1..], s');
    }
  }

  /** In every reachable state the history explains the entries and every recorded timer is pending. */
  lemma {:induction false} ReachableKeeps(s: State)
    requires Reachable(s)
    ensures Scheduled(s) && Inv(s)
  {
    var calls :| Leads(INITIAL, calls, s);
    LeadsKeeps(INITIAL, calls, s);
  }

  /** The window that `ev0` opened is still open, and `w` was dispatched once in it or is owed a callback. */
  ghost predicate FiredOrOwed(s: State, o: nat, ev0: Event, w: Candidate, at: Opening, cfg: Config) {
    && o < |s.log| && s.log[o] == Observed(KeyOf(ev0), ev0.value, at.time)
    && (DispatchedOnce(s.log, o, KeyOf(ev0), w.name)
        || (NoDispatch(s.log, o, |s.log|, KeyOf(ev0), w.name) && Armed(s, ev0, w, at, cfg)))
  }

  /**
   Event `ev0` opens a window in any reachable state. However events, timer deliveries and stale
   callbacks follow and whatever the clock reads, while the window lasts each winning debounced
   Binding has been dispatched exactly once in it, or not at all and the scheduler still owes its
   callback, due at the opening + MinDuration + epsilon or, if it was armed later than that, at least
   epsilon later.
   */
  lemma {:induction false} NoLostFire(
    s: State, bs: seq<Binding>, ev0: Event, r: Readings, steps: seq<CallStep>, cfg: Config, s': State, w: Candidate)
    requires Reachable(s) && UniqueNames(bs) && cfg.deferred && cfg.epsilon >= 0
    requires KeyOf(ev0) in s.entries ==> s.entries[KeyOf(ev0)].value != ev0.value
    requires w in Winners(bs, ev0) && w.minDuration > 0
    requires Reaches(Arrive(s, Some(bs), ev0, r, cfg).0, bs, steps, ev0, false, cfg, s')
    ensures FiredOrOwed(s', |s.log|, ev0, w, Opening(r.observed, false), cfg)
  {
    ReachableKeeps(s);
    OpenedRun(s, bs, ev0, r, false, steps, cfg, s');
    ServedOutcome(s', |s.log|, bs, ev0, Opening(r.observed, false), cfg, w);
  }

  /** When the calls of the window were prompt, the callback still owed is due exactly on time. */
  lemma {:induction false} OwedOnTime(
    s: State, bs: seq<Binding>, ev0: Event, r: Readings, steps: seq<CallStep>, cfg: Config, s': State, w: Candidate)
    requires Reachable(s) && UniqueNames(bs) && cfg.deferred && cfg.epsilon >= 0 && Prompt(r, cfg)
    requires KeyOf(ev0) in s.entries ==> s.entries[KeyOf(ev0)].value != ev0.value
    requires w in Winners(bs, ev0) && w.minDuration > 0
    requires Reaches(Arrive(s, Some(bs), ev0, r, cfg).0, bs, steps, ev0, true, cfg, s')
    ensures FiredOrOwed(s', |s.log|, ev0, w, Opening(r.observed, true), cfg)
  {
    ReachableKeeps(s);
    OpenedRun(s, bs, ev0, r, true, steps, cfg, s');
    ServedOutcome(s', |s.log|, bs, ev0, Opening(r.observed, true), cfg, w);
  }

  /** What holds at the end of a run that opened a window and did not end it. */
  lemma {:induction false} OpenedRun(
    s: State, bs: seq<Binding>, ev0: Event, r: Readings, prompt: bool, steps: seq<CallStep>, cfg: Config, s': State)
    requires Scheduled(s) && Inv(s) && UniqueNames(bs) && cfg.deferred && cfg.epsilon >= 0
    requires prompt ==> Prompt(r, cfg)
    requires KeyOf(ev0) in s.entries ==> s.entries[KeyOf(ev0)].value != ev0.value
    requires Reaches(Arrive(s, Some(bs), ev0, r, cfg).0, bs, steps, ev0, prompt, cfg, s')
    ensures Inv(s') && WindowServed(s', bs, ev0, Opening(r.observed, prompt), cfg)
    ensures OpenSince(s'.log, |s.log|, ev0, r.observed)
  {
    var s1 := Arrive(s, Some(bs), ev0, r, cfg).0;
    NotYetSeen(s, ev0);
    OpeningServes(s, bs, ev0, r, prompt, cfg);
    ArriveLog(s, bs, ev0, r, cfg);
    ArriveKeeps(s, Some(bs), ev0, r, cfg);
    RunKeepsServed(s1, bs, steps, ev0, Opening(r.observed, prompt), cfg, s');
    OpenedSince(s, s1, s', ev0, r.observed);
  }

  lemma {:induction false} ReachesSnoc(
    s: State, bs: seq<Binding>, steps: seq<CallStep>, ev0: Event, prompt: bool, cfg: Config, s': State, st: CallStep)
    requires Reaches(s, bs, steps, ev0, prompt, cfg, s') && Enabled(s', st) && Within(st, ev0, prompt, cfg)
    ensures Reaches(s, bs, steps + [st], ev0, prompt, cfg, Next(s', bs, st, cfg))
    decreases |steps|
  {
    if steps == [] {
      assert steps + [st] == [st] && [st][1..] == [];
    } else {
      ReachesSnoc(Next(s, bs, steps[0], cfg), bs, steps[1..], ev0, prompt, cfg, s', st);
      assert (steps + [st])[1..] == steps[1..] + [st];
    }
  }

  /**
   And the callback does what it is owed for: in a window that is still open, delivering it leaves
   the Binding dispatched exactly once.
   */
  lemma {:induction false} DeliveryDispatches(
    s: State, bs: seq<Binding>, ev0: Event, r: Readings, steps: seq<CallStep>, cfg: Config, s': State, w: Candidate,
    id: nat, now: int)
    requires Reachable(s) && UniqueNames(bs) && cfg.deferred && cfg.epsilon >= 0
    requires KeyOf(ev0) in s.entries ==> s.entries[KeyOf(ev0)].value != ev0.value
    requires w in Winners(bs, ev0) && w.minDuration > 0
    requires Reaches(Arrive(s, Some(bs), ev0, r, cfg).0, bs, steps, ev0, false, cfg, s')
    requires id in s'.pending && Owed(s'.pending[id], KeyOf(ev0), w, Opening(r.observed, false), cfg)
    requires now >= s'.pending[id].due
    ensures DispatchedOnce(Deliver(s', Some(bs), id, now).0.log, |s.log|, KeyOf(ev0), w.name)
  {
    ReachableKeeps(s);
    var st := Delivery(id, now);
    OpenedRun(s, bs, ev0, r, false, steps, cfg, s');
    ReachesSnoc(Arrive(s, Some(bs), ev0, r, cfg).0, bs, steps, ev0, false, cfg, s', st);
    OpenedRun(s, bs, ev0, r, false, steps + [st], cfg, Next(s', bs, st, cfg));
    DeliveryFires(s', bs, ev0, Opening(r.observed, false), cfg, w, id, now);
    FiredOnce(Next(s', bs, st, cfg), |s.log|, KeyOf(ev0), w.name);
  }

  lemma DeliveryFires(s: State, bs: seq<Binding>, ev0: Event, at: Opening, cfg: Config, w: Candidate, id: nat, now: int)
    requires UniqueNames(bs) && cfg.epsilon >= 0 && WindowOpen(s, bs, ev0, at, cfg)
    requires w in Winners(bs, ev0) && w.minDuration > 0
    requires id in s.pending && Owed(s.pending[id], KeyOf(ev0), w, at, cfg) && now >= s.pending[id].due
    ensures var s' := Deliver(s, Some(bs), id, now).0;
            KeyOf(ev0) in s'.entries && w.name in s'.entries[KeyOf(ev0)].fired
  {
    TimelyFireDispatches(Expire(s, id), bs, ev0, w, at.time, now, cfg);
  }

  lemma NotYetSeen(s: State, ev0: Event)
    requires Inv(s) && (KeyOf(ev0) in s.entries ==> s.entries[KeyOf(ev0)].value != ev0.value)
    ensures LastValue(s.log, KeyOf(ev0)) != Some(ev0.value)
  {
  }

  lemma ServedOutcome(s: State, o: nat, bs: seq<Binding>, ev0: Event, at: Opening, cfg: Config, w: Candidate)
    requires Inv(s) && WindowServed(s, bs, ev0, at, cfg) && OpenSince(s.log, o, ev0, at.time)
    requires w in Winners(bs, ev0) && w.minDuration > 0
    ensures FiredOrOwed(s, o, ev0, w, at, cfg)
  {
    FiredOnce(s, o, KeyOf(ev0), w.name);
    assert Served(s, ev0, w, at, cfg);
  }
}
