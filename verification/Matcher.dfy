/**
 The matcher object: the debounce map it mutates, and the scheduler it hands timers to.
 Every method is tied to the step it performs on the state of `Debounce`; that those
 steps keep the invariants behind the history theorems is proved there and in
 `DebounceProgress`.
 */
module Matcher {
  import opened Wrappers
  import opened Bindings
  import opened Debounce
  import opened DebounceProgress

  /** Padding past MinDuration: 100 ms. */
  const EPSILON := 100_000_000

  method Collect(bs: seq<Binding>, ev: Event) returns (candidates: seq<Candidate>)
    ensures candidates == Candidates(bs, ev)
  {
    candidates := [];
    for i := 0 to |bs|
      invariant candidates == Candidates(bs[..i], ev)
    {
      assert bs[..i + 1][..i] == bs[..i];
      if Matches(bs[i], ev) {
        candidates := candidates + [CandidateOf(bs[i])];
      }
    }
    assert bs[..|bs|] == bs;
  }

  /** The longest prefix that scores as the first candidate does. */
  method CutAfterTop(candidates: seq<Candidate>) returns (winners: seq<Candidate>)
    requires candidates != []
    ensures winners == TopTier(candidates, candidates[0].score)
  {
    winners := [];
    var topScore, i := candidates[0].score, 0;
    while i < |candidates| && candidates[i].score == topScore
      invariant 0 <= i <= |candidates|
      invariant TopTier(candidates, topScore) == winners + TopTier(candidates[i..], topScore)
    {
      assert candidates[i..][1..] == candidates[i + 1..];
      winners := winners + [candidates[i]];
      i := i + 1;
    }
  }

  /** Collect, sort, and cut after the top score. */
  method FindWinners(bs: seq<Binding>, ev: Event) returns (winners: seq<Candidate>)
    ensures winners == Winners(bs, ev)
  {
    var candidates := Collect(bs, ev);
    candidates := Sort(candidates);
    winners := [];
    if |candidates| > 0 {
      winners := CutAfterTop(candidates);
    }
  }

  /** Find the Binding a timer was armed for. */
  method FindBinding(bs: seq<Binding>, name: string, ev: Event) returns (found: Option<Candidate>)
    ensures found == FindNamed(bs, name, ev)
  {
    for i := 0 to |bs|
      invariant FindNamed(bs, name, ev) == FindNamed(bs[i..], name, ev)
    {
      if bs[i].name == name {
        return if Matches(bs[i], ev) then Some(CandidateOf(bs[i])) else None;
      }
    }
    return None;
  }

  class Matcher {
    var debounce: map<Key, Entry>
    var deferred: bool
    const epsilon: int

    // The scheduler: timers that were armed and neither stopped nor delivered.
    var pending: map<nat, Callback>
    var nextTimer: nat

    ghost var log: seq<Record>

    ghost function Model(): State
      reads this
    {
      State(debounce, pending, nextTimer, log)
    }

    ghost function Cfg(): Config
      reads this
    {
      Config(deferred, epsilon)
    }

    constructor ()
      ensures Model() == INITIAL && !deferred && epsilon == EPSILON
    {
      debounce, pending, nextTimer, log := map[], map[], 0, [];
      deferred, epsilon := false, EPSILON;
    }

    /** Wiring an activate callback enables the deferred path. */
    method WithActivateFunc()
      modifies `deferred
      ensures deferred
    {
      deferred := true;
    }

    method StopAll(timers: map<string, nat>)
      modifies `pending
      ensures pending == old(pending) - timers.Values
    {
      var names := timers.Keys;
      while names != {}
        invariant names <= timers.Keys
        invariant pending == old(pending) - (set n | n in timers.Keys - names :: timers[n])
        decreases |names|
      {
        var n :| n in names;
        pending := pending - {timers[n]};
        names := names - {n};
      }
      assert timers.Values == set n | n in timers.Keys - names :: timers[n];
    }

    method ObserveValue(ev: Event, now: int)
      modifies `debounce, `pending, `log
      ensures Model() == Observe(old(Model()), ev, now)
    {
      var key := KeyOf(ev);
      log := log + [Observed(key, ev.value, now)];
      if key in debounce && debounce[key].value == ev.value {
        debounce := debounce[key := debounce[key].(device := ev.device)];
        return;
      }
      if key in debounce {
        StopAll(debounce[key].timers);
      }
      debounce := debounce[key := Entry(ev.value, now, {}, ev.device, map[])];
    }

    /** The condition to activate, or the empty string. */
    method DebounceDispatch(w: Candidate, ev: Event, now: int) returns (condition: string)
      modifies `debounce, `log
      ensures Model() == Dispatch(old(Model()), w, KeyOf(ev), now)
      ensures condition == if CanDispatch(old(Model()), w, KeyOf(ev), now) then w.condition else ""
    {
      var key := KeyOf(ev);
      if key !in debounce || w.name in debounce[key].fired {
        return "";
      }
      if now - debounce[key].firstSeen >= w.minDuration {
        debounce := debounce[key := debounce[key].(fired := debounce[key].fired + {w.name})];
        log := log + [Dispatched(key, w.name, w.minDuration, now)];
        return w.condition;
      }
      return "";
    }

    method ScheduleDeferred(w: Candidate, ev: Event, now: int)
      modifies `debounce, `pending, `nextTimer
      ensures Model() == Schedule(old(Model()), w, KeyOf(ev), now, Cfg())
    {
      if !deferred {
        return;
      }
      var key := KeyOf(ev);
      if key !in debounce || w.name in debounce[key].fired || w.name in debounce[key].timers {
        return;
      }
      var fireAt := debounce[key].firstSeen + w.minDuration + epsilon;
      var delay := fireAt - now;
      if delay <= 0 {
        delay := epsilon;
      }
      pending := pending[nextTimer := Callback(key, w.name, now + delay)];
      debounce := debounce[key := debounce[key].(timers := debounce[key].timers[w.name := nextTimer])];
      nextTimer := nextTimer + 1;
    }

    /** Serve an event; `list` is None when listing the Bindings failed. The clock is read at every step. */
    method FindConditions(list: Option<seq<Binding>>, ev: Event, r: Readings) returns (results: seq<string>)
      modifies `debounce, `pending, `nextTimer, `log
      ensures (Model(), results) == Arrive(old(Model()), list, ev, r, Cfg())
    {
      results := [];
      if list.None? {
        return;
      }
      ObserveValue(ev, r.observed);
      ghost var s := Model();
      var winners := FindWinners(list.value, ev);
      for i := 0 to |winners|
        invariant (Model(), results) == Serve(s, winners[..i], KeyOf(ev), r, Cfg())
      {
        var w := winners[i];
        assert winners[..i + 1][..i] == winners[..i];
        ghost var s1, out := Model(), results;
        if w.minDuration <= 0 {
          results := results + [w.condition];
        } else {
          var cond := DebounceDispatch(w, ev, r.dispatch(w.name));
          if cond == "" {
            ScheduleDeferred(w, ev, r.schedule(w.name));
          } else {
            results := results + [cond];
          }
        }
        assert Model() == ServeOne(s1, w, KeyOf(ev), r, Cfg()).0;
        assert results == out + ServeOne(s1, w, KeyOf(ev), r, Cfg()).1;
      }
      assert winners[..|winners|] == winners;
    }

    /** The scheduler's due timer `id` runs; `activated` is what the callback dispatches. */
    method FireDeferred(id: nat, list: Option<seq<Binding>>, now: int) returns (activated: seq<string>)
      requires id in pending
      modifies `debounce, `pending, `log
      ensures (Model(), activated) == Deliver(old(Model()), list, id, now)
    {
      ghost var s := Model();
      var key, name := pending[id].key, pending[id].binding;
      pending := pending - {id};
      activated := [];
      if key !in debounce {
        return;
      }
      debounce := debounce[key := debounce[key].(timers := debounce[key].timers - {name})];
      ghost var begun := BeginFire(Expire(s, id), key, name);
      assert Model() == begun;
      if name in debounce[key].fired || list.None? {
        return;
      }
      var ev := Event(key.property, debounce[key].value, debounce[key].device);
      var found := FindBinding(list.value, name, ev);
      if found.None? || found.value.minDuration <= 0 {
        return;
      }
      var condition := DebounceDispatch(found.value, ev, now);
      if condition != "" {
        activated := [condition];
      }
    }
  }
}
