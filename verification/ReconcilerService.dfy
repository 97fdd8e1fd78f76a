/** The reconciler object: the maps it mutates, and the zone keeper it calls. */
module ReconcilerService {
  import opened Wrappers
  import opened ZoneRecord
  import opened ActivationStack
  import R = Reconciler

  class Service {
    var policies: map<string, R.Policy>
    var lastApplied: map<string, Values>
    var ttlTimers: map<R.TimerKey, int>
    const compute: R.Computers
    const registered: set<string>

    // The zone keeper at the other end of ApplyValues.
    var zones: map<string, Zone>

    ghost function Model(): R.State
      reads this
    {
      R.State(policies, lastApplied, zones, ttlTimers)
    }

    constructor (compute: R.Computers, registered: set<string>)
      ensures Model() == R.INITIAL && this.compute == compute && this.registered == registered
    {
      policies, lastApplied, ttlTimers, zones := map[], map[], map[], map[];
      this.compute, this.registered := compute, registered;
    }

    /** Drop the expired entries of the four axes. */
    method RemoveExpired(p: R.Policy, now: int) returns (kept: R.Policy)
      ensures kept == R.CompactAll(p, now)
    {
      var axes := [R.StateAxis, R.BrightnessAxis, R.ColorTempAxis, R.ColorAxis];
      kept := p;
      for i := 0 to |axes|
        invariant kept.Keys == p.Keys
        invariant forall j :: 0 <= j < i && axes[j] in p ==> kept[axes[j]] == Compact(p[axes[j]], now)
        invariant forall j :: i <= j < |axes| && axes[j] in p ==> kept[axes[j]] == p[axes[j]]
      {
        if axes[i] in kept {
          kept := kept[axes[i] := Compact(kept[axes[i]], now)];
        }
      }
      forall a | a in p ensures kept[a] == Compact(p[a], now) {
        assert a == axes[0] || a == axes[1] || a == axes[2] || a == axes[3];
      }
    }

    method ReconcileZone(zone: string, now: int, outcome: R.Outcome) returns (ok: bool)
      modifies `policies, `lastApplied, `zones
      ensures (Model(), ok) == R.Reconcile(old(Model()), zone, now, compute, outcome, true)
    {
      if zone !in policies {
        return true;
      }
      var policy := RemoveExpired(policies[zone], now);
      policies := policies[zone := policy];
      var composed := R.ApplyTopToValues(policy, now, compute);
      if composed.Err? {
        return false;
      }
      var target := composed.value;
      if zone in lastApplied && lastApplied[zone] == target {
        return true;
      }
      if target == NO_VALUES {
        return true;
      }
      if outcome != R.FailedBefore {
        var z := if zone in zones then zones[zone] else FRESH_ZONE;
        zones := zones[zone := ApplyTo(z, target)];
      }
      if outcome != R.Applied {
        return false;
      }
      lastApplied := lastApplied[zone := target];
      return true;
    }

    predicate Known(computer: string) {
      computer != "" && computer in registered
    }

    /** `axis` and `act` are None for an unspecified axis and a nil activation. */
    method PushActivation(
      zone: string, axis: Option<R.Axis>, act: Option<Entry>, policy: PushPolicy, clock: int, outcome: R.Outcome)
      returns (ok: bool)
      modifies `policies, `lastApplied, `zones, `ttlTimers
      ensures axis.None? || act.None? ==> Model() == old(Model()) && !ok
      ensures axis.Some? && act.Some? ==>
                var r := R.Request(zone, axis.value, act.value, policy, Known(act.value.payload.computer));
                (Model(), ok) == R.Step(old(Model()), R.OpPush(r, clock, outcome), compute, true)
    {
      if zone == "" || axis.None? || act.None? {
        return false;
      }
      ok := PushOnAxis(zone, axis.value, act.value, policy, clock, outcome);
    }

    method PushOnAxis(zone: string, axis: R.Axis, e: Entry, policy: PushPolicy, clock: int, outcome: R.Outcome)
      returns (ok: bool)
      requires zone != ""
      modifies `policies, `lastApplied, `zones, `ttlTimers
      ensures var r := R.Request(zone, axis, e, policy, Known(e.payload.computer));
              (Model(), ok) == R.Step(old(Model()), R.OpPush(r, clock, outcome), compute, true)
    {
      if zone !in policies {
        policies := policies[zone := map[]];
      }
      assert policies == old(policies)[zone := R.PolicyOf(old(policies), zone)];
      if !Known(e.payload.computer) {
        return false;
      }
      PushEntry(zone, axis, e, policy, clock);
      ghost var r := R.Request(zone, axis, e, policy, true);
      assert policies == R.Insert(old(policies), r);
      assert Model() == R.Prepare(old(Model()), R.OpPush(r, clock, outcome));
      ok := ReconcileZone(zone, clock, outcome);
    }

    /** The entry goes onto its axis, and a positive TTL arms its timer anew. */
    method PushEntry(zone: string, axis: R.Axis, e: Entry, policy: PushPolicy, clock: int)
      requires zone in policies
      modifies `policies, `ttlTimers
      ensures var p := old(policies)[zone];
              policies == old(policies)[zone := p[axis := Push(if axis in p then p[axis] else [], e, policy)]]
      ensures ttlTimers == if e.ttl.Some? && e.ttl.value > 0
                           then old(ttlTimers)[R.TimerKey(zone, axis, e.id) := clock + e.ttl.value]
                           else old(ttlTimers)
    {
      var p := policies[zone];
      var stack := if axis in p then p[axis] else [];
      policies := policies[zone := p[axis := Push(stack, e, policy)]];
      if e.ttl.Some? && e.ttl.value > 0 {
        ttlTimers := ttlTimers[R.TimerKey(zone, axis, e.id) := clock + e.ttl.value];
      }
    }

    method RemoveActivation(zone: string, id: string, clock: int, outcome: R.Outcome) returns (ok: bool)
      modifies `policies, `lastApplied, `zones
      ensures (Model(), ok) == R.Step(old(Model()), R.OpRemove(zone, id, clock, outcome), compute, true)
    {
      if zone !in policies {
        return true;
      }
      var p := policies[zone];
      var left := p;
      var todo := p.Keys;
      while todo != {}
        invariant todo <= p.Keys && left.Keys == p.Keys
        invariant forall a :: a in p ==> left[a] == if a in todo then p[a] else Remove(p[a], id)
        decreases |todo|
      {
        var a :| a in todo;
        left := left[a := Remove(left[a], id)];
        todo := todo - {a};
      }
      assert left == R.EvictAll(p, id);
      policies := policies[zone := left];
      ok := ReconcileZone(zone, clock, outcome);
    }

    /** The scheduler delivers the timer of `key`. */
    method TtlTimerFires(key: R.TimerKey, now: int, outcome: R.Outcome) returns (ok: bool)
      modifies `policies, `lastApplied, `zones, `ttlTimers
      ensures (Model(), ok) == R.Step(old(Model()), R.OpTimer(key, now, outcome), compute, true)
    {
      ttlTimers := ttlTimers - {key};
      ok := ReconcileZone(key.zone, now, outcome);
    }
  }
}
