/**
 The reconcile loop: per-zone policies of axis stacks, the composed target, the write to
 the zone keeper that is suppressed when the target repeats, and the TTL timers.

 Computers are a pure function of (name, now, args), as their interface documents.
 */
module Reconciler {
  import opened Wrappers
  import opened Canonical
  import opened ZoneRecord
  import opened ActivationStack

  datatype Axis = StateAxis | BrightnessAxis | ColorTempAxis | ColorAxis

  const ALL_AXES: set<Axis> := {StateAxis, BrightnessAxis, ColorTempAxis, ColorAxis}

  lemma EveryAxis(a: Axis)
    ensures a in ALL_AXES
  {
    match a case StateAxis => case BrightnessAxis => case ColorTempAxis => case ColorAxis =>
  }

  type Policy = map<Axis, seq<Entry>>

  type Computers = (string, int, map<string, string>) -> Result<Values>

  datatype TimerKey = TimerKey(zone: string, axis: Axis, id: string)

  /** How an ApplyValues call ends. A failure may come before or after the zone was changed. */
  datatype Outcome = Applied | FailedBefore | FailedAfterMerge

  datatype State = State(
    policies: map<string, Policy>, lastApplied: map<string, Values>,
    zones: map<string, Zone>, timers: map<TimerKey, int>)

  const INITIAL := State(map[], map[], map[], map[])

  // ------------------------------------------------------------------ policies

  function StackOf(p: Policy, axis: Axis): seq<Entry> {
    if axis in p then p[axis] else []
  }

  function PolicyOf(ps: map<string, Policy>, zone: string): Policy {
    if zone in ps then ps[zone] else map[]
  }

  function CompactAll(p: Policy, now: int): Policy {
    map a | a in p :: Compact(p[a], now)
  }

  function EvictAll(p: Policy, id: string): Policy {
    map a | a in p :: Remove(p[a], id)
  }

  function PushOn(p: Policy, axis: Axis, e: Entry, policy: PushPolicy): Policy {
    p[axis := Push(StackOf(p, axis), e, policy)]
  }

  // --------------------------------------------------------------- composition

  /** The output of the computer on top of the axis, if the axis has a top. */
  function Contribution(p: Policy, axis: Axis, now: int, compute: Computers): Option<Result<Values>> {
    match Top(StackOf(p, axis), now)
    case None => None
    case Some(e) => Some(compute(e.payload.computer, now, e.payload.args))
  }

  predicate Fails(p: Policy, axis: Axis, now: int, compute: Computers) {
    var c := Contribution(p, axis, now, compute);
    c.Some? && c.value.Err?
  }

  /** Of a computer's output only the fields of its own axis count. */
  function Take(target: Values, axis: Axis, v: Values): Values {
    match axis
    case StateAxis => target.(state := v.state)
    case BrightnessAxis => target.(brightness := v.brightness, brightnessValue := v.brightnessValue)
    case ColorTempAxis => target.(colorTemp := v.colorTemp, kelvin := v.kelvin)
    case ColorAxis => target.(color := v.color)
  }

  function ValuesOn(p: Policy, axis: Axis, now: int, compute: Computers): Values {
    var c := Contribution(p, axis, now, compute);
    if c.Some? && c.value.Ok? then c.value.value else NO_VALUES
  }

  /** Each axis among `axes` supplies its own fields; the others stay unset. */
  function ComposeOver(p: Policy, axes: set<Axis>, now: int, compute: Computers): Values {
    var st := if StateAxis in axes then ValuesOn(p, StateAxis, now, compute) else NO_VALUES;
    var br := if BrightnessAxis in axes then ValuesOn(p, BrightnessAxis, now, compute) else NO_VALUES;
    var ct := if ColorTempAxis in axes then ValuesOn(p, ColorTempAxis, now, compute) else NO_VALUES;
    var co := if ColorAxis in axes then ValuesOn(p, ColorAxis, now, compute) else NO_VALUES;
    Values(st.state, br.brightness, br.brightnessValue, ct.colorTemp, ct.kelvin, co.color)
  }

  function Compose(p: Policy, now: int, compute: Computers): Result<Values> {
    if exists axis :: axis in ALL_AXES && Fails(p, axis, now, compute) then Err
    else Ok(ComposeOver(p, ALL_AXES, now, compute))
  }

  lemma TakeComposes(p: Policy, done: set<Axis>, axis: Axis, now: int, compute: Computers)
    requires axis !in done && !Fails(p, axis, now, compute)
    ensures var c, acc := Contribution(p, axis, now, compute), ComposeOver(p, done, now, compute);
            ComposeOver(p, done + {axis}, now, compute) == if c.None? then acc else Take(acc, axis, c.value.value)
  {
  }

  lemma ComposeErr(p: Policy, axis: Axis, now: int, compute: Computers)
    requires Fails(p, axis, now, compute)
    ensures Compose(p, now, compute) == Err
  {
    EveryAxis(axis);
  }

  lemma ComposeOk(p: Policy, now: int, compute: Computers)
    requires forall a :: a in p ==> !Fails(p, a, now, compute)
    ensures Compose(p, now, compute) == Ok(ComposeOver(p, p.Keys, now, compute))
  {
    assert forall a :: a !in p ==> Contribution(p, a, now, compute) == None;
  }

  /** The fold over the axes, which a map hands out in any order. */
  method ApplyTopToValues(p: Policy, now: int, compute: Computers) returns (target: Result<Values>)
    ensures target == Compose(p, now, compute)
  {
    var acc := NO_VALUES;
    var todo := p.Keys;
    ghost var done: set<Axis> := {};
    while todo != {}
      invariant todo + done == p.Keys && todo !! done
      invariant forall a :: a in done ==> !Fails(p, a, now, compute)
      invariant acc == ComposeOver(p, done, now, compute)
      decreases |todo|
    {
      var axis :| axis in todo;
      var c := Contribution(p, axis, now, compute);
      if c.Some? && c.value.Err? {
        ComposeErr(p, axis, now, compute);
        return Err;
      }
      TakeComposes(p, done, axis, now, compute);
      if c.Some? {
        acc := Take(acc, axis, c.value.value);
      }
      todo, done := todo - {axis}, done + {axis};
    }
    assert done == p.Keys;
    ComposeOk(p, now, compute);
    return Ok(acc);
  }

  // --------------------------------------------------------------------- steps

  function ZoneOf(s: State, zone: string): Zone {
    if zone in s.zones then s.zones[zone] else FRESH_ZONE
  }

  /** The ApplyValues call as the zone keeper sees it. */
  function CallApply(s: State, zone: string, v: Values, outcome: Outcome): State {
    if outcome == FailedBefore then s
    else s.(zones := s.zones[zone := ApplyTo(ZoneOf(s, zone), v)])
  }

  /** Send a composed target, unless it repeats the last one or is empty. */
  function Write(s: State, zone: string, target: Values, outcome: Outcome, suppress: bool): (State, bool) {
    if suppress && zone in s.lastApplied && s.lastApplied[zone] == target then (s, true)
    else if suppress && target == NO_VALUES then (s, true)
    else
      var s' := CallApply(s, zone, target, outcome);
      if outcome == Applied then (s'.(lastApplied := s'.lastApplied[zone := target]), true) else (s', false)
  }

  /**
   One reconcile pass; the flag says whether it returned nil. With `suppress` false this is
   the simple reconciler that sends every composed target.
   */
  function Reconcile(s: State, zone: string, now: int, compute: Computers, outcome: Outcome, suppress: bool)
    : (State, bool)
  {
    if zone !in s.policies then (s, true)
    else
      var p := CompactAll(s.policies[zone], now);
      var s' := s.(policies := s.policies[zone := p]);
      match Compose(p, now, compute)
      case Err => (s', false)
      case Ok(target) => Write(s', zone, target, outcome, suppress)
  }

  /** What a push demands of the request before it touches a stack. */
  datatype Request = Request(zone: string, axis: Axis, e: Entry, policy: PushPolicy, registered: bool)

  function ArmTimer(ts: map<TimerKey, int>, r: Request, clock: int): map<TimerKey, int> {
    if r.e.ttl.Some? && r.e.ttl.value > 0 then ts[TimerKey(r.zone, r.axis, r.e.id) := clock + r.e.ttl.value]
    else ts
  }

  function Insert(ps: map<string, Policy>, r: Request): map<string, Policy> {
    ps[r.zone := PushOn(PolicyOf(ps, r.zone), r.axis, r.e, r.policy)]
  }

  function Evict(ps: map<string, Policy>, zone: string, id: string): map<string, Policy> {
    if zone in ps then ps[zone := EvictAll(ps[zone], id)] else ps
  }

  datatype Op =
    | OpPush(r: Request, at: int, outcome: Outcome)
    | OpRemove(zone: string, id: string, at: int, outcome: Outcome)
    | OpTick(zone: string, at: int, outcome: Outcome)
    | OpTimer(key: TimerKey, at: int, outcome: Outcome)

  predicate Accepted(r: Request) {
    r.zone != "" && r.registered
  }

  /**
   What an operation does to the stacks before it reconciles. A push of an unknown computer still
   creates the policy.
   */
  function PreparePolicies(ps: map<string, Policy>, op: Op): map<string, Policy> {
    match op
    case OpPush(r, _, _) =>
      if r.zone == "" then ps
      else if !r.registered then ps[r.zone := PolicyOf(ps, r.zone)]
      else Insert(ps, r)
    case OpRemove(zone, id, _, _) => Evict(ps, zone, id)
    case OpTick(_, _, _) => ps
    case OpTimer(_, _, _) => ps
  }

  /** An accepted push arms the timer of its source, replacing an older one; a delivered timer is gone. */
  function PrepareTimers(ts: map<TimerKey, int>, op: Op): map<TimerKey, int> {
    match op
    case OpPush(r, at, _) => if Accepted(r) then ArmTimer(ts, r, at) else ts
    case OpRemove(_, _, _, _) => ts
    case OpTick(_, _, _) => ts
    case OpTimer(key, _, _) => ts - {key}
  }

  function Prepare(s: State, op: Op): State {
    s.(policies := PreparePolicies(s.policies, op), timers := PrepareTimers(s.timers, op))
  }

  function ZoneOfOp(op: Op): string {
    match op
    case OpPush(r, _, _) => r.zone
    case OpRemove(zone, _, _, _) => zone
    case OpTick(zone, _, _) => zone
    case OpTimer(key, _, _) => key.zone
  }

  /** One call of the reconciler; the flag says whether it returned nil. A rejected push does not reconcile. */
  function Step(s: State, op: Op, compute: Computers, suppress: bool): (State, bool) {
    if op.OpPush? && !Accepted(op.r) then (Prepare(s, op), false)
    else Reconcile(Prepare(s, op), ZoneOfOp(op), op.at, compute, op.outcome, suppress)
  }

  function RunAll(ops: seq<Op>, compute: Computers, suppress: bool): State {
    if ops == [] then INITIAL
    else Step(RunAll(ops[..|ops| - 1], compute, suppress), ops[|ops| - 1], compute, suppress).0
  }

  // ------------------------------------------------- suppression is invisible

  /** Every cached target is one whose re-application changes nothing. */
  ghost predicate Settled(s: State) {
    forall zone :: zone in s.lastApplied ==> Holds(s, zone, s.lastApplied[zone])
  }

  predicate Holds(s: State, zone: string, v: Values) {
    ApplyTo(ZoneOf(s, zone), v) == ZoneOf(s, zone)
  }

  /** The two reconcilers agree on everything a zone, a stack or a timer shows. */
  ghost predicate SameView(s: State, a: State) {
    && s.policies == a.policies && s.timers == a.timers
    && forall zone :: ZoneOf(s, zone) == ZoneOf(a, zone)
  }

  /** No failed call left a mark on a zone. */
  predicate Clean(op: Op) {
    op.outcome != FailedAfterMerge
  }

  /** What either reconciler does to the zone of a pass. */
  lemma ReconcileZoneValue(s: State, zone: string, now: int, compute: Computers, outcome: Outcome, suppress: bool)
    requires outcome != FailedAfterMerge
    requires suppress && zone in s.lastApplied ==> Holds(s, zone, s.lastApplied[zone])
    ensures var s' := Reconcile(s, zone, now, compute, outcome, suppress).0;
            && (forall z :: z != zone ==> ZoneOf(s', z) == ZoneOf(s, z))
            && ZoneOf(s', zone) ==
               if zone !in s.policies || outcome != Applied then ZoneOf(s, zone)
               else
                 var c := Compose(CompactAll(s.policies[zone], now), now, compute);
                 if c.Ok? then ApplyTo(ZoneOf(s, zone), c.value) else ZoneOf(s, zone)
  {
  }

  /** A pass compacts the stacks of its zone and touches no timer, whatever it writes. */
  lemma ReconcileStacks(s: State, zone: string, now: int, compute: Computers, outcome: Outcome, suppress: bool)
    ensures var s' := Reconcile(s, zone, now, compute, outcome, suppress).0;
            && s'.timers == s.timers
            && s'.policies == if zone in s.policies then s.policies[zone := CompactAll(s.policies[zone], now)]
                              else s.policies
  {
  }

  lemma WriteSettled(s: State, zone: string, target: Values, outcome: Outcome)
    requires Settled(s) && outcome != FailedAfterMerge
    ensures Settled(Write(s, zone, target, outcome, true).0)
  {
    var s' := Write(s, zone, target, outcome, true).0;
    ApplyIdempotent(ZoneOf(s, zone), target);
    forall z | z in s'.lastApplied ensures Holds(s', z, s'.lastApplied[z]) {
      if z in s.lastApplied {
        assert Holds(s, z, s.lastApplied[z]);
      }
    }
  }

  lemma SameZonesSettled(s: State, s': State)
    requires Settled(s) && s'.zones == s.zones && s'.lastApplied == s.lastApplied
    ensures Settled(s')
  {
    forall z | z in s'.lastApplied ensures Holds(s', z, s'.lastApplied[z]) {
      assert Holds(s, z, s.lastApplied[z]);
    }
  }

  lemma ReconcileSettled(s: State, zone: string, now: int, compute: Computers, outcome: Outcome)
    requires Settled(s) && outcome != FailedAfterMerge
    ensures Settled(Reconcile(s, zone, now, compute, outcome, true).0)
  {
    if zone in s.policies {
      var p := CompactAll(s.policies[zone], now);
      var s1 := s.(policies := s.policies[zone := p]);
      SameZonesSettled(s, s1);
      var c := Compose(p, now, compute);
      if c.Ok? {
        WriteSettled(s1, zone, c.value, outcome);
      }
    }
  }

  lemma ReconcileRefines(s: State, a: State, zone: string, now: int, compute: Computers, outcome: Outcome)
    requires Settled(s) && SameView(s, a) && outcome != FailedAfterMerge
    ensures SameView(Reconcile(s, zone, now, compute, outcome, true).0,
                     Reconcile(a, zone, now, compute, outcome, false).0)
  {
    assert zone in s.lastApplied ==> Holds(s, zone, s.lastApplied[zone]);
    ReconcileZoneValue(s, zone, now, compute, outcome, true);
    ReconcileZoneValue(a, zone, now, compute, outcome, false);
    ReconcileStacks(s, zone, now, compute, outcome, true);
    ReconcileStacks(a, zone, now, compute, outcome, false);
    var s', a' := Reconcile(s, zone, now, compute, outcome, true).0, Reconcile(a, zone, now, compute, outcome, false).0;
    forall z ensures ZoneOf(s', z) == ZoneOf(a', z) {
      assert ZoneOf(s, z) == ZoneOf(a, z);
    }
  }

  lemma PrepareSameView(s: State, a: State, op: Op)
    requires SameView(s, a)
    ensures SameView(Prepare(s, op), Prepare(a, op))
  {
    forall z ensures ZoneOf(Prepare(s, op), z) == ZoneOf(Prepare(a, op), z) {
      assert ZoneOf(s, z) == ZoneOf(a, z);
    }
  }

  /** Over whole runs the suppressing reconciler shows what the one that always writes shows. */
  lemma {:induction false} SuppressionInvisible(ops: seq<Op>, compute: Computers)
    requires forall i :: 0 <= i < |ops| ==> Clean(ops[i])
    ensures SameView(RunAll(ops, compute, true), RunAll(ops, compute, false))
    ensures Settled(RunAll(ops, compute, true))
  {
    if ops != [] {
      var init := ops[..|ops| - 1];
      SuppressionInvisible(init, compute);
      var s, a, op := RunAll(init, compute, true), RunAll(init, compute, false), ops[|ops| - 1];
      PrepareSameView(s, a, op);
      SameZonesSettled(s, Prepare(s, op));
      ReconcileSettled(Prepare(s, op), ZoneOfOp(op), op.at, compute, op.outcome);
      ReconcileRefines(Prepare(s, op), Prepare(a, op), ZoneOfOp(op), op.at, compute, op.outcome);
    }
  }

  /** In every reachable state, a pass that returns nil leaves the zone merged with the composed target. */
  lemma {:induction false} NilMeansApplied(ops: seq<Op>, compute: Computers, zone: string, now: int, outcome: Outcome)
    requires forall i :: 0 <= i < |ops| ==> Clean(ops[i])
    requires outcome != FailedAfterMerge
    ensures var s := RunAll(ops, compute, true);
            var (s', ok) := Reconcile(s, zone, now, compute, outcome, true);
            zone in s.policies && ok ==>
              var c := Compose(CompactAll(s.policies[zone], now), now, compute);
              c.Ok? && ZoneOf(s', zone) == ApplyTo(ZoneOf(s, zone), c.value)
  {
    SuppressionInvisible(ops, compute);
    SettledNilApplies(RunAll(ops, compute, true), zone, now, compute, outcome);
  }

  lemma SettledNilApplies(s: State, zone: string, now: int, compute: Computers, outcome: Outcome)
    requires Settled(s) && outcome != FailedAfterMerge
    ensures var (s', ok) := Reconcile(s, zone, now, compute, outcome, true);
            zone in s.policies && ok ==>
              var c := Compose(CompactAll(s.policies[zone], now), now, compute);
              c.Ok? && ZoneOf(s', zone) == ApplyTo(ZoneOf(s, zone), c.value)
  {
    if zone in s.lastApplied {
      assert Holds(s, zone, s.lastApplied[zone]);
    }
  }

  /** A pass that composes nothing sends nothing and forgets nothing. */
  lemma EmptyTargetSendsNothing(s: State, zone: string, now: int, compute: Computers, outcome: Outcome)
    requires zone in s.policies && Compose(CompactAll(s.policies[zone], now), now, compute) == Ok(NO_VALUES)
    ensures var (s', ok) := Reconcile(s, zone, now, compute, outcome, true);
            ok && s'.zones == s.zones && s'.lastApplied == s.lastApplied && s'.timers == s.timers
  {
  }

  /** A pass whose computer fails changes nothing but the stacks it compacts. */
  lemma FailedComputeSendsNothing(
    s: State, zone: string, now: int, compute: Computers, outcome: Outcome, suppress: bool)
    requires zone in s.policies && Compose(CompactAll(s.policies[zone], now), now, compute).Err?
    ensures var (s', ok) := Reconcile(s, zone, now, compute, outcome, suppress);
            !ok && s'.zones == s.zones && s'.lastApplied == s.lastApplied
  {
  }

  /**
   What a failure after the merge does: the zone has moved, the cache has not. The next pass
   that composes the cached target again returns nil without a call, and leaves the zone
   merged with that target iff the failed target agreed with it.
   */
  lemma {:induction false} FailedApplyExact(s: State, zone: string, now: int, compute: Computers, failed: Values)
    requires zone in s.policies && zone in s.lastApplied && Holds(s, zone, s.lastApplied[zone])
    requires Compose(CompactAll(s.policies[zone], now), now, compute) == Ok(s.lastApplied[zone])
    ensures var s1 := CallApply(s, zone, failed, FailedAfterMerge);
            var (s2, ok) := Reconcile(s1, zone, now, compute, Applied, true);
            && ok
            && (ZoneOf(s2, zone) == ApplyTo(ZoneOf(s1, zone), s.lastApplied[zone])
                <==> Agrees(failed, s.lastApplied[zone]))
  {
    HoldsAfterIffAgrees(ZoneOf(s, zone), s.lastApplied[zone], failed);
  }

  // A run in which such a failure sticks: a switch says On, a motion sensor's Off overrides it, its write fails
  // after the merge, it expires, and the next tick composes On again.

  const LIT := NO_VALUES.(state := On)

  const DARK := NO_VALUES.(state := Off)

  const SWITCH := Entry("switch", Payload("on", map[], 50), Some(0), None)

  const MOTION := Entry("motion", Payload("off", map[], 100), Some(1), Some(10))

  function PushTo(e: Entry): Request {
    Request("hall", StateAxis, e, Refresh, true)
  }

  const HALL_RUN := [OpPush(PushTo(SWITCH), 0, Applied), OpPush(PushTo(MOTION), 1, FailedAfterMerge)]

  function Hall(entries: seq<Entry>, state: ZoneState, timers: map<TimerKey, int>): State {
    State(HallPolicies(entries), map["hall" := LIT], map["hall" := FRESH_ZONE.(state := state)], timers)
  }

  const MOTION_TIMER := map[TimerKey("hall", StateAxis, "motion") := 11]

  ghost predicate OnOff(compute: Computers) {
    forall now :: compute("on", now, map[]) == Ok(LIT) && compute("off", now, map[]) == Ok(DARK)
  }

  lemma ComposeOne(entries: seq<Entry>, now: int, compute: Computers, e: Entry, v: Values)
    requires Top(entries, now) == Some(e) && compute(e.payload.computer, now, e.payload.args) == Ok(v)
    ensures Compose(map[StateAxis := entries], now, compute) == Ok(NO_VALUES.(state := v.state))
  {
    ComposeOk(map[StateAxis := entries], now, compute);
  }

  lemma CompactOne(entries: seq<Entry>, now: int)
    ensures CompactAll(map[StateAxis := entries], now) == map[StateAxis := Compact(entries, now)]
  {
  }

  lemma SwitchStack(now: int)
    ensures Compact([SWITCH], now) == [SWITCH] && Top([SWITCH], now) == Some(SWITCH)
  {
    assert [SWITCH] == [] + [SWITCH];
    CompactSnoc([], SWITCH, now);
    TopSnoc([], SWITCH, now);
  }

  lemma MotionStack(now: int)
    ensures Push([SWITCH], MOTION, Refresh) == [SWITCH, MOTION]
    ensures now <= 11 ==> Compact([SWITCH, MOTION], now) == [SWITCH, MOTION]
    ensures now <= 11 ==> Top([SWITCH, MOTION], now) == Some(MOTION)
    ensures now > 11 ==> Compact([SWITCH, MOTION], now) == [SWITCH]
  {
    PushNew([SWITCH], MOTION, Refresh);
    assert [SWITCH, MOTION] == [SWITCH] + [MOTION];
    SwitchStack(now);
    CompactSnoc([SWITCH], MOTION, now);
    TopSnoc([SWITCH], MOTION, now);
  }

  function HallPolicies(entries: seq<Entry>): map<string, Policy> {
    map["hall" := map[StateAxis := entries]]
  }

  lemma ReconcileComposed(
    s: State, zone: string, p: Policy, now: int, compute: Computers, outcome: Outcome, v: Values)
    requires zone in s.policies && p == CompactAll(s.policies[zone], now) && Compose(p, now, compute) == Ok(v)
    ensures Reconcile(s, zone, now, compute, outcome, true)
            == Write(s.(policies := s.policies[zone := p]), zone, v, outcome, true)
  {
  }

  lemma ReconcileHall(
    s: State, entries: seq<Entry>, now: int, compute: Computers, outcome: Outcome, e: Entry, v: Values,
    left: seq<Entry>)
    requires s.policies == HallPolicies(entries) && left == Compact(entries, now) && Top(left, now) == Some(e)
    requires compute(e.payload.computer, now, e.payload.args) == Ok(v) && v == NO_VALUES.(state := v.state)
    ensures Reconcile(s, "hall", now, compute, outcome, true)
            == Write(s.(policies := HallPolicies(left)), "hall", v, outcome, true)
  {
    CompactOne(entries, now);
    ComposeOne(left, now, compute, e, v);
    ReconcileComposed(s, "hall", map[StateAxis := left], now, compute, outcome, v);
    assert s.policies["hall" := map[StateAxis := left]] == HallPolicies(left);
  }

  lemma PushHall(s: State, entries: seq<Entry>, e: Entry, at: int, outcome: Outcome)
    requires s.policies == HallPolicies(entries) || (s.policies == map[] && entries == [])
    ensures PreparePolicies(s.policies, OpPush(PushTo(e), at, outcome)) == HallPolicies(Push(entries, e, Refresh))
  {
    var pushed := Push(entries, e, Refresh);
    assert PolicyOf(s.policies, "hall")[StateAxis := pushed] == map[StateAxis := pushed];
  }

  lemma WriteHall(entries: seq<Entry>, timers: map<TimerKey, int>)
    ensures Write(State(HallPolicies(entries), map[], map[], timers), "hall", LIT, Applied, true)
            == (Hall(entries, On, timers), true)
    ensures Write(Hall(entries, On, timers), "hall", DARK, FailedAfterMerge, true)
            == (Hall(entries, Off, timers), false)
    ensures Write(Hall(entries, Off, timers), "hall", LIT, Applied, true) == (Hall(entries, Off, timers), true)
  {
    var on, off := FRESH_ZONE.(state := On), FRESH_ZONE.(state := Off);
    assert map["hall" := on]["hall" := off] == map["hall" := off];
    assert map[]["hall" := on] == map["hall" := on];
  }

  lemma SwitchedOn(compute: Computers)
    requires OnOff(compute)
    ensures Step(INITIAL, HALL_RUN[0], compute, true) == (Hall([SWITCH], On, map[]), true)
  {
    var s := Prepare(INITIAL, HALL_RUN[0]);
    PushNew([], SWITCH, Refresh);
    PushHall(INITIAL, [], SWITCH, 0, Applied);
    assert s == State(HallPolicies([SWITCH]), map[], map[], map[]);
    SwitchStack(0);
    ReconcileHall(s, [SWITCH], 0, compute, Applied, SWITCH, LIT, [SWITCH]);
    WriteHall([SWITCH], map[]);
  }

  lemma OverrideFails(compute: Computers)
    requires OnOff(compute)
    ensures Step(Hall([SWITCH], On, map[]), HALL_RUN[1], compute, true)
            == (Hall([SWITCH, MOTION], Off, MOTION_TIMER), false)
  {
    var s := Prepare(Hall([SWITCH], On, map[]), HALL_RUN[1]);
    MotionStack(1);
    PushHall(Hall([SWITCH], On, map[]), [SWITCH], MOTION, 1, FailedAfterMerge);
    assert s == Hall([SWITCH, MOTION], On, MOTION_TIMER);
    ReconcileHall(s, [SWITCH, MOTION], 1, compute, FailedAfterMerge, MOTION, DARK, [SWITCH, MOTION]);
    WriteHall([SWITCH, MOTION], MOTION_TIMER);
  }

  lemma TickSuppressed(compute: Computers)
    requires OnOff(compute)
    ensures Step(Hall([SWITCH, MOTION], Off, MOTION_TIMER), OpTick("hall", 20, Applied), compute, true)
            == (Hall([SWITCH], Off, MOTION_TIMER), true)
  {
    var s := Hall([SWITCH, MOTION], Off, MOTION_TIMER);
    MotionStack(20);
    SwitchStack(20);
    ReconcileHall(s, [SWITCH, MOTION], 20, compute, Applied, SWITCH, LIT, [SWITCH]);
    WriteHall([SWITCH], MOTION_TIMER);
  }

  lemma HallRuns(compute: Computers)
    requires OnOff(compute)
    ensures RunAll(HALL_RUN, compute, true) == Hall([SWITCH, MOTION], Off, MOTION_TIMER)
  {
    SwitchedOn(compute);
    OverrideFails(compute);
    assert HALL_RUN[..1] == [HALL_RUN[0]] && [HALL_RUN[0]][..0] == [];
    assert RunAll([HALL_RUN[0]], compute, true) == Hall([SWITCH], On, map[]);
  }

  /** The tick returns nil with On alone on the stack, and the hall stays off. */
  lemma {:induction false} FailedApplySticks(compute: Computers)
    requires OnOff(compute)
    ensures var (s, ok) := Step(RunAll(HALL_RUN, compute, true), OpTick("hall", 20, Applied), compute, true);
            && ok && ZoneOf(s, "hall").state == Off
            && Compose(PolicyOf(s.policies, "hall"), 20, compute) == Ok(LIT)
  {
    HallRuns(compute);
    TickSuppressed(compute);
    SwitchStack(20);
    ComposeOne([SWITCH], 20, compute, SWITCH, LIT);
  }
}
