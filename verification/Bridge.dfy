/**
 The bridge that turns Remediations into pushes on the stacks, and the priority tiers it
 keeps: alerts above bindings above time windows, in every reachable state.
 */
module Bridge {
  import opened Wrappers
  import opened Canonical
  import opened ZoneRecord
  import opened ActivationStack
  import R = Reconciler
  import opened ReconcilerRuns

  const COMPUTE_PRIORITY := 50
  const SCENE_PRIORITY := 60
  const IMPERATIVE_PRIORITY := 100
  const ALERT_PRIORITY := 200

  const TTL_MULTIPLIER := 3
  const FALLBACK_TTL := 180_000000000      // 3 minutes
  const IMPERATIVE_TTL := 300_000000000    // 5 minutes

  const STATIC_COMPUTER := "static"

  datatype Scene = Scene(brightness: string, colorTemp: string, color: string)

  /** `state` is the parsed active_state; `scene` is None when there is none or the lookup failed. */
  datatype Remediation = Remediation(
    zone: string, compute: string, computeArgs: map<string, string>, state: ZoneState, scene: Option<Scene>)

  datatype Source = Source(kind: SourceKind, name: string, pushedAt: int, registered: set<string>)

  function StateName(state: ZoneState): string {
    match state
    case StateUnspecified => "ZONE_STATE_UNSPECIFIED"
    case On => "ZONE_STATE_ON"
    case Off => "ZONE_STATE_OFF"
    case OffTimer => "ZONE_STATE_OFFTIMER"
    case Color => "ZONE_STATE_COLOR"
    case RandomColor => "ZONE_STATE_RANDOMCOLOR"
  }

  function RequestFor(
    src: Source, zone: string, axis: R.Axis, computer: string, args: map<string, string>, priority: int, ttl: int)
    : R.Request
  {
    var e := Entry(ActivationId(src.kind, src.name), Payload(computer, args, priority), Some(src.pushedAt), Some(ttl));
    R.Request(zone, axis, e, Refresh, computer in src.registered)
  }

  predicate Claims(v: Values, axis: R.Axis) {
    match axis
    case StateAxis => v.state != StateUnspecified
    case BrightnessAxis => v.brightness != BrightnessUnspecified || v.brightnessValue != 0.0
    case ColorTempAxis => v.colorTemp != ColorTempUnspecified || v.kelvin != 0
    case ColorAxis => v.color != ""
  }

  function ClaimNext(axes: seq<R.Axis>, v: Values, axis: R.Axis): seq<R.Axis> {
    if Claims(v, axis) then axes + [axis] else axes
  }

  /** The axes on which a computer's output is not zero. */
  function ClaimedAxes(v: Values): seq<R.Axis> {
    var onOff := ClaimNext([], v, R.StateAxis);
    ClaimNext(ClaimNext(ClaimNext(onOff, v, R.BrightnessAxis), v, R.ColorTempAxis), v, R.ColorAxis)
  }

  function TakeAll(target: Values, axes: seq<R.Axis>, v: Values): Values {
    if axes == [] then target else R.Take(TakeAll(target, axes[..|axes| - 1], v), axes[|axes| - 1], v)
  }

  function Augmented(args: map<string, string>, cond: string, zone: string): map<string, string> {
    args["_condition" := cond]["_zone" := zone]
  }

  function ComputePushes(
    src: Source, rem: Remediation, axes: seq<R.Axis>, args: map<string, string>, priority: int, ttl: int)
    : seq<R.Request>
  {
    if axes == [] then []
    else ComputePushes(src, rem, axes[..|axes| - 1], args, priority, ttl)
         + [RequestFor(src, rem.zone, axes[|axes| - 1], rem.compute, args, priority, ttl)]
  }

  function StaticPush(src: Source, zone: string, axis: R.Axis, key: string, value: string, priority: int, ttl: int)
    : seq<R.Request>
  {
    if value == "" then [] else [RequestFor(src, zone, axis, STATIC_COMPUTER, map[key := value], priority, ttl)]
  }

  function StatePushes(src: Source, rem: Remediation, priority: int, ttl: int): seq<R.Request> {
    if rem.state == StateUnspecified then []
    else StaticPush(src, rem.zone, R.StateAxis, "state", StateName(rem.state), priority, ttl)
  }

  function ScenePushes(src: Source, rem: Remediation, priority: int, ttl: int): seq<R.Request> {
    match rem.scene
    case None => []
    case Some(sc) =>
      StaticPush(src, rem.zone, R.BrightnessAxis, "brightness", sc.brightness, priority, ttl)
      + StaticPush(src, rem.zone, R.ColorTempAxis, "color_temperature", sc.colorTemp, priority, ttl)
      + StaticPush(src, rem.zone, R.ColorAxis, "color", sc.color, priority, ttl)
  }

  /** Pushes of the evaluation loop for a Remediation whose window is open (or that has none). */
  function TimeWindowPushes(
    cond: string, rem: Remediation, now: int, inWindow: bool, interval: int, registered: set<string>,
    compute: R.Computers)
    : seq<R.Request>
  {
    var ttl := if TTL_MULTIPLIER * interval <= 0 then FALLBACK_TTL else TTL_MULTIPLIER * interval;
    var src := Source(TimeWindow, cond, now, registered);
    var args := Augmented(rem.computeArgs, cond, rem.zone);
    if !inWindow then []
    else if rem.compute != "" then
      if rem.compute !in registered then []
      else match compute(rem.compute, now, args)
        case Err => []
        case Ok(out) => ComputePushes(src, rem, ClaimedAxes(out), args, COMPUTE_PRIORITY, ttl)
    else StatePushes(src, rem, SCENE_PRIORITY, ttl) + ScenePushes(src, rem, SCENE_PRIORITY, ttl)
  }

  /** Pushes of a binding or alert. A computer may suggest its own TTL. */
  function ImperativePushes(
    cond: string, rem: Remediation, now: int, kind: SourceKind, registered: set<string>, compute: R.Computers,
    suggested: (string, map<string, string>) -> int)
    : seq<R.Request>
  {
    var priority := if kind == Alert then ALERT_PRIORITY else IMPERATIVE_PRIORITY;
    var src := Source(kind, cond, now, registered);
    var args := Augmented(rem.computeArgs, cond, rem.zone);
    if rem.compute != "" then
      if rem.compute !in registered then []
      else match compute(rem.compute, now, args)
        case Err => []
        case Ok(out) =>
          var ttl := if suggested(rem.compute, args) > 0 then suggested(rem.compute, args) else IMPERATIVE_TTL;
          ComputePushes(src, rem, ClaimedAxes(out), args, priority, ttl)
    else StatePushes(src, rem, priority, IMPERATIVE_TTL) + ScenePushes(src, rem, priority, IMPERATIVE_TTL)
  }

  // -------------------------------------------------------------- claimed axes

  lemma TakeNext(axes: seq<R.Axis>, v: Values, axis: R.Axis)
    requires R.Take(TakeAll(NO_VALUES, axes, v), axis, NO_VALUES) == TakeAll(NO_VALUES, axes, v)
    ensures TakeAll(NO_VALUES, ClaimNext(axes, v, axis), v) == R.Take(TakeAll(NO_VALUES, axes, v), axis, v)
  {
    assert (axes + [axis])[..|axes|] == axes;
  }

  /** Folding in the claimed axes alone gives back the whole output. */
  lemma ClaimedAxesCarryAll(v: Values)
    ensures TakeAll(NO_VALUES, ClaimedAxes(v), v) == v
  {
    var a := ClaimNext([], v, R.StateAxis);
    var b := ClaimNext(a, v, R.BrightnessAxis);
    var c := ClaimNext(b, v, R.ColorTempAxis);
    TakeNext([], v, R.StateAxis);
    TakeNext(a, v, R.BrightnessAxis);
    TakeNext(b, v, R.ColorTempAxis);
    TakeNext(c, v, R.ColorAxis);
  }

  /** An axis is claimed iff its share of the output is not empty. */
  lemma {:induction false} ClaimedAxesExact(v: Values, axis: R.Axis)
    ensures axis in ClaimedAxes(v) <==> R.Take(NO_VALUES, axis, v) != NO_VALUES
  {
    assert axis in ClaimedAxes(v) <==> Claims(v, axis);
  }

  // ------------------------------------------------------- what is pushed and when

  /** A push that refreshes: source, zone, axis, computer, arguments, priority, stamp and TTL. */
  predicate Asks(
    r: R.Request, id: string, zone: string, axis: R.Axis, computer: string, args: map<string, string>, priority: int,
    now: int, ttl: int)
  {
    && r.zone == zone && r.axis == axis && r.policy == Refresh
    && r.e.id == id && r.e.pushedAt == Some(now) && r.e.ttl == Some(ttl)
    && r.e.payload.computer == computer && r.e.payload.args == args && r.e.payload.priority == priority
  }

  /** What a Remediation without a computer says about an axis, and under which argument. */
  function StaticArg(rem: Remediation, axis: R.Axis): (string, string) {
    match axis
    case StateAxis => ("state", if rem.state == StateUnspecified then "" else StateName(rem.state))
    case BrightnessAxis => ("brightness", if rem.scene.None? then "" else rem.scene.value.brightness)
    case ColorTempAxis => ("color_temperature", if rem.scene.None? then "" else rem.scene.value.colorTemp)
    case ColorAxis => ("color", if rem.scene.None? then "" else rem.scene.value.color)
  }

  lemma StaticPushesExact(src: Source, rem: Remediation, priority: int, ttl: int, r: R.Request)
    ensures r in StatePushes(src, rem, priority, ttl) + ScenePushes(src, rem, priority, ttl) <==>
            && StaticArg(rem, r.axis).1 != "" && r.registered == ("static" in src.registered)
            && Asks(r, ActivationId(src.kind, src.name), rem.zone, r.axis, "static",
                    map[StaticArg(rem, r.axis).0 := StaticArg(rem, r.axis).1], priority, src.pushedAt, ttl)
  {
  }

  lemma {:induction false} ComputePushesExact(
    src: Source, rem: Remediation, axes: seq<R.Axis>, args: map<string, string>, priority: int, ttl: int, r: R.Request)
    ensures r in ComputePushes(src, rem, axes, args, priority, ttl) <==>
            && r.axis in axes && r.registered == (rem.compute in src.registered)
            && Asks(r, ActivationId(src.kind, src.name), rem.zone, r.axis, rem.compute, args, priority, src.pushedAt,
                    ttl)
    ensures |ComputePushes(src, rem, axes, args, priority, ttl)| == |axes|
  {
    if axes != [] {
      ComputePushesExact(src, rem, axes[..|axes| - 1], args, priority, ttl, r);
      assert axes == axes[..|axes| - 1] + [axes[|axes| - 1]];
    }
  }

  /** The arguments a computer gets: those of the Remediation, and the Condition and zone it runs for. */
  function CallArgs(rem: Remediation, cond: string): map<string, string> {
    rem.computeArgs["_condition" := cond]["_zone" := rem.zone]
  }

  /** A computer's output says something about the axis. */
  predicate SaysOf(out: Values, axis: R.Axis) {
    match axis
    case StateAxis => out.state != StateUnspecified
    case BrightnessAxis => out.brightness != BrightnessUnspecified || out.brightnessValue != 0.0
    case ColorTempAxis => out.colorTemp != ColorTempUnspecified || out.kelvin != 0
    case ColorAxis => out.color != ""
  }

  lemma ClaimedIffSaid(out: Values, axis: R.Axis)
    ensures axis in ClaimedAxes(out) <==> SaysOf(out, axis)
  {
    ClaimedAxesExact(out, axis);
  }

  /**
   What the evaluation loop pushes: nothing outside the window; inside it, for a Remediation with a registered
   computer that succeeds, the computer at priority 50 on the axes its output speaks of, otherwise the static values
   at 60; stamped now, with a TTL of three intervals, or three minutes without one.
   */
  lemma {:induction false} TimeWindowPushesExact(
    cond: string, rem: Remediation, now: int, inWindow: bool, interval: int, registered: set<string>,
    compute: R.Computers, r: R.Request)
    ensures var id := "SOURCE_KIND_TIME_WINDOW:" + cond;
            var ttl := if interval <= 0 then 180_000000000 else 3 * interval;
            var args := CallArgs(rem, cond);
            var out := compute(rem.compute, now, args);
            r in TimeWindowPushes(cond, rem, now, inWindow, interval, registered, compute) <==>
              && inWindow
              && if rem.compute == "" then
                   && StaticArg(rem, r.axis).1 != "" && r.registered == ("static" in registered)
                   && Asks(r, id, rem.zone, r.axis, "static", map[StaticArg(rem, r.axis).0 := StaticArg(rem, r.axis).1],
                           60, now, ttl)
                 else
                   && rem.compute in registered && out.Ok? && SaysOf(out.value, r.axis) && r.registered
                   && Asks(r, id, rem.zone, r.axis, rem.compute, args, 50, now, ttl)
  {
    var ttl := if interval <= 0 then 180_000000000 else 3 * interval;
    var src := Source(TimeWindow, cond, now, registered);
    var args := CallArgs(rem, cond);
    assert args == Augmented(rem.computeArgs, cond, rem.zone);
    assert ActivationId(TimeWindow, cond) == "SOURCE_KIND_TIME_WINDOW:" + cond;
    StaticPushesExact(src, rem, 60, ttl, r);
    var out := compute(rem.compute, now, args);
    if out.Ok? {
      ComputePushesExact(src, rem, ClaimedAxes(out.value), args, 50, ttl, r);
      ClaimedIffSaid(out.value, r.axis);
    }
  }

  /**
   What a binding or alert pushes: the same, at 100 or 200, with five minutes or the TTL that the computer suggests.
   */
  lemma {:induction false} ImperativePushesExact(
    cond: string, rem: Remediation, now: int, kind: SourceKind, registered: set<string>, compute: R.Computers,
    suggested: (string, map<string, string>) -> int, r: R.Request)
    requires kind == BindingSource || kind == Alert
    ensures var id := (if kind == Alert then "SOURCE_KIND_ALERT:" else "SOURCE_KIND_BINDING:") + cond;
            var priority := if kind == Alert then 200 else 100;
            var args := CallArgs(rem, cond);
            var out := compute(rem.compute, now, args);
            var advice := suggested(rem.compute, args);
            r in ImperativePushes(cond, rem, now, kind, registered, compute, suggested) <==>
              if rem.compute == "" then
                && StaticArg(rem, r.axis).1 != "" && r.registered == ("static" in registered)
                && Asks(r, id, rem.zone, r.axis, "static", map[StaticArg(rem, r.axis).0 := StaticArg(rem, r.axis).1],
                        priority, now, 300_000000000)
              else
                && rem.compute in registered && out.Ok? && SaysOf(out.value, r.axis) && r.registered
                && Asks(r, id, rem.zone, r.axis, rem.compute, args, priority, now,
                        if advice > 0 then advice else 300_000000000)
  {
    var priority := if kind == Alert then 200 else 100;
    var src := Source(kind, cond, now, registered);
    var args := CallArgs(rem, cond);
    assert args == Augmented(rem.computeArgs, cond, rem.zone);
    assert ActivationId(kind, cond) == (if kind == Alert then "SOURCE_KIND_ALERT:" else "SOURCE_KIND_BINDING:") + cond;
    StaticPushesExact(src, rem, priority, 300_000000000, r);
    var out := compute(rem.compute, now, args);
    var advice := suggested(rem.compute, args);
    if out.Ok? {
      ComputePushesExact(
        src, rem, ClaimedAxes(out.value), args, priority, if advice > 0 then advice else 300_000000000, r);
      ClaimedIffSaid(out.value, r.axis);
    }
  }

  // --------------------------------------------------------------------- tiers

  predicate InTier(kind: SourceKind, priority: int) {
    match kind
    case TimeWindow => priority == COMPUTE_PRIORITY || priority == SCENE_PRIORITY
    case BindingSource => priority == IMPERATIVE_PRIORITY
    case Alert => priority == ALERT_PRIORITY
    case _ => false
  }

  ghost predicate HasKind(e: Entry, kind: SourceKind) {
    exists name :: e.id == ActivationId(kind, name)
  }

  ghost predicate Tiered(e: Entry) {
    exists kind :: HasKind(e, kind) && InTier(kind, Priority(e))
  }

  lemma KindUnique(e: Entry, k: SourceKind, k': SourceKind)
    requires HasKind(e, k) && HasKind(e, k')
    ensures k == k'
  {
    var n :| e.id == ActivationId(k, n);
    var n' :| e.id == ActivationId(k', n');
    ActivationIdInjective(k, n, k', n');
  }

  ghost predicate AllInTier(rs: seq<R.Request>, kind: SourceKind) {
    forall r :: r in rs ==> HasKind(r.e, kind) && InTier(kind, Priority(r.e))
  }

  lemma RequestInTier(
    src: Source, zone: string, axis: R.Axis, computer: string, args: map<string, string>, priority: int, ttl: int)
    requires InTier(src.kind, priority)
    ensures var r := RequestFor(src, zone, axis, computer, args, priority, ttl);
            HasKind(r.e, src.kind) && InTier(src.kind, Priority(r.e))
  {
    assert RequestFor(src, zone, axis, computer, args, priority, ttl).e.id == ActivationId(src.kind, src.name);
  }

  lemma {:induction false} ComputePushesInTier(
    src: Source, rem: Remediation, axes: seq<R.Axis>, args: map<string, string>, priority: int, ttl: int)
    requires InTier(src.kind, priority)
    ensures AllInTier(ComputePushes(src, rem, axes, args, priority, ttl), src.kind)
  {
    if axes != [] {
      ComputePushesInTier(src, rem, axes[..|axes| - 1], args, priority, ttl);
      RequestInTier(src, rem.zone, axes[|axes| - 1], rem.compute, args, priority, ttl);
    }
  }

  lemma StaticPushInTier(src: Source, zone: string, axis: R.Axis, key: string, value: string, priority: int, ttl: int)
    requires InTier(src.kind, priority)
    ensures AllInTier(StaticPush(src, zone, axis, key, value, priority, ttl), src.kind)
  {
    RequestInTier(src, zone, axis, STATIC_COMPUTER, map[key := value], priority, ttl);
  }

  lemma StaticPushesInTier(src: Source, rem: Remediation, priority: int, ttl: int)
    requires InTier(src.kind, priority)
    ensures AllInTier(StatePushes(src, rem, priority, ttl) + ScenePushes(src, rem, priority, ttl), src.kind)
  {
    StaticPushInTier(src, rem.zone, R.StateAxis, "state", StateName(rem.state), priority, ttl);
    if rem.scene.Some? {
      var sc := rem.scene.value;
      StaticPushInTier(src, rem.zone, R.BrightnessAxis, "brightness", sc.brightness, priority, ttl);
      StaticPushInTier(src, rem.zone, R.ColorTempAxis, "color_temperature", sc.colorTemp, priority, ttl);
      StaticPushInTier(src, rem.zone, R.ColorAxis, "color", sc.color, priority, ttl);
    }
  }

  /** Everything the evaluation loop pushes is a time-window source at 50 or 60. */
  lemma {:induction false} TimeWindowPushesInTier(
    cond: string, rem: Remediation, now: int, inWindow: bool, interval: int, registered: set<string>,
    compute: R.Computers)
    ensures AllInTier(TimeWindowPushes(cond, rem, now, inWindow, interval, registered, compute), TimeWindow)
  {
    var ttl := if TTL_MULTIPLIER * interval <= 0 then FALLBACK_TTL else TTL_MULTIPLIER * interval;
    var src := Source(TimeWindow, cond, now, registered);
    var args := Augmented(rem.computeArgs, cond, rem.zone);
    StaticPushesInTier(src, rem, SCENE_PRIORITY, ttl);
    var out := compute(rem.compute, now, args);
    if out.Ok? {
      ComputePushesInTier(src, rem, ClaimedAxes(out.value), args, COMPUTE_PRIORITY, ttl);
    }
  }

  /** Everything a binding pushes is at 100, everything an alert pushes at 200. */
  lemma ImperativePushesInTier(
    cond: string, rem: Remediation, now: int, kind: SourceKind, registered: set<string>, compute: R.Computers,
    suggested: (string, map<string, string>) -> int)
    requires kind == BindingSource || kind == Alert
    ensures AllInTier(ImperativePushes(cond, rem, now, kind, registered, compute, suggested), kind)
  {
    var priority := if kind == Alert then ALERT_PRIORITY else IMPERATIVE_PRIORITY;
    var src := Source(kind, cond, now, registered);
    var args := Augmented(rem.computeArgs, cond, rem.zone);
    StaticPushesInTier(src, rem, priority, IMPERATIVE_TTL);
    var out := compute(rem.compute, now, args);
    if out.Ok? {
      var ttl := if suggested(rem.compute, args) > 0 then suggested(rem.compute, args) else IMPERATIVE_TTL;
      ComputePushesInTier(src, rem, ClaimedAxes(out.value), args, priority, ttl);
    }
  }

  /** A run whose accepted pushes are requests that the bridge makes. */
  ghost predicate FromBridge(ops: seq<R.Op>, compute: R.Computers) {
    forall i :: 0 <= i < |ops| && ops[i].OpPush? && R.Accepted(ops[i].r) ==>
                  FromTimeWindow(ops[i].r, compute) || FromActivation(ops[i].r, compute)
  }

  /** The evaluation loop makes this request for some Remediation, at some time. */
  ghost predicate FromTimeWindow(r: R.Request, compute: R.Computers) {
    exists cond, rem, now, inWindow, interval, registered ::
      r in TimeWindowPushes(cond, rem, now, inWindow, interval, registered, compute)
  }

  /** A binding or an alert makes this request for some Remediation, at some time. */
  ghost predicate FromActivation(r: R.Request, compute: R.Computers) {
    exists cond, rem, now, kind, registered, suggested ::
      && (kind == BindingSource || kind == Alert)
      && r in ImperativePushes(cond, rem, now, kind, registered, compute, suggested)
  }

  lemma BridgeRequestTiered(r: R.Request, compute: R.Computers)
    requires FromTimeWindow(r, compute) || FromActivation(r, compute)
    ensures Tiered(r.e)
  {
    if FromTimeWindow(r, compute) {
      var cond, rem, now, inWindow, interval, registered :|
        r in TimeWindowPushes(cond, rem, now, inWindow, interval, registered, compute);
      TimeWindowPushesInTier(cond, rem, now, inWindow, interval, registered, compute);
      assert HasKind(r.e, TimeWindow);
    } else {
      var cond, rem, now, kind, registered, suggested :|
        && (kind == BindingSource || kind == Alert)
        && r in ImperativePushes(cond, rem, now, kind, registered, compute, suggested);
      ImperativePushesInTier(cond, rem, now, kind, registered, compute, suggested);
      assert HasKind(r.e, kind);
    }
  }

  lemma {:induction false} AcceptedTiered(ops: seq<R.Op>, compute: R.Computers)
    requires FromBridge(ops, compute)
    ensures AllPushesTiered(ops)
  {
    forall i | 0 <= i < |ops| && ops[i].OpPush? && R.Accepted(ops[i].r) ensures Tiered(ops[i].r.e) {
      BridgeRequestTiered(ops[i].r, compute);
    }
  }

  ghost predicate AllPushesTiered(ops: seq<R.Op>) {
    forall i :: 0 <= i < |ops| && ops[i].OpPush? && R.Accepted(ops[i].r) ==> Tiered(ops[i].r.e)
  }

  ghost predicate AllTiered(s: seq<Entry>) {
    forall e :: e in s ==> Tiered(e)
  }

  lemma PushTiered(s: seq<Entry>, e: Entry, policy: PushPolicy)
    requires UniqueIds(s) && AllTiered(s) && Tiered(e)
    ensures AllTiered(Push(s, e, policy))
  {
    PushContents(s, e, policy);
    forall x | x in Push(s, e, policy) ensures Tiered(x) {
      if x.id == e.id {
        if o :| o in s && o.id == e.id {
          SameId(Push(s, e, policy), x, ActivationStack.Merge(o, e, policy));
          RefreshedTier(o, e, policy);
        } else {
          assert x in s + [e];
        }
      }
    }
  }

  /** A refresh keeps the id and the priority, so it keeps the tier. */
  lemma RefreshedTier(o: Entry, e: Entry, policy: PushPolicy)
    requires Tiered(o) && Tiered(e)
    ensures Tiered(ActivationStack.Merge(o, e, policy))
  {
    var x := ActivationStack.Merge(o, e, policy);
    var kind :| HasKind(o, kind) && InTier(kind, Priority(o));
    var n :| o.id == ActivationId(kind, n);
    if policy != Replace {
      assert x.id == ActivationId(kind, n);
      assert HasKind(x, kind) && InTier(kind, Priority(x));
    }
  }

  lemma {:induction false} RunTiered(ops: seq<Op>)
    requires forall i :: 0 <= i < |ops| && ops[i].DoPush? ==> Tiered(ops[i].e)
    ensures AllTiered(Run(ops))
  {
    if ops != [] {
      var s := Run(ops[..|ops| - 1]);
      RunTiered(ops[..|ops| - 1]);
      RunUnique(ops[..|ops| - 1]);
      match ops[|ops| - 1]
      case DoPush(e, policy) => PushTiered(s, e, policy);
      case DoRemove(id) => RemoveIsWithout(s, id); WithoutContents(s, id);
      case DoCompact(now) => CompactContents(s, now);
    }
  }

  lemma {:induction false} ProjectTiered(ops: seq<R.Op>, zone: string, axis: R.Axis)
    requires AllPushesTiered(ops)
    ensures forall i :: 0 <= i < |Project(ops, zone, axis)| && Project(ops, zone, axis)[i].DoPush? ==>
              Tiered(Project(ops, zone, axis)[i].e)
  {
    if ops != [] {
      ProjectTiered(ops[..|ops| - 1], zone, axis);
    }
  }

  /**
   In every state reached by bridge pushes, evictions, ticks and timers: a live alert on an axis
   can be topped only by an alert, and a live binding never by a time window.
   */
  lemma {:induction false} TierDominance(
    ops: seq<R.Op>, compute: R.Computers, zone: string, axis: R.Axis, now: int, e: Entry)
    requires FromBridge(ops, compute)
    requires e in StackAt(R.RunAll(ops, compute, true), zone, axis) && !Expired(e, now)
    ensures var top := Top(StackAt(R.RunAll(ops, compute, true), zone, axis), now);
            && top.Some?
            && (HasKind(e, Alert) ==> HasKind(top.value, Alert))
            && (HasKind(e, BindingSource) ==> !HasKind(top.value, TimeWindow))
  {
    var st := StackAt(R.RunAll(ops, compute, true), zone, axis);
    StackProjection(ops, compute, true, zone, axis);
    AcceptedTiered(ops, compute);
    ProjectTiered(ops, zone, axis);
    RunTiered(Project(ops, zone, axis));
    TopIsMaximum(st, now);
    Dominates(e, Top(st, now).value);
  }

  lemma Dominates(e: Entry, top: Entry)
    requires Tiered(e) && Tiered(top) && !Outranks(e, top)
    ensures HasKind(e, Alert) ==> HasKind(top, Alert)
    ensures HasKind(e, BindingSource) ==> !HasKind(top, TimeWindow)
  {
    var ke :| HasKind(e, ke) && InTier(ke, Priority(e));
    var kt :| HasKind(top, kt) && InTier(kt, Priority(top));
    if HasKind(e, Alert) {
      KindUnique(e, ke, Alert);
    }
    if HasKind(e, BindingSource) {
      KindUnique(e, ke, BindingSource);
      if HasKind(top, TimeWindow) {
        KindUnique(top, kt, TimeWindow);
      }
    }
  }
}
