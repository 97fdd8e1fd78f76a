/**
 Whole runs of the reconciler seen stack by stack: what removing or expiring a source
 reveals, and why a TTL never passes unnoticed.
 */
module ReconcilerRuns {
  import opened Wrappers
  import opened Sequences
  import opened ActivationStack
  import R = Reconciler

  type Axis = R.Axis

  function StackAt(s: R.State, zone: string, axis: Axis): seq<Entry> {
    R.StackOf(R.PolicyOf(s.policies, zone), axis)
  }

  // --------------------------------------------- one stack's share of a run

  /** What a reconciler call does to the stack of one axis of one zone. */
  function Share(op: R.Op, zone: string, axis: Axis): seq<Op> {
    if R.ZoneOfOp(op) != zone then []
    else match op
      case OpPush(r, at, _) =>
        if !R.Accepted(r) then []
        else if r.axis == axis then [DoPush(r.e, r.policy), DoCompact(at)]
        else [DoCompact(at)]
      case OpRemove(_, id, at, _) => [DoRemove(id), DoCompact(at)]
      case OpTick(_, at, _) => [DoCompact(at)]
      case OpTimer(_, at, _) => [DoCompact(at)]
  }

  function Project(ops: seq<R.Op>, zone: string, axis: Axis): seq<Op> {
    if ops == [] then [] else Project(ops[..|ops| - 1], zone, axis) + Share(ops[|ops| - 1], zone, axis)
  }

  function ApplyAll(s: seq<Entry>, ops: seq<Op>): seq<Entry> {
    if ops == [] then s else Apply(ApplyAll(s, ops[..|ops| - 1]), ops[|ops| - 1])
  }

  lemma ApplyAllSnoc(s: seq<Entry>, ops: seq<Op>, op: Op)
    ensures ApplyAll(s, ops + [op]) == Apply(ApplyAll(s, ops), op)
  {
    assert (ops + [op])[..|ops|] == ops;
  }

  predicate Appends(a: seq<Op>, b: seq<Op>) {
    Run(a + b) == ApplyAll(Run(a), b)
  }

  lemma AppendsNext(a: seq<Op>, b: seq<Op>, op: Op)
    requires Appends(a, b)
    ensures Appends(a, b + [op])
  {
    RunSnoc(a + b, op);
    ApplyAllSnoc(Run(a), b, op);
    assert a + (b + [op]) == (a + b) + [op];
  }

  lemma RunAppend(a: seq<Op>, b: seq<Op>)
    ensures Run(a + b) == ApplyAll(Run(a), b)
  {
    SnocInduction(ops => Appends(a, ops), op => true, b) by {
      assert a + [] == a;
      forall ops, op | Appends(a, ops) ensures Appends(a, ops + [op]) {
        AppendsNext(a, ops, op);
      }
    }
  }

  lemma ApplyTwo(s: seq<Entry>, x: Op, y: Op)
    ensures ApplyAll(s, [x, y]) == Apply(Apply(s, x), y)
    ensures ApplyAll(s, [y]) == Apply(s, y)
  {
    ApplyAllSnoc(s, [], x);
    ApplyAllSnoc(s, [], y);
    ApplyAllSnoc(s, [x], y);
    assert [] + [x] == [x] && [] + [y] == [y] && [x] + [y] == [x, y];
  }

  lemma PreparedStack(s: R.State, op: R.Op, zone: string, axis: Axis)
    ensures StackAt(R.Prepare(s, op), zone, axis) ==
            var st := StackAt(s, zone, axis);
            if R.ZoneOfOp(op) != zone then st
            else if op.OpPush? && R.Accepted(op.r) && op.r.axis == axis then Push(st, op.r.e, op.r.policy)
            else if op.OpRemove? then Remove(st, op.id)
            else st
  {
  }

  lemma ReconciledStack(s: R.State, z: string, now: int, compute: R.Computers, outcome: R.Outcome, suppress: bool,
                        zone: string, axis: Axis)
    ensures StackAt(R.Reconcile(s, z, now, compute, outcome, suppress).0, zone, axis)
            == if z == zone then Compact(StackAt(s, zone, axis), now) else StackAt(s, zone, axis)
  {
    R.ReconcileStacks(s, z, now, compute, outcome, suppress);
  }

  lemma StepStack(s: R.State, op: R.Op, compute: R.Computers, suppress: bool, zone: string, axis: Axis)
    ensures StackAt(R.Step(s, op, compute, suppress).0, zone, axis)
            == ApplyAll(StackAt(s, zone, axis), Share(op, zone, axis))
  {
    var st := StackAt(s, zone, axis);
    PreparedStack(s, op, zone, axis);
    ReconciledStack(R.Prepare(s, op), R.ZoneOfOp(op), op.at, compute, op.outcome, suppress, zone, axis);
    match op
    case OpPush(r, at, _) => ApplyTwo(st, DoPush(r.e, r.policy), DoCompact(at));
    case OpRemove(_, id, at, _) => ApplyTwo(st, DoRemove(id), DoCompact(at));
    case OpTick(_, at, _) => ApplyTwo(st, DoCompact(at), DoCompact(at));
    case OpTimer(_, at, _) => ApplyTwo(st, DoCompact(at), DoCompact(at));
  }

  /** A reconciler run acts on each stack as the run of its share of the operations. */
  lemma {:induction false} StackProjection(
    ops: seq<R.Op>, compute: R.Computers, suppress: bool, zone: string, axis: Axis)
    ensures StackAt(R.RunAll(ops, compute, suppress), zone, axis) == Run(Project(ops, zone, axis))
  {
    if ops != [] {
      var init, last := ops[..|ops| - 1], ops[|ops| - 1];
      StackProjection(init, compute, suppress, zone, axis);
      StepStack(R.RunAll(init, compute, suppress), last, compute, suppress, zone, axis);
      RunAppend(Project(init, zone, axis), Share(last, zone, axis));
    }
  }

  // ------------------------------------------------------ source non-interference

  /** Every push of the source is reduced to the reconcile pass that followed it. */
  function EraseOne(op: R.Op, id: string): R.Op {
    if op.OpPush? && R.Accepted(op.r) && op.r.e.id == id then R.OpTick(op.r.zone, op.at, op.outcome) else op
  }

  function EraseSource(ops: seq<R.Op>, id: string): seq<R.Op> {
    if ops == [] then [] else EraseSource(ops[..|ops| - 1], id) + [EraseOne(ops[|ops| - 1], id)]
  }

  lemma {:induction false} EraseAppend(a: seq<Op>, b: seq<Op>, id: string)
    ensures Erase(a + b, id) == Erase(a, id) + Erase(b, id)
  {
    if b == [] {
      assert a + b == a;
    } else {
      var init, last := b[..|b| - 1], b[|b| - 1];
      assert (a + b)[..|a + b| - 1] == a + init;
      EraseAppend(a, init, id);
      assert Erase(a, id) + (Erase(init, id) + [last]) == Erase(a, id) + Erase(init, id) + [last];
    }
  }

  lemma EraseShort(x: Op, y: Op, id: string)
    ensures Erase([y], id) == if y.DoPush? && y.e.id == id then [] else [y]
    ensures Erase([x, y], id) == (if x.DoPush? && x.e.id == id then [] else [x]) + Erase([y], id)
  {
    assert [x, y] == [x] + [y] && [x][..0] == [] && [y][..0] == [];
    EraseAppend([x], [y], id);
  }

  lemma ShareErased(op: R.Op, id: string, zone: string, axis: Axis)
    ensures Share(EraseOne(op, id), zone, axis) == Erase(Share(op, zone, axis), id)
  {
    match op
    case OpPush(r, at, _) => EraseShort(DoPush(r.e, r.policy), DoCompact(at), id);
    case OpRemove(_, other, at, _) => EraseShort(DoRemove(other), DoCompact(at), id);
    case OpTick(_, at, _) => EraseShort(DoCompact(at), DoCompact(at), id);
    case OpTimer(_, at, _) => EraseShort(DoCompact(at), DoCompact(at), id);
  }

  lemma {:induction false} ProjectErased(ops: seq<R.Op>, id: string, zone: string, axis: Axis)
    ensures Project(EraseSource(ops, id), zone, axis) == Erase(Project(ops, zone, axis), id)
  {
    if ops != [] {
      var init, last := ops[..|ops| - 1], ops[|ops| - 1];
      ProjectErased(init, id, zone, axis);
      ShareErased(last, id, zone, axis);
      EraseAppend(Project(init, zone, axis), Share(last, zone, axis), id);
      var erased := EraseSource(init, id);
      assert (erased + [EraseOne(last, id)])[..|erased|] == erased;
    }
  }

  /** The stacks decide the target. */
  lemma SameStacksSameTarget(p: R.Policy, p': R.Policy, now: int, compute: R.Computers)
    requires forall axis :: Top(R.StackOf(p, axis), now) == Top(R.StackOf(p', axis), now)
    ensures R.Compose(p, now, compute) == R.Compose(p', now, compute)
  {
    forall axis ensures R.Contribution(p, axis, now, compute) == R.Contribution(p', axis, now, compute) {
      assert Top(R.StackOf(p, axis), now) == Top(R.StackOf(p', axis), now);
    }
    assert forall axis :: R.Fails(p, axis, now, compute) == R.Fails(p', axis, now, compute);
  }

  /**
   After any run, evicting a source leaves every stack of the zone, contents and order, as in
   the run where it never pushed; the target composed next is the one of that run.
   */
  lemma {:induction false} RemovalRestoresTarget(
    ops: seq<R.Op>, compute: R.Computers, id: string, zone: string, now: int)
    ensures var p := R.EvictAll(R.PolicyOf(R.RunAll(ops, compute, true).policies, zone), id);
            var p' := R.PolicyOf(R.RunAll(EraseSource(ops, id), compute, true).policies, zone);
            && (forall axis :: R.StackOf(p, axis) == R.StackOf(p', axis))
            && R.Compose(p, now, compute) == R.Compose(p', now, compute)
  {
    var q := R.PolicyOf(R.RunAll(ops, compute, true).policies, zone);
    var p, p' := R.EvictAll(q, id), R.PolicyOf(R.RunAll(EraseSource(ops, id), compute, true).policies, zone);
    forall axis ensures R.StackOf(p, axis) == R.StackOf(p', axis) {
      StackProjection(ops, compute, true, zone, axis);
      StackProjection(EraseSource(ops, id), compute, true, zone, axis);
      ProjectErased(ops, id, zone, axis);
      RemovalRestores(Project(ops, zone, axis), id);
      assert R.StackOf(p, axis) == Remove(R.StackOf(q, axis), id);
    }
    SameStacksSameTarget(p, p', now, compute);
  }

  /** Once the source's entries have expired, the composed target is the one of the run without it. */
  lemma {:induction false} ExpiryRestoresTarget(
    ops: seq<R.Op>, compute: R.Computers, id: string, zone: string, now: int)
    requires forall axis, e :: e in StackAt(R.RunAll(ops, compute, true), zone, axis) && e.id == id ==> Expired(e, now)
    ensures R.Compose(R.PolicyOf(R.RunAll(ops, compute, true).policies, zone), now, compute)
            == R.Compose(R.PolicyOf(R.RunAll(EraseSource(ops, id), compute, true).policies, zone), now, compute)
  {
    var p := R.PolicyOf(R.RunAll(ops, compute, true).policies, zone);
    var p' := R.PolicyOf(R.RunAll(EraseSource(ops, id), compute, true).policies, zone);
    forall axis ensures Top(R.StackOf(p, axis), now) == Top(R.StackOf(p', axis), now) {
      StackProjection(ops, compute, true, zone, axis);
      StackProjection(EraseSource(ops, id), compute, true, zone, axis);
      ProjectErased(ops, id, zone, axis);
      ExpiryRestoresTop(Project(ops, zone, axis), id, now);
    }
    SameStacksSameTarget(p, p', now, compute);
  }

  // ----------------------------------------------------------------- TTL wakeup

  /** An entry with a positive TTL and a push time expires some day. */
  predicate Perishable(e: Entry) {
    e.pushedAt.Some? && e.ttl.Some? && e.ttl.value > 0
  }

  /** The source's timer is outstanding and due only after the entry has expired. */
  predicate Covered(s: R.State, zone: string, axis: Axis, e: Entry)
    requires Perishable(e)
  {
    var key := R.TimerKey(zone, axis, e.id);
    key in s.timers && s.timers[key] > e.pushedAt.value + e.ttl.value
  }

  ghost predicate Woken(s: R.State) {
    forall zone, axis, e :: e in StackAt(s, zone, axis) && Perishable(e) ==> Covered(s, zone, axis, e)
  }

  /** Pushes are stamped before they arrive; timers are delivered when outstanding, and not early. */
  predicate Punctual(s: R.State, op: R.Op) {
    && (op.OpPush? && R.Accepted(op.r) && Perishable(op.r.e) ==> op.r.e.pushedAt.value < op.at)
    && (op.OpTimer? ==> op.key in s.timers && op.at >= s.timers[op.key])
  }

  ghost predicate PunctualRun(ops: seq<R.Op>, compute: R.Computers) {
    ops != [] ==>
      && PunctualRun(ops[..|ops| - 1], compute)
      && Punctual(R.RunAll(ops[..|ops| - 1], compute, true), ops[|ops| - 1])
  }

  lemma PushTiming(s: seq<Entry>, e: Entry, policy: PushPolicy, x: Entry)
    requires UniqueIds(s) && x in Push(s, e, policy) && x.id == e.id
    ensures x.pushedAt == e.pushedAt && x.ttl == e.ttl
  {
    PushContents(s, e, policy);
    if o :| o in s && o.id == e.id {
      SameId(Push(s, e, policy), x, Merge(o, e, policy));
    } else {
      assert x in s + [e];
    }
  }

  lemma PrepareWoken(s: R.State, op: R.Op, zone: string, axis: Axis, e: Entry)
    requires Woken(s) && Punctual(s, op) && UniqueIds(StackAt(s, zone, axis))
    requires e in StackAt(R.Prepare(s, op), zone, axis) && Perishable(e)
    ensures Covered(R.Prepare(s, op), zone, axis, e) || (op.OpTimer? && op.key == R.TimerKey(zone, axis, e.id))
    ensures op.OpTimer? ==> Covered(s, zone, axis, e)
  {
    PreparedStack(s, op, zone, axis);
    var st := StackAt(s, zone, axis);
    if op.OpPush? && R.Accepted(op.r) && R.ZoneOfOp(op) == zone && op.r.axis == axis {
      PushContents(st, op.r.e, op.r.policy);
      if e.id == op.r.e.id {
        PushTiming(st, op.r.e, op.r.policy, e);
      } else {
        assert e in st && Covered(s, zone, axis, e);
      }
    } else {
      if op.OpRemove? && R.ZoneOfOp(op) == zone {
        RemoveIsWithout(st, op.id);
        WithoutContents(st, op.id);
      }
      assert Covered(s, zone, axis, e);
    }
  }

  lemma EntryWoken(s: R.State, op: R.Op, compute: R.Computers, zone: string, axis: Axis, e: Entry)
    requires Woken(s) && Punctual(s, op) && UniqueIds(StackAt(s, zone, axis))
    requires e in StackAt(R.Step(s, op, compute, true).0, zone, axis) && Perishable(e)
    ensures e in StackAt(R.Prepare(s, op), zone, axis)
    ensures Covered(R.Prepare(s, op), zone, axis, e)
    ensures !(op.OpTimer? && op.key == R.TimerKey(zone, axis, e.id))
  {
    var p := R.Prepare(s, op);
    ReconciledStack(p, R.ZoneOfOp(op), op.at, compute, op.outcome, true, zone, axis);
    CompactContents(StackAt(p, zone, axis), op.at);
    PrepareWoken(s, op, zone, axis, e);
  }

  lemma StepCovers(s: R.State, op: R.Op, compute: R.Computers, zone: string, axis: Axis, e: Entry)
    requires Woken(s) && Punctual(s, op) && UniqueIds(StackAt(s, zone, axis))
    requires e in StackAt(R.Step(s, op, compute, true).0, zone, axis) && Perishable(e)
    ensures Covered(R.Step(s, op, compute, true).0, zone, axis, e)
    ensures !(op.OpTimer? && op.key == R.TimerKey(zone, axis, e.id))
  {
    EntryWoken(s, op, compute, zone, axis, e);
    R.ReconcileStacks(R.Prepare(s, op), R.ZoneOfOp(op), op.at, compute, op.outcome, true);
  }

  /** What a step has to leave behind: every perishable entry covered, none of them on the timer delivered. */
  ghost predicate Swept(s: R.State, op: R.Op) {
    forall zone, axis, e :: e in StackAt(s, zone, axis) && Perishable(e) ==>
      Covered(s, zone, axis, e) && !(op.OpTimer? && op.key == R.TimerKey(zone, axis, e.id))
  }

  lemma SweptWoken(s: R.State, op: R.Op)
    requires Swept(s, op)
    ensures Woken(s)
    ensures op.OpTimer? ==>
              forall e :: e in StackAt(s, op.key.zone, op.key.axis) && e.id == op.key.id ==> !Perishable(e)
  {
  }

  lemma StepSwept(s: R.State, op: R.Op, compute: R.Computers)
    requires Woken(s) && Punctual(s, op) && forall zone, axis :: UniqueIds(StackAt(s, zone, axis))
    ensures Swept(R.Step(s, op, compute, true).0, op)
  {
    var s' := R.Step(s, op, compute, true).0;
    forall zone, axis, e | e in StackAt(s', zone, axis) && Perishable(e)
      ensures Covered(s', zone, axis, e) && !(op.OpTimer? && op.key == R.TimerKey(zone, axis, e.id))
    {
      StepCovers(s, op, compute, zone, axis, e);
    }
  }

  /**
   In every punctual run each perishable entry on a stack has its source's latest timer
   outstanding, due after the entry expires; and the pass which that timer runs leaves no
   perishable entry of the source on the stack.
   */
  lemma {:induction false} TtlWakeup(ops: seq<R.Op>, compute: R.Computers)
    requires PunctualRun(ops, compute)
    ensures Woken(R.RunAll(ops, compute, true))
    ensures ops != [] && ops[|ops| - 1].OpTimer? ==>
              var key := ops[|ops| - 1].key;
              var st := StackAt(R.RunAll(ops, compute, true), key.zone, key.axis);
              forall e :: e in st && e.id == key.id ==> !Perishable(e)
  {
    if ops != [] {
      var init := ops[..|ops| - 1];
      TtlWakeup(init, compute);
      forall zone, axis ensures UniqueIds(StackAt(R.RunAll(init, compute, true), zone, axis)) {
        StackProjection(init, compute, true, zone, axis);
        RunUnique(Project(init, zone, axis));
      }
      StepSwept(R.RunAll(init, compute, true), ops[|ops| - 1], compute);
      SweptWoken(R.RunAll(ops, compute, true), ops[|ops| - 1]);
    }
  }

  lemma PushedEntry(s: seq<Entry>, e: Entry, policy: PushPolicy) returns (x: Entry)
    requires UniqueIds(s)
    ensures x in Push(s, e, policy) && x.id == e.id && x.pushedAt == e.pushedAt && x.ttl == e.ttl
    ensures forall y :: y in Push(s, e, policy) && y.id == e.id ==> y == x
  {
    PushContents(s, e, policy);
    x :| x in Push(s, e, policy) && x.id == e.id;
    PushTiming(s, e, policy, x);
    forall y | y in Push(s, e, policy) && y.id == e.id ensures y == x {
      SameId(Push(s, e, policy), y, x);
    }
  }

  predicate HasId(s: seq<Entry>, id: string) {
    exists e :: e in s && e.id == id
  }

  lemma CompactedTwice(s: seq<Entry>, t: int, u: int)
    ensures forall x :: x in Compact(Compact(s, t), u) <==> x in s && !Expired(x, t) && !Expired(x, u)
  {
    CompactContents(s, t);
    CompactContents(Compact(s, t), u);
  }

  function TimerOf(r: R.Request, clock: int, outcome: R.Outcome): R.Op
    requires Perishable(r.e)
  {
    R.OpTimer(R.TimerKey(r.zone, r.axis, r.e.id), clock + r.e.ttl.value, outcome)
  }

  lemma LeftAfterBoth(st: seq<Entry>, left: seq<Entry>, e: Entry, policy: PushPolicy, clock: int)
    requires UniqueIds(st) && Perishable(e)
    requires left == Compact(Compact(Push(st, e, policy), clock), clock + e.ttl.value)
    ensures HasId(left, e.id) <==> e.pushedAt.value >= clock
  {
    PushedSole(st, e, policy);
    LeftAfterTimer(Push(st, e, policy), left, e, clock);
  }

  /** What the two steps leave on the stack, in terms of what was there. */
  lemma PushStep(s: R.State, r: R.Request, clock: int, compute: R.Computers, outcome: R.Outcome)
    requires R.Accepted(r)
    ensures StackAt(R.Step(s, R.OpPush(r, clock, outcome), compute, true).0, r.zone, r.axis)
            == Compact(Push(StackAt(s, r.zone, r.axis), r.e, r.policy), clock)
  {
    var op := R.OpPush(r, clock, outcome);
    PreparedStack(s, op, r.zone, r.axis);
    ReconciledStack(R.Prepare(s, op), r.zone, clock, compute, outcome, true, r.zone, r.axis);
  }

  lemma TimerStep(s: R.State, r: R.Request, clock: int, compute: R.Computers, outcome: R.Outcome)
    requires Perishable(r.e)
    ensures StackAt(R.Step(s, TimerOf(r, clock, outcome), compute, true).0, r.zone, r.axis)
            == Compact(StackAt(s, r.zone, r.axis), clock + r.e.ttl.value)
  {
    var op := TimerOf(r, clock, outcome);
    PreparedStack(s, op, r.zone, r.axis);
    ReconciledStack(R.Prepare(s, op), r.zone, op.at, compute, outcome, true, r.zone, r.axis);
  }

  /** For any machine whose two steps have that effect on the stack. */
  lemma StampOn(
    step: (R.State, R.Op) -> R.State, s: R.State, r: R.Request, push: R.Op, timer: R.Op, clock: int)
    requires Perishable(r.e) && UniqueIds(StackAt(s, r.zone, r.axis))
    requires StackAt(step(s, push), r.zone, r.axis)
             == Compact(Push(StackAt(s, r.zone, r.axis), r.e, r.policy), clock)
    requires StackAt(step(step(s, push), timer), r.zone, r.axis)
             == Compact(StackAt(step(s, push), r.zone, r.axis), clock + r.e.ttl.value)
    ensures !HasId(StackAt(step(step(s, push), timer), r.zone, r.axis), r.e.id) <==> r.e.pushedAt.value < clock
  {
    LeftAfterBoth(StackAt(s, r.zone, r.axis), StackAt(step(step(s, push), timer), r.zone, r.axis),
                  r.e, r.policy, clock);
  }

  /**
   Stamping before arrival is exact: in any state with unique ids, after a push and the delivery of its
   timer on the dot, the pass which that timer runs leaves the source off its stack iff the push was
   stamped before it arrived.
   */
  lemma {:induction false} StampMustPrecedeArrival(
    s: R.State, r: R.Request, clock: int, compute: R.Computers, pushed: R.Outcome, woken: R.Outcome)
    requires R.Accepted(r) && Perishable(r.e) && UniqueIds(StackAt(s, r.zone, r.axis))
    ensures var s1 := R.Step(s, R.OpPush(r, clock, pushed), compute, true).0;
            var left := StackAt(R.Step(s1, TimerOf(r, clock, woken), compute, true).0, r.zone, r.axis);
            !HasId(left, r.e.id) <==> r.e.pushedAt.value < clock
  {
    var push, timer := R.OpPush(r, clock, pushed), TimerOf(r, clock, woken);
    PushStep(s, r, clock, compute, pushed);
    TimerStep(R.Step(s, push, compute, true).0, r, clock, compute, woken);
    StampOn((x, op) => R.Step(x, op, compute, true).0, s, r, push, timer, clock);
  }

  /** The one entry of the id of `e` has the times of `e`. */
  predicate Sole(s: seq<Entry>, e: Entry) {
    exists x :: x in s && x.id == e.id && x.pushedAt == e.pushedAt && x.ttl == e.ttl
                && forall y :: y in s && y.id == e.id ==> y == x
  }

  lemma PushedSole(st: seq<Entry>, e: Entry, policy: PushPolicy)
    requires UniqueIds(st)
    ensures Sole(Push(st, e, policy), e)
  {
    var x := PushedEntry(st, e, policy);
  }

  lemma LeftAfterTimer(pushed: seq<Entry>, left: seq<Entry>, e: Entry, clock: int)
    requires Sole(pushed, e) && Perishable(e)
    requires left == Compact(Compact(pushed, clock), clock + e.ttl.value)
    ensures HasId(left, e.id) <==> e.pushedAt.value >= clock
  {
    var x :| x in pushed && x.id == e.id && x.pushedAt == e.pushedAt && x.ttl == e.ttl
             && forall y :: y in pushed && y.id == e.id ==> y == x;
    LeftOnTheDot(pushed, left, x, clock);
  }

  lemma LeftOnTheDot(s: seq<Entry>, left: seq<Entry>, x: Entry, clock: int)
    requires Perishable(x) && left == Compact(Compact(s, clock), clock + x.ttl.value)
    requires x in s && forall y :: y in s && y.id == x.id ==> y == x
    ensures HasId(left, x.id) <==> x.pushedAt.value >= clock
  {
    OnlyOneLeft(s, left, x, clock, clock + x.ttl.value);
  }

  lemma OnlyOneLeft(s: seq<Entry>, left: seq<Entry>, x: Entry, t: int, u: int)
    requires left == Compact(Compact(s, t), u)
    requires x in s && forall y :: y in s && y.id == x.id ==> y == x
    ensures HasId(left, x.id) <==> !Expired(x, t) && !Expired(x, u)
  {
    CompactedTwice(s, t, u);
  }

  // --------------------------------------------- pushing and arming, not as one

  /** The two halves of an accepted push, which no common lock joins. */
  function PushHalf(s: R.State, r: R.Request): R.State {
    s.(policies := R.Insert(s.policies, r))
  }

  function ArmHalf(s: R.State, r: R.Request, clock: int): R.State {
    s.(timers := R.ArmTimer(s.timers, r, clock))
  }

  lemma HalvesMakePush(s: R.State, r: R.Request, clock: int, outcome: R.Outcome)
    requires R.Accepted(r)
    ensures R.Prepare(s, R.OpPush(r, clock, outcome)) == ArmHalf(PushHalf(s, r), r, clock)
  {
  }

  /** Two pushes `a` and `b` of one source whose halves cross: `b` is on the stack, the timer is that of `a`. */
  function Crossed(s: R.State, a: R.Request, clockA: int, b: R.Request, clockB: int): R.State {
    ArmHalf(ArmHalf(PushHalf(PushHalf(s, a), b), b, clockB), a, clockA)
  }

  lemma CrossedStack(s: R.State, a: R.Request, clockA: int, b: R.Request, clockB: int)
    requires a.zone == b.zone && a.axis == b.axis
    ensures StackAt(Crossed(s, a, clockA, b, clockB), a.zone, a.axis)
            == Push(Push(StackAt(s, a.zone, a.axis), a.e, a.policy), b.e, b.policy)
  {
  }

  /** Two pushes of one source on one axis, both accepted and with TTLs. */
  predicate Rivals(a: R.Request, b: R.Request) {
    && R.Accepted(a) && R.Accepted(b) && Perishable(a.e) && Perishable(b.e)
    && a.zone == b.zone && a.axis == b.axis && a.e.id == b.e.id
  }

  /**
   When concurrent pushes of one source cross, its entry is covered by the timer that is left iff that
   timer is due after the entry expires. A crossing has one order only: both stack halves, then the timer
   halves the other way round.
   */
  lemma CrossedPushesExact(s: R.State, a: R.Request, clockA: int, b: R.Request, clockB: int, e: Entry)
    requires Rivals(a, b) && UniqueIds(StackAt(s, a.zone, a.axis))
    requires e in StackAt(Crossed(s, a, clockA, b, clockB), a.zone, a.axis) && e.id == a.e.id
    ensures Perishable(e)
    ensures Covered(Crossed(s, a, clockA, b, clockB), a.zone, a.axis, e) <==>
            clockA + a.e.ttl.value > b.e.pushedAt.value + b.e.ttl.value
  {
    var st := StackAt(s, a.zone, a.axis);
    PushContents(st, a.e, a.policy);
    CrossedStack(s, a, clockA, b, clockB);
    var x := PushedEntry(Push(st, a.e, a.policy), b.e, b.policy);
    assert e == x;
  }

  lemma LeftOfSole(pushed: seq<Entry>, left: seq<Entry>, e: Entry, at: int)
    requires Sole(pushed, e) && Perishable(e) && left == Compact(pushed, at)
    ensures !HasId(left, e.id) <==> at > e.pushedAt.value + e.ttl.value
  {
    CompactContents(pushed, at);
  }

  lemma CrossedSole(s: R.State, a: R.Request, clockA: int, b: R.Request, clockB: int)
    requires Rivals(a, b) && UniqueIds(StackAt(s, a.zone, a.axis))
    ensures Sole(StackAt(Crossed(s, a, clockA, b, clockB), a.zone, a.axis), b.e)
  {
    var st := StackAt(s, a.zone, a.axis);
    CrossedStack(s, a, clockA, b, clockB);
    PushContents(st, a.e, a.policy);
    PushedSole(Push(st, a.e, a.policy), b.e, b.policy);
  }

  lemma PassOnSole(
    s: R.State, a: R.Request, clock: int, e: Entry, compute: R.Computers, woken: R.Outcome, left: seq<Entry>)
    requires Perishable(a.e) && Perishable(e) && Sole(StackAt(s, a.zone, a.axis), e)
    requires left == StackAt(R.Step(s, TimerOf(a, clock, woken), compute, true).0, a.zone, a.axis)
    ensures !HasId(left, e.id) <==> clock + a.e.ttl.value > e.pushedAt.value + e.ttl.value
  {
    TimerStep(s, a, clock, compute, woken);
    LeftOfSole(StackAt(s, a.zone, a.axis), left, e, clock + a.e.ttl.value);
  }

  /** And the pass which the timer that is left runs on the dot takes the source off its stack iff that holds. */
  lemma {:induction false} CrossedPassExact(
    s: R.State, a: R.Request, clockA: int, b: R.Request, clockB: int, compute: R.Computers, woken: R.Outcome,
    left: seq<Entry>)
    requires Rivals(a, b) && UniqueIds(StackAt(s, a.zone, a.axis))
    requires left == StackAt(
               R.Step(Crossed(s, a, clockA, b, clockB), TimerOf(a, clockA, woken), compute, true).0, a.zone, a.axis)
    ensures !HasId(left, a.e.id) <==> clockA + a.e.ttl.value > b.e.pushedAt.value + b.e.ttl.value
  {
    CrossedSole(s, a, clockA, b, clockB);
    PassOnSole(Crossed(s, a, clockA, b, clockB), a, clockA, b.e, compute, woken, left);
  }

  function MotionPush(p: Payload, ttl: int): R.Request {
    R.Request("hall", R.StateAxis, Entry("motion", p, Some(0), Some(ttl)), Refresh, true)
  }

  /** A motion sensor that pushes with a short and a long TTL at once: the short timer is left, the entry stays. */
  lemma {:induction false} CrossedPushesLoseWakeup(p: Payload, compute: R.Computers, woken: R.Outcome)
    ensures var crossed := Crossed(R.INITIAL, MotionPush(p, 1), 2, MotionPush(p, 100), 2);
            var s := R.Step(crossed, TimerOf(MotionPush(p, 1), 2, woken), compute, true).0;
            HasId(StackAt(s, "hall", R.StateAxis), "motion") && R.TimerKey("hall", R.StateAxis, "motion") !in s.timers
  {
    var a, b := MotionPush(p, 1), MotionPush(p, 100);
    var s := R.Step(Crossed(R.INITIAL, a, 2, b, 2), TimerOf(a, 2, woken), compute, true).0;
    CrossedPassExact(R.INITIAL, a, 2, b, 2, compute, woken, StackAt(s, "hall", R.StateAxis));
    DeliveredTimerGone(Crossed(R.INITIAL, a, 2, b, 2), TimerOf(a, 2, woken), compute);
  }

  lemma DeliveredTimerGone(s: R.State, op: R.Op, compute: R.Computers)
    requires op.OpTimer?
    ensures op.key !in R.Step(s, op, compute, true).0.timers
  {
    R.ReconcileStacks(R.Prepare(s, op), op.key.zone, op.at, compute, op.outcome, true);
  }
}
