/**
 The per-axis stack of Activations: push (refresh or replace), top, compaction and
 eviction, with what a run of such operations keeps and hides.
 */
module ActivationStack {
  import opened Wrappers
  import opened Sequences

  datatype SourceKind = Unspecified | Background | TimeWindow | BindingSource | Alert | Button | Manual

  datatype PushPolicy = UnspecifiedPolicy | Refresh | Replace

  /** What an Activation computes and how it ranks; a refresh keeps all of it. */
  datatype Payload = Payload(computer: string, args: map<string, string>, priority: int)

  /** One stack entry. `pushedAt` and `ttl` are None when the message leaves them unset. */
  datatype Entry = Entry(id: string, payload: Payload, pushedAt: Option<int>, ttl: Option<int>)

  /** The zero time, which an unset pushed_at reads as: 1 January of year 1 in Unix nanoseconds. */
  const ZERO_TIME := -62135596800_000000000

  function PushedAt(e: Entry): int {
    if e.pushedAt.Some? then e.pushedAt.value else ZERO_TIME
  }

  function Priority(e: Entry): int {
    e.payload.priority
  }

  /** TTL 0 (or none) never expires; otherwise strictly after pushed_at + ttl. */
  predicate Expired(e: Entry, now: int) {
    && e.ttl.Some? && e.ttl.value != 0 && e.pushedAt.Some?
    && now > e.pushedAt.value + e.ttl.value
  }

  // --------------------------------------------------------------- identities

  function KindName(kind: SourceKind): string {
    match kind
    case Unspecified => "SOURCE_KIND_UNSPECIFIED"
    case Background => "SOURCE_KIND_BACKGROUND"
    case TimeWindow => "SOURCE_KIND_TIME_WINDOW"
    case BindingSource => "SOURCE_KIND_BINDING"
    case Alert => "SOURCE_KIND_ALERT"
    case Button => "SOURCE_KIND_BUTTON"
    case Manual => "SOURCE_KIND_MANUAL"
  }

  function ActivationId(kind: SourceKind, name: string): string {
    KindName(kind) + ":" + name
  }

  lemma KindNameHasNoColon(k: SourceKind)
    ensures forall i :: 0 <= i < |KindName(k)| ==> KindName(k)[i] != ':'
  {
  }

  lemma KindNameInjective(k: SourceKind, k': SourceKind)
    requires KindName(k) == KindName(k')
    ensures k == k'
  {
    // Position 12 is the first letter after the common prefix, 13 the second.
    assert KindName(k)[12] == KindName(k')[12] && KindName(k)[13] == KindName(k')[13];
  }

  lemma ColonSplits(a: string, n: string, a': string, n': string)
    requires a + ":" + n == a' + ":" + n' && |a| <= |a'|
    requires forall i :: 0 <= i < |a'| ==> a'[i] != ':'
    ensures a == a' && n == n'
  {
    var s := a + ":" + n;
    assert s[|a|] == ':';
    assert forall i :: 0 <= i < |a'| ==> s[i] == a'[i];
    assert a == s[..|a|] && a' == (a' + ":" + n')[..|a'|];
    assert n == s[|a| + 1..] && n' == (a' + ":" + n')[|a'| + 1..];
  }

  /** The joined key identifies the source: no two (kind, name) pairs share it. */
  lemma ActivationIdInjective(k: SourceKind, n: string, k': SourceKind, n': string)
    requires ActivationId(k, n) == ActivationId(k', n')
    ensures k == k' && n == n'
  {
    KindNameHasNoColon(k);
    KindNameHasNoColon(k');
    if |KindName(k)| <= |KindName(k')| {
      ColonSplits(KindName(k), n, KindName(k'), n');
    } else {
      ColonSplits(KindName(k'), n', KindName(k), n);
    }
    KindNameInjective(k, k');
  }

  // --------------------------------------------------------------- operations

  function Merge(o: Entry, e: Entry, policy: PushPolicy): Entry {
    if policy == Replace then e else o.(pushedAt := e.pushedAt, ttl := e.ttl)
  }

  function Push(s: seq<Entry>, e: Entry, policy: PushPolicy): seq<Entry> {
    if s == [] then [e]
    else if s[0].id == e.id then [Merge(s[0], e, policy)] + s[1..]
    else [s[0]] + Push(s[1..], e, policy)
  }

  predicate Outranks(a: Entry, b: Entry) {
    Priority(a) > Priority(b) || (Priority(a) == Priority(b) && PushedAt(a) > PushedAt(b))
  }

  function Better(best: Option<Entry>, a: Entry, now: int): Option<Entry> {
    if Expired(a, now) then best
    else if best.None? || Outranks(a, best.value) then Some(a)
    else best
  }

  function Top(s: seq<Entry>, now: int): Option<Entry> {
    if s == [] then None else Better(Top(s[..|s| - 1], now), s[|s| - 1], now)
  }

  function Compact(s: seq<Entry>, now: int): seq<Entry> {
    if s == [] then []
    else if Expired(s[|s| - 1], now) then Compact(s[..|s| - 1], now)
    else Compact(s[..|s| - 1], now) + [s[|s| - 1]]
  }

  function Remove(s: seq<Entry>, id: string): seq<Entry> {
    if s == [] then []
    else if s[0].id == id then s[1..]
    else [s[0]] + Remove(s[1..], id)
  }

  /** The stack without any entry of `id`. */
  function Without(s: seq<Entry>, id: string): seq<Entry> {
    if s == [] then []
    else if s[0].id == id then Without(s[1..], id)
    else [s[0]] + Without(s[1..], id)
  }

  predicate UniqueIds(s: seq<Entry>) {
    forall i, j :: 0 <= i < j < |s| ==> s[i].id != s[j].id
  }

  // How the recursive definitions read on a sequence with one element more.

  lemma PushCons(x: Entry, s: seq<Entry>, e: Entry, policy: PushPolicy)
    ensures Push([x] + s, e, policy)
            == if x.id == e.id then [Merge(x, e, policy)] + s else [x] + Push(s, e, policy)
  {
    assert ([x] + s)[1..] == s;
  }

  lemma WithoutCons(x: Entry, s: seq<Entry>, id: string)
    ensures Without([x] + s, id) == if x.id == id then Without(s, id) else [x] + Without(s, id)
  {
    assert ([x] + s)[1..] == s;
  }

  lemma CompactSnoc(s: seq<Entry>, x: Entry, now: int)
    ensures Compact(s + [x], now) == if Expired(x, now) then Compact(s, now) else Compact(s, now) + [x]
  {
    assert (s + [x])[..|s|] == s;
  }

  lemma TopSnoc(s: seq<Entry>, x: Entry, now: int)
    ensures Top(s + [x], now) == Better(Top(s, now), x, now)
  {
    assert (s + [x])[..|s|] == s;
  }

  lemma RunSnoc(ops: seq<Op>, op: Op)
    ensures Run(ops + [op]) == Apply(Run(ops), op)
  {
    assert (ops + [op])[..|ops|] == ops;
  }

  lemma SameId(s: seq<Entry>, e: Entry, e': Entry)
    requires UniqueIds(s) && e in s && e' in s && e.id == e'.id
    ensures e == e'
  {
  }

  // -------------------------------------------------------- single operations

  /** No entry before `i` has this id. */
  predicate AbsentBefore(s: seq<Entry>, i: nat, id: string)
    requires i <= |s|
  {
    forall k :: 0 <= k < i ==> s[k].id != id
  }

  lemma {:induction false} PushAt(s: seq<Entry>, i: nat, e: Entry, policy: PushPolicy)
    requires i < |s| && s[i].id == e.id && AbsentBefore(s, i, e.id)
    ensures Push(s, e, policy) == s[i := Merge(s[i], e, policy)]
  {
    if i > 0 {
      PushAt(s[1..], i - 1, e, policy);
      assert s[i := Merge(s[i], e, policy)] == [s[0]] + s[1..][i - 1 := Merge(s[i], e, policy)];
    }
  }

  lemma {:induction false} PushNew(s: seq<Entry>, e: Entry, policy: PushPolicy)
    requires AbsentBefore(s, |s|, e.id)
    ensures Push(s, e, policy) == s + [e]
  {
    if s != [] {
      PushNew(s[1..], e, policy);
      assert s + [e] == [s[0]] + (s[1..] + [e]);
    }
  }

  lemma {:induction false} RemoveAt(s: seq<Entry>, i: nat, id: string)
    requires i < |s| && s[i].id == id && AbsentBefore(s, i, id)
    ensures Remove(s, id) == s[..i] + s[i + 1..]
  {
    if i > 0 {
      RemoveAt(s[1..], i - 1, id);
      assert s[..i] + s[i + 1..] == [s[0]] + (s[1..][..i - 1] + s[1..][i..]);
    }
  }

  lemma {:induction false} RemoveNothing(s: seq<Entry>, id: string)
    requires AbsentBefore(s, |s|, id)
    ensures Remove(s, id) == s
  {
    if s != [] {
      RemoveNothing(s[1..], id);
    }
  }

  lemma {:induction false} FindId(s: seq<Entry>, id: string) returns (i: nat)
    ensures i <= |s| && AbsentBefore(s, i, id) && (i < |s| ==> s[i].id == id)
  {
    if s == [] || s[0].id == id {
      i := 0;
    } else {
      i := FindId(s[1..], id);
      i := i + 1;
    }
  }

  lemma MergedId(o: Entry, e: Entry, policy: PushPolicy)
    requires o.id == e.id
    ensures Merge(o, e, policy).id == e.id
  {
  }

  lemma PutContents(s: seq<Entry>, i: nat, m: Entry)
    requires UniqueIds(s) && i < |s| && s[i].id == m.id
    ensures UniqueIds(s[i := m])
    ensures forall x :: x in s[i := m] && x.id != m.id <==> x in s && x.id != m.id
    ensures m in s[i := m]
  {
    var r := s[i := m];
    assert r[i] == m;
    forall x | x in s && x.id != m.id ensures x in r {
      var k :| 0 <= k < |s| && s[k] == x;
      assert r[k] == x;
    }
  }

  /** Push writes one entry for the id and leaves all others; the order of the ids is kept. */
  lemma {:induction false} PushContents(s: seq<Entry>, e: Entry, policy: PushPolicy)
    requires UniqueIds(s)
    ensures UniqueIds(Push(s, e, policy))
    ensures forall x :: x in Push(s, e, policy) && x.id != e.id <==> x in s && x.id != e.id
    ensures forall o :: o in s && o.id == e.id ==> Merge(o, e, policy) in Push(s, e, policy)
    ensures (forall o :: o in s ==> o.id != e.id) ==> Push(s, e, policy) == s + [e]
    ensures exists x :: x in Push(s, e, policy) && x.id == e.id
  {
    var i := FindId(s, e.id);
    if i < |s| {
      var m := Merge(s[i], e, policy);
      MergedId(s[i], e, policy);
      PushAt(s, i, e, policy);
      PutContents(s, i, m);
      assert s[i] in s;
      forall o | o in s && o.id == e.id ensures Merge(o, e, policy) in Push(s, e, policy) {
        SameId(s, o, s[i]);
      }
    } else {
      PushNew(s, e, policy);
      assert e in s + [e];
    }
  }

  lemma {:induction false} CompactContents(s: seq<Entry>, now: int)
    ensures forall x :: x in Compact(s, now) <==> x in s && !Expired(x, now)
    ensures UniqueIds(s) ==> UniqueIds(Compact(s, now))
  {
    if s != [] {
      var init, last := s[..|s| - 1], s[|s| - 1];
      CompactContents(init, now);
      assert s == init + [last];
      var c := Compact(init, now);
      if UniqueIds(s) {
        forall i | 0 <= i < |c| ensures c[i].id != last.id {
          assert c[i] in init;
        }
      }
    }
  }

  lemma {:induction false} WithoutMembers(s: seq<Entry>, id: string)
    ensures forall x :: x in Without(s, id) <==> x in s && x.id != id
  {
    if s != [] {
      WithoutMembers(s[1..], id);
      assert s == [s[0]] + s[1..];
    }
  }

  lemma {:induction false} WithoutUnique(s: seq<Entry>, id: string)
    requires UniqueIds(s)
    ensures UniqueIds(Without(s, id))
  {
    if s != [] {
      WithoutUnique(s[1..], id);
      WithoutMembers(s[1..], id);
      var w := Without(s[1..], id);
      forall i | 0 <= i < |w| ensures w[i].id != s[0].id {
        assert w[i] in s[1..];
      }
    }
  }

  lemma {:induction false} WithoutAbsent(s: seq<Entry>, id: string)
    requires forall x :: x in s ==> x.id != id
    ensures Without(s, id) == s
  {
    if s != [] {
      assert s[0] in s && s == [s[0]] + s[1..];
      WithoutAbsent(s[1..], id);
    }
  }

  lemma WithoutContents(s: seq<Entry>, id: string)
    ensures forall x :: x in Without(s, id) <==> x in s && x.id != id
    ensures UniqueIds(s) ==> UniqueIds(Without(s, id))
    ensures (forall x :: x in s ==> x.id != id) ==> Without(s, id) == s
  {
    WithoutMembers(s, id);
    if UniqueIds(s) {
      WithoutUnique(s, id);
    }
    if forall x :: x in s ==> x.id != id {
      WithoutAbsent(s, id);
    }
  }

  /** With unique ids, evicting the first match evicts the source. */
  lemma {:induction false} RemoveIsWithout(s: seq<Entry>, id: string)
    requires UniqueIds(s)
    ensures Remove(s, id) == Without(s, id)
  {
    if s != [] {
      if s[0].id == id {
        WithoutContents(s[1..], id);
      } else {
        RemoveIsWithout(s[1..], id);
      }
    }
  }

  /** A live entry that no live entry outranks, or nothing if nothing is live. */
  ghost predicate IsTop(s: seq<Entry>, now: int, a: Option<Entry>) {
    && (a.Some? ==> a.value in s && !Expired(a.value, now))
    && forall e :: e in s && !Expired(e, now) ==> a.Some? && !Outranks(e, a.value)
  }

  /** The top is a live entry that no live entry outranks; there is none only if nothing is live. */
  lemma {:induction false} TopIsMaximum(s: seq<Entry>, now: int)
    ensures IsTop(s, now, Top(s, now))
  {
    if s != [] {
      TopIsMaximum(s[..|s| - 1], now);
      assert s == s[..|s| - 1] + [s[|s| - 1]];
    }
  }

  /** When an entry ends: never without a stamp or a TTL, or with TTL zero; else right after stamp plus TTL. */
  lemma ExpiryMoment(e: Entry, now: int)
    ensures e.pushedAt.None? || e.ttl.None? || e.ttl.value == 0 ==> !Expired(e, now)
    ensures e.pushedAt.Some? && e.ttl.Some? && e.ttl.value != 0 ==>
              && !Expired(e, e.pushedAt.value + e.ttl.value) && Expired(e, e.pushedAt.value + e.ttl.value + 1)
              && (Expired(e, now) <==> now >= e.pushedAt.value + e.ttl.value + 1)
  {
  }

  /** At least as high: a lower priority, or the same and an earlier or equal stamp. */
  predicate AtMost(e: Entry, t: Entry) {
    || e.payload.priority < t.payload.priority
    || (e.payload.priority == t.payload.priority && PushedAt(e) <= PushedAt(t))
  }

  /** Priority first, then the latest push: the top is live and every live entry is at most it. */
  lemma TopIsHighestThenLatest(s: seq<Entry>, now: int)
    ensures var top := Top(s, now);
            if top.None? then forall e :: e in s ==> Expired(e, now)
            else && top.value in s && !Expired(top.value, now)
                 && forall e :: e in s && !Expired(e, now) ==> AtMost(e, top.value)
  {
    TopIsMaximum(s, now);
  }

  /** Of two equal sources the one pushed last is on top, whichever stands first. */
  lemma LatestPushWins(x: Entry, y: Entry, now: int)
    requires x.payload == y.payload && !Expired(x, now) && !Expired(y, now) && PushedAt(x) < PushedAt(y)
    ensures Top([x, y], now) == Some(y) && Top([y, x], now) == Some(y)
  {
    TopOfTwo(x, y, now);
    TopOfTwo(y, x, now);
  }

  /** A push that nothing live exceeds in priority, stamped after all of it, takes the top. */
  lemma {:induction false} PushTakesTop(s: seq<Entry>, e: Entry, policy: PushPolicy, now: int)
    requires UniqueIds(s) && !Expired(e, now)
    requires forall o :: o in s && o.id == e.id ==> Merge(o, e, policy).payload.priority == e.payload.priority
    requires forall o :: o in s && !Expired(o, now) && o.id != e.id ==>
               o.payload.priority <= e.payload.priority && PushedAt(o) < PushedAt(e)
    ensures var top := Top(Push(s, e, policy), now); top.Some? && top.value.id == e.id
  {
    var i := FindId(s, e.id);
    PushContents(s, e, policy);
    var x := Pushed(s, e, policy, i);
    PushedTimes(s, e, policy, i);
    PushedOnly(s, e, policy, i, x);
    if i < |s| {
      assert s[i] in s;
    }
    TopIsHighestThenLatest(Push(s, e, policy), now);
  }

  // --------------------------------------------------------------------- runs

  datatype Op =
    | DoPush(e: Entry, policy: PushPolicy)
    | DoRemove(id: string)
    | DoCompact(now: int)

  function Apply(s: seq<Entry>, op: Op): seq<Entry> {
    match op
    case DoPush(e, policy) => Push(s, e, policy)
    case DoRemove(id) => Remove(s, id)
    case DoCompact(now) => Compact(s, now)
  }

  function Run(ops: seq<Op>): seq<Entry> {
    if ops == [] then [] else Apply(Run(ops[..|ops| - 1]), ops[|ops| - 1])
  }

  /** Ids stay unique in every run. */
  lemma {:induction false} RunUnique(ops: seq<Op>)
    ensures UniqueIds(Run(ops))
  {
    if ops != [] {
      var s := Run(ops[..|ops| - 1]);
      RunUnique(ops[..|ops| - 1]);
      match ops[|ops| - 1]
      case DoPush(e, policy) => PushContents(s, e, policy);
      case DoRemove(id) => RemoveIsWithout(s, id); WithoutContents(s, id);
      case DoCompact(now) => CompactContents(s, now);
    }
  }

  // --------------------------------------------------- source non-interference

  /** The run in which `id` was never pushed. */
  function Erase(ops: seq<Op>, id: string): seq<Op> {
    if ops == [] then []
    else
      var last := ops[|ops| - 1];
      if last.DoPush? && last.e.id == id then Erase(ops[..|ops| - 1], id)
      else Erase(ops[..|ops| - 1], id) + [last]
  }

  lemma {:induction false} WithoutPush(s: seq<Entry>, e: Entry, policy: PushPolicy, id: string)
    ensures Without(Push(s, e, policy), id)
            == if e.id == id then Without(s, id) else Push(Without(s, id), e, policy)
  {
    if s == [] {
      WithoutCons(e, [], id);
    } else {
      var x, rest := s[0], s[1..];
      if x.id == e.id {
        WithoutCons(Merge(x, e, policy), rest, id);
        PushCons(x, Without(rest, id), e, policy);
      } else {
        WithoutPush(rest, e, policy, id);
        WithoutCons(x, Push(rest, e, policy), id);
        PushCons(x, Without(rest, id), e, policy);
      }
    }
  }

  lemma {:induction false} WithoutSnoc(s: seq<Entry>, e: Entry, id: string)
    ensures Without(s + [e], id) == if e.id == id then Without(s, id) else Without(s, id) + [e]
  {
    if s == [] {
      assert s + [e] == [e] + [];
      WithoutCons(e, [], id);
    } else {
      WithoutSnoc(s[1..], e, id);
      assert s + [e] == [s[0]] + (s[1..] + [e]);
      WithoutCons(s[0], s[1..] + [e], id);
    }
  }

  lemma {:induction false} WithoutCompact(s: seq<Entry>, now: int, id: string)
    ensures Without(Compact(s, now), id) == Compact(Without(s, id), now)
  {
    if s != [] {
      var init, last := s[..|s| - 1], s[|s| - 1];
      assert s == init + [last];
      WithoutCompact(init, now, id);
      WithoutSnoc(init, last, id);
      WithoutSnoc(Compact(init, now), last, id);
      CompactSnoc(Without(init, id), last, now);
    }
  }

  lemma {:induction false} WithoutTwice(s: seq<Entry>, a: string, b: string)
    ensures Without(Without(s, a), b) == Without(Without(s, b), a)
  {
    if s != [] {
      WithoutTwice(s[1..], a, b);
      WithoutCons(s[0], Without(s[1..], a), b);
      WithoutCons(s[0], Without(s[1..], b), a);
    }
  }

  lemma {:induction false} WithoutRun(ops: seq<Op>, id: string)
    ensures Without(Run(ops), id) == Run(Erase(ops, id))
  {
    if ops != [] {
      var init, last := ops[..|ops| - 1], ops[|ops| - 1];
      var s := Run(init);
      WithoutRun(init, id);
      if last.DoPush? && last.e.id == id {
        WithoutPush(s, last.e, last.policy, id);
      } else {
        RunSnoc(Erase(init, id), last);
        RunUnique(init);
        RunUnique(Erase(init, id));
        match last
        case DoPush(e, policy) => WithoutPush(s, e, policy, id);
        case DoRemove(other) =>
          RemoveIsWithout(s, other);
          RemoveIsWithout(Run(Erase(init, id)), other);
          WithoutTwice(s, other, id);
        case DoCompact(now) => WithoutCompact(s, now, id);
      }
    }
  }

  /** Removing a source leaves the stack, contents and order, as if it had never pushed. */
  lemma RemovalRestores(ops: seq<Op>, id: string)
    ensures Remove(Run(ops), id) == Run(Erase(ops, id))
  {
    RunUnique(ops);
    RemoveIsWithout(Run(ops), id);
    WithoutRun(ops, id);
  }

  lemma {:induction false} TopIgnoresExpired(s: seq<Entry>, now: int, id: string)
    requires forall e :: e in s && e.id == id ==> Expired(e, now)
    ensures Top(s, now) == Top(Without(s, id), now)
  {
    if s != [] {
      var init, last := s[..|s| - 1], s[|s| - 1];
      assert s == init + [last];
      TopIgnoresExpired(init, now, id);
      WithoutSnoc(init, last, id);
      TopSnoc(Without(init, id), last, now);
    }
  }

  /** Once a source's entry has expired the top is the one of the run without that source. */
  lemma ExpiryRestoresTop(ops: seq<Op>, id: string, now: int)
    requires forall e :: e in Run(ops) && e.id == id ==> Expired(e, now)
    ensures Top(Run(ops), now) == Top(Run(Erase(ops, id)), now)
  {
    TopIgnoresExpired(Run(ops), now, id);
    WithoutRun(ops, id);
  }

  // --------------------------------------------------- compaction is invisible

  /** The same run without its compactions. */
  function Plain(ops: seq<Op>): seq<Op> {
    if ops == [] then []
    else if ops[|ops| - 1].DoCompact? then Plain(ops[..|ops| - 1])
    else Plain(ops[..|ops| - 1]) + [ops[|ops| - 1]]
  }

  /** Every refresh carries the payload that its id already has. */
  ghost predicate Consistent(ops: seq<Op>) {
    ops != [] ==>
      var init, last := ops[..|ops| - 1], ops[|ops| - 1];
      && Consistent(init)
      && (last.DoPush? && last.policy != Replace ==>
            forall o :: o in Run(Plain(init)) && o.id == last.e.id ==> o.payload == last.e.payload)
  }

  /** Compactions happen in time order, none after `now`. */
  ghost predicate Timely(ops: seq<Op>, now: int) {
    ops != [] ==>
      var init, last := ops[..|ops| - 1], ops[|ops| - 1];
      if last.DoCompact? then last.now <= now && Timely(init, last.now) else Timely(init, now)
  }

  /** `s` is a compaction of `full` as of time `t`. */
  ghost predicate CompactedAt(s: seq<Entry>, full: seq<Entry>, t: int) {
    && UniqueIds(s) && UniqueIds(full)
    && (forall e :: e in s ==> e in full)
    && (forall e :: e in full && !Expired(e, t) ==> e in s)
  }

  lemma CompactedPush(s: seq<Entry>, full: seq<Entry>, t: int, e: Entry, policy: PushPolicy)
    requires CompactedAt(s, full, t)
    requires policy != Replace ==> forall o :: o in full && o.id == e.id ==> o.payload == e.payload
    ensures CompactedAt(Push(s, e, policy), Push(full, e, policy), t)
  {
    var s', full' := Push(s, e, policy), Push(full, e, policy);
    PushContents(s, e, policy);
    PushContents(full, e, policy);
    var x :| x in s' && x.id == e.id;
    var y :| y in full' && y.id == e.id;
    PushResult(s, e, policy, x);
    PushResult(full, e, policy, y);
    assert x == y;
    forall z | z in s' ensures z in full' {
      if z.id == e.id { SameId(s', z, x); } else { assert z in s; }
    }
    forall z | z in full' && !Expired(z, t) ensures z in s' {
      if z.id == e.id { SameId(full', z, y); } else { assert z in full; }
    }
  }

  /** The pushed id ends up with the new timing and, if it was new, repeated or replaced, the new payload. */
  lemma PushResult(s: seq<Entry>, e: Entry, policy: PushPolicy, x: Entry)
    requires UniqueIds(s) && x in Push(s, e, policy) && x.id == e.id
    requires policy != Replace ==> forall o :: o in s && o.id == e.id ==> o.payload == e.payload
    ensures x == e
  {
    PushContents(s, e, policy);
    if o :| o in s && o.id == e.id {
      SameId(Push(s, e, policy), x, Merge(o, e, policy));
    } else {
      assert x in s + [e];
    }
  }

  lemma {:induction false} CompactedRun(ops: seq<Op>, now: int) returns (t: int)
    requires Consistent(ops) && Timely(ops, now)
    ensures t <= now && CompactedAt(Run(ops), Run(Plain(ops)), t)
  {
    RunUnique(ops);
    RunUnique(Plain(ops));
    if ops == [] {
      t := now;
    } else {
      var init, last := ops[..|ops| - 1], ops[|ops| - 1];
      var s, full := Run(init), Run(Plain(init));
      if last.DoCompact? {
        var t0 := CompactedRun(init, last.now);
        CompactContents(s, last.now);
        t := last.now;
      } else {
        t := CompactedRun(init, now);
        RunSnoc(Plain(init), last);
        match last
        case DoPush(e, policy) => CompactedPush(s, full, t, e, policy);
        case DoRemove(id) =>
          RemoveIsWithout(s, id);
          RemoveIsWithout(full, id);
          WithoutContents(s, id);
          WithoutContents(full, id);
      }
    }
  }

  predicate Tied(a: Entry, b: Entry, now: int) {
    && !Expired(a, now) && !Expired(b, now)
    && Priority(a) == Priority(b) && PushedAt(a) == PushedAt(b)
  }

  /** No other live entry ties with the top. */
  predicate TopUntied(s: seq<Entry>, now: int) {
    var top := Top(s, now);
    top.Some? ==> forall a :: a in s && Tied(a, top.value, now) ==> a == top.value
  }

  /**
   Compaction at any points of a run never changes how the top ranks, and never changes the
   top itself unless another live entry ties with it.
   */
  lemma CompactionInvisible(ops: seq<Op>, now: int)
    requires Consistent(ops) && Timely(ops, now)
    ensures var a, b := Top(Run(ops), now), Top(Run(Plain(ops)), now);
            && a.Some? == b.Some?
            && (a.Some? ==> Priority(a.value) == Priority(b.value) && PushedAt(a.value) == PushedAt(b.value))
            && (TopUntied(Run(Plain(ops)), now) ==> a == b)
  {
    var t := CompactedRun(ops, now);
    CompactedTop(Run(ops), Run(Plain(ops)), t, now);
  }

  lemma CompactedTop(s: seq<Entry>, full: seq<Entry>, t: int, now: int)
    requires CompactedAt(s, full, t) && t <= now
    ensures var a, b := Top(s, now), Top(full, now);
            && a.Some? == b.Some?
            && (a.Some? ==> Priority(a.value) == Priority(b.value) && PushedAt(a.value) == PushedAt(b.value))
            && (TopUntied(full, now) ==> a == b)
  {
    TopIsMaximum(s, now);
    TopIsMaximum(full, now);
    TopsAgree(s, full, t, now, Top(s, now), Top(full, now));
  }

  lemma TopsAgree(s: seq<Entry>, full: seq<Entry>, t: int, now: int, a: Option<Entry>, b: Option<Entry>)
    requires CompactedAt(s, full, t) && t <= now && IsTop(s, now, a) && b == Top(full, now) && IsTop(full, now, b)
    ensures a.Some? == b.Some?
    ensures a.Some? ==> Priority(a.value) == Priority(b.value) && PushedAt(a.value) == PushedAt(b.value)
    ensures TopUntied(full, now) ==> a == b
  {
    if a.Some? {
      assert a.value in full;
    }
    if b.Some? {
      LaterExpired(b.value, t, now);
      assert b.value in s;
      SameRank(a.value, b.value);
    }
  }

  lemma LaterExpired(x: Entry, t: int, now: int)
    requires t <= now && !Expired(x, now)
    ensures !Expired(x, t)
  {
  }

  lemma SameRank(x: Entry, y: Entry)
    requires !Outranks(x, y) && !Outranks(y, x)
    ensures Priority(x) == Priority(y) && PushedAt(x) == PushedAt(y)
  {
  }

  ghost predicate SameLive(s: seq<Entry>, r: seq<Entry>, t: int) {
    forall x :: !Expired(x, t) ==> (x in s <==> x in r)
  }

  /** What a push leaves under its id: the merge with the entry there was, or the pushed entry itself. */
  function Pushed(s: seq<Entry>, e: Entry, policy: PushPolicy, i: nat): Entry
    requires i <= |s|
  {
    if i < |s| then Merge(s[i], e, policy) else e
  }

  lemma PushedOnly(s: seq<Entry>, e: Entry, policy: PushPolicy, i: nat, x: Entry)
    requires UniqueIds(s) && i <= |s| && AbsentBefore(s, i, e.id) && (i < |s| ==> s[i].id == e.id) && x.id == e.id
    ensures x in Push(s, e, policy) <==> x == Pushed(s, e, policy, i)
  {
    var m, r := Pushed(s, e, policy, i), Push(s, e, policy);
    PushContents(s, e, policy);
    if i < |s| {
      MergedId(s[i], e, policy);
      PushAt(s, i, e, policy);
      assert r[i] == m;
    } else {
      PushNew(s, e, policy);
      assert r[|s|] == m;
    }
    if x in r {
      SameId(r, x, m);
    }
  }

  /**
   The payload condition is exact, on every stack: compacting before a push shows in the live entries
   afterwards iff the push is a live refresh of an expired entry that had another payload.
   */
  lemma {:induction false} RefreshAfterCompaction(s: seq<Entry>, e: Entry, policy: PushPolicy, t: int)
    requires UniqueIds(s)
    ensures SameLive(Push(Compact(s, t), e, policy), Push(s, e, policy), t) <==>
            policy == Replace || Expired(e, t)
            || forall o :: o in s && o.id == e.id && Expired(o, t) ==> o.payload == e.payload
  {
    var c := Compact(s, t);
    CompactContents(s, t);
    PushContents(c, e, policy);
    PushContents(s, e, policy);
    var i := FindId(s, e.id);
    var j := FindId(c, e.id);
    var x, y := Pushed(s, e, policy, i), Pushed(c, e, policy, j);
    forall z: Entry | z.id == e.id
      ensures z in Push(s, e, policy) <==> z == x
      ensures z in Push(c, e, policy) <==> z == y
    {
      PushedOnly(s, e, policy, i, z);
      PushedOnly(c, e, policy, j, z);
    }
    PushedTimes(s, e, policy, i);
    PushedTimes(c, e, policy, j);
    CompactedPushed(s, e, policy, t, i, j);
    assert SameLive(Push(c, e, policy), Push(s, e, policy), t) <==> x == y || Expired(e, t);
  }

  /** Such a push: a source comes back with another computer after its entry has expired. */
  lemma {:induction false} RefreshRevealsCompaction(id: string, p: Payload, q: Payload)
    requires p != q
    ensures var o, e := Entry(id, p, Some(0), Some(1)), Entry(id, q, Some(9), None);
            !SameLive(Push(Compact([o], 5), e, Refresh), Push([o], e, Refresh), 5)
  {
    var o, e := Entry(id, p, Some(0), Some(1)), Entry(id, q, Some(9), None);
    assert o in [o] && Expired(o, 5);
    RefreshAfterCompaction([o], e, Refresh, 5);
  }

  lemma PushedTimes(s: seq<Entry>, e: Entry, policy: PushPolicy, i: nat)
    requires i <= |s| && (i < |s| ==> s[i].id == e.id)
    ensures var m := Pushed(s, e, policy, i); m.id == e.id && forall t :: Expired(m, t) <==> Expired(e, t)
  {
  }

  lemma CompactedPushed(s: seq<Entry>, e: Entry, policy: PushPolicy, t: int, i: nat, j: nat)
    requires UniqueIds(s) && i <= |s| && AbsentBefore(s, i, e.id) && (i < |s| ==> s[i].id == e.id)
    requires var c := Compact(s, t); j <= |c| && AbsentBefore(c, j, e.id) && (j < |c| ==> c[j].id == e.id)
    ensures Pushed(s, e, policy, i) == Pushed(Compact(s, t), e, policy, j) <==>
            policy == Replace || forall o :: o in s && o.id == e.id && Expired(o, t) ==> o.payload == e.payload
  {
    var c := Compact(s, t);
    CompactContents(s, t);
    if j < |c| {
      assert c[j] in c;
    }
    if i < |s| {
      assert s[i] in s;
      forall o | o in s && o.id == e.id ensures o == s[i] {
        SameId(s, o, s[i]);
      }
    }
  }

  // ------------------------------------------------------------ ties, exactly

  /** Of two tops the first, unless the second outranks it. */
  function Pick(a: Option<Entry>, b: Option<Entry>): Option<Entry> {
    if b.None? then a else if a.None? || Outranks(b.value, a.value) then b else a
  }

  function Alone(x: Entry, now: int): Option<Entry> {
    if Expired(x, now) then None else Some(x)
  }

  lemma BetterPicks(a: Option<Entry>, x: Entry, now: int)
    ensures Better(a, x, now) == Pick(a, Alone(x, now))
  {
  }

  lemma PickAssociates(a: Option<Entry>, b: Option<Entry>, c: Option<Entry>)
    ensures Pick(Pick(a, b), c) == Pick(a, Pick(b, c))
  {
  }

  lemma {:induction false} TopAppend(a: seq<Entry>, b: seq<Entry>, now: int)
    ensures Top(a + b, now) == Pick(Top(a, now), Top(b, now))
  {
    if b == [] {
      assert a + b == a;
    } else {
      var init, last := b[..|b| - 1], b[|b| - 1];
      TopAppend(a, init, now);
      assert a + b == (a + init) + [last];
      TopSnoc(a + init, last, now);
      BetterPicks(Pick(Top(a, now), Top(init, now)), last, now);
      BetterPicks(Top(init, now), last, now);
      PickAssociates(Top(a, now), Top(init, now), Alone(last, now));
    }
  }

  lemma TopAround(a: seq<Entry>, x: Entry, b: seq<Entry>, now: int)
    ensures Top(a + [x] + b, now) == Pick(Pick(Top(a, now), Alone(x, now)), Top(b, now))
  {
    TopAppend(a + [x], b, now);
    TopSnoc(a, x, now);
    BetterPicks(Top(a, now), x, now);
  }

  lemma {:induction false} TopOfCompacted(s: seq<Entry>, t: int, now: int)
    requires t <= now
    ensures Top(Compact(s, t), now) == Top(s, now)
  {
    if s != [] {
      var init, last := s[..|s| - 1], s[|s| - 1];
      TopOfCompacted(init, t, now);
      if !Expired(last, t) {
        TopSnoc(Compact(init, t), last, now);
      }
    }
  }

  lemma CompactAppendSnoc(a: seq<Entry>, b: seq<Entry>, x: Entry, t: int)
    requires Compact(a + b, t) == Compact(a, t) + Compact(b, t)
    ensures Compact((a + b) + [x], t) == Compact(a, t) + Compact(b + [x], t)
  {
    CompactSnoc(a + b, x, t);
    CompactSnoc(b, x, t);
    Associates(Compact(a, t), Compact(b, t), [x]);
  }

  lemma {:induction false} CompactAppend(a: seq<Entry>, b: seq<Entry>, t: int)
    ensures Compact(a + b, t) == Compact(a, t) + Compact(b, t)
  {
    if b == [] {
      assert a + b == a;
    } else {
      var init, last := b[..|b| - 1], b[|b| - 1];
      CompactAppend(a, init, t);
      assert a + b == (a + init) + [last] && b == init + [last];
      CompactAppendSnoc(a, init, last, t);
    }
  }

  lemma CompactAround(a: seq<Entry>, x: Entry, b: seq<Entry>, t: int)
    ensures Compact(a + [x] + b, t) == Compact(a, t) + (if Expired(x, t) then [] else [x]) + Compact(b, t)
  {
    CompactAppend(a + [x], b, t);
    CompactSnoc(a, x, t);
  }

  ghost predicate NoneOf(s: seq<Entry>, id: string) {
    forall x :: x in s ==> x.id != id
  }

  lemma PushAround(a: seq<Entry>, x: Entry, b: seq<Entry>, e: Entry, policy: PushPolicy)
    requires NoneOf(a, e.id) && x.id == e.id
    ensures Push(a + [x] + b, e, policy) == a + [Merge(x, e, policy)] + b
  {
    var s, i := a + [x] + b, |a|;
    forall k | 0 <= k < i ensures s[k].id != e.id {
      assert s[k] == a[k] && a[k] in a;
    }
    PushAt(s, i, e, policy);
  }

  lemma PushAbsent(s: seq<Entry>, e: Entry, policy: PushPolicy)
    requires NoneOf(s, e.id)
    ensures Push(s, e, policy) == s + [e]
  {
    forall k | 0 <= k < |s| ensures s[k].id != e.id {
      assert s[k] in s;
    }
    PushNew(s, e, policy);
  }

  lemma CompactKeepsAbsence(s: seq<Entry>, t: int, id: string)
    requires NoneOf(s, id)
    ensures NoneOf(Compact(s, t), id)
  {
    CompactContents(s, t);
  }

  /** `e` is live, ties with the top of what stands after it, and outranks the top of what stands before it. */
  predicate LosesPlace(before: Option<Entry>, e: Entry, after: Option<Entry>, now: int) {
    && after.Some? && Tied(e, after.value, now)
    && (before.None? || Outranks(e, before.value))
  }

  lemma MovedBack(before: Option<Entry>, e: Entry, after: Option<Entry>, now: int)
    requires after.Some? ==> !Expired(after.value, now) && after.value != e
    ensures Pick(Pick(before, after), Alone(e, now)) == Pick(Pick(before, Alone(e, now)), after)
            <==> !LosesPlace(before, e, after, now)
  {
  }

  /** The top after a push onto an entry of the same source. */
  lemma TopInPlace(a: seq<Entry>, x: Entry, b: seq<Entry>, e: Entry, policy: PushPolicy, now: int)
    requires NoneOf(a, e.id) && x.id == e.id
    ensures Top(Push(a + [x] + b, e, policy), now)
            == Pick(Pick(Top(a, now), Alone(Merge(x, e, policy), now)), Top(b, now))
  {
    PushAround(a, x, b, e, policy);
    TopAround(a, Merge(x, e, policy), b, now);
  }

  /** The top after a push of a source that is not there. */
  lemma TopAtEnd(a: seq<Entry>, b: seq<Entry>, e: Entry, policy: PushPolicy, now: int)
    requires NoneOf(a, e.id) && NoneOf(b, e.id)
    ensures Top(Push(a + b, e, policy), now) == Pick(Pick(Top(a, now), Top(b, now)), Alone(e, now))
  {
    PushAbsent(a + b, e, policy);
    TopSnoc(a + b, e, now);
    TopAppend(a, b, now);
    BetterPicks(Pick(Top(a, now), Top(b, now)), e, now);
  }

  lemma TopCompactedFirst(a: seq<Entry>, x: Entry, b: seq<Entry>, e: Entry, policy: PushPolicy, t: int, now: int)
    requires NoneOf(a, e.id) && NoneOf(b, e.id) && x.id == e.id && t <= now
    ensures Top(Push(Compact(a + [x] + b, t), e, policy), now)
            == if Expired(x, t) then Pick(Pick(Top(a, now), Top(b, now)), Alone(e, now))
               else Pick(Pick(Top(a, now), Alone(Merge(x, e, policy), now)), Top(b, now))
  {
    CompactAround(a, x, b, t);
    CompactKeepsAbsence(a, t, e.id);
    CompactKeepsAbsence(b, t, e.id);
    TopOfCompacted(a, t, now);
    TopOfCompacted(b, t, now);
    if Expired(x, t) {
      assert Compact(a, t) + [] == Compact(a, t);
      TopAtEnd(Compact(a, t), Compact(b, t), e, policy, now);
    } else {
      TopInPlace(Compact(a, t), x, Compact(b, t), e, policy, now);
    }
  }

  /** The source's entry at `i` has expired, and refreshed in place it stands before an equal. */
  predicate TieAt(s: seq<Entry>, i: nat, e: Entry, t: int, now: int) {
    && i < |s| && s[i].id == e.id && Expired(s[i], t)
    && LosesPlace(Top(s[..i], now), e, Top(s[i + 1..], now), now)
  }

  /**
   The tie condition is exact, on every stack and for every push that repeats what an expired entry of its
   source held: compacting first changes the top after the push iff the pushed entry ties with the top of
   the entries after the expired one and outranks those before it.
   */
  lemma {:induction false} TieExact(s: seq<Entry>, e: Entry, policy: PushPolicy, t: int, now: int)
    requires UniqueIds(s) && t <= now
    requires forall o :: o in s && o.id == e.id && Expired(o, t) ==> Merge(o, e, policy) == e
    ensures Top(Push(Compact(s, t), e, policy), now) == Top(Push(s, e, policy), now)
            <==> !exists i :: TieAt(s, i, e, t, now)
  {
    var i := FindId(s, e.id);
    if i < |s| {
      var a, x, b := s[..i], s[i], s[i + 1..];
      assert s == a + [x] + b && x in s;
      assert NoneOf(a, e.id) && NoneOf(b, e.id);
      TopInPlace(a, x, b, e, policy, now);
      TopCompactedFirst(a, x, b, e, policy, t, now);
      TopIsMaximum(b, now);
      MovedBack(Top(a, now), e, Top(b, now), now);
      assert forall j :: TieAt(s, j, e, t, now) ==> j == i;
      if Expired(x, t) && LosesPlace(Top(a, now), e, Top(b, now), now) {
        assert TieAt(s, i, e, t, now);
      }
    } else {
      assert NoneOf(s, e.id);
      PushAbsent(s, e, policy);
      CompactKeepsAbsence(s, t, e.id);
      PushAbsent(Compact(s, t), e, policy);
      TopSnoc(s, e, now);
      TopSnoc(Compact(s, t), e, now);
      TopOfCompacted(s, t, now);
    }
  }

  lemma CompactedPair(x: Entry, y: Entry, now: int)
    requires Expired(x, now) && !Expired(y, now)
    ensures Compact([x, y], now) == [y]
  {
    assert [x, y] == [x] + [y] && [x] == [] + [x];
    CompactSnoc([x], y, now);
    CompactSnoc([], x, now);
  }

  lemma PushOntoPair(x: Entry, y: Entry, e: Entry)
    requires x.id == e.id
    ensures Push([x, y], e, Refresh) == [Merge(x, e, Refresh), y]
  {
    assert [x, y] == [x] + [y];
    PushCons(x, [y], e, Refresh);
  }

  lemma PushOntoOther(y: Entry, e: Entry)
    requires y.id != e.id
    ensures Push([y], e, Refresh) == [y, e]
  {
    assert [y] == [y] + [];
    PushCons(y, [], e, Refresh);
  }

  /** The tie condition is needed: compaction reorders re-pushed entries, and the first of a tie wins. */
  lemma TieRevealsCompaction(p: Payload, a: string, b: string)
    requires a != b
    ensures var x, y := Entry(a, p, Some(0), Some(1)), Entry(b, p, Some(9), None);
            var x' := x.(pushedAt := Some(9));
            && Top(Push(Compact([x, y], 5), x', Refresh), 9) == Some(y)
            && Top(Push([x, y], x', Refresh), 9) == Some(x')
  {
    var x, y := Entry(a, p, Some(0), Some(1)), Entry(b, p, Some(9), None);
    var x' := x.(pushedAt := Some(9));
    CompactedPair(x, y, 5);
    PushOntoOther(y, x');
    PushOntoPair(x, y, x');
    TopOfTwo(y, x', 9);
    TopOfTwo(x', y, 9);
  }

  lemma TopOfTwo(x: Entry, y: Entry, now: int)
    ensures Top([x, y], now) == Better(Better(None, x, now), y, now)
  {
    assert [x, y] == [x] + [y] && [x] == [] + [x];
    TopSnoc([x], y, now);
    TopSnoc([], x, now);
  }

  // ----------------------------------------------------------------- the object

  class AxisStack {
    var entries: seq<Entry>

    constructor ()
      ensures entries == []
    {
      entries := [];
    }

    method PushActivation(e: Entry, policy: PushPolicy)
      modifies this
      ensures entries == Push(old(entries), e, policy)
    {
      ghost var before := entries;
      for i := 0 to |entries|
        invariant entries == before && AbsentBefore(before, i, e.id)
      {
        if entries[i].id == e.id {
          PushAt(before, i, e, policy);
          entries := entries[i := Merge(entries[i], e, policy)];
          return;
        }
      }
      PushNew(before, e, policy);
      entries := entries + [e];
    }

    method TopAt(now: int) returns (best: Option<Entry>)
      ensures best == Top(entries, now)
    {
      best := None;
      for i := 0 to |entries|
        invariant best == Top(entries[..i], now)
      {
        var a := entries[i];
        assert entries[..i + 1][..i] == entries[..i];
        if Expired(a, now) {
          continue;
        }
        if best.None? {
          best := Some(a);
          continue;
        }
        if Priority(a) > Priority(best.value) {
          best := Some(a);
          continue;
        }
        if Priority(a) == Priority(best.value) && PushedAt(a) > PushedAt(best.value) {
          best := Some(a);
        }
      }
      assert entries[..|entries|] == entries;
    }

    method RemoveExpired(now: int)
      modifies this
      ensures entries == Compact(old(entries), now)
    {
      var kept: seq<Entry> := [];
      for i := 0 to |entries|
        invariant entries == old(entries)
        invariant kept == Compact(entries[..i], now)
      {
        assert entries[..i + 1][..i] == entries[..i];
        if !Expired(entries[i], now) {
          kept := kept + [entries[i]];
        }
      }
      assert entries[..|entries|] == entries;
      entries := kept;
    }

    method RemoveByID(id: string) returns (removed: bool)
      modifies this
      ensures entries == Remove(old(entries), id)
      ensures removed <==> exists e :: e in old(entries) && e.id == id
    {
      ghost var before := entries;
      for i := 0 to |entries|
        invariant entries == before && AbsentBefore(before, i, id)
      {
        if entries[i].id == id {
          RemoveAt(before, i, id);
          assert before[i] in before;
          entries := entries[..i] + entries[i + 1..];
          return true;
        }
      }
      RemoveNothing(before, id);
      return false;
    }
  }
}
