/**
 The fade envelope and the life of its snapshots. Times are nanoseconds, floating point is
 modelled by `real`; what a tick reads from the zone is a parameter of the tick.
 */
module Fade {
  import opened Wrappers
  import opened Canonical
  import opened ZoneRecord

  /** `brightnessFrom` and `kelvinFrom` are zero when the axis starts from the zone's current value. */
  datatype Params = Params(
    duration: int, brightnessTo: real, brightnessFrom: real, kelvinTo: int, kelvinFrom: int, terminal: ZoneState)

  datatype Snapshot = Snapshot(startedAt: int, brightness: real, kelvin: int)

  /** What the zone shows when a snapshot is seeded. */
  datatype Current = Current(brightness: real, kelvin: int)

  datatype Key = Key(condition: string, zone: string)

  type Store = map<Key, Snapshot>

  /** Seeding: a pinned value wins over the zone's; an axis without a target is left at zero. */
  function Resolve(p: Params, c: Current, startedAt: int): Snapshot {
    Snapshot(
      startedAt,
      if p.brightnessTo == 0.0 then 0.0 else if p.brightnessFrom != 0.0 then p.brightnessFrom else c.brightness,
      if p.kelvinTo == 0 then 0 else if p.kelvinFrom != 0 then p.kelvinFrom else c.kelvin)
  }

  // ------------------------------------------------------------- interpolation

  function BrightnessStart(p: Params, e: Snapshot): real {
    if p.brightnessFrom == 0.0 then e.brightness else p.brightnessFrom
  }

  function KelvinStart(p: Params, e: Snapshot): int {
    if p.kelvinFrom == 0 then e.kelvin else p.kelvinFrom
  }

  predicate Terminal(p: Params, e: Snapshot, now: int) {
    now - e.startedAt >= p.duration
  }

  /** How far the envelope is, up to one; negative before it starts. */
  function Progress(p: Params, e: Snapshot, now: int): real
    requires p.duration > 0
  {
    if Terminal(p, e, now) then 1.0 else (now - e.startedAt) as real / p.duration as real
  }

  function Part(progress: real, d: real): real {
    progress * d
  }

  function Lerp(from: real, to: real, progress: real): real {
    from + Part(progress, to - from)
  }

  function FadeBrightness(p: Params, e: Snapshot, now: int): real
    requires p.duration > 0
  {
    Lerp(BrightnessStart(p, e), p.brightnessTo, Progress(p, e, now))
  }

  function FadeKelvin(p: Params, e: Snapshot, now: int): int
    requires p.duration > 0
  {
    Round(Lerp(KelvinStart(p, e) as real, p.kelvinTo as real, Progress(p, e, now)))
  }

  function WithBrightness(v: Values, x: real): Values {
    v.(brightnessValue := x, brightness := BrightnessNearestEnum(x))
  }

  function WithKelvin(v: Values, k: int): Values {
    v.(kelvin := k, colorTemp := ColorTempNearestEnum(k))
  }

  /** The axes that have a target, at this progress. */
  function Axes(p: Params, e: Snapshot, progress: real): Values {
    var v := if p.brightnessTo == 0.0 then NO_VALUES
             else WithBrightness(NO_VALUES, Lerp(BrightnessStart(p, e), p.brightnessTo, progress));
    if p.kelvinTo == 0 then v
    else WithKelvin(v, Round(Lerp(KelvinStart(p, e) as real, p.kelvinTo as real, progress)))
  }

  /** The values of one tick with a snapshot. */
  function Interpolated(p: Params, e: Snapshot, now: int): Values
    requires p.duration > 0
  {
    if now < e.startedAt then NO_VALUES
    else
      var v := Axes(p, e, Progress(p, e, now));
      if Terminal(p, e, now) then v.(state := p.terminal) else v
  }

  // -------------------------------------------------------------------- shape

  /** `x`, then `y`, on the way from `a` to `b`. */
  predicate OnTheWay(a: real, x: real, y: real, b: real) {
    a <= x <= y <= b || a >= x >= y >= b
  }

  lemma LerpMonotone(from: real, to: real, p: real, q: real)
    requires 0.0 <= p <= q <= 1.0
    ensures OnTheWay(from, Lerp(from, to, p), Lerp(from, to, q), to)
  {
    PartsOrdered(p, q, to - from);
  }

  lemma PartsOrdered(p: real, q: real, d: real)
    requires 0.0 <= p <= q <= 1.0
    ensures OnTheWay(0.0, Part(p, d), Part(q, d), d)
  {
    if d >= 0.0 {
      StepsOrdered(p, q, d);
    } else {
      StepsOrdered(p, q, -d);
      PartNegated(p, d);
      PartNegated(q, d);
    }
  }

  lemma StepsOrdered(p: real, q: real, d: real)
    requires 0.0 <= p <= q <= 1.0 && d >= 0.0
    ensures 0.0 <= Part(p, d) <= Part(q, d) <= d
  {
    ProductNonNegative(p, d);
    ProductNonNegative(q - p, d);
    ProductNonNegative(1.0 - q, d);
    assert (q - p) * d == q * d - p * d;
    assert (1.0 - q) * d == d - q * d;
  }

  lemma PartNegated(x: real, d: real)
    ensures Part(x, -d) == -Part(x, d)
  {
  }

  lemma Divides(m: int, n: int, d: int)
    requires 0 <= m <= n <= d && d > 0
    ensures 0.0 <= m as real / d as real <= n as real / d as real <= 1.0
  {
  }

  lemma ProgressMonotone(p: Params, e: Snapshot, t: int, u: int)
    requires p.duration > 0 && e.startedAt <= t <= u
    ensures 0.0 <= Progress(p, e, t) <= Progress(p, e, u) <= 1.0
  {
    var m, n := t - e.startedAt, u - e.startedAt;
    if !Terminal(p, e, u) {
      Divides(m, n, p.duration);
    } else if !Terminal(p, e, t) {
      Divides(m, p.duration, p.duration);
    }
  }

  /**
   From its seed on both axes move monotonically from their start to their target and never
   leave the interval between the two.
   */
  lemma EnvelopeMonotone(p: Params, e: Snapshot, t: int, u: int)
    requires p.duration > 0 && e.startedAt <= t <= u
    ensures OnTheWay(BrightnessStart(p, e), FadeBrightness(p, e, t), FadeBrightness(p, e, u), p.brightnessTo)
    ensures OnTheWay(
              KelvinStart(p, e) as real, FadeKelvin(p, e, t) as real, FadeKelvin(p, e, u) as real, p.kelvinTo as real)
  {
    ProgressMonotone(p, e, t, u);
    var x, y := Progress(p, e, t), Progress(p, e, u);
    LerpMonotone(BrightnessStart(p, e), p.brightnessTo, x, y);
    LerpMonotone(KelvinStart(p, e) as real, p.kelvinTo as real, x, y);
    RoundOnTheWay(KelvinStart(p, e), Lerp(KelvinStart(p, e) as real, p.kelvinTo as real, x),
                  Lerp(KelvinStart(p, e) as real, p.kelvinTo as real, y), p.kelvinTo);
  }

  lemma RoundOnTheWay(a: int, x: real, y: real, b: int)
    requires OnTheWay(a as real, x, y, b as real)
    ensures OnTheWay(a as real, Round(x) as real, Round(y) as real, b as real)
  {
    RoundOfInt(a);
    RoundOfInt(b);
    if a as real <= x <= y <= b as real {
      RoundMonotone(a as real, x);
      RoundMonotone(x, y);
      RoundMonotone(y, b as real);
    } else {
      RoundMonotone(x, a as real);
      RoundMonotone(y, x);
      RoundMonotone(b as real, y);
    }
  }

  /** Of the way from `from` to `to`, `x` has covered the share that `m` is of `n`. */
  predicate CoveredShare(from: real, to: real, m: int, n: int, x: real) {
    n as real * (x - from) == (to - from) * m as real
  }

  lemma PartOfShare(m: real, n: real, d: real)
    requires n > 0.0
    ensures n * Part(m / n, d) == d * m
  {
    assert (m / n) * n == m;
  }

  lemma LerpCovers(from: real, to: real, m: int, n: int)
    requires n > 0
    ensures CoveredShare(from, to, m, n, Lerp(from, to, m as real / n as real))
  {
    PartOfShare(m as real, n as real, to - from);
  }

  /** In between the envelope is a straight line: what is covered of the way is what has passed of the time. */
  lemma BrightnessLinear(p: Params, e: Snapshot, now: int)
    requires p.duration > 0 && e.startedAt <= now <= e.startedAt + p.duration
    ensures CoveredShare(
              BrightnessStart(p, e), p.brightnessTo, now - e.startedAt, p.duration, FadeBrightness(p, e, now))
  {
    ProgressIsShare(p, e, now);
    LerpCovers(BrightnessStart(p, e), p.brightnessTo, now - e.startedAt, p.duration);
  }

  lemma ProgressIsShare(p: Params, e: Snapshot, now: int)
    requires p.duration > 0 && e.startedAt <= now <= e.startedAt + p.duration
    ensures Progress(p, e, now) == (now - e.startedAt) as real / p.duration as real
  {
  }

  /** And so is the Kelvin axis, to the half that rounding may move it. */
  lemma KelvinLinear(p: Params, e: Snapshot, now: int) returns (k: real)
    requires p.duration > 0 && e.startedAt <= now <= e.startedAt + p.duration
    ensures CoveredShare(KelvinStart(p, e) as real, p.kelvinTo as real, now - e.startedAt, p.duration, k)
    ensures -0.5 <= FadeKelvin(p, e, now) as real - k <= 0.5
  {
    ProgressIsShare(p, e, now);
    LerpCovers(KelvinStart(p, e) as real, p.kelvinTo as real, now - e.startedAt, p.duration);
    k := Lerp(KelvinStart(p, e) as real, p.kelvinTo as real, (now - e.startedAt) as real / p.duration as real);
    RoundNearest(k);
  }

  /** A tick from the start on shows both envelopes, named by their nearest steps, and the end state at the end. */
  lemma InterpolatedExact(p: Params, e: Snapshot, now: int)
    requires p.duration > 0
    ensures now < e.startedAt ==> Interpolated(p, e, now) == NO_VALUES
    ensures now >= e.startedAt ==>
              var v := Interpolated(p, e, now);
              && v.brightnessValue == (if p.brightnessTo == 0.0 then 0.0 else FadeBrightness(p, e, now))
              && v.kelvin == (if p.kelvinTo == 0 then 0 else FadeKelvin(p, e, now))
              && v.brightness == BrightnessNearestEnum(v.brightnessValue)
              && v.colorTemp == ColorTempNearestEnum(v.kelvin)
              && v.state == (if now >= e.startedAt + p.duration then p.terminal else StateUnspecified)
              && v.color == ""
  {
  }

  /** A fade starts from its pinned value, or else from what the zone shows when it is seeded. */
  lemma SeedStartsFromZone(p: Params, c: Current, startedAt: int)
    requires p.duration > 0 && p.brightnessTo != 0.0 && p.kelvinTo != 0
    ensures var e := Resolve(p, c, startedAt);
            && e.startedAt == startedAt
            && FadeBrightness(p, e, startedAt) == (if p.brightnessFrom != 0.0 then p.brightnessFrom else c.brightness)
            && FadeKelvin(p, e, startedAt) == (if p.kelvinFrom != 0 then p.kelvinFrom else c.kelvin)
  {
    EnvelopeEnds(p, Resolve(p, c, startedAt), startedAt);
  }

  /** At its seed an envelope is at its start, and from its terminal tick on exactly at its target. */
  lemma {:induction false} EnvelopeEnds(p: Params, e: Snapshot, now: int)
    requires p.duration > 0
    ensures FadeBrightness(p, e, e.startedAt) == BrightnessStart(p, e)
    ensures FadeKelvin(p, e, e.startedAt) == KelvinStart(p, e)
    ensures Terminal(p, e, now) ==> FadeBrightness(p, e, now) == p.brightnessTo && FadeKelvin(p, e, now) == p.kelvinTo
  {
    RoundOfInt(KelvinStart(p, e));
    RoundOfInt(p.kelvinTo);
    assert 0 as real / p.duration as real == 0.0;
  }

  /** With non-negative 32-bit Kelvin values, as the canonical table has them, no 32-bit step overflows. */
  lemma FadeFitsInt32(p: Params, e: Snapshot, now: int)
    requires p.duration > 0 && e.startedAt <= now
    requires 0 <= KelvinStart(p, e) < 0x8000_0000 && 0 <= p.kelvinTo < 0x8000_0000
    ensures -0x8000_0000 <= p.kelvinTo - KelvinStart(p, e) < 0x8000_0000
    ensures 0 <= FadeKelvin(p, e, now) < 0x8000_0000
  {
    EnvelopeMonotone(p, e, now, now);
  }

  /** The target alone, as the terminal tick yields it. */
  function TargetValues(p: Params): Values {
    Values(
      p.terminal,
      BrightnessNearestEnum(p.brightnessTo), p.brightnessTo,
      ColorTempNearestEnum(p.kelvinTo), p.kelvinTo, "")
  }

  /** Whatever it was seeded from, the terminal tick yields the target. */
  lemma {:induction false} TerminalYieldsTarget(p: Params, e: Snapshot, now: int)
    requires p.duration > 0 && Terminal(p, e, now)
    ensures Interpolated(p, e, now) == TargetValues(p)
  {
    EnvelopeEnds(p, e, now);
  }

  // ------------------------------------------------------------------- ticks

  predicate Named(k: Key) {
    k.condition != "" && k.zone != ""
  }

  function Drop(s: Store, k: Key): Store {
    if Named(k) then s - {k} else s
  }

  /** A tick with a snapshot: its values, and the store without the snapshot if it was the terminal one. */
  function TickSnapshot(p: Params, s: Store, k: Key, e: Snapshot, now: int): (Store, Values)
    requires p.duration > 0
  {
    (if Terminal(p, e, now) then Drop(s, k) else s, Interpolated(p, e, now))
  }

  function TickEvent(p: Params, s: Store, k: Key, now: int): (Store, Values)
    requires p.duration > 0
  {
    if !Named(k) || k !in s then (s, NO_VALUES) else TickSnapshot(p, s, k, s[k], now)
  }

  predicate InWindow(p: Params, start: int, now: int) {
    start <= now <= start + p.duration
  }

  function SeedWindow(p: Params, s: Store, k: Key, start: int, c: Current): Store {
    if k in s then s else s[k := Resolve(p, c, start)]
  }

  /** `start` is the start time on the day of `now`. */
  function TickWindow(p: Params, s: Store, k: Key, start: int, now: int, c: Current): (Store, Values)
    requires p.duration > 0
  {
    if !InWindow(p, start, now) then (Drop(s, k), NO_VALUES)
    else
      var seeded := SeedWindow(p, s, k, start, c);
      TickSnapshot(p, seeded, k, seeded[k], now)
  }

  // ------------------------------------------------------------- event fades

  function EventTicks(p: Params, s: Store, k: Key, ts: seq<int>): (Store, seq<Values>)
    requires p.duration > 0
  {
    if ts == [] then (s, [])
    else
      var (s1, vs) := EventTicks(p, s, k, ts[..|ts| - 1]);
      var (s2, v) := TickEvent(p, s1, k, ts[|ts| - 1]);
      (s2, vs + [v])
  }

  /** One of these ticks ends the envelope. */
  ghost predicate Finished(p: Params, e: Snapshot, ts: seq<int>) {
    exists i :: 0 <= i < |ts| && Terminal(p, e, ts[i])
  }

  /**
   An event fade, from its seed, over any ticks: each yields what seed and time alone determine
   until a tick has ended the envelope; from then on there is no snapshot and every tick is empty.
   */
  lemma {:induction false} EventLifecycle(p: Params, s: Store, k: Key, e: Snapshot, ts: seq<int>)
    requires p.duration > 0 && Named(k)
    ensures EventLived(p, s, k, e, ts, EventTicks(p, s[k := e], k, ts))
  {
    if ts != [] {
      var init, last := ts[..|ts| - 1], ts[|ts| - 1];
      EventLifecycle(p, s, k, e, init);
      EventLivedNext(p, s, k, e, init, EventTicks(p, s[k := e], k, init), last);
      assert ts == init + [last];
    }
  }

  /** Ticks that left this store and yielded these values lived by the seed `e` until it was finished. */
  ghost predicate EventLived(p: Params, s: Store, k: Key, e: Snapshot, ts: seq<int>, o: (Store, seq<Values>))
    requires p.duration > 0
  {
    && o.0 == (if Finished(p, e, ts) then s - {k} else s[k := e])
    && |o.1| == |ts|
    && forall i :: 0 <= i < |ts| ==>
         o.1[i] == if Finished(p, e, ts[..i]) then NO_VALUES else Interpolated(p, e, ts[i])
  }

  lemma TickSeeded(p: Params, s: Store, k: Key, e: Snapshot, now: int)
    requires p.duration > 0 && Named(k)
    ensures TickEvent(p, s[k := e], k, now)
            == (if Terminal(p, e, now) then s - {k} else s[k := e], Interpolated(p, e, now))
    ensures TickEvent(p, s - {k}, k, now) == (s - {k}, NO_VALUES)
  {
    assert s[k := e] - {k} == s - {k};
  }

  lemma FinishedSnoc(p: Params, e: Snapshot, ts: seq<int>, now: int)
    ensures Finished(p, e, ts + [now]) <==> Finished(p, e, ts) || Terminal(p, e, now)
  {
    assert (ts + [now])[|ts|] == now;
    if Finished(p, e, ts) {
      var i :| 0 <= i < |ts| && Terminal(p, e, ts[i]);
      assert (ts + [now])[i] == ts[i];
    }
  }

  lemma EventLivedNext(p: Params, s: Store, k: Key, e: Snapshot, ts: seq<int>, o: (Store, seq<Values>), now: int)
    requires p.duration > 0 && Named(k) && EventLived(p, s, k, e, ts, o)
    ensures var (s', v) := TickEvent(p, o.0, k, now);
            EventLived(p, s, k, e, ts + [now], (s', o.1 + [v]))
  {
    TickSeeded(p, s, k, e, now);
    FinishedSnoc(p, e, ts, now);
    forall i | 0 <= i <= |ts| ensures (ts + [now])[..i] == ts[..i] {
    }
    assert ts[..|ts|] == ts;
  }

  /** Seeding again starts over: what went before leaves no trace. */
  lemma ReseedStartsOver(p: Params, s: Store, k: Key, e: Snapshot, ts: seq<int>, e': Snapshot)
    requires p.duration > 0 && Named(k)
    ensures EventTicks(p, s[k := e], k, ts).0[k := e'] == s[k := e']
  {
    EventLifecycle(p, s, k, e, ts);
  }

  // ------------------------------------------------------------- window fades

  function WindowTicks(p: Params, s: Store, k: Key, start: int, ts: seq<int>, cs: seq<Current>): (Store, seq<Values>)
    requires p.duration > 0 && |cs| == |ts|
  {
    if ts == [] then (s, [])
    else
      var n := |ts| - 1;
      var (s1, vs) := WindowTicks(p, s, k, start, ts[..n], cs[..n]);
      var (s2, v) := TickWindow(p, s1, k, start, ts[n], cs[n]);
      (s2, vs + [v])
  }

  /** The first of these ticks inside the window; their number if there is none. */
  function FirstInside(p: Params, start: int, ts: seq<int>): (f: nat)
    ensures f <= |ts|
    ensures f < |ts| ==> InWindow(p, start, ts[f])
    ensures forall i :: 0 <= i < f ==> !InWindow(p, start, ts[i])
  {
    if ts == [] then 0
    else
      var n := |ts| - 1;
      var f := FirstInside(p, start, ts[..n]);
      if f < n then f else if InWindow(p, start, ts[n]) then n else n + 1
  }

  ghost predicate Nondecreasing(ts: seq<int>) {
    forall i, j :: 0 <= i < j < |ts| ==> ts[i] <= ts[j]
  }

  /** The store after ticks up to `last` in a window that was seeded with `e`. */
  function StoreAt(p: Params, s: Store, k: Key, e: Snapshot, start: int, last: int): Store {
    if start <= last < start + p.duration then s[k := e] else s
  }

  lemma WindowStep(p: Params, s: Store, k: Key, e: Snapshot, start: int, last: int, now: int, c: Current)
    requires p.duration > 0 && Named(k) && k !in s && last <= now && e.startedAt == start
    requires last < start && InWindow(p, start, now) ==> e == Resolve(p, c, start)
    ensures TickWindow(p, StoreAt(p, s, k, e, start, last), k, start, now, c)
            == (StoreAt(p, s, k, e, start, now), if InWindow(p, start, now) then Interpolated(p, e, now) else NO_VALUES)
  {
    var s1 := StoreAt(p, s, k, e, start, last);
    assert s[k := e] - {k} == s && s - {k} == s;
    if InWindow(p, start, now) {
      var e' := SeedWindow(p, s1, k, start, c)[k];
      assert s[k := e'] - {k} == s;
      if now == start + p.duration {
        TerminalYieldsTarget(p, e, now);
        TerminalYieldsTarget(p, e', now);
      }
    }
  }

  /** What the window's first inside tick seeds. */
  function WindowSeed(p: Params, start: int, ts: seq<int>, cs: seq<Current>): Snapshot
    requires |cs| == |ts| && FirstInside(p, start, ts) < |ts|
  {
    Resolve(p, cs[FirstInside(p, start, ts)], start)
  }

  /** Ticks that left this store and yielded these values lived by the seed `e`. */
  ghost predicate Lived(
    p: Params, s: Store, k: Key, e: Snapshot, start: int, ts: seq<int>, last: int, o: (Store, seq<Values>))
    requires p.duration > 0
  {
    && o.0 == StoreAt(p, s, k, e, start, last)
    && |o.1| == |ts|
    && forall i :: 0 <= i < |ts| ==>
         o.1[i] == if InWindow(p, start, ts[i]) then Interpolated(p, e, ts[i]) else NO_VALUES
  }

  lemma LivedNext(
    p: Params, s: Store, k: Key, e: Snapshot, start: int, ts: seq<int>, last: int, o: (Store, seq<Values>),
    now: int, c: Current)
    requires p.duration > 0 && Named(k) && k !in s && last <= now && e.startedAt == start
    requires last < start && InWindow(p, start, now) ==> e == Resolve(p, c, start)
    requires Lived(p, s, k, e, start, ts, last, o)
    ensures var (s', v) := TickWindow(p, o.0, k, start, now, c);
            Lived(p, s, k, e, start, ts + [now], now, (s', o.1 + [v]))
  {
    WindowStep(p, s, k, e, start, last, now, c);
  }

  lemma {:induction false} BeforeWindow(
    p: Params, s: Store, k: Key, start: int, ts: seq<int>, cs: seq<Current>, e: Snapshot)
    requires p.duration > 0 && k !in s && |cs| == |ts| && FirstInside(p, start, ts) == |ts|
    ensures Lived(p, s, k, e, start, ts, start - 1, WindowTicks(p, s, k, start, ts, cs))
  {
    if ts != [] {
      var n := |ts| - 1;
      assert !InWindow(p, start, ts[n]);
      BeforeWindow(p, s, k, start, ts[..n], cs[..n], e);
      assert s - {k} == s;
    }
  }

  /**
   A window fade over any ticks in time order, whatever the zone shows at each of them: every tick
   inside the window yields what the first of them seeded and the time alone determine, every other
   is empty, and once the end is reached no snapshot is left.
   */
  lemma {:induction false} WindowLifecycle(p: Params, s: Store, k: Key, start: int, ts: seq<int>, cs: seq<Current>)
    requires p.duration > 0 && Named(k) && k !in s && |cs| == |ts| && Nondecreasing(ts)
    requires FirstInside(p, start, ts) < |ts|
    ensures Lived(p, s, k, WindowSeed(p, start, ts, cs), start, ts, ts[|ts| - 1], WindowTicks(p, s, k, start, ts, cs))
    decreases |ts|, 1
  {
    var n := |ts| - 1;
    var init := ts[..n];
    var e := WindowSeed(p, start, ts, cs);
    var o := WindowTicks(p, s, k, start, init, cs[..n]);
    var last := WindowInit(p, s, k, start, ts, cs);
    LivedNext(p, s, k, e, start, init, last, o, ts[n], cs[n]);
    assert ts == init + [ts[n]];
  }

  /** All but the last tick lived by the seed; if that seed is yet to come the last time stands before the window. */
  lemma {:induction false} WindowInit(p: Params, s: Store, k: Key, start: int, ts: seq<int>, cs: seq<Current>)
    returns (last: int)
    requires p.duration > 0 && Named(k) && k !in s && |cs| == |ts| && Nondecreasing(ts)
    requires FirstInside(p, start, ts) < |ts|
    ensures var n, e := |ts| - 1, WindowSeed(p, start, ts, cs);
            && last <= ts[n]
            && (last < start && InWindow(p, start, ts[n]) ==> e == Resolve(p, cs[n], start))
            && Lived(p, s, k, e, start, ts[..n], last, WindowTicks(p, s, k, start, ts[..n], cs[..n]))
    decreases |ts|, 0
  {
    var n := |ts| - 1;
    var init := ts[..n];
    var e := WindowSeed(p, start, ts, cs);
    if FirstInside(p, start, init) < n {
      WindowLifecycle(p, s, k, start, init, cs[..n]);
      assert init[FirstInside(p, start, init)] >= start;
      last := ts[n - 1];
    } else {
      BeforeWindow(p, s, k, start, init, cs[..n], e);
      last := start - 1;
    }
  }

  /**
   A snapshot that is still there after its envelope has ended, from a window no later tick cleared,
   makes the next tick yield the target at once. The tick removes it iff condition and zone are named.
   */
  lemma {:induction false} StaleSnapshotEndsAtOnce(p: Params, s: Store, k: Key, start: int, now: int, c: Current)
    requires p.duration > 0 && k in s && InWindow(p, start, now) && Terminal(p, s[k], now)
    ensures var (s', v) := TickWindow(p, s, k, start, now, c);
            v == TargetValues(p) && (k !in s' <==> Named(k))
  {
    TerminalYieldsTarget(p, s[k], now);
  }

  // ------------------------------------------------------------- several days

  /** A window tick: the start on its day, the time, and what the zone shows. */
  datatype Tick = Tick(start: int, now: int, current: Current)

  function DayTicks(p: Params, s: Store, k: Key, ts: seq<Tick>): Store
    requires p.duration > 0
  {
    if ts == [] then s
    else
      var t := ts[|ts| - 1];
      TickWindow(p, DayTicks(p, s, k, ts[..|ts| - 1]), k, t.start, t.now, t.current).0
  }

  /** No tick belongs to a later window: up to the end of the window at `start` they are its own, then outside any. */
  ghost predicate Between(p: Params, start: int, ts: seq<Tick>) {
    forall i :: 0 <= i < |ts| ==>
      && start <= ts[i].now
      && if ts[i].now <= start + p.duration then ts[i].start == start else !InWindow(p, ts[i].start, ts[i].now)
  }

  /** Some tick fell at the end of the window or later. */
  ghost predicate Ended(p: Params, start: int, ts: seq<Tick>) {
    exists i :: 0 <= i < |ts| && ts[i].now >= start + p.duration
  }

  ghost predicate InTime(ts: seq<Tick>) {
    forall i, j :: 0 <= i < j < |ts| ==> ts[i].now <= ts[j].now
  }

  lemma EndedSnoc(p: Params, start: int, ts: seq<Tick>, t: Tick)
    ensures Ended(p, start, ts + [t]) <==> Ended(p, start, ts) || t.now >= start + p.duration
  {
    assert (ts + [t])[|ts|] == t;
    if Ended(p, start, ts) {
      var i :| 0 <= i < |ts| && ts[i].now >= start + p.duration;
      assert (ts + [t])[i] == ts[i];
    }
  }

  lemma DayTick(p: Params, s: Store, k: Key, start: int, t: Tick, ended: bool)
    requires p.duration > 0 && k in s && s[k].startedAt == start && start <= t.now
    requires if t.now <= start + p.duration then t.start == start else !InWindow(p, t.start, t.now)
    requires ended ==> t.now >= start + p.duration
    ensures TickWindow(p, if ended && Named(k) then s - {k} else s, k, t.start, t.now, t.current).0
            == if t.now >= start + p.duration && Named(k) then s - {k} else s
  {
    var e := Resolve(p, t.current, t.start);
    assert (s - {k})[k := e] - {k} == s - {k};
    assert (s - {k}) - {k} == s - {k};
  }

  lemma {:induction false} DayTicksLeave(p: Params, s: Store, k: Key, start: int, ts: seq<Tick>)
    requires p.duration > 0 && k in s && s[k].startedAt == start && Between(p, start, ts) && InTime(ts)
    ensures DayTicks(p, s, k, ts) == if Ended(p, start, ts) && Named(k) then s - {k} else s
  {
    if ts != [] {
      var init, t := ts[..|ts| - 1], ts[|ts| - 1];
      DayTicksLeave(p, s, k, start, init);
      assert ts == init + [t];
      EndedSnoc(p, start, init, t);
      DayTick(p, s, k, start, t, Ended(p, start, init));
    }
  }

  /**
   The next window, whatever ticks came in between. Its first tick seeds it afresh from what the zone
   shows then iff condition and zone are named and some tick fell at or after the end of the last
   window; otherwise the old snapshot is still there and the tick jumps to the target.
   */
  lemma {:induction false} NextWindowExact(p: Params, s: Store, k: Key, start: int, ts: seq<Tick>, next: Tick)
    requires p.duration > 0 && k in s && s[k].startedAt == start && Between(p, start, ts) && InTime(ts)
    requires next.start > start && InWindow(p, next.start, next.now) && next.now >= start + p.duration
    ensures var s' := DayTicks(p, s, k, ts);
            var afresh := Resolve(p, next.current, next.start);
            && (SeedWindow(p, s', k, next.start, next.current)[k] == afresh <==> Named(k) && Ended(p, start, ts))
            && TickWindow(p, s', k, next.start, next.now, next.current).1
               == (if Named(k) && Ended(p, start, ts) then Interpolated(p, afresh, next.now) else TargetValues(p))
  {
    DayTicksLeave(p, s, k, start, ts);
    if !(Named(k) && Ended(p, start, ts)) {
      TerminalYieldsTarget(p, s[k], next.now);
    }
  }

  // ------------------------------------------------------------------- objects

  class SnapshotStore {
    var store: map<Key, Snapshot>

    constructor ()
      ensures store == map[]
    {
      store := map[];
    }

    method Get(k: Key) returns (r: Option<Snapshot>)
      ensures r == if k in store then Some(store[k]) else None
    {
      if k in store {
        return Some(store[k]);
      }
      return None;
    }

    method Set(k: Key, e: Snapshot)
      modifies this
      ensures store == old(store)[k := e]
    {
      store := store[k := e];
    }

    method Delete(k: Key)
      modifies this
      ensures store == old(store) - {k}
    {
      store := store - {k};
    }
  }

  class FadeComputer {
    const snapshots: SnapshotStore

    constructor (snapshots: SnapshotStore)
      ensures this.snapshots == snapshots
    {
      this.snapshots := snapshots;
    }

    method InterpolateAxes(p: Params, e: Snapshot, progress: real) returns (vals: Values)
      ensures vals == Axes(p, e, progress)
    {
      vals := NO_VALUES;
      if p.brightnessTo != 0.0 {
        var from := p.brightnessFrom;
        if from == 0.0 {
          from := e.brightness;
        }
        vals := WithBrightness(vals, Lerp(from, p.brightnessTo, progress));
      }
      if p.kelvinTo != 0 {
        var from := p.kelvinFrom;
        if from == 0 {
          from := e.kelvin;
        }
        vals := WithKelvin(vals, Round(Lerp(from as real, p.kelvinTo as real, progress)));
      }
    }

    method Interpolate(p: Params, e: Snapshot, now: int, k: Key) returns (vals: Values)
      requires p.duration > 0
      modifies snapshots
      ensures (snapshots.store, vals) == TickSnapshot(p, old(snapshots.store), k, e, now)
    {
      if now - e.startedAt < 0 {
        return NO_VALUES;
      }
      var progress := (now - e.startedAt) as real / p.duration as real;
      ProgressAt(p, e, now);
      if progress > 1.0 {
        progress := 1.0;
      }
      vals := InterpolateAxes(p, e, progress);
      if progress >= 1.0 {
        if p.terminal != StateUnspecified {
          vals := vals.(state := p.terminal);
        }
        if Named(k) {
          snapshots.Delete(k);
        }
      }
    }

    method ComputeEvent(p: Params, now: int, k: Key) returns (vals: Values)
      requires p.duration > 0
      modifies snapshots
      ensures (snapshots.store, vals) == TickEvent(p, old(snapshots.store), k, now)
    {
      if !Named(k) {
        return NO_VALUES;
      }
      var entry := snapshots.Get(k);
      if entry.None? {
        return NO_VALUES;
      }
      vals := Interpolate(p, entry.value, now, k);
    }

    method ComputeWindow(p: Params, start: int, now: int, k: Key, current: Current) returns (vals: Values)
      requires p.duration > 0
      modifies snapshots
      ensures (snapshots.store, vals) == TickWindow(p, old(snapshots.store), k, start, now, current)
    {
      if now < start || now > start + p.duration {
        if Named(k) {
          snapshots.Delete(k);
        }
        return NO_VALUES;
      }
      var entry := snapshots.Get(k);
      if entry.None? {
        entry := Some(Resolve(p, current, start));
        snapshots.Set(k, entry.value);
      }
      vals := Interpolate(p, entry.value, now, k);
    }
  }

  /** The clamped quotient is the progress, and reaches one exactly at the terminal tick. */
  lemma ProgressAt(p: Params, e: Snapshot, now: int)
    requires p.duration > 0 && now >= e.startedAt
    ensures var q := (now - e.startedAt) as real / p.duration as real;
            && Progress(p, e, now) == (if q > 1.0 then 1.0 else q)
            && (Terminal(p, e, now) <==> q >= 1.0)
  {
    var n, d := now - e.startedAt, p.duration;
    var q := n as real / d as real;
    assert q * d as real == n as real;
    if n >= d {
      QuotientAtLeastOne(n, d);
    } else {
      Divides(n, d, d);
      assert q != 1.0;
    }
  }

  lemma QuotientAtLeastOne(n: int, d: int)
    requires n >= d > 0
    ensures n as real / d as real >= 1.0
  {
  }
}
