/**
 The circadian colour temperature curve: eight anchors sorted by time, linear between
 neighbours. Times are nanoseconds, floating point is modelled by `real`.
 */
module Circadian {
  import opened Wrappers
  import opened Canonical

  const MINUTE := 60_000_000_000
  const HOUR := 60 * MINUTE

  const SUNRISE_KELVIN := 2700
  const MORNING_END_KELVIN := 5000
  const LATE_AFTERNOON_KELVIN := 4500
  const SUNSET_KELVIN := 3000
  const MIN_KELVIN := 1500
  const MAX_KELVIN := 10000

  datatype Params = Params(noon: int, evening: int, night: int, bias: int)

  datatype Anchor = Anchor(t: int, k: int)

  /** Conversion to a 32-bit integer. */
  function Int32(x: int): (r: int)
    ensures -0x8000_0000 <= r < 0x8000_0000
    ensures -0x8000_0000 <= x < 0x8000_0000 ==> r == x
  {
    (x + 0x8000_0000) % 0x1_0000_0000 - 0x8000_0000
  }

  function ClampKelvin(k: int): (r: int)
    ensures MIN_KELVIN <= r <= MAX_KELVIN
    ensures MIN_KELVIN <= k <= MAX_KELVIN ==> r == k
  {
    if k < MIN_KELVIN then MIN_KELVIN else if k > MAX_KELVIN then MAX_KELVIN else k
  }

  /** Division that truncates toward zero. */
  function Halve(d: int): int {
    if d >= 0 then d / 2 else -(-d / 2)
  }

  function Anchors(rise: int, set_: int, p: Params): seq<Anchor> {
    [ Anchor(rise - 30 * MINUTE, p.night),
      Anchor(rise, SUNRISE_KELVIN),
      Anchor(rise + 2 * HOUR, MORNING_END_KELVIN),
      Anchor(rise + Halve(set_ - rise), p.noon),
      Anchor(set_ - 2 * HOUR, LATE_AFTERNOON_KELVIN),
      Anchor(set_, SUNSET_KELVIN),
      Anchor(set_ + 30 * MINUTE, p.evening),
      Anchor(set_ + 60 * MINUTE, p.night)
    ]
  }

  // ------------------------------------------------------------- stable sorting

  ghost predicate Sorted(s: seq<Anchor>) {
    forall i, j :: 0 <= i < j < |s| ==> s[i].t <= s[j].t
  }

  /** The anchors at time `t`, in their order. */
  function AtTime(s: seq<Anchor>, t: int): seq<Anchor> {
    if s == [] then []
    else if s[|s| - 1].t == t then AtTime(s[..|s| - 1], t) + [s[|s| - 1]]
    else AtTime(s[..|s| - 1], t)
  }

  /** The same anchors, those at equal times in the same order. */
  ghost predicate StablyPermuted(s: seq<Anchor>, r: seq<Anchor>) {
    forall t :: AtTime(s, t) == AtTime(r, t)
  }

  lemma {:induction false} AtTimeAppend(a: seq<Anchor>, b: seq<Anchor>, t: int)
    ensures AtTime(a + b, t) == AtTime(a, t) + AtTime(b, t)
  {
    if b == [] {
      assert a + b == a;
    } else {
      AtTimeAppend(a, b[..|b| - 1], t);
      assert (a + b)[..|a + b| - 1] == a + b[..|b| - 1];
    }
  }

  lemma AtTimePair(x: Anchor, y: Anchor, t: int)
    requires x.t != y.t
    ensures AtTime([x, y], t) == AtTime([y, x], t)
  {
    assert [x, y][..1] == [x] && [y, x][..1] == [y];
    assert [x][..0] == [] && [y][..0] == [];
  }

  /** Exchanging neighbours at different times keeps the anchors at each time in order. */
  lemma SwapKeeps(s: seq<Anchor>, j: nat, t: int)
    requires 0 < j < |s| && s[j - 1].t != s[j].t
    ensures AtTime(s[j - 1 := s[j]][j := s[j - 1]], t) == AtTime(s, t)
  {
    var a, b := s[..j - 1], s[j + 1..];
    var x, y := s[j - 1], s[j];
    assert s == a + ([x, y] + b);
    assert s[j - 1 := y][j := x] == a + ([y, x] + b);
    AtTimeAppend(a, [x, y] + b, t);
    AtTimeAppend(a, [y, x] + b, t);
    AtTimeAppend([x, y], b, t);
    AtTimeAppend([y, x], b, t);
    AtTimePair(x, y, t);
  }

  lemma {:induction false} AtTimeMembers(s: seq<Anchor>, t: int)
    ensures forall x :: x in AtTime(s, t) <==> x in s && x.t == t
  {
    if s != [] {
      AtTimeMembers(s[..|s| - 1], t);
      assert s == s[..|s| - 1] + [s[|s| - 1]];
    }
  }

  lemma LastOfSorted(s: seq<Anchor>, r: seq<Anchor>)
    requires Sorted(s) && Sorted(r) && StablyPermuted(s, r) && s != []
    ensures r != [] && r[|r| - 1] == s[|s| - 1]
  {
    var x := s[|s| - 1];
    SameMembers(s, r, x);
    assert x in s && x in r;
    var y := r[|r| - 1];
    SameMembers(s, r, y);
    assert y in r && y in s;
    assert x.t == y.t;
    LastAtLastTime(s);
    LastAtLastTime(r);
    assert AtTime(s, x.t) == AtTime(r, x.t);
  }

  lemma LastAtLastTime(s: seq<Anchor>)
    requires s != []
    ensures var m := AtTime(s, s[|s| - 1].t); m != [] && m[|m| - 1] == s[|s| - 1]
  {
  }

  /** Sorting stably has one result. */
  lemma {:induction false} StableSortUnique(s: seq<Anchor>, r: seq<Anchor>)
    requires Sorted(s) && Sorted(r) && StablyPermuted(s, r)
    ensures s == r
  {
    if s == [] {
      if r != [] {
        LastOfSorted(r, s);
      }
    } else {
      LastOfSorted(s, r);
      var x := s[|s| - 1];
      var s', r' := s[..|s| - 1], r[..|r| - 1];
      forall t ensures AtTime(s', t) == AtTime(r', t) {
        assert AtTime(s, t) == AtTime(r, t);
        if t == x.t {
          assert AtTime(s, t)[..|AtTime(s', t)|] == AtTime(s', t);
          assert AtTime(r, t)[..|AtTime(r', t)|] == AtTime(r', t);
        }
      }
      StableSortUnique(s', r');
      assert s == s' + [x] && r == r' + [x];
    }
  }

  function Insert(s: seq<Anchor>, x: Anchor): seq<Anchor> {
    if s != [] && x.t < s[|s| - 1].t then Insert(s[..|s| - 1], x) + [s[|s| - 1]] else s + [x]
  }

  function SortAnchors(s: seq<Anchor>): seq<Anchor> {
    if s == [] then [] else Insert(SortAnchors(s[..|s| - 1]), s[|s| - 1])
  }

  lemma AtTimeSnoc(s: seq<Anchor>, x: Anchor, t: int)
    ensures AtTime(s + [x], t) == if x.t == t then AtTime(s, t) + [x] else AtTime(s, t)
  {
    assert (s + [x])[..|s|] == s;
  }

  lemma {:induction false} InsertSorts(s: seq<Anchor>, x: Anchor)
    requires Sorted(s)
    ensures Sorted(Insert(s, x))
    ensures forall y <- Insert(s, x) :: y in s || y == x
  {
    if s != [] && x.t < s[|s| - 1].t {
      var init, last := s[..|s| - 1], s[|s| - 1];
      InsertSorts(init, x);
      var r := Insert(init, x);
      forall i | 0 <= i < |r| ensures r[i].t <= last.t {
        assert r[i] in r;
      }
    }
  }

  lemma {:induction false} InsertStable(s: seq<Anchor>, x: Anchor, t: int)
    ensures AtTime(Insert(s, x), t) == AtTime(s + [x], t)
  {
    AtTimeSnoc(s, x, t);
    if s != [] && x.t < s[|s| - 1].t {
      var init, last := s[..|s| - 1], s[|s| - 1];
      InsertStable(init, x, t);
      AtTimeSnoc(init, x, t);
      AtTimeSnoc(Insert(init, x), last, t);
    }
  }

  /** The sorted anchors are in time order and, at equal times, in declared order. */
  lemma {:induction false} SortIsStable(s: seq<Anchor>)
    ensures Sorted(SortAnchors(s)) && StablyPermuted(s, SortAnchors(s))
  {
    if s != [] {
      var init, last := s[..|s| - 1], s[|s| - 1];
      SortIsStable(init);
      InsertSorts(SortAnchors(init), last);
      forall t ensures AtTime(s, t) == AtTime(SortAnchors(s), t) {
        InsertStable(SortAnchors(init), last, t);
        AtTimeSnoc(SortAnchors(init), last, t);
        assert AtTime(init, t) == AtTime(SortAnchors(init), t);
      }
    }
  }

  /** Insertion sort by neighbour exchanges, in place. */
  method StableSort(a: array<Anchor>)
    modifies a
    ensures a[..] == SortAnchors(old(a[..]))
    ensures Sorted(a[..]) && StablyPermuted(old(a[..]), a[..])
  {
    for i := 0 to a.Length
      invariant Sorted(a[..i])
      invariant StablyPermuted(old(a[..]), a[..])
    {
      InsertAt(a, i);
    }
    assert a[..a.Length] == a[..];
    SortIsStable(old(a[..]));
    StableSortUnique(a[..], SortAnchors(old(a[..])));
  }

  /** Moves element `i` left past later ones. */
  method InsertAt(a: array<Anchor>, i: nat)
    requires i < a.Length && Sorted(a[..i])
    modifies a
    ensures Sorted(a[..i + 1])
    ensures StablyPermuted(old(a[..]), a[..])
  {
    var j := i;
    while j > 0 && a[j].t < a[j - 1].t
      invariant j <= i
      invariant forall x, y :: 0 <= x < y <= i && y != j ==> a[x].t <= a[y].t
      invariant StablyPermuted(old(a[..]), a[..])
    {
      ghost var s := a[..];
      forall t ensures AtTime(s[j - 1 := s[j]][j := s[j - 1]], t) == AtTime(s, t) {
        SwapKeeps(s, j, t);
      }
      a[j - 1], a[j] := a[j], a[j - 1];
      assert a[..] == s[j - 1 := s[j]][j := s[j - 1]];
      j := j - 1;
    }
  }

  // ------------------------------------------------------------------ the curve

  function Interp(a: Anchor, b: Anchor, now: int): real {
    if b.t - a.t > 0
    then a.k as real + (b.k - a.k) as real * ((now - a.t) as real / (b.t - a.t) as real)
    else b.k as real
  }

  /** The first segment from `i` on that ends after `now`. */
  function SegmentFrom(s: seq<Anchor>, now: int, i: nat): real
    requires i < |s|
    decreases |s| - i
  {
    if i == |s| - 1 then s[i].k as real
    else if now < s[i + 1].t then Interp(s[i], s[i + 1], now)
    else SegmentFrom(s, now, i + 1)
  }

  predicate Inside(s: seq<Anchor>, now: int)
    requires s != []
  {
    s[0].t <= now <= s[|s| - 1].t
  }

  /** The value before bias and clamping; none outside the anchors. */
  function Curve(s: seq<Anchor>, now: int): Option<real>
    requires s != []
  {
    if Inside(s, now) then Some(SegmentFrom(s, now, 0)) else None
  }

  function Biased(k: real, bias: int): int {
    ClampKelvin(Int32(Int32(Round(k)) + bias))
  }

  /** The anchors of a day in time order. */
  function DayAnchors(rise: int, set_: int, p: Params): (s: seq<Anchor>)
    ensures s != []
  {
    SortedNonEmpty(Anchors(rise, set_, p));
    SortAnchors(Anchors(rise, set_, p))
  }

  lemma SortedNonEmpty(s: seq<Anchor>)
    requires s != []
    ensures SortAnchors(s) != []
  {
  }

  function Kelvin(now: int, rise: int, set_: int, p: Params): Option<int> {
    match Curve(DayAnchors(rise, set_, p), now)
    case None => None
    case Some(k) => Some(Biased(k, p.bias))
  }

  /** The loop over the sorted anchors. */
  method KelvinFor(now: int, rise: int, set_: int, p: Params) returns (r: Option<int>)
    ensures r == Kelvin(now, rise, set_, p)
  {
    var declared := Anchors(rise, set_, p);
    var a := new Anchor[|declared|](i requires 0 <= i < |declared| => declared[i]);
    assert a[..] == declared;
    StableSort(a);
    var s := a[..];
    var last := |s| - 1;
    if now < s[0].t || now > s[last].t {
      return None;
    }
    for i := 0 to last
      invariant s[i].t <= now
      invariant SegmentFrom(s, now, 0) == SegmentFrom(s, now, i)
    {
      if now < s[i + 1].t {
        assert s[i + 1].t - s[i].t > 0;
        return Some(Biased(Interp(s[i], s[i + 1], now), p.bias));
      }
    }
    return Some(Biased(s[last].k as real, p.bias));
  }

  lemma Scaled(d: real, f: real)
    requires 0.0 <= f <= 1.0
    ensures d >= 0.0 ==> 0.0 <= d * f <= d
    ensures d <= 0.0 ==> d <= d * f <= 0.0
  {
    if d >= 0.0 {
      ProductNonNegative(d, f);
      ProductNonNegative(d, 1.0 - f);
      assert d * (1.0 - f) == d - d * f;
    } else {
      ProductNonNegative(-d, f);
      ProductNonNegative(-d, 1.0 - f);
      assert (-d) * (1.0 - f) == -d + d * f && (-d) * f == -(d * f);
    }
  }

  predicate Between(lo: real, x: real, hi: real) {
    lo <= x <= hi || hi <= x <= lo
  }

  /** The point (now, k) lies on the line through both anchors. */
  predicate OnLine(a: Anchor, b: Anchor, now: int, k: real) {
    (b.t - a.t) as real * (k - a.k as real) == (b.k - a.k) as real * (now - a.t) as real
  }

  lemma Rescaled(d: real, m: real, n: real)
    requires n > 0.0
    ensures n * (d * (m / n)) == d * m
  {
    assert (m / n) * n == m;
  }

  lemma InterpOnLine(a: Anchor, b: Anchor, now: int)
    requires a.t < b.t
    ensures OnLine(a, b, now, Interp(a, b, now))
  {
    Rescaled((b.k - a.k) as real, (now - a.t) as real, (b.t - a.t) as real);
  }

  lemma InterpBetween(a: Anchor, b: Anchor, now: int)
    requires a.t <= now < b.t
    ensures Between(a.k as real, Interp(a, b, now), b.k as real)
    ensures now == a.t ==> Interp(a, b, now) == a.k as real
  {
    var f := (now - a.t) as real / (b.t - a.t) as real;
    Fraction(now - a.t, b.t - a.t);
    Scaled((b.k - a.k) as real, f);
    if now == a.t {
      assert f == 0.0;
    }
  }

  lemma Fraction(n: int, d: int)
    requires 0 <= n <= d && d > 0
    ensures 0.0 <= n as real / d as real <= 1.0
  {
  }

  /** Where `now` lies among sorted anchors, and what the curve is there. */
  ghost predicate OnSegment(s: seq<Anchor>, now: int, i: nat, k: real) {
    || (i + 1 < |s| && s[i].t <= now < s[i + 1].t && Between(s[i].k as real, k, s[i + 1].k as real)
        && (now == s[i].t ==> k == s[i].k as real) && OnLine(s[i], s[i + 1], now, k))
    || (i + 1 == |s| && now == s[i].t && k == s[i].k as real)
  }

  lemma {:induction false} SegmentExact(s: seq<Anchor>, now: int, i: nat) returns (j: nat)
    requires Sorted(s) && i < |s| && s[i].t <= now <= s[|s| - 1].t
    ensures OnSegment(s, now, j, SegmentFrom(s, now, i))
    decreases |s| - i
  {
    j := i;
    if i + 1 < |s| {
      if now < s[i + 1].t {
        InterpBetween(s[i], s[i + 1], now);
        InterpOnLine(s[i], s[i + 1], now);
      } else {
        j := SegmentExact(s, now, i + 1);
      }
    }
  }

  /**
   Inside the envelope the value before bias lies on the line between the two neighbouring anchors in time
   order, and the segment it is taken from has a length: it starts by `now` and ends after it.
   */
  lemma CurveBetweenNeighbours(now: int, rise: int, set_: int, p: Params)
    ensures var s := DayAnchors(rise, set_, p);
            Inside(s, now) ==> exists i :: OnSegment(s, now, i, Curve(s, now).value)
  {
    var s := DayAnchors(rise, set_, p);
    SortIsStable(Anchors(rise, set_, p));
    if Inside(s, now) {
      var i := SegmentExact(s, now, 0);
      assert OnSegment(s, now, i, Curve(s, now).value);
    }
  }

  // --------------------------------------------------------------------- bias

  predicate IsInt32(x: int) {
    -0x8000_0000 <= x < 0x8000_0000
  }

  predicate Int32Params(p: Params) {
    IsInt32(p.noon) && IsInt32(p.evening) && IsInt32(p.night) && IsInt32(p.bias)
  }

  lemma CurveInInt32(now: int, rise: int, set_: int, p: Params)
    requires Int32Params(p)
    ensures var k := Curve(DayAnchors(rise, set_, p), now); k.Some? ==> IsInt32(Round(k.value))
  {
    var a, s := Anchors(rise, set_, p), DayAnchors(rise, set_, p);
    SortIsStable(a);
    if Inside(s, now) {
      var i := SegmentExact(s, now, 0);
      var k := Curve(s, now).value;
      assert IsInt32(s[i].k) by {
        SameMembers(a, s, s[i]);
      }
      var j := if i + 1 < |s| then i + 1 else i;
      assert IsInt32(s[j].k) by {
        SameMembers(a, s, s[j]);
      }
      RoundedBetween(s[i].k, k, s[j].k);
    }
  }

  lemma RoundedBetween(a: int, x: real, b: int)
    requires Between(a as real, x, b as real)
    ensures a <= Round(x) <= b || b <= Round(x) <= a
  {
    RoundOfInt(a);
    RoundOfInt(b);
    if a as real <= x <= b as real {
      RoundMonotone(a as real, x);
      RoundMonotone(x, b as real);
    } else {
      RoundMonotone(x, a as real);
      RoundMonotone(b as real, x);
    }
  }

  /** Adding the bias in 32 bits does no harm to the clamped sum. */
  predicate BiasHarmless(sum: int) {
    IsInt32(sum) || (sum < -0x8000_0000 && sum + 0x1_0000_0000 <= MIN_KELVIN)
  }

  /** For all 32-bit parameters the result is the clamped sum of curve and bias iff the sum does not wrap into range. */
  lemma BiasExact(now: int, rise: int, set_: int, p: Params)
    requires Int32Params(p) && Earliest(rise, set_) <= now <= Latest(rise, set_)
    ensures var k := Curve(DayAnchors(rise, set_, p), now);
            && k.Some?
            && (Kelvin(now, rise, set_, p) == Some(ClampKelvin(Round(k.value) + p.bias))
                <==> BiasHarmless(Round(k.value) + p.bias))
  {
    EnvelopeExact(now, rise, set_, p);
    CurveInInt32(now, rise, set_, p);
  }

  /** A bias near the top of the range makes the brightest hour of the day the warmest. */
  lemma BiasWraps()
    ensures Biased(5500.0, 0x7FFF_FFFF) == MIN_KELVIN
    ensures ClampKelvin(5500 + 0x7FFF_FFFF) == MAX_KELVIN
  {
  }

  // ----------------------------------------------------------------- envelope

  function Earliest(rise: int, set_: int): int {
    if rise - 30 * MINUTE <= set_ - 2 * HOUR then rise - 30 * MINUTE else set_ - 2 * HOUR
  }

  function Latest(rise: int, set_: int): int {
    if rise + 2 * HOUR >= set_ + 60 * MINUTE then rise + 2 * HOUR else set_ + 60 * MINUTE
  }

  lemma AnchorsSpan(rise: int, set_: int, p: Params)
    ensures var a := Anchors(rise, set_, p);
            && (forall i :: 0 <= i < |a| ==> Earliest(rise, set_) <= a[i].t <= Latest(rise, set_))
            && (exists i :: 0 <= i < |a| && a[i].t == Earliest(rise, set_))
            && (exists i :: 0 <= i < |a| && a[i].t == Latest(rise, set_))
  {
    var a := Anchors(rise, set_, p);
    assert a[0].t == rise - 30 * MINUTE && a[4].t == set_ - 2 * HOUR;
    assert a[2].t == rise + 2 * HOUR && a[7].t == set_ + 60 * MINUTE;
  }

  lemma SameMembers(s: seq<Anchor>, r: seq<Anchor>, x: Anchor)
    requires StablyPermuted(s, r)
    ensures x in s <==> x in r
  {
    AtTimeMembers(s, x.t);
    AtTimeMembers(r, x.t);
    assert AtTime(s, x.t) == AtTime(r, x.t);
  }

  lemma SortedSpan(rise: int, set_: int, p: Params)
    ensures var s := DayAnchors(rise, set_, p);
            s[0].t == Earliest(rise, set_) && s[|s| - 1].t == Latest(rise, set_)
  {
    var a, s := Anchors(rise, set_, p), DayAnchors(rise, set_, p);
    SortIsStable(a);
    AnchorsSpan(rise, set_, p);
    forall x ensures x in a <==> x in s {
      SameMembers(a, s, x);
    }
    var lo :| 0 <= lo < |a| && a[lo].t == Earliest(rise, set_);
    var hi :| 0 <= hi < |a| && a[hi].t == Latest(rise, set_);
    assert a[lo] in s && a[hi] in s && s[0] in a && s[|s| - 1] in a;
  }

  /**
   A day has a value exactly from its first to its last anchor. On a day of at least an hour and
   a half these are half an hour before sunrise and an hour after sunset.
   */
  lemma EnvelopeExact(now: int, rise: int, set_: int, p: Params)
    ensures Kelvin(now, rise, set_, p).Some? <==> Earliest(rise, set_) <= now <= Latest(rise, set_)
    ensures set_ - rise >= 90 * MINUTE ==>
              Earliest(rise, set_) == rise - 30 * MINUTE && Latest(rise, set_) == set_ + 60 * MINUTE
  {
    SortedSpan(rise, set_, p);
  }

  // ------------------------------------------------------------- anchor values

  lemma {:induction false} LastAtTime(s: seq<Anchor>, i: nat)
    requires Sorted(s) && i < |s| && (i + 1 < |s| ==> s[i].t < s[i + 1].t)
    ensures var m := AtTime(s, s[i].t); m != [] && m[|m| - 1] == s[i]
  {
    if i + 1 < |s| {
      LastAtTime(s[..|s| - 1], i);
    }
  }

  /** At the time of an anchor the curve has its value; of several at one time, that of the one declared last. */
  lemma AnchorExact(rise: int, set_: int, p: Params, x: Anchor)
    requires x in Anchors(rise, set_, p)
    ensures var m := AtTime(Anchors(rise, set_, p), x.t);
            m != [] && Curve(DayAnchors(rise, set_, p), x.t) == Some(m[|m| - 1].k as real)
  {
    var a, s := Anchors(rise, set_, p), DayAnchors(rise, set_, p);
    SortIsStable(a);
    SameMembers(a, s, x);
    CurveAtAnchor(s, x);
    assert AtTime(a, x.t) == AtTime(s, x.t);
  }

  lemma CurveAtAnchor(s: seq<Anchor>, x: Anchor)
    requires Sorted(s) && x in s
    ensures var m := AtTime(s, x.t); m != [] && Curve(s, x.t) == Some(m[|m| - 1].k as real)
  {
    var n :| 0 <= n < |s| && s[n] == x;
    assert Inside(s, x.t);
    var i := SegmentExact(s, x.t, 0);
    if i + 1 < |s| {
      assert s[i].t == x.t;
    }
    LastAtTime(s, i);
  }

  /** So an anchor that shares its time with no other has exactly its own value there. */
  lemma DistinctAnchorExact(rise: int, set_: int, p: Params, x: Anchor)
    requires x in Anchors(rise, set_, p)
    requires forall y <- Anchors(rise, set_, p) :: y.t == x.t ==> y == x
    ensures Curve(DayAnchors(rise, set_, p), x.t) == Some(x.k as real)
  {
    AnchorExact(rise, set_, p, x);
    AtTimeMembers(Anchors(rise, set_, p), x.t);
    var m := AtTime(Anchors(rise, set_, p), x.t);
    assert m[|m| - 1] in m;
  }

  const HALF_HOUR_NS := 1_800_000_000_000

  /**
   The curve of a day longer than four hours: night Kelvin half an hour before sunrise, 2700 at sunrise, 5000 two
   hours later, noon Kelvin at the middle, 4500 two hours before sunset, 3000 at sunset, evening Kelvin half an hour
   and night Kelvin an hour after it.
   */
  lemma {:induction false} DayCurve(rise: int, set_: int, p: Params)
    requires set_ - rise >= 8 * HALF_HOUR_NS + 2
    ensures var curve := now => Curve(DayAnchors(rise, set_, p), now);
            && curve(rise - HALF_HOUR_NS) == Some(p.night as real)
            && curve(rise) == Some(2700.0)
            && curve(rise + 4 * HALF_HOUR_NS) == Some(5000.0)
            && curve(rise + (set_ - rise) / 2) == Some(p.noon as real)
            && curve(set_ - 4 * HALF_HOUR_NS) == Some(4500.0)
            && curve(set_) == Some(3000.0)
            && curve(set_ + HALF_HOUR_NS) == Some(p.evening as real)
            && curve(set_ + 2 * HALF_HOUR_NS) == Some(p.night as real)
  {
    var a := Anchors(rise, set_, p);
    forall i | 0 <= i < 8 ensures Curve(DayAnchors(rise, set_, p), a[i].t) == Some(a[i].k as real) {
      DistinctAnchorExact(rise, set_, p, a[i]);
    }
    assert a[0].t == rise - HALF_HOUR_NS && a[1].t == rise && a[2].t == rise + 4 * HALF_HOUR_NS;
    assert a[3].t == rise + (set_ - rise) / 2 && a[4].t == set_ - 4 * HALF_HOUR_NS;
    assert a[5].t == set_ && a[6].t == set_ + HALF_HOUR_NS && a[7].t == set_ + 2 * HALF_HOUR_NS;
  }

  /** The clamp: into 1500..10000, the identity inside. */
  lemma ClampExact(k: int)
    ensures ClampKelvin(k) == if k < 1500 then 1500 else if k > 10000 then 10000 else k
  {
  }

  // ------------------------------------------------------------------- two days

  datatype Day = Day(rise: int, set_: int)

  function NightFloor(p: Params): int {
    ClampKelvin(Int32(p.night + p.bias))
  }

  /** Outside every envelope too: the clamped sum iff it does not wrap into range. */
  lemma NightFloorExact(p: Params)
    requires Int32Params(p)
    ensures NightFloor(p) == ClampKelvin(p.night + p.bias) <==> BiasHarmless(p.night + p.bias)
  {
  }

  function Compute(now: int, today: Day, yesterday: Day, p: Params): int {
    match Kelvin(now, today.rise, today.set_, p)
    case Some(k) => k
    case None =>
      match Kelvin(now, yesterday.rise, yesterday.set_, p)
      case Some(k) => k
      case None => NightFloor(p)
  }

  /** Today's envelope decides, then yesterday's, and outside both it is night. */
  lemma TodayThenYesterday(now: int, today: Day, yesterday: Day, p: Params)
    ensures Earliest(today.rise, today.set_) <= now <= Latest(today.rise, today.set_) ==>
              Kelvin(now, today.rise, today.set_, p) == Some(Compute(now, today, yesterday, p))
    ensures !(Earliest(today.rise, today.set_) <= now <= Latest(today.rise, today.set_))
            && Earliest(yesterday.rise, yesterday.set_) <= now <= Latest(yesterday.rise, yesterday.set_) ==>
              Kelvin(now, yesterday.rise, yesterday.set_, p) == Some(Compute(now, today, yesterday, p))
    ensures !(Earliest(today.rise, today.set_) <= now <= Latest(today.rise, today.set_))
            && !(Earliest(yesterday.rise, yesterday.set_) <= now <= Latest(yesterday.rise, yesterday.set_)) ==>
              Compute(now, today, yesterday, p) == NightFloor(p)
  {
    EnvelopeExact(now, today.rise, today.set_, p);
    EnvelopeExact(now, yesterday.rise, yesterday.set_, p);
  }

  method ComputeKelvin(now: int, today: Day, yesterday: Day, p: Params) returns (k: int)
    ensures k == Compute(now, today, yesterday, p)
    ensures 1500 <= k <= 10000
  {
    var days := [today, yesterday];
    for i := 0 to |days|
      invariant forall j :: 0 <= j < i ==> Kelvin(now, days[j].rise, days[j].set_, p).None?
    {
      var r := KelvinFor(now, days[i].rise, days[i].set_, p);
      if r.Some? {
        assert i == 1 ==> Kelvin(now, days[0].rise, days[0].set_, p).None?;
        return r.value;
      }
    }
    assert Kelvin(now, days[0].rise, days[0].set_, p).None? && Kelvin(now, days[1].rise, days[1].set_, p).None?;
    return NightFloor(p);
  }
}
