/**
 Matching of a device event against the Binding list: property and selector
 checks, the specificity score, and the choice of winners.

 Times and durations are integers (nanoseconds).
 */
module Bindings {

  /** The label that holds a device's zone. */
  const DEVICE_ZONE_LABEL := "iot/zone"

  const WEIGHT_IEEE := 16
  const WEIGHT_DEVICE := 8
  const WEIGHT_LABEL_KEY := 4
  const WEIGHT_DEVICE_TYPE := 2
  const WEIGHT_ZONE := 1

  datatype Device = Device(name: string, ieee: string, deviceType: string, labels: map<string, string>)

  datatype Selector = Selector(
    ieee: string, device: string, deviceType: string, zone: string, labels: map<string, string>)

  datatype Trigger = Trigger(
    property: string, value: string, values: seq<string>, selector: Selector, minDuration: int)

  datatype Binding = Binding(name: string, trigger: Trigger, condition: string)

  datatype Event = Event(property: string, value: string, device: Device)

  datatype Candidate = Candidate(name: string, condition: string, score: int, minDuration: int)

  /** A label that is absent reads as the empty string. */
  function Label(d: Device, key: string): string {
    if key in d.labels then d.labels[key] else ""
  }

  predicate PropertyMatches(t: Trigger, ev: Event) {
    && t.property != ""
    && t.property == ev.property
    && (if |t.values| > 0 then ev.value in t.values else t.value == "" || t.value == ev.value)
  }

  predicate SelectorMatches(sel: Selector, d: Device) {
    && (sel.ieee != "" ==> sel.ieee == d.ieee)
    && (sel.device != "" ==> sel.device == d.name)
    && (sel.deviceType != "" ==> sel.deviceType == d.deviceType)
    && (sel.zone != "" ==> sel.zone == Label(d, DEVICE_ZONE_LABEL))
    && forall k :: k in sel.labels ==> Label(d, k) == sel.labels[k]
  }

  predicate Matches(b: Binding, ev: Event) {
    PropertyMatches(b.trigger, ev) && SelectorMatches(b.trigger.selector, ev.device)
  }

  function Weight(field: string, weight: int): int {
    if field != "" then weight else 0
  }

  function Specificity(sel: Selector): int {
    Weight(sel.ieee, WEIGHT_IEEE) + Weight(sel.device, WEIGHT_DEVICE)
    + Weight(sel.deviceType, WEIGHT_DEVICE_TYPE) + Weight(sel.zone, WEIGHT_ZONE)
    + |sel.labels| * WEIGHT_LABEL_KEY
  }

  function CandidateOf(b: Binding): Candidate {
    Candidate(b.name, b.condition, Specificity(b.trigger.selector), b.trigger.minDuration)
  }

  // ---------------------------------------------------- what triggers stand for

  /** A list of values stands for its values one by one. */
  lemma ValuesAreAlternatives(t: Trigger, ev: Event)
    requires t.values != [] && "" !in t.values
    ensures PropertyMatches(t, ev) <==>
            exists v :: v in t.values && PropertyMatches(t.(value := v, values := []), ev)
  {
    if PropertyMatches(t, ev) {
      assert ev.value in t.values && PropertyMatches(t.(value := ev.value, values := []), ev);
    }
  }

  /** A trigger made from an event matches the events of that property and value and no others. */
  lemma OwnTriggerMatches(t: Trigger, ev: Event, other: Event)
    requires t.property == ev.property != "" && t.value == ev.value != "" && t.values == []
    ensures PropertyMatches(t, other) <==> other.property == ev.property && other.value == ev.value
  {
  }

  /** A trigger without values matches every value of its property; one without a property nothing. */
  lemma OpenTriggerMatches(t: Trigger, ev: Event)
    requires t.value == "" && t.values == []
    ensures PropertyMatches(t, ev) <==> t.property == ev.property && t.property != ""
  {
  }

  /** A listed value overrides the single one. */
  lemma ValuesOverrideValue(t: Trigger, v: string, ev: Event)
    requires t.values != []
    ensures PropertyMatches(t, ev) <==> PropertyMatches(t.(value := v), ev)
  {
  }

  const ANY_DEVICE := Selector("", "", "", "", map[])

  /** A selector copied from a device matches it, and so does the empty one. */
  lemma OwnSelectorMatches(d: Device)
    ensures SelectorMatches(Selector(d.ieee, d.name, d.deviceType, Label(d, DEVICE_ZONE_LABEL), d.labels), d)
    ensures SelectorMatches(ANY_DEVICE, d)
  {
  }

  /** A selector with one field set matches the devices with that field. */
  lemma OneFieldMatches(x: string, k: string, d: Device)
    requires x != ""
    ensures SelectorMatches(ANY_DEVICE.(ieee := x), d) <==> d.ieee == x
    ensures SelectorMatches(ANY_DEVICE.(device := x), d) <==> d.name == x
    ensures SelectorMatches(ANY_DEVICE.(deviceType := x), d) <==> d.deviceType == x
    ensures SelectorMatches(ANY_DEVICE.(zone := x), d) <==> "iot/zone" in d.labels && d.labels["iot/zone"] == x
    ensures SelectorMatches(ANY_DEVICE.(labels := map[k := x]), d) <==> k in d.labels && d.labels[k] == x
  {
    assert k in map[k := x];
  }

  /** A selector matches iff each of its one-field restrictions does. */
  lemma SelectorIsConjunction(sel: Selector, d: Device)
    ensures SelectorMatches(sel, d) <==>
            && SelectorMatches(ANY_DEVICE.(ieee := sel.ieee), d)
            && SelectorMatches(ANY_DEVICE.(device := sel.device), d)
            && SelectorMatches(ANY_DEVICE.(deviceType := sel.deviceType), d)
            && SelectorMatches(ANY_DEVICE.(zone := sel.zone), d)
            && forall k :: k in sel.labels ==> SelectorMatches(ANY_DEVICE.(labels := map[k := sel.labels[k]]), d)
  {
    forall k | k in sel.labels
      ensures SelectorMatches(ANY_DEVICE.(labels := map[k := sel.labels[k]]), d) <==> Label(d, k) == sel.labels[k]
    {
      assert k in map[k := sel.labels[k]];
    }
  }

  /** The documented weights: 16, 8, 4 per label key, 2 and 1, and they add up. */
  lemma SpecificityTable(sel: Selector, x: string, k: string)
    requires x != ""
    ensures Specificity(ANY_DEVICE) == 0
    ensures sel.ieee == "" ==> Specificity(sel.(ieee := x)) == Specificity(sel) + 16
    ensures sel.device == "" ==> Specificity(sel.(device := x)) == Specificity(sel) + 8
    ensures sel.deviceType == "" ==> Specificity(sel.(deviceType := x)) == Specificity(sel) + 2
    ensures sel.zone == "" ==> Specificity(sel.(zone := x)) == Specificity(sel) + 1
    ensures k !in sel.labels ==> Specificity(sel.(labels := sel.labels[k := x])) == Specificity(sel) + 4
  {
    var labels := sel.labels[k := x];
    assert labels.Keys == sel.labels.Keys + {k};
    assert k !in sel.labels ==> |labels.Keys| == |sel.labels.Keys| + 1;
  }

  // ---------------------------------------------------------------- ordering

  /** Lexicographic order of names. */
  predicate NameLess(a: string, b: string) {
    |b| > 0 && (|a| == 0 || a[0] < b[0] || (a[0] == b[0] && NameLess(a[1..], b[1..])))
  }

  lemma {:induction false} NameOrder(a: string, b: string)
    ensures a != b ==> NameLess(a, b) || NameLess(b, a)
    ensures !(NameLess(a, b) && NameLess(b, a))
  {
    if |a| > 0 && |b| > 0 {
      NameOrder(a[1..], b[1..]);
      assert a == [a[0]] + a[1..] && b == [b[0]] + b[1..];
    }
  }

  lemma {:induction false} NameTransitive(a: string, b: string, c: string)
    requires NameLess(a, b) && NameLess(b, c)
    ensures NameLess(a, c)
  {
    if |a| > 0 && a[0] == b[0] == c[0] {
      NameTransitive(a[1..], b[1..], c[1..]);
    }
  }

  /** The comparison handed to the sort: higher score first, then name. */
  predicate Before(a: Candidate, b: Candidate) {
    a.score > b.score || (a.score == b.score && NameLess(a.name, b.name))
  }

  lemma BeforeTransitive(a: Candidate, b: Candidate, c: Candidate)
    requires !Before(b, a) && !Before(c, b)
    ensures !Before(c, a)
  {
    if Before(c, a) && a.score == c.score {
      NameOrder(a.name, b.name);
      NameOrder(b.name, c.name);
      if a.name != b.name && b.name != c.name {
        NameTransitive(a.name, b.name, c.name);
        NameOrder(a.name, c.name);
      }
    }
  }

  predicate Sorted(cs: seq<Candidate>) {
    forall i, j :: 0 <= i < j < |cs| ==> !Before(cs[j], cs[i])
  }

  function Insert(c: Candidate, cs: seq<Candidate>): (r: seq<Candidate>)
    ensures multiset(r) == multiset(cs) + multiset{c}
  {
    if cs == [] || !Before(cs[0], c) then
      [c] + cs
    else
      assert cs == [cs[0]] + cs[1..];
      [cs[0]] + Insert(c, cs[1..])
  }

  /** Stands for the library sort; `SortedUnique` shows that no other sort could answer differently. */
  function Sort(cs: seq<Candidate>): (r: seq<Candidate>)
    ensures multiset(r) == multiset(cs)
  {
    if cs == [] then [] else
      assert cs == [cs[0]] + cs[1..];
      Insert(cs[0], Sort(cs[1..]))
  }

  lemma {:induction false} InsertSorted(c: Candidate, cs: seq<Candidate>)
    requires Sorted(cs)
    ensures Sorted(Insert(c, cs))
  {
    if cs == [] {
    } else if !Before(cs[0], c) {
      forall j | 0 <= j < |cs| ensures !Before(cs[j], c) {
        if j > 0 {
          BeforeTransitive(c, cs[0], cs[j]);
        }
      }
    } else {
      NameOrder(cs[0].name, c.name);
      InsertSorted(c, cs[1..]);
      var r := Insert(c, cs[1..]);
      forall j | 0 <= j < |r| ensures !Before(r[j], cs[0]) {
        assert r[j] in multiset(r);
        assert r[j] == c || r[j] in cs[1..];
      }
    }
  }

  lemma {:induction false} SortSorted(cs: seq<Candidate>)
    ensures Sorted(Sort(cs))
  {
    if cs != [] {
      SortSorted(cs[1..]);
      InsertSorted(cs[0], Sort(cs[1..]));
    }
  }

  predicate DistinctNames(cs: seq<Candidate>) {
    forall i, j :: 0 <= i < j < |cs| ==> cs[i].name != cs[j].name
  }

  lemma {:induction false} InsertDistinct(c: Candidate, cs: seq<Candidate>)
    requires DistinctNames(cs) && forall x :: x in cs ==> x.name != c.name
    ensures DistinctNames(Insert(c, cs))
  {
    if cs != [] && Before(cs[0], c) {
      InsertDistinct(c, cs[1..]);
      var r := Insert(c, cs[1..]);
      forall j | 0 <= j < |r| ensures r[j].name != cs[0].name {
        assert r[j] in multiset(r);
        assert r[j] == c || r[j] in cs[1..];
      }
    }
  }

  lemma {:induction false} SortDistinct(cs: seq<Candidate>)
    requires DistinctNames(cs)
    ensures DistinctNames(Sort(cs))
  {
    if cs != [] {
      SortDistinct(cs[1..]);
      SameElements(cs[1..], Sort(cs[1..]));
      InsertDistinct(cs[0], Sort(cs[1..]));
    }
  }

  lemma SameElements<T>(s: seq<T>, t: seq<T>)
    requires multiset(s) == multiset(t)
    ensures forall x :: x in s <==> x in t
    ensures |s| == |t|
  {
    forall x | x in s ensures x in t { assert x in multiset(t); }
    forall x | x in t ensures x in s { assert x in multiset(s); }
    assert |multiset(s)| == |multiset(t)|;
  }

  function Drop<T>(s: seq<T>, i: nat): seq<T>
    requires i < |s|
  {
    s[..i] + s[i + 1..]
  }

  lemma DropMultiset<T>(s: seq<T>, i: nat)
    requires i < |s|
    ensures multiset(s) == multiset(Drop(s, i)) + multiset{s[i]}
  {
    assert s == s[..i] + [s[i]] + s[i + 1..];
  }

  lemma MultisetCancel<T>(a: multiset<T>, b: multiset<T>, x: T)
    requires a + multiset{x} == b + multiset{x}
    ensures a == b
  {
    assert a == a + multiset{x} - multiset{x};
    assert b == b + multiset{x} - multiset{x};
  }

  lemma SortedHead(s: seq<Candidate>, t: seq<Candidate>)
    requires Sorted(s) && Sorted(t) && DistinctNames(s) && s != [] && t != []
    requires multiset(s) == multiset(t)
    ensures s[0] == t[0]
  {
    SameElements(s, t);
    assert s[0] in t && t[0] in s;
    NameOrder(s[0].name, t[0].name);
  }

  /** With distinct names there is one sorted arrangement of a multiset of candidates. */
  lemma {:induction false} SortedUnique(s: seq<Candidate>, t: seq<Candidate>)
    requires Sorted(s) && Sorted(t) && DistinctNames(s)
    requires multiset(s) == multiset(t)
    ensures s == t
  {
    SameElements(s, t);
    if s != [] {
      SortedHead(s, t);
      DropMultiset(s, 0);
      DropMultiset(t, 0);
      assert Drop(s, 0) == s[1..] && Drop(t, 0) == t[1..];
      MultisetCancel(multiset(s[1..]), multiset(t[1..]), s[0]);
      SortedUnique(s[1..], t[1..]);
    }
  }

  // ----------------------------------------------------------------- winners

  function Contribution(b: Binding, ev: Event): seq<Candidate> {
    if Matches(b, ev) then [CandidateOf(b)] else []
  }

  function Candidates(bs: seq<Binding>, ev: Event): seq<Candidate> {
    if bs == [] then []
    else Candidates(bs[..|bs| - 1], ev) + Contribution(bs[|bs| - 1], ev)
  }

  /** The longest prefix scoring `score`. */
  function TopTier(cs: seq<Candidate>, score: int): seq<Candidate> {
    if cs == [] || cs[0].score != score then [] else [cs[0]] + TopTier(cs[1..], score)
  }

  function Winners(bs: seq<Binding>, ev: Event): seq<Candidate> {
    var sorted := Sort(Candidates(bs, ev));
    if sorted == [] then [] else TopTier(sorted, sorted[0].score)
  }

  /** Binding names are unique within the namespace the matcher lists. */
  predicate UniqueNames(bs: seq<Binding>) {
    forall i, j :: 0 <= i < j < |bs| ==> bs[i].name != bs[j].name
  }

  /** The reference definition: a matching Binding that no matching Binding out-scores. */
  ghost predicate Wins(bs: seq<Binding>, ev: Event, b: Binding) {
    && b in bs && Matches(b, ev)
    && forall o :: o in bs && Matches(o, ev) ==>
         Specificity(o.trigger.selector) <= Specificity(b.trigger.selector)
  }

  lemma {:induction false} CandidatesExact(bs: seq<Binding>, ev: Event)
    ensures forall b :: b in bs && Matches(b, ev) ==> CandidateOf(b) in Candidates(bs, ev)
    ensures forall c :: c in Candidates(bs, ev) ==>
              exists b :: b in bs && Matches(b, ev) && c == CandidateOf(b)
  {
    if bs != [] {
      var init, last := bs[..|bs| - 1], bs[|bs| - 1];
      CandidatesExact(init, ev);
      assert bs == init + [last];
      forall c | c in Candidates(bs, ev)
        ensures exists b :: b in bs && Matches(b, ev) && c == CandidateOf(b)
      {
        if c in Candidates(init, ev) {
          var b :| b in init && Matches(b, ev) && c == CandidateOf(b);
          assert b in bs;
        } else {
          assert c == CandidateOf(last) && last in bs;
        }
      }
    }
  }

  lemma {:induction false} CandidatesDistinct(bs: seq<Binding>, ev: Event)
    requires UniqueNames(bs)
    ensures DistinctNames(Candidates(bs, ev))
  {
    if bs != [] {
      var init, last := bs[..|bs| - 1], bs[|bs| - 1];
      CandidatesDistinct(init, ev);
      CandidatesExact(init, ev);
      var cs := Candidates(init, ev);
      forall i | 0 <= i < |cs| ensures cs[i].name != last.name {
        assert cs[i] in cs;
        var b :| b in init && cs[i] == CandidateOf(b);
      }
    }
  }

  lemma {:induction false} TopTierExact(cs: seq<Candidate>, score: int)
    requires Sorted(cs) && forall c :: c in cs ==> c.score <= score
    ensures forall c :: c in TopTier(cs, score) <==> c in cs && c.score == score
    ensures TopTier(cs, score) <= cs
  {
    if cs != [] {
      if cs[0].score == score {
        TopTierExact(cs[1..], score);
        assert cs == [cs[0]] + cs[1..];
      } else {
        forall c | c in cs ensures c.score != score {
          var i :| 0 <= i < |cs| && cs[i] == c;
          assert i > 0 ==> !Before(cs[i], cs[0]);
        }
      }
    }
  }

  /** Candidates and their sorted form tell the same about the matching Bindings. */
  lemma SortedCandidates(bs: seq<Binding>, ev: Event)
    ensures var sorted := Sort(Candidates(bs, ev));
            && Sorted(sorted)
            && (forall b :: b in bs && Matches(b, ev) ==> CandidateOf(b) in sorted)
            && (forall c :: c in sorted ==> exists b :: b in bs && Matches(b, ev) && c == CandidateOf(b))
  {
    var cs := Candidates(bs, ev);
    CandidatesExact(bs, ev);
    SortSorted(cs);
    SameElements(Sort(cs), cs);
  }

  lemma SortedTop(sorted: seq<Candidate>)
    requires Sorted(sorted) && sorted != []
    ensures forall c :: c in sorted ==> c.score <= sorted[0].score
  {
    forall c | c in sorted ensures c.score <= sorted[0].score {
      var i :| 0 <= i < |sorted| && sorted[i] == c;
      assert i > 0 ==> !Before(sorted[i], sorted[0]);
    }
  }

  lemma WinnersWin(bs: seq<Binding>, ev: Event)
    ensures forall c :: c in Winners(bs, ev) ==> exists b :: Wins(bs, ev, b) && c == CandidateOf(b)
    ensures forall b :: Wins(bs, ev, b) ==> CandidateOf(b) in Winners(bs, ev)
  {
    var sorted := Sort(Candidates(bs, ev));
    SortedCandidates(bs, ev);
    if sorted != [] {
      SortedTop(sorted);
      TopTierExact(sorted, sorted[0].score);
      forall c | c in Winners(bs, ev) ensures exists b :: Wins(bs, ev, b) && c == CandidateOf(b) {
        var b :| b in bs && Matches(b, ev) && c == CandidateOf(b);
        forall o | o in bs && Matches(o, ev)
          ensures Specificity(o.trigger.selector) <= Specificity(b.trigger.selector)
        {
          assert CandidateOf(o) in sorted;
        }
        assert Wins(bs, ev, b);
      }
      var best :| best in bs && Matches(best, ev) && sorted[0] == CandidateOf(best);
    }
  }

  lemma WinnersInOrder(bs: seq<Binding>, ev: Event)
    requires UniqueNames(bs)
    ensures var ws := Winners(bs, ev);
            forall i, j :: 0 <= i < j < |ws| ==> NameLess(ws[i].name, ws[j].name)
  {
    var ws, sorted := Winners(bs, ev), Sort(Candidates(bs, ev));
    if sorted != [] {
      CandidatesDistinct(bs, ev);
      SortDistinct(Candidates(bs, ev));
      SortSorted(Candidates(bs, ev));
      SortedTop(sorted);
      TopTierExact(sorted, sorted[0].score);
      forall i, j | 0 <= i < j < |ws| ensures NameLess(ws[i].name, ws[j].name) {
        assert ws[i] == sorted[i] && ws[j] == sorted[j];
        assert ws[i] in ws && ws[j] in ws;
        NameOrder(ws[i].name, ws[j].name);
      }
    }
  }

  /** The winners are exactly the matching Bindings of maximal specificity, in name order. */
  lemma WinnersExact(bs: seq<Binding>, ev: Event)
    requires UniqueNames(bs)
    ensures forall b :: b in bs ==> (CandidateOf(b) in Winners(bs, ev) <==> Wins(bs, ev, b))
    ensures forall c :: c in Winners(bs, ev) ==> exists b :: Wins(bs, ev, b) && c == CandidateOf(b)
    ensures forall i, j :: 0 <= i < j < |Winners(bs, ev)| ==>
              NameLess(Winners(bs, ev)[i].name, Winners(bs, ev)[j].name)
  {
    WinnersWin(bs, ev);
    WinnersInOrder(bs, ev);
    forall b | b in bs && CandidateOf(b) in Winners(bs, ev) ensures Wins(bs, ev, b) {
      var b' :| Wins(bs, ev, b') && CandidateOf(b) == CandidateOf(b');
      SameName(bs, b, b');
    }
  }

  lemma SameName(bs: seq<Binding>, b: Binding, b': Binding)
    requires UniqueNames(bs) && b in bs && b' in bs && b.name == b'.name
    ensures b == b'
  {
  }

  /** The order in which the cluster lists the Bindings does not matter. */
  lemma WinnersOrderIndependent(bs: seq<Binding>, bs': seq<Binding>, ev: Event)
    requires UniqueNames(bs) && multiset(bs) == multiset(bs')
    ensures Winners(bs, ev) == Winners(bs', ev)
  {
    CandidatesMultiset(bs, bs', ev);
    var s, t := Sort(Candidates(bs, ev)), Sort(Candidates(bs', ev));
    SortSorted(Candidates(bs, ev));
    SortSorted(Candidates(bs', ev));
    CandidatesDistinct(bs, ev);
    SortDistinct(Candidates(bs, ev));
    SortedUnique(s, t);
  }

  lemma CandidatesSnoc(bs: seq<Binding>, b: Binding, ev: Event)
    ensures multiset(Candidates(bs + [b], ev))
            == multiset(Candidates(bs, ev)) + multiset(Contribution(b, ev))
  {
    assert (bs + [b])[..|bs|] == bs;
    SumOfParts(Candidates(bs, ev), Contribution(b, ev));
  }

  lemma SumOfParts<T>(s: seq<T>, t: seq<T>)
    ensures multiset(s + t) == multiset(s) + multiset(t)
  {
  }

  lemma {:induction false} CandidatesDrop(bs: seq<Binding>, i: nat, ev: Event)
    requires i < |bs|
    ensures multiset(Candidates(bs, ev))
            == multiset(Candidates(Drop(bs, i), ev)) + multiset(Contribution(bs[i], ev))
  {
    var init, last := bs[..|bs| - 1], bs[|bs| - 1];
    assert bs == init + [last];
    if i == |init| {
      CandidatesSnoc(init, last, ev);
      assert Drop(bs, i) == init;
    } else {
      CandidatesDrop(init, i, ev);
      CandidatesDropSnoc(init, i, last, ev);
    }
  }

  lemma CandidatesDropSnoc(bs: seq<Binding>, i: nat, last: Binding, ev: Event)
    requires i < |bs|
    requires multiset(Candidates(bs, ev)) == multiset(Candidates(Drop(bs, i), ev)) + multiset(Contribution(bs[i], ev))
    ensures multiset(Candidates(bs + [last], ev))
            == multiset(Candidates(Drop(bs + [last], i), ev)) + multiset(Contribution((bs + [last])[i], ev))
  {
    DropSnoc(bs, i, last);
    CandidatesSnoc(bs, last, ev);
    CandidatesSnoc(Drop(bs, i), last, ev);
    var rest := multiset(Candidates(Drop(bs, i), ev));
    SumSwaps(rest, multiset(Contribution(bs[i], ev)), multiset(Contribution(last, ev)));
  }

  lemma DropSnoc<T>(s: seq<T>, i: nat, x: T)
    requires i < |s|
    ensures Drop(s + [x], i) == Drop(s, i) + [x] && (s + [x])[i] == s[i]
  {
  }

  lemma SumSwaps<T>(a: multiset<T>, b: multiset<T>, c: multiset<T>)
    ensures (a + b) + c == (a + c) + b
  {
  }

  /** Dropping the last of one and the same element of the other keeps two arrangements equal as multisets. */
  lemma DropSame<T>(s: seq<T>, t: seq<T>) returns (i: nat)
    requires multiset(s) == multiset(t) && s != []
    ensures i < |t| && t[i] == s[|s| - 1] && multiset(s[..|s| - 1]) == multiset(Drop(t, i))
  {
    var n := |s| - 1;
    SameElements(s, t);
    assert s[n] in t;
    i :| 0 <= i < |t| && t[i] == s[n];
    DropMultiset(s, n);
    DropMultiset(t, i);
    assert Drop(s, n) == s[..n];
    MultisetCancel(multiset(s[..n]), multiset(Drop(t, i)), s[n]);
  }

  lemma {:induction false} CandidatesMultiset(bs: seq<Binding>, bs': seq<Binding>, ev: Event)
    requires multiset(bs) == multiset(bs')
    ensures multiset(Candidates(bs, ev)) == multiset(Candidates(bs', ev))
  {
    if bs == [] {
      SameElements(bs, bs');
    } else {
      var i := DropSame(bs, bs');
      CandidatesMultiset(bs[..|bs| - 1], Drop(bs', i), ev);
      CandidatesDrop(bs', i, ev);
    }
  }

  // ------------------------------------------------------- selector overriding

  /** `a` demands everything `b` demands. */
  ghost predicate Refines(a: Selector, b: Selector) {
    && (b.ieee != "" ==> a.ieee == b.ieee)
    && (b.device != "" ==> a.device == b.device)
    && (b.deviceType != "" ==> a.deviceType == b.deviceType)
    && (b.zone != "" ==> a.zone == b.zone)
    && forall k :: k in b.labels ==> k in a.labels && a.labels[k] == b.labels[k]
  }

  lemma SubmapSmaller(a: map<string, string>, b: map<string, string>)
    requires forall k :: k in b ==> k in a && a[k] == b[k]
    ensures |b| <= |a|
    ensures |b| == |a| ==> a == b
  {
    assert b.Keys <= a.Keys;
    assert a.Keys == b.Keys + (a.Keys - b.Keys);
    assert |a.Keys| == |b.Keys| + |a.Keys - b.Keys|;
    if |b| == |a| {
      assert a.Keys - b.Keys == {};
    }
  }

  /** A strictly refining selector matches fewer devices and always scores higher. */
  lemma RefiningSelectorOverrides(a: Selector, b: Selector, d: Device)
    requires Refines(a, b) && a != b
    ensures SelectorMatches(a, d) ==> SelectorMatches(b, d)
    ensures Specificity(a) > Specificity(b)
  {
    SubmapSmaller(a.labels, b.labels);
  }

  /** So whenever the refining Binding matches, the refined one is not among the winners. */
  lemma RefinedNeverWins(bs: seq<Binding>, ev: Event, a: Binding, b: Binding)
    requires UniqueNames(bs) && a in bs && b in bs && Matches(a, ev)
    requires Refines(a.trigger.selector, b.trigger.selector)
    requires a.trigger.selector != b.trigger.selector
    ensures CandidateOf(b) !in Winners(bs, ev)
  {
    RefiningSelectorOverrides(a.trigger.selector, b.trigger.selector, ev.device);
    WinnersExact(bs, ev);
  }

  /** The documented ranking: the first field in which two selectors differ decides. */
  predicate RanksAbove(a: Selector, b: Selector) {
    if (a.ieee != "") != (b.ieee != "") then a.ieee != ""
    else if (a.device != "") != (b.device != "") then a.device != ""
    else if |a.labels| != |b.labels| then |a.labels| > |b.labels|
    else if (a.deviceType != "") != (b.deviceType != "") then a.deviceType != ""
    else a.zone != "" && b.zone == ""
  }

  /** Among selectors with up to `n` label keys the higher-ranked one scores higher. */
  ghost predicate RankingHolds(n: nat) {
    forall a: Selector, b: Selector :: |b.labels| <= n && RanksAbove(a, b) ==> Specificity(a) > Specificity(b)
  }

  /** The scores are sums, so they follow the documented ranking iff selectors have at most one label key. */
  lemma RankingExact(n: nat)
    ensures RankingHolds(n) <==> n <= 1
  {
    var byDevice := Selector("", "lamp", "", "", map[]);
    var byLabels := Selector("", "", "", "", map["floor" := "1", "room" := "hall"]);
    assert RanksAbove(byDevice, byLabels) && Specificity(byDevice) == Specificity(byLabels);
    assert |byLabels.labels| == 2;
  }
}
