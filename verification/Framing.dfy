/**
 Cutting a byte stream into frames at FLAG bytes. `accepts` is the test for bytes that arrive
 before the first FLAG; everything here holds for any such test.
 */
module Framing {
  import opened AshFrame
  import opened Sequences

  const GARBAGE_LIMIT := 256

  /** `current` is empty until the first FLAG; until then bytes go to `garbage`. */
  datatype Framer = Framer(current: Bytes, garbage: Bytes)

  const START := Framer([], [])

  /** A framer inside the stream, just after a FLAG. */
  const SYNCED := Framer([FLAG], [])

  /** The frame rebuilt from the bytes before the first FLAG, if they are accepted. */
  function Reconstructed(accepts: Bytes -> bool, garbage: Bytes): seq<Bytes> {
    if garbage != [] && accepts(Wrap(garbage)) then [Wrap(garbage)] else []
  }

  function Feed(accepts: Bytes -> bool, f: Framer, b: bv8): (Framer, seq<Bytes>) {
    if b == FLAG then
      if |f.current| > 0 then
        (f.(current := [b]), if |f.current + [b]| > 2 then [f.current + [b]] else [])
      else (Framer([b], []), Reconstructed(accepts, f.garbage))
    else if |f.current| > 0 then (f.(current := f.current + [b]), [])
    else if |f.garbage + [b]| > GARBAGE_LIMIT then (f.(garbage := []), [])
    else (f.(garbage := f.garbage + [b]), [])
  }

  function FeedAll(accepts: Bytes -> bool, f: Framer, bs: Bytes): (Framer, seq<Bytes>) {
    if bs == [] then (f, [])
    else
      var (f1, out) := FeedAll(accepts, f, bs[..|bs| - 1]);
      var (f2, more) := Feed(accepts, f1, bs[|bs| - 1]);
      (f2, out + more)
  }

  function Frames(accepts: Bytes -> bool, bs: Bytes): seq<Bytes> {
    FeedAll(accepts, START, bs).1
  }

  lemma FeedSnoc(accepts: Bytes -> bool, f: Framer, bs: Bytes, b: bv8)
    ensures var (f1, out) := FeedAll(accepts, f, bs);
            var (f2, more) := Feed(accepts, f1, b);
            FeedAll(accepts, f, bs + [b]) == (f2, out + more)
  {
    assert (bs + [b])[..|bs|] == bs;
  }

  lemma {:induction false} FeedAppend(accepts: Bytes -> bool, f: Framer, a: Bytes, b: Bytes)
    ensures var (f1, out) := FeedAll(accepts, f, a);
            var (f2, more) := FeedAll(accepts, f1, b);
            FeedAll(accepts, f, a + b) == (f2, out + more)
  {
    var (f1, out) := FeedAll(accepts, f, a);
    if b == [] {
      assert a + b == a;
      assert out + [] == out;
    } else {
      var init, last := b[..|b| - 1], b[|b| - 1];
      FeedAppend(accepts, f, a, init);
      FeedSnoc(accepts, f, a + init, last);
      assert a + b == (a + init) + [last];
      var (f2, more) := FeedAll(accepts, f1, init);
      var (f3, x) := Feed(accepts, f2, last);
      assert (out + more) + x == out + (more + x);
    }
  }

  lemma FeedOne(accepts: Bytes -> bool, f: Framer, b: bv8)
    ensures FeedAll(accepts, f, [b]) == Feed(accepts, f, b)
  {
    FeedSnoc(accepts, f, [], b);
    assert [] + [b] == [b];
    assert [] + Feed(accepts, f, b).1 == Feed(accepts, f, b).1;
  }

  // ------------------------------------------------------ framing is splitting

  /** Segments, each followed by its closing delimiter. */
  function Join(segments: seq<Bytes>): Bytes {
    if segments == [] then [] else Join(segments[..|segments| - 1]) + segments[|segments| - 1] + [FLAG]
  }

  ghost predicate FlagFree(segments: seq<Bytes>) {
    forall i :: 0 <= i < |segments| ==> FLAG !in segments[i]
  }

  /** Cut a stream at its delimiters: the completed segments and the open rest. */
  function Split(bs: Bytes): (seq<Bytes>, Bytes) {
    if bs == [] then ([], [])
    else
      var (done, open) := Split(bs[..|bs| - 1]);
      if bs[|bs| - 1] == FLAG then (done + [open], []) else (done, open + [bs[|bs| - 1]])
  }

  /** Splitting is the inverse of joining delimiter-free segments. */
  lemma {:induction false} SplitExact(bs: Bytes)
    ensures var (done, open) := Split(bs);
            FlagFree(done) && FLAG !in open && Join(done) + open == bs
  {
    if bs != [] {
      var init, last := bs[..|bs| - 1], bs[|bs| - 1];
      SplitExact(init);
      var (done, open) := Split(init);
      assert bs == init + [last];
      if last == FLAG {
        assert (done + [open])[..|done|] == done;
      }
    }
  }

  lemma {:induction false} SplitAppend(bs: Bytes, open: Bytes)
    requires FLAG !in open
    ensures Split(bs + open) == (Split(bs).0, Split(bs).1 + open)
  {
    if open == [] {
      assert bs + open == bs && Split(bs).1 + open == Split(bs).1;
    } else {
      var init, last := open[..|open| - 1], open[|open| - 1];
      SplitAppend(bs, init);
      assert last in open && bs + open == (bs + init) + [last] && open == init + [last];
      SplitSnoc(bs + init, last);
      assert Split(bs).1 + open == (Split(bs).1 + init) + [last];
    }
  }

  lemma {:induction false} SplitJoin(segments: seq<Bytes>)
    requires FlagFree(segments)
    ensures Split(Join(segments)) == (segments, [])
  {
    if segments != [] {
      var init, last := segments[..|segments| - 1], segments[|segments| - 1];
      SplitJoin(init);
      SplitAppend(Join(init), last);
      SplitSnoc(Join(init) + last, FLAG);
      assert [] + last == last && segments == init + [last];
    }
  }

  /** And joining delimiter-free segments is undone by splitting. */
  lemma JoinExact(segments: seq<Bytes>, open: Bytes)
    requires FlagFree(segments) && FLAG !in open
    ensures Split(Join(segments) + open) == (segments, open)
  {
    SplitJoin(segments);
    SplitAppend(Join(segments), open);
    assert [] + open == open;
  }

  /** The non-empty segments, delimited on both sides. */
  function Wrapped(segments: seq<Bytes>): seq<Bytes> {
    if segments == [] then []
    else
      var last := segments[|segments| - 1];
      if last == [] then Wrapped(segments[..|segments| - 1]) else Wrapped(segments[..|segments| - 1]) + [Wrap(last)]
  }

  /** What is left in the buffer after bytes that were no FLAG: it is cleared on reaching 257. */
  function Leftover(g: Bytes): Bytes {
    g[|g| - |g| % 257..]
  }

  lemma NextRemainder(n: nat, q: nat, k: nat)
    requires k < 257 && n == 257 * q + k
    ensures n % 257 == k && (n + 1) % 257 == if k == 256 then 0 else k + 1
  {
  }

  lemma LeftoverGrows(g: Bytes, b: bv8)
    ensures Leftover(g + [b]) == Buffered(Leftover(g), b)
  {
    var k := |g| % 257;
    NextRemainder(|g|, |g| / 257, k);
    assert |g + [b]| == |g| + 1;
    if k < 256 {
      assert (g + [b])[|g| - k..] == g[|g| - k..] + [b];
    }
  }

  function Buffered(l: Bytes, b: bv8): Bytes {
    if |l + [b]| > GARBAGE_LIMIT then [] else l + [b]
  }

  lemma FeedOutside(accepts: Bytes -> bool, l: Bytes, b: bv8)
    requires b != FLAG
    ensures Feed(accepts, Framer([], l), b) == (Framer([], Buffered(l, b)), [])
  {
  }

  lemma GarbageSnoc(accepts: Bytes -> bool, g: Bytes, l: Bytes, b: bv8)
    requires b != FLAG
    requires FeedAll(accepts, START, g) == (Framer([], l), [])
    ensures FeedAll(accepts, START, g + [b]) == (Framer([], Buffered(l, b)), [])
  {
    FeedSnoc(accepts, START, g, b);
    FeedOutside(accepts, l, b);
    var none: seq<Bytes> := [];
    assert none + none == none;
  }

  lemma {:induction false} FeedGarbage(accepts: Bytes -> bool, g: Bytes)
    requires FLAG !in g
    ensures FeedAll(accepts, START, g) == (Framer([], Leftover(g)), [])
  {
    if g != [] {
      var init, last := g[..|g| - 1], g[|g| - 1];
      FeedGarbage(accepts, init);
      GarbageSnoc(accepts, init, Leftover(init), last);
      assert g == init + [last];
      LeftoverGrows(init, last);
    }
  }

  lemma SplitSnoc(bs: Bytes, b: bv8)
    ensures var (done, open) := Split(bs);
            Split(bs + [b]) == if b == FLAG then (done + [open], []) else (done, open + [b])
  {
    assert (bs + [b])[..|bs|] == bs;
  }

  lemma WrappedSnoc(done: seq<Bytes>, segment: Bytes)
    ensures Wrapped(done + [segment]) == if segment == [] then Wrapped(done) else Wrapped(done) + [Wrap(segment)]
  {
    assert (done + [segment])[..|done|] == done;
  }

  lemma FeedInside(accepts: Bytes -> bool, open: Bytes, b: bv8)
    ensures Feed(accepts, Framer([FLAG] + open, []), b)
            == if b == FLAG then (SYNCED, if open == [] then [] else [Wrap(open)])
               else (Framer([FLAG] + (open + [b]), []), [])
  {
    assert [FLAG] + open + [b] == [FLAG] + (open + [b]);
  }

  ghost predicate AfterFlag(accepts: Bytes -> bool, bs: Bytes) {
    FeedAll(accepts, SYNCED, bs) == (Framer([FLAG] + Split(bs).1, []), Wrapped(Split(bs).0))
  }

  lemma AfterFlagSnoc(accepts: Bytes -> bool, bs: Bytes, b: bv8)
    requires AfterFlag(accepts, bs)
    ensures AfterFlag(accepts, bs + [b])
  {
    FeedSnoc(accepts, SYNCED, bs, b);
    SplitSnoc(bs, b);
    var (done, open) := Split(bs);
    FeedInside(accepts, open, b);
    if b == FLAG {
      WrappedSnoc(done, open);
      assert [FLAG] + [] == [FLAG];
    }
    assert Wrapped(done) + [] == Wrapped(done);
  }

  lemma {:induction false} FeedAfterFlag(accepts: Bytes -> bool, bs: Bytes)
    ensures AfterFlag(accepts, bs)
  {
    if bs == [] {
      assert [FLAG] + [] == [FLAG];
    } else {
      var init, last := bs[..|bs| - 1], bs[|bs| - 1];
      FeedAfterFlag(accepts, init);
      assert bs == init + [last];
      AfterFlagSnoc(accepts, init, last);
    }
  }

  /**
   The parser emits, for every stream: nothing before the first FLAG; at that FLAG at most one
   frame, rebuilt from the leftover bytes iff they are accepted; after it exactly the non-empty
   completed segments, each between its FLAGs.
   */
  lemma FramerExact(accepts: Bytes -> bool, g: Bytes, rest: Bytes)
    requires FLAG !in g
    ensures Frames(accepts, g) == []
    ensures Frames(accepts, g + [FLAG] + rest) == Reconstructed(accepts, Leftover(g)) + Wrapped(Split(rest).0)
  {
    FeedGarbage(accepts, g);
    FeedSnoc(accepts, START, g, FLAG);
    FeedAppend(accepts, START, g + [FLAG], rest);
    FeedAfterFlag(accepts, rest);
    assert [] + Reconstructed(accepts, Leftover(g)) == Reconstructed(accepts, Leftover(g));
  }

  // --------------------------------------------------------- streams of frames

  lemma {:induction false} SplitFlagFree(s: Bytes)
    requires FLAG !in s
    ensures Split(s) == ([], s)
  {
    if s != [] {
      SplitFlagFree(s[..|s| - 1]);
      assert s == s[..|s| - 1] + [s[|s| - 1]];
    }
  }

  lemma FeedBody(accepts: Bytes -> bool, body: Bytes)
    requires FLAG !in body && body != []
    ensures FeedAll(accepts, SYNCED, body + [FLAG]) == (SYNCED, [Wrap(body)])
  {
    FeedAfterFlag(accepts, body + [FLAG]);
    SplitSnoc(body, FLAG);
    SplitFlagFree(body);
    WrappedSnoc([], body);
    assert [] + [body] == [body];
    assert [] + [Wrap(body)] == [Wrap(body)];
    assert [FLAG] + [] == [FLAG];
  }

  lemma FeedWrapped(accepts: Bytes -> bool, f: Framer, body: Bytes)
    requires f == START || f == SYNCED
    requires FLAG !in body && body != []
    ensures FeedAll(accepts, f, Wrap(body)) == (SYNCED, [Wrap(body)])
  {
    assert Wrap(body) == [FLAG] + (body + [FLAG]);
    FeedAppend(accepts, f, [FLAG], body + [FLAG]);
    FeedOne(accepts, f, FLAG);
    FeedBody(accepts, body);
    assert [] + [Wrap(body)] == [Wrap(body)];
  }

  /** A frame's body, and whether its opening FLAG is the one that closed the frame before. */
  datatype Part = Part(body: Bytes, shared: bool)

  function PartBytes(first: bool, p: Part): Bytes {
    if p.shared && !first then p.body + [FLAG] else Wrap(p.body)
  }

  /** Frames one after another. */
  function Wire(parts: seq<Part>): Bytes {
    if parts == [] then []
    else Wire(parts[..|parts| - 1]) + PartBytes(|parts| == 1, parts[|parts| - 1])
  }

  function WrapAll(parts: seq<Part>): seq<Bytes> {
    seq(|parts|, i requires 0 <= i < |parts| => Wrap(parts[i].body))
  }

  predicate SoundPart(p: Part) {
    FLAG !in p.body && p.body != []
  }

  lemma FeedNext(accepts: Bytes -> bool, first: bool, p: Part)
    requires SoundPart(p)
    ensures FeedAll(accepts, if first then START else SYNCED, PartBytes(first, p)) == (SYNCED, [Wrap(p.body)])
  {
    if p.shared && !first {
      FeedBody(accepts, p.body);
    } else {
      FeedWrapped(accepts, if first then START else SYNCED, p.body);
    }
  }

  /** The parser recovers exactly these frames from their wire, and stays inside the stream. */
  predicate Recovered(accepts: Bytes -> bool, parts: seq<Part>) {
    FeedAll(accepts, START, Wire(parts)) == (if |parts| == 0 then START else SYNCED, WrapAll(parts))
  }

  lemma WireSnoc(parts: seq<Part>, p: Part)
    ensures Wire(parts + [p]) == Wire(parts) + PartBytes(|parts| == 0, p)
  {
    assert (parts + [p])[..|parts|] == parts;
  }

  lemma WrapAllSnoc(parts: seq<Part>, p: Part)
    ensures WrapAll(parts + [p]) == WrapAll(parts) + [Wrap(p.body)]
  {
  }

  lemma RecoveredNext(accepts: Bytes -> bool, parts: seq<Part>, p: Part)
    requires Recovered(accepts, parts) && SoundPart(p)
    ensures Recovered(accepts, parts + [p])
  {
    WireSnoc(parts, p);
    WrapAllSnoc(parts, p);
    FeedNext(accepts, |parts| == 0, p);
    FeedAppend(accepts, START, Wire(parts), PartBytes(|parts| == 0, p));
  }

  lemma RecoveredNothing(accepts: Bytes -> bool)
    ensures Recovered(accepts, [])
  {
    assert WrapAll([]) == [];
  }

  /** The parser recovers the frames of a wire, whether adjacent FLAGs are doubled or shared. */
  lemma WireFrames(accepts: Bytes -> bool, parts: seq<Part>)
    requires forall i :: 0 <= i < |parts| ==> SoundPart(parts[i])
    ensures Recovered(accepts, parts)
  {
    SnocInduction(ps => Recovered(accepts, ps), SoundPart, parts) by {
      RecoveredNothing(accepts);
      forall ps, p | Recovered(accepts, ps) && SoundPart(p) ensures Recovered(accepts, ps + [p]) {
        RecoveredNext(accepts, ps, p);
      }
    }
  }
}
