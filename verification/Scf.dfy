/**
 Simple Command Format: little-endian integers of four widths and byte-counted slices of them.
 The struct a command is declared as is a schema here, one field type per member.
 */
module Scf {
  import opened Sequences

  type Byte = n: int | 0 <= n < 256
  type Bytes = seq<Byte>

  datatype Width = One | Two | Four | Eight

  datatype Kind = Kind(signed: bool, width: Width)

  datatype FieldType = Scalar(kind: Kind) | Slice(kind: Kind)

  datatype Value = Num(n: int) | Nums(ns: seq<int>)

  type Schema = seq<FieldType>

  const MAX_COUNT := 255

  function Size(k: Kind): (r: nat)
    ensures 1 <= r <= 8
  {
    match k.width
    case One => 1
    case Two => 2
    case Four => 4
    case Eight => 8
  }

  // ------------------------------------------------------------------ integers

  function Pow256(n: nat): (r: nat)
    ensures r >= 1
  {
    if n == 0 then 1 else 256 * Pow256(n - 1)
  }

  function Modulus(k: Kind): nat {
    Pow256(Size(k))
  }

  function Half(k: Kind): nat {
    128 * Pow256(Size(k) - 1)
  }

  predicate InRange(k: Kind, x: int) {
    if k.signed then 0 - Half(k) <= x < Half(k) else 0 <= x < Modulus(k)
  }

  /** Two's complement. */
  function Encode(k: Kind, x: int): int {
    if x < 0 then x + Modulus(k) else x
  }

  function Decode(k: Kind, u: int): int {
    if k.signed && u >= Half(k) then u - Modulus(k) else u
  }

  function PutLittleEndian(u: nat, w: nat): (r: Bytes)
    ensures |r| == w
  {
    if w == 0 then [] else [u % 256] + PutLittleEndian(u / 256, w - 1)
  }

  function LittleEndian(bs: Bytes): (r: nat)
    ensures r < Pow256(|bs|)
  {
    if bs == [] then 0 else bs[0] + 256 * LittleEndian(bs[1..])
  }

  lemma {:induction false} LittleEndianOfPut(u: nat, w: nat)
    requires u < Pow256(w)
    ensures LittleEndian(PutLittleEndian(u, w)) == u
  {
    if w > 0 {
      LittleEndianOfPut(u / 256, w - 1);
      assert PutLittleEndian(u, w)[1..] == PutLittleEndian(u / 256, w - 1);
    }
  }

  lemma {:induction false} PutOfLittleEndian(bs: Bytes)
    ensures PutLittleEndian(LittleEndian(bs), |bs|) == bs
  {
    if bs != [] {
      PutOfLittleEndian(bs[1..]);
      assert LittleEndian(bs) % 256 == bs[0] && LittleEndian(bs) / 256 == LittleEndian(bs[1..]);
    }
  }

  function PutNum(k: Kind, x: int): (r: Bytes)
    requires InRange(k, x)
    ensures |r| == Size(k)
  {
    PutLittleEndian(Encode(k, x), Size(k))
  }

  function GetNum(k: Kind, bs: Bytes): int
    requires |bs| == Size(k)
  {
    Decode(k, LittleEndian(bs))
  }

  /** Every integer of every width comes back, its sign included. */
  lemma NumRoundTrip(k: Kind, x: int)
    requires InRange(k, x)
    ensures GetNum(k, PutNum(k, x)) == x
  {
    LittleEndianOfPut(Encode(k, x), Size(k));
  }

  /** Every word of the right length is the image of exactly the number it is read as. */
  lemma WordRoundTrip(k: Kind, bs: Bytes)
    requires |bs| == Size(k)
    ensures InRange(k, GetNum(k, bs))
    ensures PutNum(k, GetNum(k, bs)) == bs
  {
    PutOfLittleEndian(bs);
  }

  // ---------------------------------------------------------------- serializing

  ghost predicate HasType(t: FieldType, v: Value) {
    match t
    case Scalar(k) => v.Num? && InRange(k, v.n)
    case Slice(k) => v.Nums? && forall i :: 0 <= i < |v.ns| ==> InRange(k, v.ns[i])
  }

  ghost predicate WellTyped(schema: Schema, vs: seq<Value>) {
    |vs| == |schema| && forall i :: 0 <= i < |schema| ==> HasType(schema[i], vs[i])
  }

  ghost predicate AllInRange(k: Kind, ns: seq<int>) {
    forall i :: 0 <= i < |ns| ==> InRange(k, ns[i])
  }

  function FirstOf(ns: seq<int>): (r: seq<int>)
    ensures |r| <= MAX_COUNT && |r| <= |ns|
  {
    if |ns| > MAX_COUNT then ns[..MAX_COUNT] else ns
  }

  function PutNums(k: Kind, ns: seq<int>): (r: Bytes)
    requires AllInRange(k, ns)
    ensures |r| == Size(k) * |ns|
  {
    if ns == [] then [] else
    PutNum(k, ns[0]) + PutNums(k, ns[1..])
  }

  function SerializeField(t: FieldType, v: Value): Bytes
    requires HasType(t, v)
  {
    match t
    case Scalar(k) => PutNum(k, v.n)
    case Slice(k) => [|FirstOf(v.ns)|] + PutNums(k, FirstOf(v.ns))
  }

  function Serialize(schema: Schema, vs: seq<Value>): Bytes
    requires WellTyped(schema, vs)
  {
    if schema == [] then [] else SerializeField(schema[0], vs[0]) + Serialize(schema[1..], vs[1..])
  }

  /** What is left of a value when slices keep their first 255 elements. */
  function TruncateField(v: Value): Value {
    match v
    case Num(n) => v
    case Nums(ns) => Nums(FirstOf(ns))
  }

  function Truncate(vs: seq<Value>): seq<Value> {
    if vs == [] then [] else [TruncateField(vs[0])] + Truncate(vs[1..])
  }

  // ------------------------------------------------------------------- parsing

  /** `Panic` is an out-of-range access in the middle of a slice. */
  datatype Outcome<T> = Parsed(value: T, rest: Bytes) | Invalid | Panic

  /** Which test rejects a slice that is too short: the one the code has, or the one it means. */
  datatype Guard = AsWritten | Corrected

  predicate Rejects(g: Guard, k: Kind, available: nat, count: nat) {
    match g
    case AsWritten => Size(k) * available < count
    case Corrected => available < Size(k) * count
  }

  function GetNums(k: Kind, count: nat, data: Bytes): seq<int>
    requires |data| >= Size(k) * count
  {
    if count == 0 then [] else
    Fits(k, count);
    [GetNum(k, data[..Size(k)])] + GetNums(k, count - 1, data[Size(k)..])
  }

  lemma Fits(k: Kind, count: nat)
    requires count > 0
    ensures Size(k) * count == Size(k) + Size(k) * (count - 1) >= Size(k)
  {
  }

  function ParseSlice(g: Guard, k: Kind, count: nat, data: Bytes): Outcome<Value> {
    if Rejects(g, k, |data|, count) then Invalid
    else if |data| < Size(k) * count then Panic
    else Parsed(Nums(GetNums(k, count, data)), data[Size(k) * count..])
  }

  function ParseField(g: Guard, t: FieldType, data: Bytes): Outcome<Value> {
    match t
    case Scalar(k) =>
      if |data| < Size(k) then Invalid else Parsed(Num(GetNum(k, data[..Size(k)])), data[Size(k)..])
    case Slice(k) =>
      if |data| == 0 then Invalid else ParseSlice(g, k, data[0], data[1..])
  }

  function Prepend(vs: seq<Value>, o: Outcome<seq<Value>>): Outcome<seq<Value>> {
    match o
    case Parsed(ws, rest) => Parsed(vs + ws, rest)
    case Invalid => Invalid
    case Panic => Panic
  }

  function Parse(g: Guard, schema: Schema, data: Bytes): Outcome<seq<Value>> {
    if schema == [] then Parsed([], data)
    else
      match ParseField(g, schema[0], data)
      case Parsed(v, rest) => Prepend([v], Parse(g, schema[1..], rest))
      case Invalid => Invalid
      case Panic => Panic
  }

  // ------------------------------------------------------- the two are inverses

  lemma {:induction false} NumsRoundTrip(k: Kind, ns: seq<int>, rest: Bytes)
    requires AllInRange(k, ns)
    ensures |PutNums(k, ns) + rest| >= Size(k) * |ns|
    ensures GetNums(k, |ns|, PutNums(k, ns) + rest) == ns
  {
    if ns != [] {
      NumRoundTrip(k, ns[0]);
      NumsRoundTrip(k, ns[1..], rest);
      Fits(k, |ns|);
      var data := PutNums(k, ns) + rest;
      assert data[..Size(k)] == PutNum(k, ns[0]);
      assert data[Size(k)..] == PutNums(k, ns[1..]) + rest;
    }
  }

  lemma TakeSplits(data: Bytes, a: nat, b: nat)
    requires a + b <= |data|
    ensures data[..a + b] == data[..a] + data[a..][..b]
  {
  }

  lemma {:induction false} WordsRoundTrip(k: Kind, count: nat, data: Bytes)
    requires |data| >= Size(k) * count
    ensures var ns := GetNums(k, count, data);
            |ns| == count && AllInRange(k, ns) && PutNums(k, ns) == data[..Size(k) * count]
  {
    if count > 0 {
      Fits(k, count);
      WordRoundTrip(k, data[..Size(k)]);
      WordsRoundTrip(k, count - 1, data[Size(k)..]);
      var ns := GetNums(k, count, data);
      assert ns[1..] == GetNums(k, count - 1, data[Size(k)..]);
      TakeSplits(data, Size(k), Size(k) * (count - 1));
    }
  }

  lemma FieldRoundTrip(g: Guard, t: FieldType, v: Value, rest: Bytes)
    requires HasType(t, v)
    ensures ParseField(g, t, SerializeField(t, v) + rest) == Parsed(TruncateField(v), rest)
  {
    match t
    case Scalar(k) =>
      NumRoundTrip(k, v.n);
      assert (PutNum(k, v.n) + rest)[..Size(k)] == PutNum(k, v.n);
    case Slice(k) =>
      CountedRoundTrip(g, k, v.ns, rest);
  }

  lemma CountedRoundTrip(g: Guard, k: Kind, all: seq<int>, rest: Bytes)
    requires HasType(Slice(k), Nums(all))
    ensures ParseField(g, Slice(k), SerializeField(Slice(k), Nums(all)) + rest) == Parsed(Nums(FirstOf(all)), rest)
  {
    var ns := FirstOf(all);
    var data := [|ns|] + PutNums(k, ns) + rest;
    assert data[0] == |ns| && data[1..] == PutNums(k, ns) + rest;
    SliceRoundTrip(g, k, ns, rest);
  }

  lemma SliceRoundTrip(g: Guard, k: Kind, ns: seq<int>, rest: Bytes)
    requires AllInRange(k, ns)
    ensures ParseSlice(g, k, |ns|, PutNums(k, ns) + rest) == Parsed(Nums(ns), rest)
  {
    NumsRoundTrip(k, ns, rest);
    assert (PutNums(k, ns) + rest)[Size(k) * |ns|..] == rest;
    GuardAdmits(g, k, |PutNums(k, ns) + rest|, |ns|);
  }

  lemma GuardAdmits(g: Guard, k: Kind, available: nat, count: nat)
    requires available >= Size(k) * count
    ensures !Rejects(g, k, available, count)
  {
    assert Size(k) * count >= count && Size(k) * available >= available;
  }

  /** A field is parsed from exactly the bytes its value is written as. */
  lemma FieldExact(g: Guard, t: FieldType, data: Bytes)
    requires ParseField(g, t, data).Parsed?
    ensures var Parsed(v, rest) := ParseField(g, t, data);
            HasType(t, v) && TruncateField(v) == v && data == SerializeField(t, v) + rest
  {
    match t
    case Scalar(k) => WordRoundTrip(k, data[..Size(k)]);
    case Slice(k) =>
      WordsRoundTrip(k, data[0], data[1..]);
      assert data == [data[0]] + data[1..];
  }

  lemma TypedCons(t: FieldType, ts: Schema, v: Value, vs: seq<Value>)
    requires HasType(t, v) && WellTyped(ts, vs)
    ensures WellTyped([t] + ts, [v] + vs)
  {
  }

  lemma SerializeCons(t: FieldType, ts: Schema, v: Value, vs: seq<Value>)
    requires HasType(t, v) && WellTyped(ts, vs)
    ensures WellTyped([t] + ts, [v] + vs)
    ensures Serialize([t] + ts, [v] + vs) == SerializeField(t, v) + Serialize(ts, vs)
  {
    TypedCons(t, ts, v, vs);
    assert ([t] + ts)[1..] == ts && ([v] + vs)[1..] == vs;
  }

  lemma TruncateCons(v: Value, vs: seq<Value>)
    ensures Truncate([v] + vs) == [TruncateField(v)] + Truncate(vs)
  {
    assert ([v] + vs)[1..] == vs;
  }

  lemma ParseCons(g: Guard, t: FieldType, ts: Schema, data: Bytes, v: Value, tail: Bytes)
    requires ParseField(g, t, data) == Parsed(v, tail)
    ensures Parse(g, [t] + ts, data) == Prepend([v], Parse(g, ts, tail))
  {
    assert ([t] + ts)[1..] == ts;
  }

  lemma RoundTripCons(g: Guard, t: FieldType, ts: Schema, v: Value, vs: seq<Value>, rest: Bytes)
    requires HasType(t, v) && WellTyped(ts, vs)
    requires Parse(g, ts, Serialize(ts, vs) + rest) == Parsed(Truncate(vs), rest)
    ensures WellTyped([t] + ts, [v] + vs)
    ensures Parse(g, [t] + ts, Serialize([t] + ts, [v] + vs) + rest) == Parsed(Truncate([v] + vs), rest)
  {
    var tail := Serialize(ts, vs) + rest;
    SerializeCons(t, ts, v, vs);
    Associates(SerializeField(t, v), Serialize(ts, vs), rest);
    FieldRoundTrip(g, t, v, tail);
    ParseCons(g, t, ts, SerializeField(t, v) + tail, TruncateField(v), tail);
    TruncateCons(v, vs);
  }

  /**
   Whatever was written is read back, with anything after it left over; slices longer than 255
   come back as their first 255 elements.
   */
  lemma {:induction false} RoundTrip(g: Guard, schema: Schema, vs: seq<Value>, rest: Bytes)
    requires WellTyped(schema, vs)
    ensures Parse(g, schema, Serialize(schema, vs) + rest) == Parsed(Truncate(vs), rest)
  {
    if schema == [] {
      assert Serialize(schema, vs) + rest == rest;
    } else {
      RoundTrip(g, schema[1..], vs[1..], rest);
      RoundTripCons(g, schema[0], schema[1..], vs[0], vs[1..], rest);
      assert schema == [schema[0]] + schema[1..] && vs == [vs[0]] + vs[1..];
    }
  }

  /** These values, and no others, are what the consumed part of `data` says. */
  ghost predicate Says(schema: Schema, data: Bytes, vs: seq<Value>, rest: Bytes) {
    WellTyped(schema, vs) && Truncate(vs) == vs && data == Serialize(schema, vs) + rest
  }

  lemma SaysCons(t: FieldType, ts: Schema, data: Bytes, v: Value, tail: Bytes, vs: seq<Value>, rest: Bytes)
    requires HasType(t, v) && TruncateField(v) == v && data == SerializeField(t, v) + tail
    requires Says(ts, tail, vs, rest)
    ensures Says([t] + ts, data, [v] + vs, rest)
  {
    SerializeCons(t, ts, v, vs);
    TruncateCons(v, vs);
    Associates(SerializeField(t, v), Serialize(ts, vs), rest);
  }

  /** Whatever was read is exactly what would have been written. */
  lemma {:induction false} ParseExact(g: Guard, schema: Schema, data: Bytes)
    requires Parse(g, schema, data).Parsed?
    ensures var Parsed(vs, rest) := Parse(g, schema, data); Says(schema, data, vs, rest)
  {
    if schema == [] {
      assert data == [] + data;
    } else {
      var Parsed(v, r) := ParseField(g, schema[0], data);
      ParseExact(g, schema[1..], r);
      var Parsed(ws, rest) := Parse(g, schema[1..], r);
      FieldExact(g, schema[0], data);
      SaysCons(schema[0], schema[1..], data, v, r, ws, rest);
      assert schema == [schema[0]] + schema[1..];
    }
  }

  /** Serializing is injective up to truncation, and no serialization is a proper prefix of another. */
  lemma PrefixFree(schema: Schema, vs: seq<Value>, ws: seq<Value>, r: Bytes, r': Bytes)
    requires WellTyped(schema, vs) && WellTyped(schema, ws)
    requires Serialize(schema, vs) + r == Serialize(schema, ws) + r'
    ensures Truncate(vs) == Truncate(ws) && r == r'
  {
    RoundTrip(Corrected, schema, vs, r);
    RoundTrip(Corrected, schema, ws, r');
  }

  // ------------------------------------------------------------- the wire form

  /** The place values of the eight bytes of a word. */
  const PLACES := [
    1, 0x100, 0x1_0000, 0x100_0000, 0x1_0000_0000, 0x100_0000_0000, 0x1_0000_0000_0000, 0x100_0000_0000_0000]

  function WidthInBytes(w: Width): int {
    match w
    case One => 1
    case Two => 2
    case Four => 4
    case Eight => 8
  }

  lemma {:induction false} PlacesArePowers(i: nat)
    requires i < 8
    ensures PLACES[i] == Pow256(i)
  {
    if i > 0 {
      PlacesArePowers(i - 1);
    }
  }

  /** The bytes of any integer, negative ones in two's complement, by repeated division. */
  function IntBytes(x: int, w: nat): (r: Bytes)
    ensures |r| == w
    decreases w
  {
    if w == 0 then [] else [x % 256] + IntBytes(x / 256, w - 1)
  }

  lemma {:induction false} PutIsIntBytes(x: int, w: nat)
    requires 0 <= x + Pow256(w)
    ensures PutLittleEndian(x + Pow256(w), w) == IntBytes(x, w)
    ensures x >= 0 ==> PutLittleEndian(x, w) == IntBytes(x, w)
    decreases w
  {
    if w > 0 {
      assert (x + Pow256(w)) % 256 == x % 256 && (x + Pow256(w)) / 256 == x / 256 + Pow256(w - 1);
      PutIsIntBytes(x / 256, w - 1);
    }
  }

  lemma QuotientUnique(x: int, d: int, q: int, r: int)
    requires d > 0 && x == q * d + r && 0 <= r < d
    ensures x / d == q
  {
    var e := q - x / d;
    assert e * d == x % d - r;
    MultiplesAreApart(e, d);
  }

  lemma MultiplesAreApart(e: int, d: int)
    requires d > 0
    ensures e >= 1 ==> e * d >= d
    ensures e <= -1 ==> e * d <= -d
  {
  }

  lemma DivideTwice(x: int, p: int)
    requires p > 0
    ensures (x / 256) / p == x / (256 * p)
  {
    var q, a := x / 256, (x / 256) / p;
    var b := q % p;
    assert x == a * (256 * p) + (256 * b + x % 256) by {
      assert q == a * p + b;
      assert a * (256 * p) == 256 * (a * p);
    }
    QuotientUnique(x, 256 * p, a, 256 * b + x % 256);
  }

  lemma {:induction false} IntBytesAt(x: int, w: nat, i: nat)
    requires i < w
    ensures IntBytes(x, w)[i] == (x / Pow256(i)) % 256
    decreases w
  {
    if i > 0 {
      IntBytesAt(x / 256, w - 1, i - 1);
      DivideTwice(x, Pow256(i - 1));
    }
  }

  /** A number is written as its bytes, the lowest first, in 1, 2, 4 or 8 of them by width. */
  lemma WireNumber(k: Kind, x: int, i: nat)
    requires InRange(k, x) && i < WidthInBytes(k.width)
    ensures |PutNum(k, x)| == WidthInBytes(k.width)
    ensures PutNum(k, x)[i] == (x / PLACES[i]) % 256
  {
    PutIsIntBytes(x, Size(k));
    IntBytesAt(x, Size(k), i);
    PlacesArePowers(i);
  }

  lemma Powers()
    ensures Pow256(1) == 0x100 && Pow256(2) == 0x1_0000 && Pow256(3) == 0x100_0000 && Pow256(4) == 0x1_0000_0000
    ensures Pow256(7) == 0x100_0000_0000_0000 && Pow256(8) == 0x1_0000_0000_0000_0000
  {
    PlacesArePowers(1);
    PlacesArePowers(2);
    PlacesArePowers(3);
    PlacesArePowers(4);
    PlacesArePowers(7);
  }

  /** The ranges of the eight kinds. */
  lemma RangeTable(x: int)
    ensures InRange(Kind(false, One), x) <==> 0 <= x <= 0xFF
    ensures InRange(Kind(false, Two), x) <==> 0 <= x <= 0xFFFF
    ensures InRange(Kind(false, Four), x) <==> 0 <= x <= 0xFFFF_FFFF
    ensures InRange(Kind(false, Eight), x) <==> 0 <= x <= 0xFFFF_FFFF_FFFF_FFFF
    ensures InRange(Kind(true, One), x) <==> -0x80 <= x <= 0x7F
    ensures InRange(Kind(true, Two), x) <==> -0x8000 <= x <= 0x7FFF
    ensures InRange(Kind(true, Four), x) <==> -0x8000_0000 <= x <= 0x7FFF_FFFF
    ensures InRange(Kind(true, Eight), x) <==> -0x8000_0000_0000_0000 <= x <= 0x7FFF_FFFF_FFFF_FFFF
  {
    Powers();
    assert Pow256(0) == 1;
  }

  lemma {:induction false} PutNumsAt(k: Kind, ns: seq<int>, j: nat, w: nat)
    requires AllInRange(k, ns) && j < |ns| && w == Size(k)
    ensures 0 <= w * j && w * j + w <= |PutNums(k, ns)|
    ensures PutNums(k, ns)[w * j..w * j + w] == PutNum(k, ns[j])
  {
    var rest := PutNums(k, ns[1..]);
    if j > 0 {
      PutNumsAt(k, ns[1..], j - 1, w);
      assert w * j == w + w * (j - 1);
      SliceBehind(PutNum(k, ns[0]), rest, w * (j - 1), w);
    } else {
      assert PutNums(k, ns)[..w] == PutNum(k, ns[0]);
    }
  }

  lemma SliceBehind(a: Bytes, b: Bytes, at: nat, n: nat)
    requires at + n <= |b|
    ensures (a + b)[|a| + at..|a| + at + n] == b[at..at + n]
  {
  }

  /** A slice is a count of at most 255, then its elements, the `j`th at offset 1 + width * j. */
  lemma {:induction false} WireSlice(k: Kind, ns: seq<int>, j: nat)
    requires AllInRange(k, ns) && j < |ns| && j < 255
    ensures var data, w := SerializeField(Slice(k), Nums(ns)), WidthInBytes(k.width);
            && data[0] == (if |ns| > 255 then 255 else |ns|)
            && |data| == 1 + w * data[0]
            && 0 <= 1 + w * j && 1 + w * j + w <= |data|
            && data[1 + w * j..1 + w * j + w] == PutNum(k, ns[j])
  {
    var kept, w: nat := FirstOf(ns), WidthInBytes(k.width);
    assert kept[j] == ns[j];
    PutNumsAt(k, kept, j, w);
    SliceBehind([|kept|], PutNums(k, kept), w * j, w);
  }

  /** An empty slice is its count alone. */
  lemma WireEmptySlice(k: Kind)
    ensures SerializeField(Slice(k), Nums([])) == [0]
  {
  }

  // ---------------------------------------------------------- truncated input

  /** A slice announces `data[0]` elements, more than follow, yet few enough to pass the guard. */
  predicate SlipsThrough(t: FieldType, data: Bytes) {
    t.Slice? && |data| > 0 && data[0] <= Size(t.kind) * (|data| - 1) && |data| - 1 < Size(t.kind) * data[0]
  }

  /** `rest` is what follows the serialization of some values of the fields before `i`. */
  ghost predicate LeavesFrom(schema: Schema, data: Bytes, i: nat, rest: Bytes)
    requires i <= |schema|
  {
    exists vs :: Says(schema[..i], data, vs, rest)
  }

  ghost predicate ParsesTo(schema: Schema, data: Bytes, rest: Bytes) {
    Parse(AsWritten, schema, data).Parsed? && Parse(AsWritten, schema, data).rest == rest
  }

  lemma ParsesToSays(schema: Schema, data: Bytes, rest: Bytes)
    ensures ParsesTo(schema, data, rest) <==> exists vs :: Says(schema, data, vs, rest)
  {
    if ParsesTo(schema, data, rest) {
      ParseExact(AsWritten, schema, data);
    }
    if vs :| Says(schema, data, vs, rest) {
      RoundTrip(AsWritten, schema, vs, rest);
    }
  }

  lemma ParsesToCons(schema: Schema, data: Bytes, i: nat, rest: Bytes)
    requires 0 < i <= |schema| && ParseField(AsWritten, schema[0], data).Parsed?
    ensures ParsesTo(schema[..i], data, rest) <==>
            ParsesTo(schema[1..][..i - 1], ParseField(AsWritten, schema[0], data).rest, rest)
  {
    assert schema[..i][1..] == schema[1..][..i - 1];
  }

  /** Field `i` is reached with input that slips through its guard. */
  ghost predicate SlipsAt(schema: Schema, data: Bytes, i: nat, rest: Bytes) {
    i < |schema| && ParsesTo(schema[..i], data, rest) && SlipsThrough(schema[i], rest)
  }

  lemma SlipsCons(schema: Schema, data: Bytes, i: nat, rest: Bytes)
    requires schema != [] && ParseField(AsWritten, schema[0], data).Parsed?
    ensures SlipsAt(schema[1..], ParseField(AsWritten, schema[0], data).rest, i, rest)
            <==> SlipsAt(schema, data, i + 1, rest)
  {
    if i + 1 < |schema| {
      ParsesToCons(schema, data, i + 1, rest);
    }
  }

  lemma SlipsFirst(schema: Schema, data: Bytes, rest: Bytes)
    requires schema != []
    ensures SlipsAt(schema, data, 0, rest) <==> rest == data && ParseField(AsWritten, schema[0], data).Panic?
  {
    assert schema[..0] == [];
  }

  lemma StuckEarly(schema: Schema, data: Bytes, i: nat, rest: Bytes)
    requires schema != [] && !ParseField(AsWritten, schema[0], data).Parsed? && i > 0
    ensures !SlipsAt(schema, data, i, rest)
  {
    if i < |schema| {
      assert schema[..i][0] == schema[0];
    }
  }

  lemma {:induction false} PanicsWhereSlipping(schema: Schema, data: Bytes)
    ensures Parse(AsWritten, schema, data).Panic? <==> exists i: nat, rest :: SlipsAt(schema, data, i, rest)
  {
    if schema != [] {
      var o := ParseField(AsWritten, schema[0], data);
      SlipsFirst(schema, data, data);
      if o.Parsed? {
        PanicsWhereSlipping(schema[1..], o.rest);
        if i: nat, rest :| SlipsAt(schema[1..], o.rest, i, rest) {
          SlipsCons(schema, data, i, rest);
        }
        if i: nat, rest :| SlipsAt(schema, data, i, rest) {
          SlipsFirst(schema, data, rest);
          SlipsCons(schema, data, i - 1, rest);
        }
      } else {
        forall i: nat, rest | SlipsAt(schema, data, i, rest) ensures o.Panic? {
          if i > 0 {
            StuckEarly(schema, data, i, rest);
          } else {
            SlipsFirst(schema, data, rest);
          }
        }
      }
    }
  }

  /**
   The guard as written lets a run go out of range iff the input holds values of the fields before some
   slice and then, for that slice, input that slips through.
   */
  lemma PanicExact(schema: Schema, data: Bytes)
    ensures Parse(AsWritten, schema, data).Panic? <==>
            exists i: nat, rest :: i < |schema| && LeavesFrom(schema, data, i, rest) && SlipsThrough(schema[i], rest)
  {
    PanicsWhereSlipping(schema, data);
    forall i: nat, rest | i < |schema|
      ensures ParsesTo(schema[..i], data, rest) <==> LeavesFrom(schema, data, i, rest)
    {
      ParsesToSays(schema[..i], data, rest);
    }
    if i: nat, rest :| SlipsAt(schema, data, i, rest) {
      assert LeavesFrom(schema, data, i, rest);
    }
    forall i: nat, rest | i < |schema| && LeavesFrom(schema, data, i, rest) && SlipsThrough(schema[i], rest)
      ensures SlipsAt(schema, data, i, rest)
    {
    }
  }

  /** Two 16-bit elements announced, one present: documented as invalid data, but out of range. */
  lemma TruncatedInputPanics()
    ensures Parse(AsWritten, [Slice(Kind(false, Two))], [2, 0, 0]) == Panic
  {
    var k, data: Bytes := Kind(false, Two), [2, 0, 0];
    assert data[1..] == [0, 0];
    assert ParseField(AsWritten, Slice(k), data) == ParseSlice(AsWritten, k, 2, [0, 0]);
  }

  /** A panic needs elements wider than one byte: for byte slices the guard is the intended one. */
  lemma ByteSlicesNeverSlip(t: FieldType, data: Bytes)
    requires t.kind.width == One
    ensures !SlipsThrough(t, data)
  {
  }

  /** With the guard the right way round parsing never panics, and otherwise does what the code does. */
  lemma {:induction false} CorrectedGuard(schema: Schema, data: Bytes)
    ensures var o := Parse(AsWritten, schema, data);
            Parse(Corrected, schema, data) == if o.Panic? then Invalid else o
  {
    if schema != [] {
      GuardsAgree(schema[0], data);
      var o := ParseField(AsWritten, schema[0], data);
      if o.Parsed? {
        CorrectedGuard(schema[1..], o.rest);
      }
    }
  }

  lemma GuardsAgree(t: FieldType, data: Bytes)
    ensures var o := ParseField(AsWritten, t, data);
            ParseField(Corrected, t, data) == if o.Panic? then Invalid else o
  {
    if t.Slice? && |data| > 0 {
      var w, n, count := Size(t.kind), |data| - 1, data[0];
      assert w * n < count ==> n < w * count;
    }
  }

  /** With it, input is accepted iff it starts with the serialization of some value. */
  lemma AcceptsExactly(schema: Schema, data: Bytes)
    ensures Parse(Corrected, schema, data).Parsed? <==>
            exists vs, rest :: WellTyped(schema, vs) && data == Serialize(schema, vs) + rest
  {
    if Parse(Corrected, schema, data).Parsed? {
      ParseExact(Corrected, schema, data);
      var Parsed(vs, rest) := Parse(Corrected, schema, data);
      assert WellTyped(schema, vs) && data == Serialize(schema, vs) + rest;
    }
    forall vs, rest | WellTyped(schema, vs) && data == Serialize(schema, vs) + rest
      ensures Parse(Corrected, schema, data).Parsed?
    {
      RoundTrip(Corrected, schema, vs, rest);
    }
  }

  // --------------------------------------------------------------------- loops

  /** The serializer's loops. */
  method SerializeSlice(k: Kind, ns: seq<int>) returns (data: Bytes)
    requires AllInRange(k, ns)
    ensures data == SerializeField(Slice(k), Nums(ns))
  {
    var length := |ns|;
    if length > MAX_COUNT {
      length := MAX_COUNT;
    }
    data := [length];
    ghost var kept := FirstOf(ns);
    assert ns[..length] == kept;
    for i := 0 to length
      invariant data + PutNums(k, kept[i..]) == [length] + PutNums(k, kept)
    {
      assert kept[i] == ns[i] && kept[i..][1..] == kept[i + 1..];
      data := data + PutNum(k, ns[i]);
    }
    assert kept[length..] == [];
    assert data + [] == data;
  }

  method SerializeFieldValue(t: FieldType, v: Value) returns (data: Bytes)
    requires HasType(t, v)
    ensures data == SerializeField(t, v)
  {
    match t {
      case Slice(k) => data := SerializeSlice(k, v.ns);
      case Scalar(k) => data := PutNum(k, v.n);
    }
  }

  lemma SerializeFrom(schema: Schema, vs: seq<Value>, f: nat)
    requires f < |schema| && WellTyped(schema, vs)
    ensures Serialize(schema[f..], vs[f..])
            == SerializeField(schema[f], vs[f]) + Serialize(schema[f + 1..], vs[f + 1..])
  {
    assert schema[f..][1..] == schema[f + 1..] && vs[f..][1..] == vs[f + 1..];
  }

  method SerializeValue(schema: Schema, vs: seq<Value>) returns (data: Bytes)
    requires WellTyped(schema, vs)
    ensures data == Serialize(schema, vs)
  {
    data := [];
    assert schema[0..] == schema && vs[0..] == vs;
    for f := 0 to |schema|
      invariant data + Serialize(schema[f..], vs[f..]) == Serialize(schema, vs)
    {
      var field := SerializeFieldValue(schema[f], vs[f]);
      SerializeFrom(schema, vs, f);
      Associates(data, field, Serialize(schema[f + 1..], vs[f + 1..]));
      data := data + field;
    }
    assert schema[|schema|..] == [];
    assert data + [] == data;
  }

  lemma GetNumsNext(k: Kind, count: nat, data: Bytes)
    requires count > 0 && |data| >= Size(k) * count
    ensures |data| >= Size(k) && |data[Size(k)..]| >= Size(k) * (count - 1)
    ensures GetNums(k, count, data) == [GetNum(k, data[..Size(k)])] + GetNums(k, count - 1, data[Size(k)..])
  {
    Fits(k, count);
  }

  method GetElements(k: Kind, count: nat, data: Bytes) returns (ns: seq<int>)
    requires |data| >= Size(k) * count
    ensures ns == GetNums(k, count, data)
  {
    ns := [];
    var rest, left: nat := data, count;
    while left > 0
      invariant |rest| >= Size(k) * left
      invariant ns + GetNums(k, left, rest) == GetNums(k, count, data)
    {
      GetNumsNext(k, left, rest);
      var x := GetNum(k, rest[..Size(k)]);
      Associates(ns, [x], GetNums(k, left - 1, rest[Size(k)..]));
      ns := ns + [x];
      rest, left := rest[Size(k)..], left - 1;
    }
    assert ns + [] == ns;
  }

  lemma PrependNothing(o: Outcome<seq<Value>>)
    ensures Prepend([], o) == o
  {
    if o.Parsed? {
      assert [] + o.value == o.value;
    }
  }

  lemma PrependSnoc(done: seq<Value>, v: Value, o: Outcome<seq<Value>>)
    ensures Prepend(done, Prepend([v], o)) == Prepend(done + [v], o)
  {
    if o.Parsed? {
      assert done + ([v] + o.value) == (done + [v]) + o.value;
    }
  }

  /** One field, with the guard as the code has it. */
  method ParseFieldValue(t: FieldType, input: Bytes) returns (o: Outcome<Value>)
    ensures o == ParseField(AsWritten, t, input)
  {
    var data := input;
    match t {
      case Slice(k) =>
        if |data| == 0 {
          return Invalid;
        }
        var length := data[0];
        data := data[1..];
        if Size(k) * |data| < length {
          return Invalid;
        }
        if |data| < Size(k) * length {
          return Panic;
        }
        var ns := GetElements(k, length, data);
        return Parsed(Nums(ns), data[Size(k) * length..]);
      case Scalar(k) =>
        if |data| < Size(k) {
          return Invalid;
        }
        return Parsed(Num(GetNum(k, data[..Size(k)])), data[Size(k)..]);
    }
  }

  /** The parser's loop over the fields. */
  method ParseValue(schema: Schema, input: Bytes) returns (o: Outcome<seq<Value>>)
    ensures o == Parse(AsWritten, schema, input)
  {
    var data, done := input, [];
    assert schema[0..] == schema;
    PrependNothing(Parse(AsWritten, schema, input));
    for f := 0 to |schema|
      invariant Parse(AsWritten, schema, input) == Prepend(done, Parse(AsWritten, schema[f..], data))
    {
      assert schema[f..][1..] == schema[f + 1..];
      var field := ParseFieldValue(schema[f], data);
      match field {
        case Invalid => return Invalid;
        case Panic => return Panic;
        case Parsed(v, rest) =>
          PrependSnoc(done, v, Parse(AsWritten, schema[f + 1..], rest));
          done, data := done + [v], rest;
      }
    }
    assert schema[|schema|..] == [];
    assert done + [] == done;
    return Parsed(done, data);
  }
}
