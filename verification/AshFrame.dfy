/**
 ASH frames: byte stuffing, data randomization, the CRC, and building and parsing of frames.
 The format is that of Silicon Labs UG101.
 */
module AshFrame {
  import opened Wrappers
  import opened Sequences

  type Byte = bv8
  type Bytes = seq<bv8>

  const FLAG: bv8 := 0x7E
  const ESC: bv8 := 0x7D
  const ESC_XOR: bv8 := 0x20
  const XON: bv8 := 0x11
  const XOFF: bv8 := 0x13

  // ------------------------------------------------------------- byte stuffing

  predicate Reserved(b: bv8) {
    b == FLAG || b == ESC || b == XON || b == XOFF
  }

  function EscapeByte(b: bv8): Bytes {
    if Reserved(b) then [ESC, b ^ ESC_XOR] else [b]
  }

  function Escape(data: Bytes): Bytes {
    if data == [] then [] else Escape(data[..|data| - 1]) + EscapeByte(data[|data| - 1])
  }

  /** An escape character at the very end stands for itself. */
  function Unescape(raw: Bytes): Bytes {
    if raw == [] then []
    else if raw[0] == ESC && |raw| > 1 then [UnescapeByte(raw[1])] + Unescape(raw[2..])
    else [raw[0]] + Unescape(raw[1..])
  }

  method EscapeFrame(data: Bytes) returns (result: Bytes)
    ensures result == Escape(data)
  {
    result := [];
    for i := 0 to |data|
      invariant result == Escape(data[..i])
    {
      assert data[..i + 1][..i] == data[..i];
      if Reserved(data[i]) {
        result := result + [ESC, data[i] ^ ESC_XOR];
      } else {
        result := result + [data[i]];
      }
    }
    assert data[..|data|] == data;
  }

  function UnescapeByte(b: bv8): bv8 {
    b ^ ESC_XOR
  }

  lemma UnescapeAt(raw: Bytes, i: nat)
    requires i < |raw|
    ensures Unescape(raw[i..]) ==
            if raw[i] == ESC && i + 1 < |raw| then [UnescapeByte(raw[i + 1])] + Unescape(raw[i + 2..])
            else [raw[i]] + Unescape(raw[i + 1..])
  {
    assert raw[i..][1..] == raw[i + 1..];
    if i + 1 < |raw| {
      assert raw[i..][2..] == raw[i + 2..];
    }
  }

  method UnescapeFrame(raw: Bytes) returns (result: Bytes)
    ensures result == Unescape(raw)
  {
    result := [];
    var i := 0;
    while i < |raw|
      invariant 0 <= i <= |raw|
      invariant Unescape(raw) == result + Unescape(raw[i..])
    {
      UnescapeAt(raw, i);
      if raw[i] == ESC && i + 1 < |raw| {
        Associates(result, [UnescapeByte(raw[i + 1])], Unescape(raw[i + 2..]));
        result := result + [UnescapeByte(raw[i + 1])];
        i := i + 1;
      } else {
        Associates(result, [raw[i]], Unescape(raw[i + 1..]));
        result := result + [raw[i]];
      }
      i := i + 1;
    }
    assert raw[|raw|..] == [];
  }

  lemma {:induction false} EscapeCons(b: bv8, data: Bytes)
    ensures Escape([b] + data) == EscapeByte(b) + Escape(data)
  {
    if data == [] {
      assert [b] + data == [b];
      assert [b][..0] == [];
    } else {
      var init, last := data[..|data| - 1], data[|data| - 1];
      assert ([b] + data)[..|data|] == [b] + init;
      EscapeCons(b, init);
    }
  }

  lemma EscapeUndone(b: bv8)
    ensures (b ^ ESC_XOR) ^ ESC_XOR == b
  {
  }

  /** Unescaping undoes escaping. */
  lemma {:induction false} EscapeRoundTrip(data: Bytes)
    ensures Unescape(Escape(data)) == data
  {
    if data != [] {
      var b, rest := data[0], data[1..];
      EscapeRoundTrip(rest);
      assert data == [b] + rest;
      EscapeCons(b, rest);
      EscapeUndone(b);
      var e := Escape(data);
      if Reserved(b) {
        assert e[2..] == Escape(rest);
      } else {
        assert e[1..] == Escape(rest);
      }
    }
  }

  lemma EscapedByteIsNotFlag(b: bv8)
    requires Reserved(b)
    ensures b ^ ESC_XOR != FLAG
  {
  }

  /** Escaped data holds no frame delimiter, and is no shorter than the data. */
  lemma {:induction false} EscapeHidesFlags(data: Bytes)
    ensures FLAG !in Escape(data)
    ensures |Escape(data)| >= |data|
  {
    if data != [] {
      EscapeHidesFlags(data[..|data| - 1]);
      if Reserved(data[|data| - 1]) {
        EscapedByteIsNotFlag(data[|data| - 1]);
      }
    }
  }

  // ------------------------------------------------------------- randomization

  /** The 8-bit linear feedback shift register. */
  function NextRandom(r: bv8): bv8 {
    if r & 0x01 == 0 then r >> 1 else (r >> 1) ^ 0xB8
  }

  function RandomAt(i: nat): bv8 {
    if i == 0 then 0x42 else NextRandom(RandomAt(i - 1))
  }

  function Randomize(data: Bytes): Bytes {
    seq(|data|, i requires 0 <= i < |data| => data[i] ^ RandomAt(i))
  }

  method GeneratePseudoRandomSequence(length: nat) returns (sequence: Bytes)
    ensures |sequence| == length && forall i :: 0 <= i < length ==> sequence[i] == RandomAt(i)
  {
    sequence := [];
    var rand: bv8 := 0x42;
    for i := 0 to length
      invariant |sequence| == i && rand == RandomAt(i)
      invariant forall j :: 0 <= j < i ==> sequence[j] == RandomAt(j)
    {
      sequence := sequence + [rand];
      if rand & 0x01 == 0 {
        rand := rand >> 1;
      } else {
        rand := (rand >> 1) ^ 0xB8;
      }
    }
  }

  method RandomizeData(data: Bytes) returns (result: Bytes)
    ensures result == Randomize(data)
  {
    var sequence := GeneratePseudoRandomSequence(|data|);
    result := [];
    for i := 0 to |data|
      invariant |result| == i && forall j :: 0 <= j < i ==> result[j] == data[j] ^ RandomAt(j)
    {
      result := result + [data[i] ^ sequence[i]];
    }
  }

  lemma XorTwice(a: bv8, r: bv8)
    ensures (a ^ r) ^ r == a
  {
  }

  /** Randomizing twice gives the data back, so one operation serves both directions. */
  lemma {:induction false} RandomizeInvolution(data: Bytes)
    ensures Randomize(Randomize(data)) == data
  {
    forall i | 0 <= i < |data| ensures Randomize(Randomize(data))[i] == data[i] {
      XorTwice(data[i], RandomAt(i));
    }
  }

  // ----------------------------------------------------------------------- CRC

  function CrcBit(c: bv16): bv16 {
    if c & 0x8000 != 0 then (c << 1) ^ 0x1021 else c << 1
  }

  function CrcBits(c: bv16, n: nat): bv16 {
    if n == 0 then c else CrcBit(CrcBits(c, n - 1))
  }

  function Mix(c: bv16, b: bv8): bv16 {
    c ^ ((b as bv16) << 8)
  }

  function CrcByte(c: bv16, b: bv8): bv16 {
    CrcBits(Mix(c, b), 8)
  }

  function CrcFrom(c: bv16, data: Bytes): bv16 {
    if data == [] then c else CrcByte(CrcFrom(c, data[..|data| - 1]), data[|data| - 1])
  }

  function Crc(data: Bytes): bv16 {
    CrcFrom(0xFFFF, data)
  }

  method CrcStep(crc: bv16, b: bv8) returns (next: bv16)
    ensures next == CrcByte(crc, b)
  {
    next := Mix(crc, b);
    for i := 0 to 8
      invariant next == CrcBits(Mix(crc, b), i)
    {
      next := CrcBit(next);
    }
  }

  method CrcCCITT(data: Bytes) returns (crc: bv16)
    ensures crc == Crc(data)
  {
    crc := 0xFFFF;
    for i := 0 to |data|
      invariant crc == Crc(data[..i])
    {
      assert data[..i + 1][..i] == data[..i];
      crc := CrcStep(crc, data[i]);
    }
    assert data[..|data|] == data;
  }

  /** The inverse of one CRC bit step: the low bit tells whether the polynomial was added. */
  function CrcUnbit(c: bv16): bv16 {
    if c & 1 != 0 then ((c ^ 0x1021) >> 1) | 0x8000 else c >> 1
  }

  lemma AddedLowBit(c: bv16)
    ensures ((c << 1) ^ 0x1021) & 1 != 0
  {
  }

  lemma AddedTwice(c: bv16)
    ensures (c ^ 0x1021) ^ 0x1021 == c
  {
  }

  lemma ShiftedBackHigh(c: bv16)
    requires c & 0x8000 != 0
    ensures ((c << 1) >> 1) | 0x8000 == c
  {
  }

  lemma ShiftedLowBit(c: bv16)
    ensures (c << 1) & 1 == 0
  {
  }

  lemma ShiftedBack(c: bv16)
    requires c & 0x8000 == 0
    ensures (c << 1) >> 1 == c
  {
  }

  lemma CrcBitUndone(c: bv16)
    ensures CrcUnbit(CrcBit(c)) == c
  {
    if c & 0x8000 != 0 {
      AddedLowBit(c);
      AddedTwice(c << 1);
      ShiftedBackHigh(c);
    } else {
      ShiftedLowBit(c);
      ShiftedBack(c);
    }
  }

  lemma {:induction false} CrcBitsInjective(a: bv16, b: bv16, n: nat)
    requires CrcBits(a, n) == CrcBits(b, n)
    ensures a == b
  {
    if n > 0 {
      CrcBitUndone(CrcBits(a, n - 1));
      CrcBitUndone(CrcBits(b, n - 1));
      CrcBitsInjective(a, b, n - 1);
    }
  }

  lemma MixedState(a: bv16, b: bv16, x: bv8)
    requires Mix(a, x) == Mix(b, x)
    ensures a == b
  {
  }

  lemma MixedByte(c: bv16, x: bv8, y: bv8)
    requires Mix(c, x) == Mix(c, y)
    ensures x == y
  {
  }

  /** The byte step is injective in the CRC state. */
  lemma CrcByteInjective(a: bv16, b: bv16, x: bv8)
    requires CrcByte(a, x) == CrcByte(b, x)
    ensures a == b
  {
    CrcBitsInjective(Mix(a, x), Mix(b, x), 8);
    MixedState(a, b, x);
  }

  /** The byte step is injective in the byte. */
  lemma CrcByteSeparates(c: bv16, x: bv8, y: bv8)
    requires CrcByte(c, x) == CrcByte(c, y)
    ensures x == y
  {
    CrcBitsInjective(Mix(c, x), Mix(c, y), 8);
    MixedByte(c, x, y);
  }

  /** Messages of one length that differ in exactly one byte have different CRCs. */
  lemma {:induction false} CrcDetectsOneByte(m: Bytes, i: nat, x: bv8)
    requires i < |m| && m[i] != x
    ensures Crc(m[i := x]) != Crc(m)
  {
    var n := |m| - 1;
    var c, c' := Crc(m[..n]), Crc(m[i := x][..n]);
    if i == n {
      assert m[i := x][..n] == m[..n];
      if CrcByte(c, m[n]) == CrcByte(c, x) {
        CrcByteSeparates(c, m[n], x);
      }
    } else {
      assert m[i := x][..n] == m[..n][i := x];
      CrcDetectsOneByte(m[..n], i, x);
      if CrcByte(c, m[n]) == CrcByte(c', m[n]) {
        CrcByteInjective(c, c', m[n]);
      }
    }
  }

  // -------------------------------------------------------------------- frames

  function High(c: bv16): bv8 { (c >> 8) as bv8 }

  function Low(c: bv16): bv8 { (c & 0xFF) as bv8 }

  function Word(h: bv8, l: bv8): bv16 { ((h as bv16) << 8) | (l as bv16) }

  lemma WordRoundTrip(c: bv16)
    ensures Word(High(c), Low(c)) == c
  {
  }

  datatype Kind = Data | Ack | Nak | Rst | RstAck | Error

  datatype Frame = Frame(
    kind: Kind, control: bv8, frameNum: bv8, ackNum: bv8, reTx: bool, nRdy: bool, reserved: bool,
    data: Bytes, crc: bv16)

  function Wrap(body: Bytes): Bytes {
    [FLAG] + body + [FLAG]
  }

  function StripFlags(raw: Bytes): Bytes {
    var r := if |raw| > 0 && raw[0] == FLAG then raw[1..] else raw;
    if |r| > 0 && r[|r| - 1] == FLAG then r[..|r| - 1] else r
  }

  function FrameNum(control: bv8): bv8 { (control >> 4) & 0x07 }

  function AckNum(control: bv8): bv8 { control & 0x07 }

  function ParseContent(u: Bytes): Option<Frame> {
    if |u| < 3 then None
    else
      var control := u[0];
      var field := u[1..|u| - 2];
      var crc := Word(u[|u| - 2], u[|u| - 1]);
      var bare := Frame(Rst, control, 0, 0, false, false, false, [], crc);
      if control & 0x80 == 0 then
        Some(bare.(kind := Data, frameNum := FrameNum(control), reTx := (control >> 3) & 0x01 == 1,
                   ackNum := AckNum(control), data := field))
      else if control & 0xC0 == 0x80 then
        Some(bare.(kind := if control & 0x20 == 0 then Ack else Nak, reserved := (control >> 4) & 0x01 == 1,
                   nRdy := (control >> 3) & 0x01 == 1, ackNum := AckNum(control)))
      else if control == 0xC0 then Some(bare)
      else if control == 0xC1 then Some(bare.(kind := RstAck, data := field))
      else if control == 0xC2 then Some(bare.(kind := Error, data := field))
      else None
  }

  function ParseFrame(raw: Bytes): Option<Frame> {
    ParseContent(Unescape(StripFlags(raw)))
  }

  /** A frame's bytes before stuffing: control, field, CRC high byte first. */
  function Content(control: bv8, field: Bytes): Bytes {
    var crc := Crc([control] + field);
    [control] + field + [High(crc), Low(crc)]
  }

  function BuildFrame(control: bv8, field: Bytes): Bytes {
    Wrap(Escape(Content(control, field)))
  }

  function BuildDataFrame(control: bv8, data: Bytes): Bytes {
    BuildFrame(control, Randomize(data))
  }

  function BuildAckFrame(ackNum: bv8): Bytes {
    BuildFrame(0x80 | (ackNum & 0x07), [])
  }

  function BuildNakFrame(ackNum: bv8): Bytes {
    BuildFrame(0xA0 | (ackNum & 0x07), [])
  }

  lemma StripWrapped(body: Bytes)
    requires FLAG !in body
    ensures StripFlags(Wrap(body)) == body
  {
    assert Wrap(body)[1..] == body + [FLAG];
  }

  /** Stripping and unescaping a built frame gives its content. */
  lemma BuiltContent(control: bv8, field: Bytes)
    ensures Unescape(StripFlags(BuildFrame(control, field))) == Content(control, field)
  {
    EscapeHidesFlags(Content(control, field));
    StripWrapped(Escape(Content(control, field)));
    EscapeRoundTrip(Content(control, field));
  }

  lemma ContentParts(control: bv8, field: Bytes)
    ensures var u := Content(control, field);
            && |u| == |field| + 3 && u[0] == control && u[1..|u| - 2] == field
            && Word(u[|u| - 2], u[|u| - 1]) == Crc([control] + field)
            && u[..|u| - 2] == [control] + field
  {
    WordRoundTrip(Crc([control] + field));
  }

  /** A built DATA frame parses back to its control bits and its field, with the CRC of both. */
  lemma ParseBuiltData(control: bv8, data: Bytes)
    requires control & 0x80 == 0
    ensures ParseFrame(BuildDataFrame(control, data))
            == Some(Frame(Data, control, FrameNum(control), AckNum(control), (control >> 3) & 0x01 == 1,
                          false, false, Randomize(data), Crc([control] + Randomize(data))))
  {
    BuiltContent(control, Randomize(data));
    ContentParts(control, Randomize(data));
  }

  lemma AckControl(n: bv8)
    ensures (0x80 | (n & 0x07)) & 0x80 != 0
    ensures (0x80 | (n & 0x07)) & 0xC0 == 0x80
    ensures (0x80 | (n & 0x07)) & 0x20 == 0
    ensures (0x80 | (n & 0x07)) & 0x07 == n & 0x07
  {
  }

  lemma NakControl(n: bv8)
    ensures (0xA0 | (n & 0x07)) & 0x80 != 0
    ensures (0xA0 | (n & 0x07)) & 0xC0 == 0x80
    ensures (0xA0 | (n & 0x07)) & 0x20 != 0
    ensures (0xA0 | (n & 0x07)) & 0x07 == n & 0x07
  {
  }

  /** ACK and NAK frames parse back to their kind and number. */
  lemma ParseBuiltAckNak(n: bv8)
    ensures var f := ParseFrame(BuildAckFrame(n)); f.Some? && f.value.kind == Ack && f.value.ackNum == n & 0x07
    ensures var f := ParseFrame(BuildNakFrame(n)); f.Some? && f.value.kind == Nak && f.value.ackNum == n & 0x07
  {
    AckControl(n);
    NakControl(n);
    BuiltContent(0x80 | (n & 0x07), []);
    ContentParts(0x80 | (n & 0x07), []);
    BuiltContent(0xA0 | (n & 0x07), []);
    ContentParts(0xA0 | (n & 0x07), []);
  }

  // ----------------------------------------------------------------- CRC gate

  /** The check a DATA frame must pass: the CRC of all but the last two bytes equals those two. */
  predicate CrcOk(u: Bytes) {
    |u| >= 3 ==> Crc(u[..|u| - 2]) == Word(u[|u| - 2], u[|u| - 1])
  }

  lemma WordInjective(h: bv8, l: bv8, h': bv8, l': bv8)
    requires Word(h, l) == Word(h', l')
    ensures h == h' && l == l'
  {
    HighOfWord(h, l);
    HighOfWord(h', l');
    LowOfWord(h, l);
    LowOfWord(h', l');
  }

  lemma HighOfWord(h: bv8, l: bv8)
    ensures High(Word(h, l)) == h
  {
  }

  lemma LowOfWord(h: bv8, l: bv8)
    ensures Low(Word(h, l)) == l
  {
  }

  /** The gate passes every built frame and rejects it after any one byte of its content has changed. */
  lemma GateDetectsOneByte(control: bv8, field: Bytes, i: nat, x: bv8)
    requires i < |Content(control, field)| && x != Content(control, field)[i]
    ensures CrcOk(Content(control, field))
    ensures !CrcOk(Content(control, field)[i := x])
  {
    ContentParts(control, field);
    var u, m := Content(control, field), [control] + field;
    var u' := u[i := x];
    var n := |u| - 2;
    if i < n {
      assert u'[..n] == m[i := x];
      CrcDetectsOneByte(m, i, x);
    } else {
      assert u'[..n] == m;
      if Word(u'[n], u'[n + 1]) == Word(u[n], u[n + 1]) {
        WordInjective(u'[n], u'[n + 1], u[n], u[n + 1]);
      }
    }
  }
}
