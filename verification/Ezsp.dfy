/** EZSP frames: the legacy three-byte header, the extended five-byte header, and telling them apart. */
module Ezsp {
  import opened Wrappers
  import opened AshFrame

  const EXTENDED_FORMAT: bv8 := 0x01
  const COMMAND: bv8 := 0x00
  const RESPONSE: bv8 := 0x80

  datatype EzspFrame = EzspFrame(sequence: bv8, control: bv8, id: bv16, parameters: Bytes)

  function ParseLegacy(data: Bytes): Result<EzspFrame> {
    if |data| < 3 then Err else Ok(EzspFrame(data[0], data[1], Word(0, data[2]), data[3..]))
  }

  function ParseExtended(data: Bytes): Result<EzspFrame> {
    if |data| < 5 then Err
    else Ok(EzspFrame(data[0], if data[1] & 0x80 != 0 then RESPONSE else COMMAND, Word(data[4], data[3]), data[5..]))
  }

  function SerializeLegacy(f: EzspFrame): Bytes {
    [f.sequence, f.control, Low(f.id)] + f.parameters
  }

  function SerializeExtended(f: EzspFrame): Bytes {
    [f.sequence, COMMAND, EXTENDED_FORMAT, Low(f.id), High(f.id)] + f.parameters
  }

  /** The receiver's guess at the format, from the byte that is frameControlHi or the legacy id. */
  predicate LooksExtended(data: Bytes) {
    |data| >= 5 && data[2] & 0x03 == EXTENDED_FORMAT
  }

  function Detect(data: Bytes): Result<EzspFrame> {
    if LooksExtended(data) then ParseExtended(data) else ParseLegacy(data)
  }

  lemma ExtendedMark()
    ensures EXTENDED_FORMAT & 0x03 == EXTENDED_FORMAT
  {
  }

  lemma CommandBit()
    ensures COMMAND & 0x80 == 0
  {
  }

  /** Every command frame survives the extended format and the detector. */
  lemma {:induction false} ExtendedRoundTrip(f: EzspFrame)
    requires f.control == COMMAND
    ensures Detect(SerializeExtended(f)) == Ok(f)
  {
    ExtendedMark();
    CommandBit();
    WordRoundTrip(f.id);
    assert SerializeExtended(f)[5..] == f.parameters;
  }

  lemma NarrowId(id: bv16)
    requires High(id) == 0
    ensures Word(0, Low(id)) == id
  {
    WordRoundTrip(id);
  }

  /**
   A frame with an 8-bit id survives the legacy format and the detector iff it is shorter than
   five bytes or the low two bits of its id are not 01.
   */
  lemma {:induction false} LegacyRoundTripExact(f: EzspFrame)
    requires High(f.id) == 0
    ensures Detect(SerializeLegacy(f)) == Ok(f) <==>
            |SerializeLegacy(f)| < 5 || Low(f.id) & 0x03 != 0x01
  {
    NarrowId(f.id);
    var data := SerializeLegacy(f);
    assert data[3..] == f.parameters && data[2] == Low(f.id);
    if LooksExtended(data) {
      assert |data[5..]| != |f.parameters|;
    }
  }

  lemma IdBytes()
    ensures Low(0x1234) == 0x34 && High(0x1234) == 0x12 && Word(0x12, 0x34) == 0x1234
  {
  }

  /** The two headers on the wire, and a response read back: sequence, control, format, id low byte first. */
  lemma HeaderBytes()
    ensures SerializeExtended(EzspFrame(5, 0x00, 0x1234, [0xAB])) == [5, 0x00, 0x01, 0x34, 0x12, 0xAB]
    ensures SerializeLegacy(EzspFrame(5, 0x80, 0x0034, [0xAB])) == [5, 0x80, 0x34, 0xAB]
    ensures Detect([7, 0x90, 0x01, 0x34, 0x12, 0xAB]) == Ok(EzspFrame(7, 0x80, 0x1234, [0xAB]))
  {
    IdBytes();
    var data: Bytes := [7, 0x90, 0x01, 0x34, 0x12, 0xAB];
    assert data[5..] == [0xAB];
    ExtendedMark();
    var control: bv8 := 0x90;
    assert control & 0x80 != 0;
    var id: bv16 := 0x0034;
    assert Low(id) == 0x34;
  }
}
