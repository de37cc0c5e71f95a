/** The cartridge header parser (src/cartridge/header.rs): single bytes at
    fixed offsets and three optional strings read from fixed slices. */
module CartridgeHeader {
  import opened Wrappers
  import Utf8

  /** Slice bounds as written in `get_header`: start inclusive, end exclusive. */
  const TITLE_START: nat := 0x134
  const TITLE_END: nat := 0x143
  const MANUFACTURER_START: nat := 0x13F
  const MANUFACTURER_END: nat := 0x142
  const LICENSEE_START: nat := 0x144
  const LICENSEE_END: nat := 0x145
  const CGB_OFFSET: nat := 0x143
  const SGB_OFFSET: nat := 0x146
  const CARTRIDGE_TYPE_OFFSET: nat := 0x147
  const ROM_SIZE_OFFSET: nat := 0x148
  const RAM_SIZE_OFFSET: nat := 0x149

  /** The strings are the UTF-8 bytes of the Rust `String`s. */
  datatype Header = Header(
    raw_size: nat,
    title: Option<seq<bv8>>,
    manufacturer: Option<seq<bv8>>,
    licensee: Option<seq<bv8>>,
    cgb: bv8,
    sgb: bv8,
    cartridge_type: bv8,
    rom_size: bv8,
    ram_size: bv8)

  /** Decodes `bytes[start..end]` as UTF-8 and trims trailing U+0000
      characters; absent when the slice is not well-formed UTF-8. */
  function ReadString(bytes: seq<bv8>, start: nat, end: nat): (r: Option<seq<bv8>>)
    requires start <= end <= |bytes|
    ensures r.None? <==> !Utf8.WellFormed(bytes[start..end])
    ensures r.Some? ==> Utf8.WellFormed(r.value)
    ensures r.Some? ==> Utf8.Chars(r.value) == Utf8.TrimEnd(Utf8.Chars(bytes[start..end]), Utf8.NUL)
    ensures r.Some? ==> r.value <= bytes[start..end]
    ensures r.Some? ==> r.value == [] || r.value[|r.value| - 1] != 0x00
    ensures r.Some? ==> forall i | |r.value| <= i < end - start :: bytes[start..end][i] == 0x00
  {
    var slice := bytes[start..end];
    if Utf8.WellFormed(slice) then
      Utf8.TrimNulBytesTrimsNulChars(slice);
      Some(Utf8.TrimEnd(slice, 0x00))
    else
      None
  }

  /** Reads the header of a cartridge image; the image must reach offset 0x149. */
  function GetHeader(bytes: seq<bv8>): (h: Header)
    requires |bytes| > RAM_SIZE_OFFSET
    ensures h.raw_size == |bytes|
    ensures h.title == ReadString(bytes, TITLE_START, TITLE_END)
    ensures h.manufacturer == ReadString(bytes, MANUFACTURER_START, MANUFACTURER_END)
    ensures h.licensee == ReadString(bytes, LICENSEE_START, LICENSEE_END)
    ensures h.cgb == bytes[0x143] && h.sgb == bytes[0x146]
    ensures h.cartridge_type == bytes[0x147] && h.rom_size == bytes[0x148] && h.ram_size == bytes[0x149]
  {
    Header(
      raw_size := |bytes|,
      title := ReadString(bytes, TITLE_START, TITLE_END),
      manufacturer := ReadString(bytes, MANUFACTURER_START, MANUFACTURER_END),
      licensee := ReadString(bytes, LICENSEE_START, LICENSEE_END),
      cgb := bytes[CGB_OFFSET],
      sgb := bytes[SGB_OFFSET],
      cartridge_type := bytes[CARTRIDGE_TYPE_OFFSET],
      rom_size := bytes[ROM_SIZE_OFFSET],
      ram_size := bytes[RAM_SIZE_OFFSET])
  }

  /** The slices are as long as their end-exclusive bounds make them: the
      title 15 bytes, the manufacturer code 3 bytes inside the title, the
      licensee code a single byte. */
  lemma SliceExtents(bytes: seq<bv8>)
    requires |bytes| > RAM_SIZE_OFFSET
    ensures |bytes[TITLE_START..TITLE_END]| == 15
    ensures |bytes[MANUFACTURER_START..MANUFACTURER_END]| == 3
    ensures bytes[MANUFACTURER_START..MANUFACTURER_END] == bytes[TITLE_START..TITLE_END][11..14]
    ensures bytes[LICENSEE_START..LICENSEE_END] == [bytes[0x144]]
  {
  }

  /** Each field depends on its own bytes and on nothing else in the image. */
  lemma FieldsDependOnlyOnTheirBytes(b1: seq<bv8>, b2: seq<bv8>)
    requires |b1| > RAM_SIZE_OFFSET && |b2| > RAM_SIZE_OFFSET
    ensures (forall i | TITLE_START <= i < TITLE_END :: b1[i] == b2[i]) ==>
              GetHeader(b1).title == GetHeader(b2).title
    ensures (forall i | MANUFACTURER_START <= i < MANUFACTURER_END :: b1[i] == b2[i]) ==>
              GetHeader(b1).manufacturer == GetHeader(b2).manufacturer
    ensures b1[0x144] == b2[0x144] ==> GetHeader(b1).licensee == GetHeader(b2).licensee
    ensures (forall i | TITLE_START <= i <= RAM_SIZE_OFFSET :: b1[i] == b2[i]) ==>
              GetHeader(b1) == GetHeader(b2).(raw_size := |b1|)
  {
    if forall i | TITLE_START <= i < TITLE_END :: b1[i] == b2[i] {
      assert b1[TITLE_START..TITLE_END] == b2[TITLE_START..TITLE_END];
    }
    if forall i | MANUFACTURER_START <= i < MANUFACTURER_END :: b1[i] == b2[i] {
      assert b1[MANUFACTURER_START..MANUFACTURER_END] == b2[MANUFACTURER_START..MANUFACTURER_END];
    }
    if b1[0x144] == b2[0x144] {
      assert b1[LICENSEE_START..LICENSEE_END] == b2[LICENSEE_START..LICENSEE_END];
    }
  }

  /** An ASCII title padded with 0x00 bytes reads as the text without padding. */
  lemma PaddedAsciiTitle(bytes: seq<bv8>, n: nat)
    requires |bytes| > RAM_SIZE_OFFSET
    requires 0 < n <= TITLE_END - TITLE_START
    requires forall i | TITLE_START <= i < TITLE_START + n :: 0x00 < bytes[i] <= 0x7F
    requires forall i | TITLE_START + n <= i < TITLE_END :: bytes[i] == 0x00
    ensures GetHeader(bytes).title == Some(bytes[TITLE_START..TITLE_START + n])
  {
    var slice := bytes[TITLE_START..TITLE_END];
    var text := bytes[TITLE_START..TITLE_START + n];
    assert forall i | 0 <= i < |slice| :: slice[i] <= 0x7F;
    Utf8.AsciiWellFormed(slice);
    assert text <= slice;
    assert text[n - 1] != 0x00;
    assert forall i | n <= i < |slice| :: slice[i] == 0x00;
    Utf8.TrimEndUnique(slice, 0x00, text);
    assert ReadString(bytes, TITLE_START, TITLE_END) == Some(text);
  }

  /** A title that starts with a byte no UTF-8 character starts with is absent. */
  lemma InvalidTitleIsAbsent(bytes: seq<bv8>)
    requires |bytes| > RAM_SIZE_OFFSET
    requires bytes[TITLE_START] == 0xFF
    ensures GetHeader(bytes).title == None
  {
  }
}
