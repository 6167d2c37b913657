/** The image metadata block that 01_BlinkLED and 03_MultiCore place in
    flash for the boot ROM: the minimum Arm IMAGE_DEF of section 5.9.5
    "Minimum Viable Image Metadata" of the RP2350 datasheet. It is a start
    marker, one IMAGE_TYPE item, the LAST item, a link to the next block and
    an end marker, laid out as five little-endian 32-bit words. */
module BootImage {
  import opened AtomicAccess

  const BLOCK_MARKER_START: Word := 0xffff_ded3
  const BLOCK_MARKER_END: Word := 0xab12_3579
  /** Item types (bits 0-6 of an item's first byte). */
  const ITEM_1BS_IMAGE_TYPE: bv8 := 0x42
  const ITEM_2BS_LAST: bv8 := 0x7f

  /** The five words of the `PicobinBlockItem` struct, in declaration order. */
  datatype PicobinBlock = PicobinBlock(word0: Word, word1: Word, word2: Word, word3: Word, word4: Word)

  /** `picoBinBlockItem` as initialised in both programs. */
  const PICOBIN_BLOCK := PicobinBlock(0xffff_ded3, 0x1021_0142, 0x0000_01ff, 0x0000_0000, 0xab12_3579)

  function Words(b: PicobinBlock): (ws: seq<Word>)
    ensures |ws| == 5 && ws[0] == b.word0 && ws[4] == b.word4
  {
    [b.word0, b.word1, b.word2, b.word3, b.word4]
  }

  /** A word as it lies in memory on the little-endian Cortex-M33. */
  function WordBytes(w: Word): (bs: seq<Byte>)
    ensures |bs| == 4
  {
    [(w & 0xff) as Byte, ((w >> 8) & 0xff) as Byte, ((w >> 16) & 0xff) as Byte, (w >> 24) as Byte]
  }

  /** The word four bytes in memory hold. */
  function BytesWord(bs: seq<Byte>): Word
    requires |bs| == 4
  {
    (bs[0] as Word) | ((bs[1] as Word) << 8) | ((bs[2] as Word) << 16) | ((bs[3] as Word) << 24)
  }

  lemma WordBytesRoundTrip(w: Word)
    ensures BytesWord(WordBytes(w)) == w
  {}

  lemma ByteFields(b0: Byte, b1: Byte, b2: Byte, b3: Byte)
    ensures var w := (b0 as Word) | ((b1 as Word) << 8) | ((b2 as Word) << 16) | ((b3 as Word) << 24);
            (w & 0xff) as Byte == b0 && ((w >> 8) & 0xff) as Byte == b1 &&
            ((w >> 16) & 0xff) as Byte == b2 && (w >> 24) as Byte == b3
  {}

  lemma BytesWordRoundTrip(bs: seq<Byte>)
    requires |bs| == 4
    ensures WordBytes(BytesWord(bs)) == bs
  {
    ByteFields(bs[0], bs[1], bs[2], bs[3]);
  }

  /** The 20 bytes the block occupies in the image. */
  function Image(b: PicobinBlock): (bs: seq<Byte>)
    ensures |bs| == 20
  {
    WordBytes(b.word0) + WordBytes(b.word1) + WordBytes(b.word2) + WordBytes(b.word3) + WordBytes(b.word4)
  }

  /** Reads a block back from its 20 bytes. */
  function ParseImage(bs: seq<Byte>): PicobinBlock
    requires |bs| == 20
  {
    PicobinBlock(BytesWord(bs[0..4]), BytesWord(bs[4..8]), BytesWord(bs[8..12]),
                 BytesWord(bs[12..16]), BytesWord(bs[16..20]))
  }

  /** Reading the bytes of a block gives the block back. */
  lemma ImageRoundTrip(b: PicobinBlock)
    ensures ParseImage(Image(b)) == b
  {
    var bs := Image(b);
    assert bs[0..4] == WordBytes(b.word0);
    assert bs[4..8] == WordBytes(b.word1);
    assert bs[8..12] == WordBytes(b.word2);
    assert bs[12..16] == WordBytes(b.word3);
    assert bs[16..20] == WordBytes(b.word4);
    WordBytesRoundTrip(b.word0);
    WordBytesRoundTrip(b.word1);
    WordBytesRoundTrip(b.word2);
    WordBytesRoundTrip(b.word3);
    WordBytesRoundTrip(b.word4);
  }

  /** Every 20 bytes are the image of the block they parse to. */
  lemma ParseRoundTrip(bs: seq<Byte>)
    requires |bs| == 20
    ensures Image(ParseImage(bs)) == bs
  {
    BytesWordRoundTrip(bs[0..4]);
    BytesWordRoundTrip(bs[4..8]);
    BytesWordRoundTrip(bs[8..12]);
    BytesWordRoundTrip(bs[12..16]);
    BytesWordRoundTrip(bs[16..20]);
    assert bs == bs[0..4] + bs[4..8] + bs[8..12] + bs[12..16] + bs[16..20];
  }

  /** The first word of a block item. Bit 7 of byte 0 says whether the item's
      size (in words) takes one byte or two; bits 0-6 are the item type. With
      a one-byte size, bytes 2-3 carry item data; with a two-byte size, byte 3
      is padding. */
  datatype ItemHeader = ItemHeader(twoByteSize: bool, itemType: bv8, size: bv16, data: bv16)

  predicate ValidHeader(h: ItemHeader) {
    h.itemType < 0x80 && if h.twoByteSize then h.data < 0x100 else h.size < 0x100
  }

  function ParseHeader(w: Word): (h: ItemHeader)
    ensures ValidHeader(h)
  {
    if w & 0x80 != 0 then ItemHeader(true, (w & 0x7f) as bv8, ((w >> 8) & 0xffff) as bv16, (w >> 24) as bv16)
    else ItemHeader(false, (w & 0x7f) as bv8, ((w >> 8) & 0xff) as bv16, (w >> 16) as bv16)
  }

  function HeaderWord(h: ItemHeader): Word
    requires ValidHeader(h)
  {
    if h.twoByteSize then (h.itemType as Word) | 0x80 | ((h.size as Word) << 8) | ((h.data as Word) << 24)
    else (h.itemType as Word) | ((h.size as Word) << 8) | ((h.data as Word) << 16)
  }

  /** Decoding an encoded header gives it back. */
  lemma HeaderRoundTrip(h: ItemHeader)
    requires ValidHeader(h)
    ensures ParseHeader(HeaderWord(h)) == h
  {}

  /** Every word is the encoding of the header it decodes to. */
  lemma HeaderWordRoundTrip(w: Word)
    ensures HeaderWord(ParseHeader(w)) == w
  {}

  /** Fields of the IMAGE_TYPE flags (the data of an IMAGE_TYPE item). */
  const IMAGE_TYPE_EXE: bv16 := 1
  const EXE_SECURITY_S: bv16 := 2
  const EXE_CPU_ARM: bv16 := 0
  const EXE_CHIP_RP2350: bv16 := 1

  /** Bits 0-3 image type, 4-5 security, 8-10 CPU, 12-14 chip, 15 try-before-you-buy. */
  datatype ImageType = ImageType(kind: bv16, security: bv16, cpu: bv16, chip: bv16, tbyb: bool)

  predicate ValidImageType(t: ImageType) {
    t.kind < 16 && t.security < 4 && t.cpu < 8 && t.chip < 8
  }

  function DecodeImageType(f: bv16): (t: ImageType)
    ensures ValidImageType(t)
  {
    ImageType(f & 0xf, (f >> 4) & 3, (f >> 8) & 7, (f >> 12) & 7, f & 0x8000 != 0)
  }

  function EncodeImageType(t: ImageType): bv16
    requires ValidImageType(t)
  {
    t.kind | (t.security << 4) | (t.cpu << 8) | (t.chip << 12) | (if t.tbyb then 0x8000 else 0)
  }

  /** Bits 6, 7 and 11 of the flags belong to no field. */
  predicate ReservedClear(f: bv16) {
    f & 0x08c0 == 0
  }

  lemma ImageTypeRoundTrip(t: ImageType)
    requires ValidImageType(t)
    ensures DecodeImageType(EncodeImageType(t)) == t && ReservedClear(EncodeImageType(t))
  {}

  lemma FlagsRoundTrip(f: bv16)
    requires ReservedClear(f)
    ensures EncodeImageType(DecodeImageType(f)) == f
  {}

  /** The image type every IMAGE_DEF here declares: a secure Arm executable
      for the RP2350. */
  const SECURE_ARM_EXE := ImageType(IMAGE_TYPE_EXE, EXE_SECURITY_S, EXE_CPU_ARM, EXE_CHIP_RP2350, false)

  /** A single-block image definition: start marker, one one-word IMAGE_TYPE
      item, a LAST item whose size is the total size of the items before it,
      a relative link of 0 (the block forms a loop by itself) and the end
      marker. */
  predicate MinimalImageDef(b: PicobinBlock, t: ImageType) {
    var item := ParseHeader(b.word1);
    var last := ParseHeader(b.word2);
    b.word0 == BLOCK_MARKER_START && b.word4 == BLOCK_MARKER_END &&
    !item.twoByteSize && item.itemType == ITEM_1BS_IMAGE_TYPE && item.size == 1 &&
    DecodeImageType(item.data) == t && ReservedClear(item.data) &&
    last.twoByteSize && last.itemType == ITEM_2BS_LAST && last.size == item.size && last.data == 0 &&
    b.word3 == 0
  }

  /** The block in both programs is the minimum IMAGE_DEF of a secure Arm
      executable for the RP2350, and it is the only five words that are. */
  lemma PicobinBlockIsMinimal(b: PicobinBlock)
    ensures MinimalImageDef(b, SECURE_ARM_EXE) <==> b == PICOBIN_BLOCK
  {
    var item := ItemHeader(false, ITEM_1BS_IMAGE_TYPE, 1, 0x1021);
    var last := ItemHeader(true, ITEM_2BS_LAST, 1, 0);
    assert HeaderWord(item) == 0x1021_0142;
    assert HeaderWord(last) == 0x0000_01ff;
    HeaderRoundTrip(item);
    HeaderRoundTrip(last);
    assert EncodeImageType(SECURE_ARM_EXE) == 0x1021;
    ImageTypeRoundTrip(SECURE_ARM_EXE);
    if MinimalImageDef(b, SECURE_ARM_EXE) {
      var i1 := ParseHeader(b.word1);
      FlagsRoundTrip(i1.data);
      assert i1 == item;
      HeaderWordRoundTrip(b.word1);
      HeaderWordRoundTrip(b.word2);
      assert ParseHeader(b.word2) == last;
    }
  }

  /** The block's bytes, as the boot ROM scans them. */
  lemma PicobinBlockBytes()
    ensures Image(PICOBIN_BLOCK) ==
              [0xd3, 0xde, 0xff, 0xff, 0x42, 0x01, 0x21, 0x10, 0xff, 0x01, 0x00, 0x00,
               0x00, 0x00, 0x00, 0x00, 0x79, 0x35, 0x12, 0xab]
  {}
}
