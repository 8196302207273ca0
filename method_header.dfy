// Method-body headers and the data sections after the code, as
// CILDecodingStage.ReadMethodHeader reads them (section II.25.4 of ECMA-335).
// The MethodFlags and EhClause types are not part of this model: their
// constants and sizes are those of ECMA-335, sections II.25.4.1-II.25.4.6.
module MethodHeaders {
  import opened Wrappers
  import opened CodeReading

  const TinyFormat: bv16 := 0x2
  const FatFormat: bv16 := 0x3
  const HeaderMask: bv16 := 0x3
  const TinyCodeSizeMask: bv16 := 0xFC
  const MoreSections: bv16 := 0x8
  const HeaderSizeMask: bv16 := 0xF000
  /** A fat header is three 4-byte words long. */
  const ValidHeader: bv16 := 0x3000

  /** Section flag bits (section II.25.4.5 of ECMA-335). */
  const SectionFat: bv8 := 0x40
  const SectionMore: bv8 := 0x80

  /** Sizes of one exception clause (section II.25.4.6 of ECMA-335). */
  const SmallClauseSize := 12
  const FatClauseSize := 24

  /** Bytes of a fat header. */
  const FatHeaderSize := 12

  /** The IL.MethodHeader struct; a fresh one is all zeroes. */
  datatype MethodHeader = MethodHeader(flags: bv16, maxStack: int, codeSize: int, localsSignature: int)

  const EmptyHeader := MethodHeader(0, 0, 0, 0)

  /** The outcome of reading a header: the header and where the code starts. */
  datatype HeaderRead = HeaderRead(header: MethodHeader, codeStart: int)

  /** C#'s integer division, which truncates toward zero. */
  function TruncDiv(a: int, b: int): (q: int)
    requires b > 0
    ensures a >= 0 ==> 0 <= a - q * b < b
    ensures a < 0 ==> -b < a - q * b <= 0
  {
    if a >= 0 then a / b else -((-a) / b)
  }

  /** The section loop's `(length - 4) / size` clause count. */
  function ClauseCount(length: int, size: int): (blocks: int)
    requires size > 0
  {
    TruncDiv(length - 4, size)
  }

  /** A section length of at least four bytes announces (length-4)/size clauses, a shorter one none. */
  lemma ClauseCountMeaning(length: int, size: int)
    requires size > 0 && length >= 0
    ensures length >= 4 ==> ClauseCount(length, size) * size <= length - 4 < (ClauseCount(length, size) + 1) * size
    ensures length < 4 + size ==> ClauseCount(length, size) <= 0
  {}

  /** The data sections start at the next multiple of four. */
  function Align4(p: int): (q: int)
    requires p >= 0
    ensures q % 4 == 0 && p <= q < p + 4
  {
    if p % 4 != 0 then p + (4 - p % 4) else p
  }

  /** Align4 gives the least multiple of four that is not below p. */
  lemma Align4Least(p: int, m: int)
    requires p >= 0 && m % 4 == 0 && m >= p
    ensures Align4(p) <= m
  {}

  /** The first header byte's kind bits. */
  function Kind(b0: bv8): bv16
  {
    (b0 as bv16) & HeaderMask
  }

  /** The code size a tiny header holds in its upper six bits. */
  function TinyCodeSize(b0: bv8): (size: int)
    ensures size == b0 as int / 4 && 0 <= size < 64
  {
    ((b0 & (TinyCodeSizeMask as bv8)) >> 2) as int
  }

  /** The 16-bit flags of a fat header: second byte high, first byte low. */
  function FatFlags(b0: bv8, b1: bv8): (flags: bv16)
    ensures flags & 0xFF == b0 as bv16 && flags >> 8 == b1 as bv16
  {
    ((b1 as bv16) << 8) | (b0 as bv16)
  }

  /** The header fields, read from pos on, before any data section is looked at. */
  function ParseHeaderFields(bytes: seq<byte>, pos: int): (r: Result<HeaderRead>)
    requires pos >= 0
    ensures r.Ok? ==> pos < r.value.codeStart <= |bytes| && 0 <= r.value.header.codeSize
  {
    match ReadUnsigned(bytes, pos, 1)
    case Err(e) => Err(e)
    case Ok(b0) =>
      if Kind(b0 as bv8) == TinyFormat then
        Ok(HeaderRead(EmptyHeader.(flags := (b0 as bv16) & HeaderMask, codeSize := TinyCodeSize(b0 as bv8)), pos + 1))
      else if Kind(b0 as bv8) == FatFormat then
        match ReadUnsigned(bytes, pos + 1, 1)
        case Err(e) => Err(e)
        case Ok(b1) =>
          var flags := FatFlags(b0 as bv8, b1 as bv8);
          if flags & HeaderSizeMask != ValidHeader then Err(InvalidData)
          else
            match ReadUnsigned(bytes, pos + 2, 2)
            case Err(e) => Err(e)
            case Ok(maxStack) =>
              match ReadUnsigned(bytes, pos + 4, 4)
              case Err(e) => Err(e)
              case Ok(codeSize) =>
                match ReadUnsigned(bytes, pos + 8, 4)
                case Err(e) => Err(e)
                case Ok(locals) =>
                  Ok(HeaderRead(MethodHeader(flags, maxStack, codeSize, locals), pos + FatHeaderSize))
      else Err(InvalidData)
  }

  /** Where the clauses of the section starting at pos begin, and how many there are. */
  function SectionLayout(bytes: seq<byte>, pos: int): Result<(int, int, bool)>
    requires pos >= 0
  {
    match ReadUnsigned(bytes, pos, 1)
    case Err(e) => Err(e)
    case Ok(flags) =>
      if (flags as bv8) & SectionFat == SectionFat then
        var got := Available(bytes, pos + 1, 3);
        Ok((pos + 1 + |got|, ClauseCount(Unsigned(got), FatClauseSize), true))
      else
        match ReadUnsigned(bytes, pos + 1, 1)
        case Err(e) => Err(e)
        case Ok(length) =>
          match ReadSigned(bytes, pos + 2, 2)
          case Err(e) => Err(e)
          case Ok(_) => Ok((pos + 4, ClauseCount(length, SmallClauseSize), false))
  }

  /** The end of a section's clauses: blocks clauses of the section's size, none when blocks is not positive. */
  function SectionEnd(clauses: int, blocks: int, isFat: bool): (after: int)
    ensures after >= clauses
  {
    if blocks > 0 then clauses + blocks * (if isFat then FatClauseSize else SmallClauseSize) else clauses
  }

  /**
   * Skips the data sections starting at pos: each is a flag byte, a length,
   * and its clauses; another section follows while the flag's 0x80 bit is set.
   * The result is the position after the last one.
   */
  function SkipSections(bytes: seq<byte>, pos: int): (r: Result<int>)
    requires pos >= 0
    ensures r.Ok? ==> pos < r.value <= |bytes|
    decreases |bytes| - pos
  {
    match SectionLayout(bytes, pos)
    case Err(e) => Err(e)
    case Ok((clauses, blocks, isFat)) =>
      var after := SectionEnd(clauses, blocks, isFat);
      if after > |bytes| then Err(EndOfStream)
      else if (bytes[pos] as bv8) & SectionMore == SectionMore then SkipSections(bytes, after)
      else Ok(after)
  }

  /**
   * What ReadMethodHeader leaves behind: the header, and the position where the
   * code starts, after any data sections past the code have been read.
   */
  function ParseHeader(bytes: seq<byte>, pos: int): (r: Result<HeaderRead>)
    requires pos >= 0
  {
    match ParseHeaderFields(bytes, pos)
    case Err(e) => Err(e)
    case Ok(h) =>
      if h.header.flags & MoreSections == MoreSections then
        match SkipSections(bytes, Align4(h.codeStart + h.header.codeSize))
        case Err(e) => Err(e)
        case Ok(_) => Ok(h)
      else Ok(h)
  }

  /** The one byte of a tiny header for a body of codeSize bytes. */
  function TinyHeaderBytes(codeSize: int): (bs: seq<byte>)
    requires 0 <= codeSize < 64
    ensures |bs| == 1
  {
    [codeSize * 4 + 2]
  }

  /**
   * A tiny header is one byte: the code size is its upper six bits, the flags
   * keep only the kind bits, maxStack and the locals token stay zero, and no
   * data section is looked for.
   */
  lemma TinyHeader(codeSize: int, rest: seq<byte>)
    requires 0 <= codeSize < 64
    ensures ParseHeader(TinyHeaderBytes(codeSize) + rest, 0)
         == Ok(HeaderRead(MethodHeader(TinyFormat, 0, codeSize, 0), 1))
  {
    var bytes := TinyHeaderBytes(codeSize) + rest;
    var b0 := codeSize * 4 + 2;
    assert ReadUnsigned(bytes, 0, 1) == Ok(b0);
    assert (b0 as bv8) & 3 == 2 && (b0 as bv8) >> 2 == codeSize as bv8 by {
      assert b0 as bv8 == ((codeSize as bv8) << 2) | 2;
    }
  }

  /** A header that a fat header can hold: fat kind bits, a three-word size, fields in range. */
  predicate FatEncodable(h: MethodHeader)
  {
    h.flags & HeaderMask == FatFormat && h.flags & HeaderSizeMask == ValidHeader &&
    0 <= h.maxStack < Radix(2) && 0 <= h.codeSize < Radix(4) && 0 <= h.localsSignature < Radix(4)
  }

  /** The low and high bytes of 16-bit flags. */
  function LowByte(flags: bv16): bv8 { (flags & 0xFF) as bv8 }
  function HighByte(flags: bv16): bv8 { (flags >> 8) as bv8 }

  /** Splitting flags into bytes and joining them again gives the flags back. */
  lemma FlagBytes(flags: bv16)
    ensures FatFlags(LowByte(flags), HighByte(flags)) == flags
    ensures Kind(LowByte(flags)) == flags & HeaderMask
  {}

  /** The twelve bytes of a fat header: flags, maxStack, code size and locals token, little-endian. */
  function FatHeaderBytes(h: MethodHeader): (bs: seq<byte>)
    requires FatEncodable(h)
    ensures |bs| == FatHeaderSize
  {
    [LowByte(h.flags) as int, HighByte(h.flags) as int]
      + Encode(h.maxStack, 2) + Encode(h.codeSize, 4) + Encode(h.localsSignature, 4)
  }

  /**
   * A fat header is read as 16-bit flags, then a 16-bit maxStack, a 32-bit
   * code size and a 32-bit locals token, in that order; the code follows it.
   */
  lemma FatHeader(h: MethodHeader, rest: seq<byte>)
    requires FatEncodable(h)
    ensures ParseHeaderFields(FatHeaderBytes(h) + rest, 0) == Ok(HeaderRead(h, FatHeaderSize))
  {
    var bytes := FatHeaderBytes(h) + rest;
    FlagBytes(h.flags);
    FatHeaderSlices(h, rest);
    EncodedField(bytes, 2, h.maxStack, 2);
    EncodedField(bytes, 4, h.codeSize, 4);
    EncodedField(bytes, 8, h.localsSignature, 4);
  }

  /** Where each field of a fat header sits among its bytes. */
  lemma FatHeaderSlices(h: MethodHeader, rest: seq<byte>)
    requires FatEncodable(h)
    ensures var bytes := FatHeaderBytes(h) + rest;
      ReadUnsigned(bytes, 0, 1) == Ok(LowByte(h.flags) as int) &&
      ReadUnsigned(bytes, 1, 1) == Ok(HighByte(h.flags) as int) &&
      bytes[2..4] == Encode(h.maxStack, 2) && bytes[4..8] == Encode(h.codeSize, 4) &&
      bytes[8..12] == Encode(h.localsSignature, 4)
  {
    var bytes := FatHeaderBytes(h) + rest;
    assert ReadUnsigned(bytes, 0, 1) == Ok(LowByte(h.flags) as int);
    assert ReadUnsigned(bytes, 1, 1) == Ok(HighByte(h.flags) as int);
  }

  /** An n-byte field holding the encoding of v reads back as v. */
  lemma EncodedField(bytes: seq<byte>, at: int, v: int, n: nat)
    requires 0 <= at && at + n <= |bytes| && 0 <= v < Radix(n) && bytes[at..at + n] == Encode(v, n)
    ensures ReadUnsigned(bytes, at, n) == Ok(v)
  {
    UnsignedEncode(v, n);
  }

  /** A fat header whose size bits are not three words is rejected as invalid data. */
  lemma FatHeaderBadSize(bytes: seq<byte>, pos: int)
    requires 0 <= pos && pos + 2 <= |bytes|
    requires Kind(bytes[pos] as bv8) == FatFormat
    requires FatFlags(bytes[pos] as bv8, bytes[pos + 1] as bv8) & HeaderSizeMask != ValidHeader
    ensures ParseHeaderFields(bytes, pos) == Err(InvalidData)
    ensures ParseHeader(bytes, pos) == Err(InvalidData)
  {
    assert ReadUnsigned(bytes, pos, 1) == Ok(bytes[pos]);
    assert ReadUnsigned(bytes, pos + 1, 1) == Ok(bytes[pos + 1]);
  }

  /** A first byte whose kind bits are neither tiny nor fat is rejected as invalid data. */
  lemma OtherHeaderKind(bytes: seq<byte>, pos: int)
    requires 0 <= pos < |bytes|
    requires Kind(bytes[pos] as bv8) != TinyFormat && Kind(bytes[pos] as bv8) != FatFormat
    ensures ParseHeader(bytes, pos) == Err(InvalidData)
  {
    assert ReadUnsigned(bytes, pos, 1) == Ok(bytes[pos]);
  }

  /** Every header, tiny or fat, begins its code after itself and inside the stream. */
  lemma HeaderCodeStart(bytes: seq<byte>, pos: int)
    requires pos >= 0 && ParseHeader(bytes, pos).Ok?
    ensures var h := ParseHeader(bytes, pos).value;
      h.codeStart == pos + 1 || h.codeStart == pos + FatHeaderSize
    ensures ParseHeader(bytes, pos).value.codeStart <= |bytes|
  {}

  /**
   * A small section is a flag byte, a one-byte length and two padding bytes;
   * its clauses start four bytes in and there are (length-4)/12 of them.
   */
  lemma SmallSection(bytes: seq<byte>, pos: int)
    requires 0 <= pos && pos + 4 <= |bytes|
    requires (bytes[pos] as bv8) & SectionFat == 0
    ensures SectionLayout(bytes, pos) == Ok((pos + 4, ClauseCount(bytes[pos + 1], SmallClauseSize), false))
  {
    assert ReadUnsigned(bytes, pos, 1) == Ok(bytes[pos]);
    assert ReadUnsigned(bytes, pos + 1, 1) == Ok(bytes[pos + 1]);
  }

  /**
   * A fat section is a flag byte and a three-byte little-endian length; its
   * clauses follow and there are (length-4)/24 of them.
   */
  lemma FatSection(bytes: seq<byte>, pos: int)
    requires 0 <= pos && pos + 4 <= |bytes|
    requires (bytes[pos] as bv8) & SectionFat == SectionFat
    ensures SectionLayout(bytes, pos) == Ok((pos + 4, ClauseCount(Unsigned(bytes[pos + 1..pos + 4]), FatClauseSize), true))
  {
    assert ReadUnsigned(bytes, pos, 1) == Ok(bytes[pos]);
    assert Available(bytes, pos + 1, 3) == bytes[pos + 1..pos + 4];
  }

  /** A section without the 0x80 bit is the last one read. */
  lemma LastSection(bytes: seq<byte>, pos: int)
    requires 0 <= pos < |bytes| && SectionLayout(bytes, pos).Ok?
    requires (bytes[pos] as bv8) & SectionMore == 0
    ensures var (clauses, blocks, isFat) := SectionLayout(bytes, pos).value;
      var after := SectionEnd(clauses, blocks, isFat);
      SkipSections(bytes, pos) == if after <= |bytes| then Ok(after) else Err(EndOfStream)
  {}

  /** A section with the 0x80 bit is followed by another at the end of its clauses. */
  lemma NextSection(bytes: seq<byte>, pos: int)
    requires 0 <= pos < |bytes| && SectionLayout(bytes, pos).Ok?
    requires (bytes[pos] as bv8) & SectionMore == SectionMore
    ensures var (clauses, blocks, isFat) := SectionLayout(bytes, pos).value;
      var after := SectionEnd(clauses, blocks, isFat);
      pos < after &&
      SkipSections(bytes, pos) == if after <= |bytes| then SkipSections(bytes, after) else Err(EndOfStream)
  {}
}
