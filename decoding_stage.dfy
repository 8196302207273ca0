// The CIL decoding stage itself (Mosa/Runtime/CompilerFramework/CIL/CILDecodingStage.cs):
// Run reads the method header through the binary reader, skips the data
// sections after the code and comes back, then decodes the code into the
// stage's instruction list. Each method is proved against the functions of
// MethodHeaders and CilDecoding that say what it computes.
module DecodingStages {
  import opened Wrappers
  import opened CodeReading
  import opened OpCodes
  import opened OpCodeMap
  import opened MethodHeaders
  import opened CilDecoding

  /** What decoding one method body yields: its header and its nodes in stream order. */
  datatype DecodedMethod = DecodedMethod(header: MethodHeader, nodes: seq<Node>)

  /**
   * Run on a code stream: no compiler (None) is an ArgumentNullException;
   * otherwise the header is read from the start of the stream and the code
   * after it is walked up to the header's code size.
   */
  function DecodeMethod(dec: Decoder, code: Option<seq<byte>>): Result<DecodedMethod>
    requires Consistent(dec)
  {
    match code
    case None => Err(ArgumentNull)
    case Some(bytes) =>
      match ParseHeader(bytes, 0)
      case Err(e) => Err(e)
      case Ok(h) =>
        HeaderCodeStart(bytes, 0);
        match Walk(bytes, h.codeStart, h.codeStart + h.header.codeSize, h.codeStart, None, dec)
        case Err(e) => Err(e)
        case Ok(ns) => Ok(DecodedMethod(h.header, ns))
  }

  /** Without a compiler nothing is read and the stage fails at once. */
  lemma DecodeWithoutCompiler(dec: Decoder)
    requires Consistent(dec)
    ensures DecodeMethod(dec, None) == Err(ArgumentNull)
  {}

  /**
   * A method with a tiny header over an assembled body decodes to the tiny
   * header and one node per instruction, offsets counted from the byte after
   * the header; bytes after the code are never looked at.
   */
  lemma DecodeTinyMethod(dec: Decoder, instrs: seq<Instr>, rest: seq<byte>)
    requires Consistent(dec) && ReadsBack(dec) && AllWellFormed(dec, instrs)
    requires |Assemble(dec, instrs)| < 64
    ensures var body := Assemble(dec, instrs);
      DecodeMethod(dec, Some(TinyHeaderBytes(|body|) + body + rest))
      == Ok(DecodedMethod(MethodHeader(TinyFormat, 0, |body|, 0), Expected(dec, instrs, 1, 1)))
  {
    var body := Assemble(dec, instrs);
    var bytes := TinyHeaderBytes(|body|) + body + rest;
    var h := HeaderRead(MethodHeader(TinyFormat, 0, |body|, 0), 1);
    TinyMethodBytes(body, rest);
    DecodeAssembled(bytes, 1, 1 + |body|, 1, dec, instrs);
    DecodeMethodParts(dec, bytes, h, Expected(dec, instrs, 1, 1));
  }

  /** A header read from the start and its code walked to the end make the decoded method. */
  lemma DecodeMethodParts(dec: Decoder, bytes: seq<byte>, h: HeaderRead, ns: seq<Node>)
    requires Consistent(dec) && ParseHeader(bytes, 0) == Ok(h)
    requires Walk(bytes, h.codeStart, h.codeStart + h.header.codeSize, h.codeStart, None, dec) == Ok(ns)
    ensures DecodeMethod(dec, Some(bytes)) == Ok(DecodedMethod(h.header, ns))
  {
  }

  /** A tiny header before a body: the header reads back and the body follows it. */
  lemma TinyMethodBytes(body: seq<byte>, rest: seq<byte>)
    requires |body| < 64
    ensures var bytes := TinyHeaderBytes(|body|) + body + rest;
      ParseHeader(bytes, 0) == Ok(HeaderRead(MethodHeader(TinyFormat, 0, |body|, 0), 1)) &&
      Spelled(bytes, 1, body)
  {
    var bytes := TinyHeaderBytes(|body|) + body + rest;
    assert bytes == TinyHeaderBytes(|body|) + (body + rest);
    TinyHeader(|body|, body + rest);
    BodySpelled(TinyHeaderBytes(|body|), body, rest);
  }

  /** Code placed after a header is spelled right after it. */
  lemma BodySpelled(header: seq<byte>, body: seq<byte>, rest: seq<byte>)
    ensures Spelled(header + body + rest, |header|, body)
  {
    var bytes := header + body + rest;
    assert bytes[|header|..|header| + |body|] == body;
    SpelledSlice(bytes, |header|, body);
  }

  /** No earlier nodes leave a result as it is. */
  lemma ThenNothing(r: Result<seq<Node>>)
    ensures Then([], r) == r
  {
    if r.Ok? {
      assert [] + r.value == r.value;
    }
  }

  /** Nodes put in front in two steps are the two runs of nodes put in front at once. */
  lemma ThenAppend(a: seq<Node>, b: seq<Node>, r: Result<seq<Node>>)
    ensures Then(a + b, r) == Then(a, Then(b, r))
  {
    if r.Ok? {
      assert (a + b) + r.value == a + (b + r.value);
    }
  }

  /** ParseHeader once the fields are read: the header, after any data sections are skipped. */
  lemma HeaderSkipsSections(bytes: seq<byte>, pos: int, h: HeaderRead)
    requires pos >= 0 && ParseHeaderFields(bytes, pos) == Ok(h)
    ensures h.header.flags & MoreSections != MoreSections ==> ParseHeader(bytes, pos) == Ok(h)
    ensures h.header.flags & MoreSections == MoreSections ==>
              h.codeStart + h.header.codeSize >= 0 &&
              ParseHeader(bytes, pos) == match SkipSections(bytes, Align4(h.codeStart + h.header.codeSize))
                                         case Err(e) => Err(e)
                                         case Ok(_) => Ok(h)
  {
    var more := h.header.flags & MoreSections == MoreSections;
    if more {
      assert ParseHeader(bytes, pos) == match SkipSections(bytes, Align4(h.codeStart + h.header.codeSize))
                                        case Err(e) => Err(e)
                                        case Ok(_) => Ok(h);
    }
  }

  /**
   * A stage holding the decoder it runs and the instruction list it fills;
   * the list starts empty and every decoded node is appended to it.
   */
  class DecodingStage {
    const decoder: Decoder
    var instructions: seq<Node>

    ghost predicate Valid()
    {
      Consistent(decoder)
    }

    constructor (decoder: Decoder)
      requires Consistent(decoder)
      ensures Valid() && this.decoder == decoder && instructions == []
    {
      this.decoder := decoder;
      instructions := [];
    }

    /** One section's flag byte and length: where its clauses start and how many there are. */
    method ReadSectionLayout(reader: CodeReader) returns (r: Result<(int, int, bool)>)
      requires reader.Valid()
      modifies reader
      ensures reader.Valid()
      ensures r == SectionLayout(reader.bytes, old(reader.position))
      ensures r.Ok? ==> reader.position == r.value.0
    {
      var flags := reader.ReadByte();
      if flags.Err? {
        return Err(flags.error);
      }
      var isFat := (flags.value as bv8) & SectionFat == SectionFat;
      if isFat {
        var got := reader.ReadAvailable(3);
        r := Ok((reader.position, ClauseCount(Unsigned(got), FatClauseSize), true));
      } else {
        var length := reader.ReadByte();
        if length.Err? {
          return Err(length.error);
        }
        var padding := reader.ReadSignedValue(2);
        if padding.Err? {
          return Err(padding.error);
        }
        r := Ok((reader.position, ClauseCount(length.value, SmallClauseSize), false));
      }
    }

    /**
     * Reads the clauses of a section one by one; it fails at the end of the
     * stream exactly when they do not all fit.
     */
    method SkipClauses(reader: CodeReader, blocks: int, isFat: bool) returns (ok: bool)
      requires reader.Valid() && reader.position <= |reader.bytes|
      modifies reader
      ensures reader.Valid()
      ensures var after := SectionEnd(old(reader.position), blocks, isFat);
        (ok <==> after <= |reader.bytes|) && (ok ==> reader.position == after)
    {
      ghost var clauses := reader.position;
      var size := if isFat then FatClauseSize else SmallClauseSize;
      var i := 0;
      while i < blocks
        invariant reader.Valid() && 0 <= i && (if blocks > 0 then i <= blocks else i == 0)
        invariant reader.position == clauses + i * size <= |reader.bytes|
      {
        var clause := reader.ReadRaw(size);
        if clause.Err? {
          assert clauses + blocks * size >= clauses + (i + 1) * size > |reader.bytes|;
          return false;
        }
        i := i + 1;
      }
      ok := true;
    }

    /**
     * The data-section loop: each section is a flag byte and a length, then
     * its clauses; another section follows while the flag's 0x80 bit is set.
     * Returns the position after the last section.
     */
    method SkipDataSections(reader: CodeReader) returns (r: Result<int>)
      requires reader.Valid()
      modifies reader
      ensures reader.Valid()
      ensures r == SkipSections(reader.bytes, old(reader.position))
      ensures r.Ok? ==> reader.position == r.value
    {
      var pos := reader.position;
      ghost var start := pos;
      while true
        invariant reader.Valid() && reader.position == pos
        invariant SkipSections(reader.bytes, start) == SkipSections(reader.bytes, pos)
        decreases |reader.bytes| - pos
      {
        var layout := ReadSectionLayout(reader);
        if layout.Err? {
          return Err(layout.error);
        }
        var (clauses, blocks, isFat) := layout.value;
        var more := (reader.bytes[pos] as bv8) & SectionMore == SectionMore;
        if more {
          NextSection(reader.bytes, pos);
        } else {
          LastSection(reader.bytes, pos);
        }
        var ok := SkipClauses(reader, blocks, isFat);
        if !ok {
          return Err(EndOfStream);
        }
        if !more {
          return Ok(reader.position);
        }
        pos := reader.position;
      }
    }

    /** The header fields: one byte of a tiny header, or the twelve of a fat one. */
    method ReadHeaderFields(reader: CodeReader) returns (r: Result<HeaderRead>)
      requires reader.Valid()
      modifies reader
      ensures reader.Valid()
      ensures r == ParseHeaderFields(reader.bytes, old(reader.position))
      ensures r.Ok? ==> reader.position == r.value.codeStart
    {
      var b0 := reader.ReadByte();
      if b0.Err? {
        return Err(b0.error);
      }
      if Kind(b0.value as bv8) == TinyFormat {
        var header := EmptyHeader.(flags := (b0.value as bv16) & HeaderMask, codeSize := TinyCodeSize(b0.value as bv8));
        return Ok(HeaderRead(header, reader.position));
      } else if Kind(b0.value as bv8) == FatFormat {
        r := ReadFatFields(reader, b0.value);
      } else {
        return Err(InvalidData);
      }
    }

    /** The rest of a fat header after its first byte b0. */
    method ReadFatFields(reader: CodeReader, b0: byte) returns (r: Result<HeaderRead>)
      requires reader.Valid() && reader.position >= 1
      requires ReadUnsigned(reader.bytes, reader.position - 1, 1) == Ok(b0) && Kind(b0 as bv8) == FatFormat
      modifies reader
      ensures reader.Valid()
      ensures r == ParseHeaderFields(reader.bytes, old(reader.position) - 1)
      ensures r.Ok? ==> reader.position == r.value.codeStart
    {
      ghost var start := reader.position - 1;
      var b1 := reader.ReadByte();
      if b1.Err? {
        return Err(b1.error);
      }
      var flags := FatFlags(b0 as bv8, b1.value as bv8);
      if flags & HeaderSizeMask != ValidHeader {
        return Err(InvalidData);
      }
      var maxStack := reader.ReadUnsignedValue(2);
      if maxStack.Err? {
        return Err(maxStack.error);
      }
      var codeSize := reader.ReadUnsignedValue(4);
      if codeSize.Err? {
        return Err(codeSize.error);
      }
      var locals := reader.ReadUnsignedValue(4);
      if locals.Err? {
        return Err(locals.error);
      }
      assert reader.position == start + FatHeaderSize;
      r := Ok(HeaderRead(MethodHeader(flags, maxStack.value, codeSize.value, locals.value), reader.position));
    }

    /**
     * ReadMethodHeader: the header fields, then, when MoreSections is set, the
     * data sections from the code's end rounded up to four bytes, after which
     * the reader is put back at the start of the code.
     */
    method ReadMethodHeader(reader: CodeReader) returns (r: Result<HeaderRead>)
      requires reader.Valid()
      modifies reader
      ensures reader.Valid()
      ensures r == ParseHeader(reader.bytes, old(reader.position))
      ensures r.Ok? ==> reader.position == r.value.codeStart
    {
      ghost var bytes, start := reader.bytes, reader.position;
      r := ReadHeaderFields(reader);
      if r.Err? {
        return;
      }
      var h := r.value;
      HeaderSkipsSections(bytes, start, h);
      if h.header.flags & MoreSections == MoreSections {
        reader.Seek(Align4(h.codeStart + h.header.codeSize));
        var sections := SkipDataSections(reader);
        if sections.Err? {
          return Err(sections.error);
        }
        reader.Seek(h.codeStart);
      }
    }

    /**
     * Decode: from the reader's position, codeSize bytes of code are walked,
     * each non-prefix instruction appended as one node. A prefix is held until
     * the next node takes it.
     */
    method Decode(reader: CodeReader, codeSize: int) returns (r: Result<seq<Node>>)
      requires Valid() && reader.Valid()
      modifies this, reader
      ensures Valid() && reader.Valid()
      ensures r == Walk(reader.bytes, old(reader.position), old(reader.position) + codeSize, old(reader.position), None, decoder)
      ensures r.Ok? ==> instructions == old(instructions) + r.value && reader.position == old(reader.position) + codeSize
    {
      var codeStart := reader.position;
      var codeEnd := codeStart + codeSize;
      var prefix: Option<PrefixUse> := None;
      var nodes: seq<Node> := [];
      ghost var before := instructions;
      ghost var whole := Walk(reader.bytes, codeStart, codeEnd, codeStart, None, decoder);
      ThenNothing(whole);
      while reader.position != codeEnd
        invariant reader.Valid() && instructions == before + nodes
        invariant Then(nodes, Walk(reader.bytes, reader.position, codeEnd, codeStart, prefix, decoder)) == whole
        decreases |reader.bytes| - reader.position
      {
        var at := reader.position;
        var b := reader.ReadByte();
        if b.Err? {
          return Err(b.error);
        }
        var op := b.value;
        if op == Extop {
          var low := reader.ReadByte();
          if low.Err? {
            return Err(low.error);
          }
          op := 0x100 + low.value;
        }
        var o := OpRead(op, reader.position);
        assert ReadOpCode(reader.bytes, at) == Ok(o);
        var entry := decoder.table(op);
        if entry.None? {
          return Err(KeyNotFound);
        }
        var h := entry.value;
        if IsPrefix(h) {
          if decoder.readsPrefixOperands {
            var d := decoder.operands(reader.bytes, o.next, op, h);
            if d.Err? {
              return Err(d.error);
            }
            reader.Seek(d.value.next);
            prefix := Some(PrefixUse(h, d.value.operand));
          } else {
            prefix := Some(PrefixUse(h, []));
          }
        } else {
          var d := decoder.operands(reader.bytes, o.next, op, h);
          if d.Err? {
            return Err(d.error);
          }
          reader.Seek(d.value.next);
          var node := Node(h, prefix, at - codeStart, d.value.operand, d.value.targets);
          assert Then([node], Walk(reader.bytes, d.value.next, codeEnd, codeStart, None, decoder))
              == Walk(reader.bytes, at, codeEnd, codeStart, prefix, decoder);
          ThenAppend(nodes, [node], Walk(reader.bytes, d.value.next, codeEnd, codeStart, None, decoder));
          instructions := instructions + [node];
          nodes := nodes + [node];
          prefix := None;
        }
      }
      r := Ok(nodes);
      assert nodes + [] == nodes;
    }

    /**
     * Run: a missing compiler is an ArgumentNullException; otherwise the
     * header is read from the start of the code stream and the code is decoded
     * into the instruction list.
     */
    method Run(code: Option<seq<byte>>) returns (r: Result<DecodedMethod>)
      requires Valid()
      modifies this
      ensures Valid()
      ensures r == DecodeMethod(decoder, code)
      ensures r.Ok? ==> instructions == old(instructions) + r.value.nodes
    {
      if code.None? {
        return Err(ArgumentNull);
      }
      var reader := new CodeReader(code.value);
      var header := ReadMethodHeader(reader);
      if header.Err? {
        return Err(header.error);
      }
      var nodes := Decode(reader, header.value.header.codeSize);
      if nodes.Err? {
        return Err(nodes.error);
      }
      r := Ok(DecodedMethod(header.value.header, nodes.value));
    }
  }
}
