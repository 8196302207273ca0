// The instruction stream of a method body as CILDecodingStage.Decode walks it
// (Mosa/Runtime/CompilerFramework/CIL/CILDecodingStage.cs): opcodes with the
// 0xFE escape of section III.1.2.1 of ECMA-335, the handler table, prefixes
// that attach to the next instruction, and one node per instruction.
module CilDecoding {
  import opened Wrappers
  import opened CodeReading
  import opened OpCodes
  import opened OpCodeMap
  import opened BranchInstructions

  /** A prefix waiting for the next instruction, with the operand bytes read for it. */
  datatype PrefixUse = PrefixUse(instruction: Handler, operand: seq<byte>)

  /**
   * One decoded instruction: its handler, the prefix in force, the offset of
   * its own opcode from the start of the code, the operand bytes its handler
   * read, and the branch list a BranchInstruction fills.
   */
  datatype Node = Node(instruction: Handler, prefix: Option<PrefixUse>, offset: int, operand: seq<byte>, targets: seq<int>)

  /** An opcode and the position after it. */
  datatype OpRead = OpRead(op: int, next: int)

  /** One opcode byte, or the 0xFE escape and a second byte b giving 0x100 | b. */
  function ReadOpCode(bytes: seq<byte>, pos: int): (r: Result<OpRead>)
    requires pos >= 0
    ensures r.Ok? ==> pos < r.value.next <= |bytes|
    ensures r.Ok? <==> pos < |bytes| && (bytes[pos] == Extop ==> pos + 1 < |bytes|)
    ensures r.Ok? ==> Encodable(r.value.op) && r.value.next == pos + (if r.value.op < 0x100 then 1 else 2)
  {
    if pos >= |bytes| then Err(EndOfStream)
    else if bytes[pos] != Extop then Ok(OpRead(bytes[pos], pos + 1))
    else if pos + 1 >= |bytes| then Err(EndOfStream)
    else Ok(OpRead(0x100 + bytes[pos + 1] as int, pos + 2))
  }

  /** The bytes of op's operand at pos; a switch's depends on its count. */
  function OperandLength(bytes: seq<byte>, pos: int, op: int): Result<nat>
    requires pos >= 0
  {
    if OperandOf(op).InlineSwitch? then
      match ReadUnsigned(bytes, pos, 4)
      case Err(e) => Err(e)
      case Ok(count) => Ok(4 + 4 * count)
    else Ok(Width(OperandOf(op)))
  }

  /** What a handler's Decode read: the operand bytes, the branch list, and where it stopped. */
  datatype Decoded = Decoded(operand: seq<byte>, targets: seq<int>, next: int)

  /**
   * A handler's Decode after the opcode at pos: BranchInstruction reads its
   * target; every other handler reads its opcode's operand. Nothing can be
   * read from a position outside the stream.
   */
  function DecodeOperand(bytes: seq<byte>, pos: int, op: int, h: Handler): (r: Result<Decoded>)
    ensures r.Ok? ==> 0 <= pos <= r.value.next <= |bytes| && r.value.operand == bytes[pos..r.value.next]
  {
    if pos < 0 || pos > |bytes| then Err(EndOfStream)
    else if h.cls.BranchInstruction? then
      match DecodeBranch(bytes, pos, op)
      case Err(e) => Err(e)
      case Ok(d) => Ok(Decoded(bytes[pos..d.next], d.targets, d.next))
    else
      match OperandLength(bytes, pos, op)
      case Err(e) => Err(e)
      case Ok(n) =>
        match Bytes(bytes, pos, n)
        case Err(e) => Err(e)
        case Ok(raw) => Ok(Decoded(raw, [], pos + n))
  }

  /**
   * What a decoder is made of: the handler table it looks opcodes up in, each
   * handler's Decode of the operand after its opcode, and whether a prefix's
   * handler reads the prefix's operand.
   */
  datatype Decoder = Decoder(table: int -> Option<Handler>,
                             operands: (seq<byte>, int, int, Handler) -> Result<Decoded>,
                             readsPrefixOperands: bool)

  /** The decoder as written: the written table, and prefixes that read nothing. */
  const AsWritten := Decoder(LookupAsWritten, DecodeOperand, false)

  /** The decoder with both defects corrected. */
  const Corrected := Decoder(Lookup, DecodeOperand, true)

  /** A handler's Decode that succeeds stops inside the stream, never before where it started. */
  ghost predicate Consistent(dec: Decoder)
  {
    forall bytes, pos, op, h :: dec.operands(bytes, pos, op, h).Ok? ==>
      pos <= dec.operands(bytes, pos, op, h).value.next <= |bytes|
  }

  /** Both decoders' handlers read so. */
  lemma DecodersConsistent()
    ensures Consistent(AsWritten) && Consistent(Corrected)
  {}

  /**
   * The decoding loop from pos while pos differs from end: read an opcode,
   * look its handler up, and let the handler take its turn. The stream is read
   * past end if an instruction runs over it.
   */
  function Walk(bytes: seq<byte>, pos: int, end: int, codeStart: int, prefix: Option<PrefixUse>, dec: Decoder)
    : Result<seq<Node>>
    requires pos >= 0 && Consistent(dec)
    decreases |bytes| - pos, 1
  {
    if pos == end then Ok([])
    else
      match ReadOpCode(bytes, pos)
      case Err(e) => Err(e)
      case Ok(o) =>
        match dec.table(o.op)
        case None => Err(KeyNotFound)
        case Some(h) => Handle(bytes, pos, end, codeStart, prefix, dec, o, h)
  }

  /**
   * The turn of handler h for the opcode read at pos: a prefix becomes the
   * pending prefix and emits nothing; any other opcode emits one node that
   * takes the pending prefix, which is then cleared.
   */
  function Handle(bytes: seq<byte>, pos: int, end: int, codeStart: int, prefix: Option<PrefixUse>, dec: Decoder,
                  o: OpRead, h: Handler): Result<seq<Node>>
    requires 0 <= pos < o.next <= |bytes| && Consistent(dec)
    decreases |bytes| - pos, 0
  {
    if IsPrefix(h) then
      if !dec.readsPrefixOperands then
        Walk(bytes, o.next, end, codeStart, Some(PrefixUse(h, [])), dec)
      else
        match dec.operands(bytes, o.next, o.op, h)
        case Err(e) => Err(e)
        case Ok(d) => Walk(bytes, d.next, end, codeStart, Some(PrefixUse(h, d.operand)), dec)
    else
      match dec.operands(bytes, o.next, o.op, h)
      case Err(e) => Err(e)
      case Ok(d) =>
        match Walk(bytes, d.next, end, codeStart, None, dec)
        case Err(e) => Err(e)
        case Ok(rest) => Ok([Node(h, prefix, pos - codeStart, d.operand, d.targets)] + rest)
  }

  /** Whether a pending prefix is a prefix handler. */
  predicate PrefixPending(prefix: Option<PrefixUse>)
  {
    prefix.Some? ==> IsPrefix(prefix.value.instruction)
  }

  /**
   * A walk that succeeds stopped exactly at end, so one that starts past end
   * fails. Its nodes are never prefixes, carry only prefix handlers as their
   * prefix, and have strictly increasing offsets inside the code.
   */
  lemma {:induction false} WalkNodes(bytes: seq<byte>, pos: int, end: int, codeStart: int, prefix: Option<PrefixUse>, dec: Decoder)
    requires pos >= 0 && Consistent(dec) && PrefixPending(prefix)
    requires Walk(bytes, pos, end, codeStart, prefix, dec).Ok?
    ensures pos <= end
    ensures var ns := Walk(bytes, pos, end, codeStart, prefix, dec).value;
      (forall i :: 0 <= i < |ns| ==> pos - codeStart <= ns[i].offset < end - codeStart) &&
      (forall i, j :: 0 <= i < j < |ns| ==> ns[i].offset < ns[j].offset) &&
      (forall i :: 0 <= i < |ns| ==> !IsPrefix(ns[i].instruction) && PrefixPending(ns[i].prefix))
    decreases |bytes| - pos
  {
    if pos != end {
      var o := ReadOpCode(bytes, pos).value;
      var h := dec.table(o.op).value;
      if IsPrefix(h) {
        if !dec.readsPrefixOperands {
          WalkNodes(bytes, o.next, end, codeStart, Some(PrefixUse(h, [])), dec);
        } else {
          var d := dec.operands(bytes, o.next, o.op, h).value;
          WalkNodes(bytes, d.next, end, codeStart, Some(PrefixUse(h, d.operand)), dec);
        }
      } else {
        var d := dec.operands(bytes, o.next, o.op, h).value;
        WalkNodes(bytes, d.next, end, codeStart, None, dec);
      }
    }
  }

  /** A walk that starts past the end of the code runs on until it fails. */
  lemma Overrun(bytes: seq<byte>, pos: int, end: int, codeStart: int, dec: Decoder)
    requires pos >= 0 && pos > end && Consistent(dec)
    ensures Walk(bytes, pos, end, codeStart, None, dec).Err?
  {
    if Walk(bytes, pos, end, codeStart, None, dec).Ok? {
      WalkNodes(bytes, pos, end, codeStart, None, dec);
    }
  }

  /** At a prefix opcode the prefix pending before it no longer matters: the latest prefix wins. */
  lemma LatestPrefixWins(bytes: seq<byte>, pos: int, end: int, codeStart: int, p1: Option<PrefixUse>, p2: Option<PrefixUse>, dec: Decoder)
    requires pos >= 0 && pos != end && Consistent(dec)
    requires ReadOpCode(bytes, pos).Ok? && dec.table(ReadOpCode(bytes, pos).value.op).Some?
    requires IsPrefix(dec.table(ReadOpCode(bytes, pos).value.op).value)
    ensures Walk(bytes, pos, end, codeStart, p1, dec) == Walk(bytes, pos, end, codeStart, p2, dec)
  {}

  /** A walk's result with the nodes of the earlier steps in front. */
  function Then(acc: seq<Node>, r: Result<seq<Node>>): Result<seq<Node>>
  {
    match r
    case Err(e) => Err(e)
    case Ok(ns) => Ok(acc + ns)
  }

  /** One non-prefix instruction: its node, then the walk after its operand with no prefix pending. */
  lemma WalkInstruction(bytes: seq<byte>, pos: int, end: int, codeStart: int, prefix: Option<PrefixUse>, dec: Decoder,
                        o: OpRead, h: Handler, d: Decoded)
    requires pos >= 0 && pos != end && Consistent(dec)
    requires ReadOpCode(bytes, pos) == Ok(o) && dec.table(o.op) == Some(h) && !IsPrefix(h)
    requires dec.operands(bytes, o.next, o.op, h) == Ok(d)
    ensures Walk(bytes, pos, end, codeStart, prefix, dec)
         == Then([Node(h, prefix, pos - codeStart, d.operand, d.targets)], Walk(bytes, d.next, end, codeStart, None, dec))
  {}

  /** One prefix, as written: it becomes the pending prefix with no operand read. */
  lemma WalkPrefixSkipped(bytes: seq<byte>, pos: int, end: int, codeStart: int, prefix: Option<PrefixUse>, dec: Decoder,
                          o: OpRead, h: Handler)
    requires pos >= 0 && pos != end && Consistent(dec) && !dec.readsPrefixOperands
    requires ReadOpCode(bytes, pos) == Ok(o) && dec.table(o.op) == Some(h) && IsPrefix(h)
    ensures Walk(bytes, pos, end, codeStart, prefix, dec)
         == Walk(bytes, o.next, end, codeStart, Some(PrefixUse(h, [])), dec)
  {}

  /** One prefix, corrected: its operand is read and kept with it. */
  lemma WalkPrefixRead(bytes: seq<byte>, pos: int, end: int, codeStart: int, prefix: Option<PrefixUse>, dec: Decoder,
                       o: OpRead, h: Handler, d: Decoded)
    requires pos >= 0 && pos != end && Consistent(dec) && dec.readsPrefixOperands
    requires ReadOpCode(bytes, pos) == Ok(o) && dec.table(o.op) == Some(h) && IsPrefix(h)
    requires dec.operands(bytes, o.next, o.op, h) == Ok(d)
    ensures Walk(bytes, pos, end, codeStart, prefix, dec)
         == Walk(bytes, d.next, end, codeStart, Some(PrefixUse(h, d.operand)), dec)
  {}

  /** The four bytes of unaligned. 4 and ldind.i4. */
  const UnalignedLoad: seq<byte> := [0xFE, 0x12, 0x04, 0x4A]

  const UnalignedHandler := Handler(UnalignedPrefixInstruction, PreUnaligned)
  const LoadI4Handler := Handler(LdobjInstruction, Ldind_i4)

  lemma UnalignedLoadSteps(bytes: seq<byte>)
    requires bytes == UnalignedLoad
    ensures ReadOpCode(bytes, 0) == Ok(OpRead(PreUnaligned, 2))
    ensures ReadOpCode(bytes, 2) == Ok(OpRead(Ldarg_2, 3))
    ensures ReadOpCode(bytes, 3) == Ok(OpRead(Ldind_i4, 4))
    ensures Lookup(PreUnaligned) == LookupAsWritten(PreUnaligned) == Some(UnalignedHandler)
    ensures LookupAsWritten(Ldarg_2) == Some(Handler(LdargInstruction, Ldarg_2))
    ensures Lookup(Ldind_i4) == LookupAsWritten(Ldind_i4) == Some(LoadI4Handler)
  {}

  /** The walk over unaligned. 4, ldind.i4 by any decoder that skips prefix operands and has the three handlers. */
  lemma SkippingWalk(bytes: seq<byte>, dec: Decoder)
    requires bytes == UnalignedLoad && Consistent(dec) && !dec.readsPrefixOperands
    requires ReadOpCode(bytes, 0) == Ok(OpRead(PreUnaligned, 2))
    requires ReadOpCode(bytes, 2) == Ok(OpRead(Ldarg_2, 3))
    requires ReadOpCode(bytes, 3) == Ok(OpRead(Ldind_i4, 4))
    requires dec.table(PreUnaligned) == Some(UnalignedHandler)
    requires dec.table(Ldarg_2) == Some(Handler(LdargInstruction, Ldarg_2))
    requires dec.table(Ldind_i4) == Some(LoadI4Handler)
    requires dec.operands(bytes, 3, Ldarg_2, Handler(LdargInstruction, Ldarg_2)) == Ok(Decoded([], [], 3))
    requires dec.operands(bytes, 4, Ldind_i4, LoadI4Handler) == Ok(Decoded([], [], 4))
    ensures Walk(bytes, 0, 4, 0, None, dec)
         == Ok([Node(Handler(LdargInstruction, Ldarg_2), Some(PrefixUse(UnalignedHandler, [])), 2, [], []),
                Node(LoadI4Handler, None, 3, [], [])])
  {
    var pending := Some(PrefixUse(UnalignedHandler, []));
    var ldarg := Handler(LdargInstruction, Ldarg_2);
    var first := Node(ldarg, pending, 2, [], []);
    var last := Node(LoadI4Handler, None, 3, [], []);
    assert Walk(bytes, 4, 4, 0, None, dec) == Ok([]);
    WalkInstruction(bytes, 3, 4, 0, None, dec, OpRead(Ldind_i4, 4), LoadI4Handler, Decoded([], [], 4));
    assert [last] + [] == [last];
    WalkInstruction(bytes, 2, 4, 0, pending, dec, OpRead(Ldarg_2, 3), ldarg, Decoded([], [], 3));
    assert [first] + [last] == [first, last];
    WalkPrefixSkipped(bytes, 0, 4, 0, None, dec, OpRead(PreUnaligned, 2), UnalignedHandler);
  }

  /**
   * unaligned. 4 followed by ldind.i4: the decoder as written never reads the
   * alignment byte and decodes it as ldarg.2, which takes the prefix.
   */
  lemma PrefixOperandMisread(bytes: seq<byte>)
    requires bytes == UnalignedLoad
    ensures Walk(bytes, 0, 4, 0, None, AsWritten)
         == Ok([Node(Handler(LdargInstruction, Ldarg_2), Some(PrefixUse(UnalignedHandler, [])), 2, [], []),
                Node(LoadI4Handler, None, 3, [], [])])
  {
    DecodersConsistent();
    UnalignedLoadSteps(bytes);
    UnalignedLoadOperands(bytes);
    SkippingWalk(bytes, AsWritten);
  }

  /** Neither ldarg.2 nor ldind.i4 has operand bytes to read. */
  lemma UnalignedLoadOperands(bytes: seq<byte>)
    requires bytes == UnalignedLoad
    ensures DecodeOperand(bytes, 4, Ldind_i4, LoadI4Handler) == Ok(Decoded([], [], 4))
    ensures DecodeOperand(bytes, 3, Ldarg_2, Handler(LdargInstruction, Ldarg_2)) == Ok(Decoded([], [], 3))
  {
  }

  /** The corrected decoder reads the alignment byte and yields the single prefixed load. */
  lemma PrefixOperandRead(bytes: seq<byte>)
    requires bytes == UnalignedLoad
    ensures Walk(bytes, 0, 4, 0, None, Corrected)
         == Ok([Node(LoadI4Handler, Some(PrefixUse(UnalignedHandler, [0x04])), 3, [], [])])
  {
    DecodersConsistent();
    UnalignedLoadSteps(bytes);
    var pending := Some(PrefixUse(UnalignedHandler, [0x04]));
    var last := Node(LoadI4Handler, pending, 3, [], []);
    assert Walk(bytes, 4, 4, 0, None, Corrected) == Ok([]);
    assert DecodeOperand(bytes, 4, Ldind_i4, LoadI4Handler) == Ok(Decoded([], [], 4));
    WalkInstruction(bytes, 3, 4, 0, pending, Corrected, OpRead(Ldind_i4, 4), LoadI4Handler, Decoded([], [], 4));
    assert [last] + [] == [last];
    assert OperandLength(bytes, 2, PreUnaligned) == Ok(1);
    assert bytes[2..3] == [0x04];
    assert DecodeOperand(bytes, 2, PreUnaligned, UnalignedHandler) == Ok(Decoded([0x04], [], 3));
    WalkPrefixRead(bytes, 0, 4, 0, None, Corrected, OpRead(PreUnaligned, 2), UnalignedHandler, Decoded([0x04], [], 3));
  }

  /** An opcode and the operand bytes that follow it. */
  datatype Coded = Coded(op: int, operand: seq<byte>)

  /** One instruction of a code stream: an optional prefix, then the instruction proper. */
  datatype Instr = Instr(prefix: Option<Coded>, body: Coded)

  /**
   * An opcode that can stand in a code stream: a one-byte opcode other than
   * the escape, or an escaped two-byte one.
   */
  predicate Encodable(op: int)
  {
    (0 <= op < 0x100 && op != Extop) || 0x100 <= op < 0x200
  }

  /**
   * A table entry whose key is encodable and which gives BranchInstruction
   * only to br and br.s.
   */
  predicate Keyed(dec: Decoder, op: int)
  {
    dec.table(op).Some? ==>
      Encodable(op) && (dec.table(op).value.cls.BranchInstruction? ==> op == Br || op == Br_s)
  }

  /** Every entry of both tables is keyed so. */
  lemma TablesKeyed(op: int)
    ensures Keyed(AsWritten, op) && Keyed(Corrected, op)
  {
    if op != Ldind_u1 {
      LookupAgrees(op);
    }
    if Lookup(op).Some? {
      HandlerKeys(op);
    }
    BranchHandlers(op);
  }

  /** The bytes of an opcode: itself, or the 0xFE escape and its low byte. */
  function OpBytes(op: int): (bs: seq<byte>)
    requires Encodable(op)
    ensures |bs| == if op < 0x100 then 1 else 2
  {
    if op < 0x100 then [op] else [Extop, op - 0x100]
  }

  /** The operand has the length its opcode's operand type gives it. */
  predicate OperandFits(op: int, operand: seq<byte>)
  {
    if OperandOf(op).InlineSwitch? then 4 <= |operand| && |operand| == 4 + 4 * Unsigned(operand[..4])
    else |operand| == Width(OperandOf(op))
  }

  /** An opcode the table knows, keyed as it should be, with an operand that fits it. */
  ghost predicate Fits(dec: Decoder, c: Coded)
  {
    dec.table(c.op).Some? && Keyed(dec, c.op) && OperandFits(c.op, c.operand)
  }

  /**
   * A fitting opcode, a prefix or not as asked; a decoder that skips prefix
   * operands is only given prefixes without one.
   */
  ghost predicate WellCoded(dec: Decoder, c: Coded, prefix: bool)
  {
    Fits(dec, c) && IsPrefix(dec.table(c.op).value) == prefix &&
    (prefix && !dec.readsPrefixOperands ==> c.operand == [])
  }

  ghost predicate WellFormed(dec: Decoder, i: Instr)
  {
    (i.prefix.Some? ==> WellCoded(dec, i.prefix.value, true)) && WellCoded(dec, i.body, false)
  }

  ghost predicate AllWellFormed(dec: Decoder, instrs: seq<Instr>)
    decreases |instrs|
  {
    instrs != [] ==> WellFormed(dec, instrs[0]) && AllWellFormed(dec, instrs[1..])
  }

  ghost function CodedBytes(dec: Decoder, c: Coded): (bs: seq<byte>)
    requires dec.table(c.op).Some? && Encodable(c.op)
    ensures |bs| > 0
  {
    OpBytes(c.op) + c.operand
  }

  ghost function PrefixBytes(dec: Decoder, i: Instr): seq<byte>
    requires WellFormed(dec, i)
  {
    if i.prefix.Some? then CodedBytes(dec, i.prefix.value) else []
  }

  ghost function InstrBytes(dec: Decoder, i: Instr): (bs: seq<byte>)
    requires WellFormed(dec, i)
    ensures |bs| > 0
  {
    PrefixBytes(dec, i) + CodedBytes(dec, i.body)
  }

  /** The code stream of a sequence of instructions. */
  ghost function Assemble(dec: Decoder, instrs: seq<Instr>): seq<byte>
    requires AllWellFormed(dec, instrs)
  {
    if instrs == [] then [] else InstrBytes(dec, instrs[0]) + Assemble(dec, instrs[1..])
  }

  /** The branch list a handler fills: br and br.s hold their raw displacement. */
  ghost function Targets(dec: Decoder, c: Coded): seq<int>
    requires dec.table(c.op).Some?
  {
    if dec.table(c.op).value.cls.BranchInstruction? then [Signed(Unsigned(c.operand), |c.operand|)] else []
  }

  /** The node for one well-formed instruction starting at pos. */
  ghost function NodeOf(dec: Decoder, i: Instr, pos: int, codeStart: int): Node
    requires WellFormed(dec, i)
  {
    var prefix := if i.prefix.Some? then Some(PrefixUse(dec.table(i.prefix.value.op).value, i.prefix.value.operand)) else None;
    Node(dec.table(i.body.op).value, prefix, pos + |PrefixBytes(dec, i)| - codeStart, i.body.operand, Targets(dec, i.body))
  }

  /**
   * The nodes a code stream of the given instructions should decode to, the
   * first instruction starting at pos: one per instruction, at the offset of
   * its own opcode, with its prefix and operand.
   */
  ghost function Expected(dec: Decoder, instrs: seq<Instr>, pos: int, codeStart: int): seq<Node>
    requires AllWellFormed(dec, instrs)
  {
    if instrs == [] then []
    else [NodeOf(dec, instrs[0], pos, codeStart)] + Expected(dec, instrs[1..], pos + |InstrBytes(dec, instrs[0])|, codeStart)
  }

  /** The stream holds s at position at, byte by byte. */
  ghost predicate Spelled(bytes: seq<byte>, at: int, s: seq<byte>)
    decreases |s|, 1
  {
    0 <= at && at + |s| <= |bytes| && (s == [] || SpelledFrom(bytes, at, s))
  }

  /** The first byte of a non-empty s is at position at, and the rest follows it. */
  ghost predicate SpelledFrom(bytes: seq<byte>, at: int, s: seq<byte>)
    requires 0 <= at && at + |s| <= |bytes| && s != []
    decreases |s|, 0
  {
    bytes[at] == s[0] && Spelled(bytes, at + 1, s[1..])
  }

  /** Spelling s at position at is the slice of the stream there being s. */
  lemma {:induction false} SpelledSlice(bytes: seq<byte>, at: int, s: seq<byte>)
    ensures Spelled(bytes, at, s) <==> 0 <= at && at + |s| <= |bytes| && bytes[at..at + |s|] == s
    decreases |s|
  {
    if s != [] && 0 <= at && at + |s| <= |bytes| {
      SpelledSlice(bytes, at + 1, s[1..]);
      assert bytes[at..at + |s|] == [bytes[at]] + bytes[at + 1..at + |s|];
      if bytes[at..at + |s|] == s {
        assert bytes[at] == s[0] && bytes[at + 1..at + |s|] == s[1..];
      }
    }
  }

  /** The two halves of a stream that spells a + b spell a and b. */
  lemma {:induction false} SliceSplit(bytes: seq<byte>, pos: int, a: seq<byte>, b: seq<byte>)
    requires Spelled(bytes, pos, a + b)
    ensures Spelled(bytes, pos, a) && Spelled(bytes, pos + |a|, b)
    decreases |a|
  {
    if a == [] {
      assert a + b == b;
    } else {
      assert (a + b)[0] == a[0] && (a + b)[1..] == a[1..] + b;
      SliceSplit(bytes, pos + 1, a[1..], b);
    }
  }

  /** Every handler reads back any operand that fits its opcode, and br and br.s their displacement. */
  ghost predicate ReadsBack(dec: Decoder)
  {
    forall bytes, at, c :: Fits(dec, c) && Spelled(bytes, at, c.operand) ==>
      dec.operands(bytes, at, c.op, dec.table(c.op).value) == Ok(Decoded(c.operand, Targets(dec, c), at + |c.operand|))
  }

  /** Reading an encoded opcode gives it back. */
  lemma OpCodeStep(bytes: seq<byte>, pos: int, op: int)
    requires Encodable(op) && Spelled(bytes, pos, OpBytes(op))
    ensures ReadOpCode(bytes, pos) == Ok(OpRead(op, pos + |OpBytes(op)|))
  {
    SpelledSlice(bytes, pos, OpBytes(op));
    assert bytes[pos] == OpBytes(op)[0];
    if op >= 0x100 {
      assert bytes[pos + 1] == OpBytes(op)[1];
    }
  }

  /** A handler other than BranchInstruction reads back an operand that fits its opcode. */
  lemma RawOperandStep(bytes: seq<byte>, at: int, op: int, operand: seq<byte>, h: Handler)
    requires !h.cls.BranchInstruction? && OperandFits(op, operand) && Spelled(bytes, at, operand)
    ensures DecodeOperand(bytes, at, op, h) == Ok(Decoded(operand, [], at + |operand|))
  {
    SpelledSlice(bytes, at, operand);
    if OperandOf(op).InlineSwitch? {
      assert bytes[at..at + 4] == operand[..4];
      assert ReadUnsigned(bytes, at, 4) == Ok(Unsigned(operand[..4]));
    }
  }

  /** BranchInstruction reads back the displacement of br or br.s. */
  lemma BranchOperandStep(bytes: seq<byte>, at: int, op: int, operand: seq<byte>, h: Handler)
    requires h.cls.BranchInstruction? && (op == Br || op == Br_s) && OperandFits(op, operand)
    requires Spelled(bytes, at, operand)
    ensures DecodeOperand(bytes, at, op, h) == Ok(Decoded(operand, [Signed(Unsigned(operand), |operand|)], at + |operand|))
  {
    SpelledSlice(bytes, at, operand);
    assert ReadUnsigned(bytes, at, |operand|) == Ok(Unsigned(operand));
  }

  /** The handlers of both decoders read back what was written. */
  lemma DecodersReadBack()
    ensures ReadsBack(AsWritten) && ReadsBack(Corrected)
  {
    forall bytes, at, c, dec | (dec == AsWritten || dec == Corrected) && Fits(dec, c) && Spelled(bytes, at, c.operand)
      ensures dec.operands(bytes, at, c.op, dec.table(c.op).value) == Ok(Decoded(c.operand, Targets(dec, c), at + |c.operand|))
    {
      var h := dec.table(c.op).value;
      if h.cls.BranchInstruction? {
        BranchOperandStep(bytes, at, c.op, c.operand, h);
      } else {
        RawOperandStep(bytes, at, c.op, c.operand, h);
      }
    }
  }

  /** Reading one encoded opcode and its operand gives them back. */
  lemma CodedStep(bytes: seq<byte>, pos: int, dec: Decoder, c: Coded)
    requires Fits(dec, c) && ReadsBack(dec) && Spelled(bytes, pos, CodedBytes(dec, c))
    ensures ReadOpCode(bytes, pos) == Ok(OpRead(c.op, pos + |OpBytes(c.op)|))
    ensures dec.operands(bytes, pos + |OpBytes(c.op)|, c.op, dec.table(c.op).value)
         == Ok(Decoded(c.operand, Targets(dec, c), pos + |CodedBytes(dec, c)|))
  {
    SliceSplit(bytes, pos, OpBytes(c.op), c.operand);
    OpCodeStep(bytes, pos, c.op);
  }

  /** One encoded instruction without its prefix is one step of the walk. */
  lemma BodyStep(bytes: seq<byte>, at: int, end: int, codeStart: int, prefix: Option<PrefixUse>, dec: Decoder, c: Coded)
    requires Consistent(dec) && ReadsBack(dec) && WellCoded(dec, c, false)
    requires Spelled(bytes, at, CodedBytes(dec, c)) && end >= at + |CodedBytes(dec, c)|
    ensures Walk(bytes, at, end, codeStart, prefix, dec)
         == Then([Node(dec.table(c.op).value, prefix, at - codeStart, c.operand, Targets(dec, c))],
                 Walk(bytes, at + |CodedBytes(dec, c)|, end, codeStart, None, dec))
  {
    var h := dec.table(c.op).value;
    var o := OpRead(c.op, at + |OpBytes(c.op)|);
    var d := Decoded(c.operand, Targets(dec, c), at + |CodedBytes(dec, c)|);
    CodedStep(bytes, at, dec, c);
    WalkInstruction(bytes, at, end, codeStart, prefix, dec, o, h, d);
  }

  /** An encoded prefix is one step of the walk that leaves it pending. */
  lemma PrefixStep(bytes: seq<byte>, pos: int, end: int, codeStart: int, dec: Decoder, c: Coded)
    requires Consistent(dec) && ReadsBack(dec) && WellCoded(dec, c, true)
    requires Spelled(bytes, pos, CodedBytes(dec, c)) && end > pos + |CodedBytes(dec, c)|
    ensures Walk(bytes, pos, end, codeStart, None, dec)
         == Walk(bytes, pos + |CodedBytes(dec, c)|, end, codeStart, Some(PrefixUse(dec.table(c.op).value, c.operand)), dec)
  {
    var h := dec.table(c.op).value;
    var o := OpRead(c.op, pos + |OpBytes(c.op)|);
    var d := Decoded(c.operand, Targets(dec, c), pos + |CodedBytes(dec, c)|);
    CodedStep(bytes, pos, dec, c);
    if dec.readsPrefixOperands {
      WalkPrefixRead(bytes, pos, end, codeStart, None, dec, o, h, d);
    } else {
      WalkPrefixSkipped(bytes, pos, end, codeStart, None, dec, o, h);
    }
  }

  /** The bytes and the node of an instruction with a prefix. */
  lemma PrefixedParts(dec: Decoder, i: Instr, pos: int, codeStart: int)
    requires WellFormed(dec, i) && i.prefix.Some?
    ensures InstrBytes(dec, i) == CodedBytes(dec, i.prefix.value) + CodedBytes(dec, i.body)
    ensures NodeOf(dec, i, pos, codeStart)
         == Node(dec.table(i.body.op).value, Some(PrefixUse(dec.table(i.prefix.value.op).value, i.prefix.value.operand)),
                 pos + |CodedBytes(dec, i.prefix.value)| - codeStart, i.body.operand, Targets(dec, i.body))
  {}

  /** An encoded instruction behind a prefix is two steps of the walk that emit its node. */
  lemma PrefixedStep(bytes: seq<byte>, pos: int, end: int, codeStart: int, dec: Decoder, i: Instr)
    requires Consistent(dec) && ReadsBack(dec) && WellFormed(dec, i) && i.prefix.Some?
    requires Spelled(bytes, pos, InstrBytes(dec, i)) && end >= pos + |InstrBytes(dec, i)|
    ensures Walk(bytes, pos, end, codeStart, None, dec)
         == Then([NodeOf(dec, i, pos, codeStart)], Walk(bytes, pos + |InstrBytes(dec, i)|, end, codeStart, None, dec))
  {
    var p := i.prefix.value;
    PrefixedParts(dec, i, pos, codeStart);
    SliceSplit(bytes, pos, CodedBytes(dec, p), CodedBytes(dec, i.body));
    PrefixStep(bytes, pos, end, codeStart, dec, p);
    BodyStep(bytes, pos + |CodedBytes(dec, p)|, end, codeStart, Some(PrefixUse(dec.table(p.op).value, p.operand)), dec, i.body);
  }

  /** An encoded instruction without a prefix is one step of the walk that emits its node. */
  lemma BareStep(bytes: seq<byte>, pos: int, end: int, codeStart: int, dec: Decoder, i: Instr)
    requires Consistent(dec) && ReadsBack(dec) && WellFormed(dec, i) && i.prefix.None?
    requires Spelled(bytes, pos, InstrBytes(dec, i)) && end >= pos + |InstrBytes(dec, i)|
    ensures Walk(bytes, pos, end, codeStart, None, dec)
         == Then([NodeOf(dec, i, pos, codeStart)], Walk(bytes, pos + |InstrBytes(dec, i)|, end, codeStart, None, dec))
  {
    var c := i.body;
    assert PrefixBytes(dec, i) == [];
    assert InstrBytes(dec, i) == CodedBytes(dec, c);
    assert NodeOf(dec, i, pos, codeStart) == Node(dec.table(c.op).value, None, pos - codeStart, c.operand, Targets(dec, c));
    BodyStep(bytes, pos, end, codeStart, None, dec, c);
  }

  /** One encoded instruction, prefix included, is one step of the walk. */
  lemma InstrStep(bytes: seq<byte>, pos: int, end: int, codeStart: int, dec: Decoder, i: Instr)
    requires Consistent(dec) && ReadsBack(dec) && WellFormed(dec, i)
    requires Spelled(bytes, pos, InstrBytes(dec, i)) && end >= pos + |InstrBytes(dec, i)|
    ensures Walk(bytes, pos, end, codeStart, None, dec)
         == Then([NodeOf(dec, i, pos, codeStart)], Walk(bytes, pos + |InstrBytes(dec, i)|, end, codeStart, None, dec))
  {
    if i.prefix.Some? {
      PrefixedStep(bytes, pos, end, codeStart, dec, i);
    } else {
      BareStep(bytes, pos, end, codeStart, dec, i);
    }
  }

  /** After the bytes of the first instruction the stream spells the assembly of the rest. */
  lemma AssembledRest(bytes: seq<byte>, pos: int, dec: Decoder, instrs: seq<Instr>)
    requires instrs != [] && AllWellFormed(dec, instrs) && AllWellFormed(dec, instrs[1..])
    requires Spelled(bytes, pos, Assemble(dec, instrs))
    ensures Spelled(bytes, pos + |InstrBytes(dec, instrs[0])|, Assemble(dec, instrs[1..]))
    ensures |Assemble(dec, instrs)| == |InstrBytes(dec, instrs[0])| + |Assemble(dec, instrs[1..])|
  {
    SliceSplit(bytes, pos, InstrBytes(dec, instrs[0]), Assemble(dec, instrs[1..]));
  }

  /** The first instruction of an assembled stream is one step of the walk. */
  lemma AssembledFirst(bytes: seq<byte>, pos: int, end: int, codeStart: int, dec: Decoder, instrs: seq<Instr>)
    requires Consistent(dec) && ReadsBack(dec) && instrs != [] && AllWellFormed(dec, instrs) && AllWellFormed(dec, instrs[1..])
    requires Spelled(bytes, pos, Assemble(dec, instrs)) && end == pos + |Assemble(dec, instrs)|
    ensures Walk(bytes, pos, end, codeStart, None, dec)
         == Then([NodeOf(dec, instrs[0], pos, codeStart)], Walk(bytes, pos + |InstrBytes(dec, instrs[0])|, end, codeStart, None, dec))
  {
    SliceSplit(bytes, pos, InstrBytes(dec, instrs[0]), Assemble(dec, instrs[1..]));
    InstrStep(bytes, pos, end, codeStart, dec, instrs[0]);
  }

  /** The expected nodes of a non-empty sequence: the first instruction's, then the rest's after its bytes. */
  lemma ExpectedSplit(dec: Decoder, instrs: seq<Instr>, pos: int, codeStart: int)
    requires instrs != [] && AllWellFormed(dec, instrs) && AllWellFormed(dec, instrs[1..])
    ensures Expected(dec, instrs, pos, codeStart)
         == [NodeOf(dec, instrs[0], pos, codeStart)] + Expected(dec, instrs[1..], pos + |InstrBytes(dec, instrs[0])|, codeStart)
  {}

  /**
   * Decoding inverts assembly: a code stream built from well-formed
   * instructions decodes to one node per instruction, each at its own opcode's
   * offset, carrying its prefix and operand, and the walk stops at the end.
   */
  lemma {:induction false} DecodeAssembled(bytes: seq<byte>, pos: int, end: int, codeStart: int, dec: Decoder,
                                           instrs: seq<Instr>)
    requires Consistent(dec) && ReadsBack(dec) && AllWellFormed(dec, instrs)
    requires Spelled(bytes, pos, Assemble(dec, instrs)) && end == pos + |Assemble(dec, instrs)|
    ensures Walk(bytes, pos, end, codeStart, None, dec) == Ok(Expected(dec, instrs, pos, codeStart))
    decreases |instrs|
  {
    if instrs != [] {
      AssembledRest(bytes, pos, dec, instrs);
      AssembledFirst(bytes, pos, end, codeStart, dec, instrs);
      DecodeAssembled(bytes, pos + |InstrBytes(dec, instrs[0])|, end, codeStart, dec, instrs[1..]);
      AssembledCombine(bytes, pos, end, codeStart, dec, instrs);
    }
  }

  /** The first instruction's step followed by the rest decoded as expected is the whole decoded as expected. */
  lemma AssembledCombine(bytes: seq<byte>, pos: int, end: int, codeStart: int, dec: Decoder, instrs: seq<Instr>)
    requires pos >= 0 && Consistent(dec) && instrs != [] && AllWellFormed(dec, instrs) && AllWellFormed(dec, instrs[1..])
    requires pos + |InstrBytes(dec, instrs[0])| >= 0
    requires Walk(bytes, pos, end, codeStart, None, dec)
          == Then([NodeOf(dec, instrs[0], pos, codeStart)], Walk(bytes, pos + |InstrBytes(dec, instrs[0])|, end, codeStart, None, dec))
    requires Walk(bytes, pos + |InstrBytes(dec, instrs[0])|, end, codeStart, None, dec)
          == Ok(Expected(dec, instrs[1..], pos + |InstrBytes(dec, instrs[0])|, codeStart))
    ensures Walk(bytes, pos, end, codeStart, None, dec) == Ok(Expected(dec, instrs, pos, codeStart))
  {
    ExpectedSplit(dec, instrs, pos, codeStart);
    ThenOk(Walk(bytes, pos, end, codeStart, None, dec), Walk(bytes, pos + |InstrBytes(dec, instrs[0])|, end, codeStart, None, dec),
           NodeOf(dec, instrs[0], pos, codeStart), Expected(dec, instrs[1..], pos + |InstrBytes(dec, instrs[0])|, codeStart),
           Expected(dec, instrs, pos, codeStart));
  }

  /** A walk that is one node followed by a successful rest is the node and the rest's nodes. */
  lemma ThenOk(whole: Result<seq<Node>>, tail: Result<seq<Node>>, node: Node, rest: seq<Node>, all: seq<Node>)
    requires whole == Then([node], tail) && tail == Ok(rest) && all == [node] + rest
    ensures whole == Ok(all)
  {
  }
}
