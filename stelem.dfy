// The stelem family of CIL instructions
// (Mosa/Runtime/CompilerFramework/IL/StelemInstruction.cs): the constructor
// picks the stored element type from the opcode, and Decode reads a type
// token only when no element type was picked.
module StelemInstructions {
  import opened Wrappers
  import opened CodeReading
  import opened OpCodes
  import opened SigTypes

  /** An stelem instruction: its opcode, its operand count and the element type it stores. */
  datatype Stelem = Stelem(code: int, operandCount: nat, typeRef: Option<SigType>)

  /**
   * The element type each typed stelem opcode stores: exactly the opcodes
   * stelem.i through stelem.ref have one.
   */
  function ElementOf(code: int): (r: Option<CilElementType>)
    ensures r.Some? <==> Stelem_i <= code <= Stelem_ref
  {
    if code == Stelem_i1 then Some(I1)
    else if code == Stelem_i2 then Some(I2)
    else if code == Stelem_i4 then Some(I4)
    else if code == Stelem_i8 then Some(I8)
    else if code == Stelem_i then Some(I)
    else if code == Stelem_r4 then Some(R4)
    else if code == Stelem_r8 then Some(R8)
    else if code == Stelem_ref then Some(Object)
    else None
  }

  /**
   * The constructor: three operands and the element type of the opcode; any
   * other opcode, the generic stelem among them, is not implemented.
   */
  function NewStelem(code: int): (r: Result<Stelem>)
    ensures r.Ok? <==> Stelem_i <= code <= Stelem_ref
    ensures r.Ok? ==> r.value.code == code && r.value.operandCount == 3 && r.value.typeRef.Some?
    ensures r.Err? ==> r.error == NotImplemented
  {
    match ElementOf(code)
    case None => Err(NotImplemented)
    case Some(e) => Ok(Stelem(code, 3, Some(SigType(e))))
  }

  /** The integer stelem opcodes store the signed integers of 1, 2, 4 and 8 bytes. */
  lemma IntegerElements()
    ensures NewStelem(Stelem_i1) == Ok(Stelem(Stelem_i1, 3, Some(SigType(I1))))
    ensures NewStelem(Stelem_i2) == Ok(Stelem(Stelem_i2, 3, Some(SigType(I2))))
    ensures NewStelem(Stelem_i4) == Ok(Stelem(Stelem_i4, 3, Some(SigType(I4))))
    ensures NewStelem(Stelem_i8) == Ok(Stelem(Stelem_i8, 3, Some(SigType(I8))))
  {}

  /** stelem.i, stelem.r4, stelem.r8 and stelem.ref store native ints, floats, doubles and objects. */
  lemma OtherElements()
    ensures NewStelem(Stelem_i) == Ok(Stelem(Stelem_i, 3, Some(SigType(I))))
    ensures NewStelem(Stelem_r4) == Ok(Stelem(Stelem_r4, 3, Some(SigType(R4))))
    ensures NewStelem(Stelem_r8) == Ok(Stelem(Stelem_r8, 3, Some(SigType(R8))))
    ensures NewStelem(Stelem_ref) == Ok(Stelem(Stelem_ref, 3, Some(SigType(Object))))
  {}

  /** No two stelem opcodes store the same element type. */
  lemma ElementsDistinct(a: int, b: int)
    requires NewStelem(a).Ok? && NewStelem(b).Ok? && a != b
    ensures NewStelem(a).value.typeRef != NewStelem(b).value.typeRef
  {}

  /**
   * Decode at pos: with an element type nothing is read; without one a
   * four-byte type token is read and then NotImplementedException raised.
   * The result is the position after what was read.
   */
  function Decode(s: Stelem, bytes: seq<byte>, pos: int): (r: Result<int>)
    requires pos >= 0
    ensures r.Ok? <==> s.typeRef.Some?
    ensures r.Ok? ==> r.value == pos
  {
    if s.typeRef.Some? then Ok(pos)
    else
      match ReadUnsigned(bytes, pos, 4)
      case Err(e) => Err(e)
      case Ok(_) => Err(NotImplemented)
  }

  /** Every constructed stelem decodes without reading anything. */
  lemma ConstructedDecodesNothing(code: int, bytes: seq<byte>, pos: int)
    requires pos >= 0 && NewStelem(code).Ok?
    ensures Decode(NewStelem(code).value, bytes, pos) == Ok(pos)
  {}
}
