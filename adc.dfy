// The x86 ADC instruction's opcode choice
// (Source/Platforms/x86/CPUx86/AdcInstruction.cs), checked against the ADC
// forms of the Intel 64 and IA-32 Architectures Software Developer's Manual,
// Volume 2A, "ADC—Add with Carry".
module AdcInstructions {
  import opened Wrappers

  /** The operand classes ComputeOpCode tests for. */
  datatype OperandKind = RegisterOperand | MemoryOperand | ConstantOperand | OtherOperand

  /** An x86 opcode: its bytes and the reg-field extension (/digit) it may carry. */
  datatype X86OpCode = X86OpCode(code: seq<int>, regField: Option<int>)

  const R_C := X86OpCode([0x81], Some(2))
  const M_C := R_C
  const R_R := X86OpCode([0x11], None)
  const M_R := R_R
  const R_M := X86OpCode([0x13], None)

  /** ADC takes one cycle, whatever its operands. */
  const Latency := 1

  /**
   * The first matching test wins; the third operand plays no part. Every
   * opcode chosen is an ADC form of the manual for its operands, and a
   * failure is ArgumentException.
   */
  function ComputeOpCode(destination: OperandKind, source: OperandKind, third: OperandKind): (r: Result<X86OpCode>)
    ensures r.Ok? ==> AdcForm(destination, source, r.value)
    ensures r.Err? ==> r.error == Argument
  {
    if destination.RegisterOperand? && source.ConstantOperand? then Ok(R_C)
    else if destination.RegisterOperand? && source.RegisterOperand? then Ok(R_R)
    else if destination.RegisterOperand? && source.MemoryOperand? then Ok(R_M)
    else if destination.MemoryOperand? && source.RegisterOperand? then Ok(M_R)
    else if destination.MemoryOperand? && source.ConstantOperand? then Ok(M_C)
    else Err(Argument)
  }

  /** Whether an operand can be the r/m operand of a ModR/M byte. */
  predicate RegOrMem(k: OperandKind)
  {
    k.RegisterOperand? || k.MemoryOperand?
  }

  /**
   * The 32-bit ADC forms of the manual: `81 /2` for r/m32, imm32; `11 /r`
   * for r/m32, r32; `13 /r` for r32, r/m32.
   */
  predicate AdcForm(destination: OperandKind, source: OperandKind, op: X86OpCode)
  {
    (RegOrMem(destination) && source.ConstantOperand? && op == X86OpCode([0x81], Some(2))) ||
    (RegOrMem(destination) && source.RegisterOperand? && op == X86OpCode([0x11], None)) ||
    (destination.RegisterOperand? && RegOrMem(source) && op == X86OpCode([0x13], None))
  }

  /** An opcode is chosen exactly when the manual has a form for the operands. */
  lemma ChoiceComplete(destination: OperandKind, source: OperandKind, third: OperandKind)
    ensures ComputeOpCode(destination, source, third).Ok? <==> exists op :: AdcForm(destination, source, op)
  {
    var r := ComputeOpCode(destination, source, third);
    if r.Ok? {
      assert AdcForm(destination, source, r.value);
    }
  }

  /** The third operand never changes the choice. */
  lemma ThirdIgnored(destination: OperandKind, source: OperandKind, a: OperandKind, b: OperandKind)
    ensures ComputeOpCode(destination, source, a) == ComputeOpCode(destination, source, b)
  {}

  /** Memory destinations share the register destination's opcodes. */
  lemma MemoryShares(source: OperandKind, third: OperandKind)
    requires source.ConstantOperand? || source.RegisterOperand?
    ensures ComputeOpCode(MemoryOperand, source, third) == ComputeOpCode(RegisterOperand, source, third)
  {}
}
