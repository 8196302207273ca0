// The GetIDTJumpLocation intrinsic of the x86 back end
// (Source/Platforms/x86/Intrinsic/GetIDTJumpLocation.cs): a call with a
// constant interrupt number is rewritten in place into a move of the address
// of that interrupt's linker-generated service routine.
module IdtJumpLocations {
  import opened Wrappers
  import opened SigTypes
  import opened SymbolOperands

  /** The boxed value of a constant operand: an int, a uint, an sbyte or anything else. */
  datatype ConstantValue = Int32Value(i: int) | UInt32Value(u: nat) | SByteValue(b: int) | OtherValue

  /** An operand of the call site: a constant, or any other operand. */
  datatype SiteOperand = ConstantOperand(value: ConstantValue) | Plain(operand: Operand)

  /** The instruction of a context: the intrinsic call, the IR move, or another one. */
  datatype Instruction = IntrinsicCall | MoveInstruction | OtherInstruction(id: int)

  const IsrPrefix: string := "Mosa.Tools.Compiler.LinkerGenerated.<$>InterruptISR"
  const IsrSuffix: string := "()"

  /**
   * The interrupt number of a constant that unboxes, or -1 for a constant of
   * another type. A boxed uint does not unbox as an int: `(int)obj` throws.
   */
  function Irq(v: ConstantValue): int
    requires !v.UInt32Value?
  {
    match v
    case Int32Value(i) => i
    case SByteValue(b) => b
    case OtherValue => -1
  }

  function Digit(d: nat): (c: char)
    requires d < 10
    ensures '0' <= c <= '9'
  {
    ['0', '1', '2', '3', '4', '5', '6', '7', '8', '9'][d]
  }

  predicate IsDigits(s: string)
  {
    forall i :: 0 <= i < |s| ==> '0' <= s[i] <= '9'
  }

  /** The decimal spelling of n, as Int32.ToString gives it for a non-negative value. */
  function Decimal(n: nat): (s: string)
    ensures |s| > 0 && IsDigits(s)
  {
    if n < 10 then [Digit(n)] else Decimal(n / 10) + [Digit(n % 10)]
  }

  /** The value of a string of decimal digits. */
  function DecimalValue(s: string): nat
    requires IsDigits(s)
  {
    if |s| == 0 then 0
    else DecimalValue(s[..|s| - 1]) * 10 + (s[|s| - 1] as int - '0' as int)
  }

  lemma {:induction false} DecimalRoundTrip(n: nat)
    ensures DecimalValue(Decimal(n)) == n
  {
    if n >= 10 {
      var s := Decimal(n);
      assert s[..|s| - 1] == Decimal(n / 10);
      DecimalRoundTrip(n / 10);
    }
  }

  /** The name of the service routine of interrupt irq. */
  function IsrName(irq: nat): string
  {
    IsrPrefix + Decimal(irq) + IsrSuffix
  }

  /** Reads the interrupt number back out of a service routine's name. */
  function ParseIsrName(s: string): Option<nat>
  {
    if |s| > |IsrPrefix| + |IsrSuffix| && s[..|IsrPrefix|] == IsrPrefix && s[|s| - |IsrSuffix|..] == IsrSuffix
       && IsDigits(s[|IsrPrefix|..|s| - |IsrSuffix|])
    then Some(DecimalValue(s[|IsrPrefix|..|s| - |IsrSuffix|]))
    else None
  }

  lemma IsrNameParses(irq: nat)
    ensures ParseIsrName(IsrName(irq)) == Some(irq)
  {
    var s := IsrName(irq);
    assert s[..|IsrPrefix|] == IsrPrefix;
    assert s[|s| - |IsrSuffix|..] == IsrSuffix;
    assert s[|IsrPrefix|..|s| - |IsrSuffix|] == Decimal(irq);
    DecimalRoundTrip(irq);
  }

  /** Distinct interrupts get distinct routine names. */
  lemma IsrNameInjective(a: nat, b: nat)
    requires IsrName(a) == IsrName(b)
    ensures a == b
  {
    IsrNameParses(a);
    IsrNameParses(b);
  }

  /**
   * The operand the call site is rewritten to use: a pointer-typed symbol
   * naming the routine of the constant's interrupt. A missing or non-constant
   * operand, a constant of another type, and an interrupt number outside
   * 0..256 (256 included) raise InvalidOperationException; a uint constant
   * fails the `(int)obj` unboxing with InvalidCastException.
   */
  function IsrSymbol(operand1: Option<SiteOperand>): (r: Result<Operand>)
    ensures r.Ok? <==> operand1.Some? && operand1.value.ConstantOperand? && !operand1.value.value.UInt32Value?
                       && 0 <= Irq(operand1.value.value) <= 256
    ensures r.Err? ==> (r.error == InvalidCast <==>
                          operand1.Some? && operand1.value.ConstantOperand? && operand1.value.value.UInt32Value?)
    ensures r.Err? && r.error != InvalidCast ==> r.error == InvalidOperation
    ensures r.Ok? ==> r.value.SymbolOperand? && r.value.sigType == SigType(Ptr) && r.value.name.Some?
                      && ParseIsrName(r.value.name.value) == Some(Irq(operand1.value.value))
  {
    if operand1.None? || !operand1.value.ConstantOperand? then Err(InvalidOperation)
    else if operand1.value.value.UInt32Value? then Err(InvalidCast)
    else
      var irq := Irq(operand1.value.value);
      if irq > 256 || irq < 0 then Err(InvalidOperation)
      else
        IsrNameParses(irq);
        Ok(NewSymbol(SigType(Ptr), Some(IsrName(irq))))
  }

  /** The instruction context of the call site, rewritten in place. */
  class Context {
    var instruction: Instruction
    var result: Option<Operand>
    var operands: seq<SiteOperand>

    constructor(instruction: Instruction, result: Option<Operand>, operands: seq<SiteOperand>)
      ensures this.instruction == instruction && this.result == result && this.operands == operands
    {
      this.instruction := instruction;
      this.result := result;
      this.operands := operands;
    }

    function Operand1(): Option<SiteOperand>
      reads this
    {
      if |operands| > 0 then Some(operands[0]) else None
    }

    /** Replaces the instruction by op with one result and one operand. */
    method SetInstruction(op: Instruction, result: Option<Operand>, operand1: SiteOperand)
      modifies this
      ensures instruction == op && this.result == result && operands == [operand1]
    {
      instruction := op;
      this.result := result;
      operands := [operand1];
    }

    /**
     * On success the call becomes a move of the routine's symbol into the
     * call's result; on failure the context is left as it was.
     */
    method ReplaceIntrinsicCall() returns (failure: Option<Error>)
      modifies this
      ensures failure.None? <==> IsrSymbol(old(Operand1())).Ok?
      ensures failure.Some? ==> IsrSymbol(old(Operand1())) == Err(failure.value) && unchanged(this)
      ensures failure.None? ==> instruction == MoveInstruction && result == old(result)
                                && operands == [Plain(IsrSymbol(old(Operand1())).value)]
    {
      var target := IsrSymbol(Operand1());
      if target.Err? {
        return Some(target.error);
      }
      SetInstruction(MoveInstruction, result, Plain(target.value));
      return None;
    }
  }
}
