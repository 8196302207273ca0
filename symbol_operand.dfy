// Symbol operands of the intermediate representation
// (Source/Runtime/CompilerFramework/Operands/SymbolOperand.cs): a type and a
// name that may be null, compared by type and name.
module SymbolOperands {
  import opened Wrappers
  import opened SigTypes

  /** An operand: a symbol, or any other kind of operand (a tag stands for its class). */
  datatype Operand =
    | SymbolOperand(sigType: SigType, name: Option<string>)
    | OtherOperand(sigType: SigType, kind: int)

  /** The constructor keeps the type and the name as given. */
  function NewSymbol(sigType: SigType, name: Option<string>): (op: Operand)
    ensures op.SymbolOperand? && Name(op) == name && op.sigType == sigType
  {
    SymbolOperand(sigType, name)
  }

  function Name(op: Operand): Option<string>
    requires op.SymbolOperand?
  {
    op.name
  }

  /**
   * Equals: false for a null operand, another kind of operand or another
   * type; two null names are equal; otherwise the names must be equal.
   */
  predicate Equals(self: Operand, other: Option<Operand>)
    requires self.SymbolOperand?
  {
    if other.None? || !other.value.SymbolOperand? || other.value.sigType != self.sigType then false
    else if self.name.None? && other.value.name.None? then true
    else self.name == other.value.name
  }

  /** Two symbols are Equal exactly when they have the same type and the same name, null included. */
  lemma EqualsMeaning(a: Operand, other: Option<Operand>)
    requires a.SymbolOperand?
    ensures Equals(a, other) <==> other == Some(a)
  {}

  lemma EqualsReflexive(a: Operand)
    requires a.SymbolOperand?
    ensures Equals(a, Some(a))
  {}

  lemma EqualsSymmetric(a: Operand, b: Operand)
    requires a.SymbolOperand? && b.SymbolOperand?
    ensures Equals(a, Some(b)) <==> Equals(b, Some(a))
  {}

  lemma EqualsTransitive(a: Operand, b: Operand, c: Operand)
    requires a.SymbolOperand? && b.SymbolOperand? && c.SymbolOperand?
    requires Equals(a, Some(b)) && Equals(b, Some(c))
    ensures Equals(a, Some(c))
  {}
}
