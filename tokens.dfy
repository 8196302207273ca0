// Metadata tokens: the table number in the top byte and the row in the low
// three bytes (section II.22 and III.1.9 of ECMA-335 give the table numbers
// and the token layout). The TokenTypes enumeration is not part of this
// model; its values are those of the standard.
module MetadataTokens {
  const RowRadix := 0x100_0000

  const ModuleTable := 0x00
  const TypeRefTable := 0x01
  const TypeDefTable := 0x02
  const FieldTable := 0x04
  const MethodDefTable := 0x06
  const ParamTable := 0x08
  const MemberRefTable := 0x0A
  const CustomAttributeTable := 0x0C
  const ClassLayoutTable := 0x0F
  const ModuleRefTable := 0x1A
  const TypeSpecTable := 0x1B
  const AssemblyRefTable := 0x23
  const GenericParamTable := 0x2A
  const MethodSpecTable := 0x2B

  /** A 32-bit token value. */
  predicate IsToken(t: int)
  {
    0 <= t < 0x1_0000_0000
  }

  function TableOf(t: int): int
  {
    t / RowRadix
  }

  /** The row of a token, `token & TokenTypes.RowIndexMask`. */
  function RowOf(t: int): int
  {
    t % RowRadix
  }

  function MakeToken(table: int, row: int): (t: int)
    requires 0 <= table < 0x100 && 0 <= row < RowRadix
    ensures IsToken(t) && TableOf(t) == table && RowOf(t) == row
  {
    table * RowRadix + row
  }

  /** A token is its table and its row. */
  lemma TokenSplit(t: int)
    requires IsToken(t)
    ensures 0 <= TableOf(t) < 0x100 && 0 <= RowOf(t) < RowRadix
    ensures MakeToken(TableOf(t), RowOf(t)) == t
  {}

  /** Tokens of one table are ordered by row and differ by their rows' difference. */
  lemma SameTableDifference(a: int, b: int)
    requires IsToken(a) && IsToken(b) && TableOf(a) == TableOf(b)
    ensures b - a == RowOf(b) - RowOf(a)
  {}

  /** A value between a table's first and last token is a token of that table. */
  lemma InTable(t: int, table: int)
    requires 0 <= table < 0x100 && table * RowRadix <= t < table * RowRadix + RowRadix
    ensures IsToken(t) && TableOf(t) == table && RowOf(t) == t - table * RowRadix
  {
    assert t == MakeToken(table, t - table * RowRadix);
  }
}
