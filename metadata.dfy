// The metadata tables of a loaded module, as the type system reads them.
// The metadata provider and its heaps are not part of this model: rows carry
// their strings already read from the string heap, and a TypeSpec row
// carries its signature already parsed. Reading a row that is not in its
// table fails with BadMetadataRow.
module Metadata {
  import opened Wrappers
  import opened MetadataTokens

  /** A type, by the module that defines it (its load order) and its token. */
  datatype TypeId = TypeId(loadOrder: int, token: int)

  datatype TypeDefRow = TypeDefRow(flags: int, name: string, namespace: string, extendsToken: int, fieldList: int, methodList: int)
  datatype TypeRefRow = TypeRefRow(resolutionScope: int, name: string, namespace: string)
  datatype FieldRow = FieldRow(flags: int, name: string, signature: int)
  datatype MethodDefRow = MethodDefRow(flags: int, name: string, signature: int, paramList: int)
  datatype ParamRow = ParamRow(flags: int, sequence: int, name: string)
  datatype MemberRefRow = MemberRefRow(classToken: int, name: string, signature: int)
  datatype ClassLayoutRow = ClassLayoutRow(packing: int, size: int, parent: int)
  datatype AssemblyRefRow = AssemblyRefRow(name: string)
  datatype GenericParamRow = GenericParamRow(number: int, flags: int, owner: int, name: string)
  /** A custom attribute: its parent token, the type of the attribute, and its value blob. */
  datatype CustomAttributeRow = CustomAttributeRow(parent: int, attributeType: TypeId, value: int)
  datatype MethodSpecRow = MethodSpecRow(methodToken: int, instantiation: int)

  /** A parsed type signature: the element types ResolveSignatureType distinguishes. */
  datatype SignatureType =
    | ClassSig(token: int)
    | ValueTypeSig(token: int)
    | GenericInstSig(baseToken: int, arguments: int)
    | OtherSig(element: int)

  datatype TypeSpecRow = TypeSpecRow(signature: SignatureType)

  datatype ModuleMetadata = ModuleMetadata(
    loadOrder: int,
    typeDefs: seq<TypeDefRow>,
    typeRefs: seq<TypeRefRow>,
    typeSpecs: seq<TypeSpecRow>,
    fields: seq<FieldRow>,
    methodDefs: seq<MethodDefRow>,
    params: seq<ParamRow>,
    memberRefs: seq<MemberRefRow>,
    methodSpecs: seq<MethodSpecRow>,
    classLayouts: seq<ClassLayoutRow>,
    genericParams: seq<GenericParamRow>,
    customAttributes: seq<CustomAttributeRow>,
    assemblyRefs: seq<AssemblyRefRow>)

  /** GetMaxTokenValue: the token of the last row of a table with count rows. */
  function MaxToken(table: int, count: nat): int
  {
    table * RowRadix + count
  }

  /** `RowIndexMask & GetMaxTokenValue(table)`: the row count, as the low three bytes keep it. */
  function Rows(table: int, count: nat): (r: nat)
    ensures count < RowRadix ==> r == count
  {
    RowOf(MaxToken(table, count))
  }

  /** Every table fits the three-byte row index of a token. */
  predicate WellFormed(md: ModuleMetadata)
  {
    |md.typeDefs| < RowRadix && |md.typeRefs| < RowRadix && |md.typeSpecs| < RowRadix &&
    |md.fields| < RowRadix && |md.methodDefs| < RowRadix && |md.params| < RowRadix &&
    |md.memberRefs| < RowRadix && |md.methodSpecs| < RowRadix && |md.classLayouts| < RowRadix &&
    |md.genericParams| < RowRadix && |md.customAttributes| < RowRadix && |md.assemblyRefs| < RowRadix
  }

  /** The index into a table's rows that a token of that table names. */
  function RowIndex(token: int, table: int, count: nat): (r: Result<nat>)
    ensures r.Ok? <==> TableOf(token) == table && 1 <= RowOf(token) <= count
    ensures r.Ok? ==> r.value == RowOf(token) - 1 && r.value < count
    ensures r.Err? ==> r.error == BadMetadataRow
  {
    if TableOf(token) == table && 1 <= RowOf(token) <= count then Ok(RowOf(token) - 1) else Err(BadMetadataRow)
  }

  function ReadTypeDef(md: ModuleMetadata, token: int): Result<TypeDefRow>
  {
    var i :- RowIndex(token, TypeDefTable, |md.typeDefs|); Ok(md.typeDefs[i])
  }

  function ReadTypeRef(md: ModuleMetadata, token: int): Result<TypeRefRow>
  {
    var i :- RowIndex(token, TypeRefTable, |md.typeRefs|); Ok(md.typeRefs[i])
  }

  function ReadTypeSpec(md: ModuleMetadata, token: int): Result<TypeSpecRow>
  {
    var i :- RowIndex(token, TypeSpecTable, |md.typeSpecs|); Ok(md.typeSpecs[i])
  }

  function ReadField(md: ModuleMetadata, token: int): Result<FieldRow>
  {
    var i :- RowIndex(token, FieldTable, |md.fields|); Ok(md.fields[i])
  }

  function ReadMethodDef(md: ModuleMetadata, token: int): Result<MethodDefRow>
  {
    var i :- RowIndex(token, MethodDefTable, |md.methodDefs|); Ok(md.methodDefs[i])
  }

  function ReadParam(md: ModuleMetadata, token: int): Result<ParamRow>
  {
    var i :- RowIndex(token, ParamTable, |md.params|); Ok(md.params[i])
  }

  function ReadMemberRef(md: ModuleMetadata, token: int): Result<MemberRefRow>
  {
    var i :- RowIndex(token, MemberRefTable, |md.memberRefs|); Ok(md.memberRefs[i])
  }

  function ReadMethodSpec(md: ModuleMetadata, token: int): Result<MethodSpecRow>
  {
    var i :- RowIndex(token, MethodSpecTable, |md.methodSpecs|); Ok(md.methodSpecs[i])
  }

  function ReadClassLayout(md: ModuleMetadata, token: int): Result<ClassLayoutRow>
  {
    var i :- RowIndex(token, ClassLayoutTable, |md.classLayouts|); Ok(md.classLayouts[i])
  }

  function ReadAssemblyRef(md: ModuleMetadata, token: int): Result<AssemblyRefRow>
  {
    var i :- RowIndex(token, AssemblyRefTable, |md.assemblyRefs|); Ok(md.assemblyRefs[i])
  }
}
