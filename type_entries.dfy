// The entries of the type system's arrays. The runtime classes behind them
// (CilRuntimeType, CilGenericType, CilRuntimeMethod, CilGenericMethod,
// CilRuntimeField, RuntimeParameter) are not part of this model: each entry
// keeps the values its constructor was given, and the members the type
// system reads of them are defined here.
module TypeEntries {
  import opened Wrappers
  import opened MetadataTokens
  import opened Metadata
  import opened ListViews

  /** The offsets of a module's entries in the four arrays. */
  datatype ModuleOffsets = ModuleOffsets(fieldOffset: int, methodOffset: int, parameterOffset: int, typeOffset: int)

  /** The default value a resized offsets array is padded with. */
  const NoOffsets := ModuleOffsets(0, 0, 0, 0)

  /** A type entry: what it describes, its generic-argument count once set, its attributes once set. */
  datatype TypeEntry = TypeEntry(desc: TypeDesc, genericArgs: Option<nat>, attributes: Option<seq<CustomAttributeRow>>)

  datatype TypeDesc =
      /** A type defined by a TypeDef row, with the views of its fields and methods. */
    | CilType(token: int, loadOrder: int, row: TypeDefRow, fields: ListView, methods: ListView, packing: int, size: int)
      /** An instance of a generic type, made from a TypeSpec signature. */
    | GenericType(base: Option<TypeEntry>, loadOrder: int, signature: SignatureType)

  datatype MethodEntry = MethodEntry(desc: MethodDesc, genericArgs: Option<nat>, attributes: Option<seq<CustomAttributeRow>>)

  datatype MethodDesc =
      /** A method defined by a MethodDef row; index is the value passed to its constructor. */
    | CilMethod(index: int, loadOrder: int, row: MethodDefRow, maxParam: int, declaringType: TypeId)
      /** An instance of a generic method, made from a MethodSpec row. */
    | GenericMethod(generic: MethodEntry, signature: int, specSignature: int)

  datatype FieldEntry = CilField(loadOrder: int, row: FieldRow, declaringType: TypeId)

  datatype ParamEntry = RuntimeParameter(loadOrder: int, row: ParamRow)

  function NewType(desc: TypeDesc): TypeEntry
  {
    TypeEntry(desc, None, None)
  }

  function NewMethod(desc: MethodDesc): MethodEntry
  {
    MethodEntry(desc, None, None)
  }

  /**
   * The name of a type. A generic instance is taken to carry the name,
   * namespace and members of its base type, and none without one.
   */
  function TypeName(t: TypeEntry): string
  {
    match t.desc
    case CilType(_, _, row, _, _, _, _) => row.name
    case GenericType(base, _, _) => if base.Some? then TypeName(base.value) else ""
  }

  function TypeNamespace(t: TypeEntry): string
  {
    match t.desc
    case CilType(_, _, row, _, _, _, _) => row.namespace
    case GenericType(base, _, _) => if base.Some? then TypeNamespace(base.value) else ""
  }

  function FieldsOf(t: TypeEntry): ListView
  {
    match t.desc
    case CilType(_, _, _, fields, _, _, _) => fields
    case GenericType(base, _, _) => if base.Some? then FieldsOf(base.value) else EmptyView
  }

  function MethodsOf(t: TypeEntry): ListView
  {
    match t.desc
    case CilType(_, _, _, _, methods, _, _) => methods
    case GenericType(base, _, _) => if base.Some? then MethodsOf(base.value) else EmptyView
  }

  /** The identity attribute rows refer to a type by; generic instances have none. */
  function IdOf(t: TypeEntry): Option<TypeId>
  {
    if t.desc.CilType? then Some(TypeId(t.desc.loadOrder, t.desc.token)) else None
  }

  function MethodName(m: MethodEntry): string
  {
    match m.desc
    case CilMethod(_, _, row, _, _) => row.name
    case GenericMethod(generic, _, _) => MethodName(generic)
  }

  /** The signature a MemberRef's signature is matched against; matching is equality. */
  function MethodSignature(m: MethodEntry): int
  {
    match m.desc
    case CilMethod(_, _, row, _, _) => row.signature
    case GenericMethod(_, signature, _) => signature
  }

  /** Whether an attribute is of the given type; no attribute is of a null type. */
  predicate OfType(a: CustomAttributeRow, t: Option<TypeEntry>)
  {
    t.Some? && IdOf(t.value) == Some(a.attributeType)
  }

  /**
   * GetCustomAttributes: the attributes of the given type, in order; none
   * before attributes are set. The first one returned is the first such
   * attribute the type carries.
   */
  function AttributesOfType(attributes: Option<seq<CustomAttributeRow>>, t: Option<TypeEntry>): (r: seq<CustomAttributeRow>)
    ensures forall a :: a in r <==> attributes.Some? && a in attributes.value && OfType(a, t)
    ensures forall i :: 0 <= i < |r| ==> OfType(r[i], t)
    ensures attributes.Some? ==> multiset(r) == MatchingCount(attributes.value, t)
    ensures |r| > 0 ==> attributes.Some? && FirstOfType(attributes.value, t, r[0])
  {
    if attributes.None? then []
    else Filter(attributes.value, t)
  }

  /** The attribute a is at some index of s where no earlier attribute is of type t. */
  predicate FirstOfType(s: seq<CustomAttributeRow>, t: Option<TypeEntry>, a: CustomAttributeRow)
  {
    exists i :: 0 <= i < |s| && s[i] == a && forall j :: 0 <= j < i ==> !OfType(s[j], t)
  }

  /** The attributes of s of type t, each as often as s holds it. */
  function MatchingCount(s: seq<CustomAttributeRow>, t: Option<TypeEntry>): multiset<CustomAttributeRow>
  {
    if |s| == 0 then multiset{}
    else MatchingCount(s[..|s| - 1], t) + (if OfType(s[|s| - 1], t) then multiset{s[|s| - 1]} else multiset{})
  }

  /**
   * The attributes of s of type t, in the order of s, each as often as s
   * holds it; the first is the first such attribute of s.
   */
  function Filter(s: seq<CustomAttributeRow>, t: Option<TypeEntry>): (r: seq<CustomAttributeRow>)
    ensures forall a :: a in r <==> a in s && OfType(a, t)
    ensures forall i :: 0 <= i < |r| ==> OfType(r[i], t)
    ensures |r| <= |s|
    ensures multiset(r) == MatchingCount(s, t)
    ensures |r| > 0 ==> FirstOfType(s, t, r[0])
  {
    if |s| == 0 then []
    else
      var rest := Filter(s[1..], t);
      MatchingCountFront(s, t);
      if OfType(s[0], t) then
        assert FirstOfType(s, t, s[0]) by { assert s[0] == s[0]; }
        [s[0]] + rest
      else
        if |rest| > 0 then FirstOfTypeSkip(s, t, rest[0]); rest else rest
  }

  /** An attribute first of its type after a leading one of another type is first in the whole. */
  lemma FirstOfTypeSkip(s: seq<CustomAttributeRow>, t: Option<TypeEntry>, a: CustomAttributeRow)
    requires |s| > 0 && !OfType(s[0], t) && FirstOfType(s[1..], t, a)
    ensures FirstOfType(s, t, a)
  {
    var i :| 0 <= i < |s[1..]| && s[1..][i] == a && forall j :: 0 <= j < i ==> !OfType(s[1..][j], t);
    assert s[i + 1] == a;
    forall j | 0 <= j < i + 1
      ensures !OfType(s[j], t)
    {
      if j > 0 { assert s[j] == s[1..][j - 1]; }
    }
  }

  /** MatchingCount counted from the front. */
  lemma {:induction false} MatchingCountFront(s: seq<CustomAttributeRow>, t: Option<TypeEntry>)
    requires |s| > 0
    ensures MatchingCount(s, t) == (if OfType(s[0], t) then multiset{s[0]} else multiset{}) + MatchingCount(s[1..], t)
    decreases |s|
  {
    if |s| > 1 {
      MatchingCountFront(s[..|s| - 1], t);
      assert s[..|s| - 1][1..] == s[1..][..|s[1..]| - 1];
      assert s[..|s| - 1][0] == s[0];
    } else {
      assert s[1..] == [];
    }
  }

  /** IsDefined: whether the type carries an attribute of the given type. */
  predicate IsDefined(t: TypeEntry, attributeType: TypeEntry)
  {
    |AttributesOfType(t.attributes, Some(attributeType))| > 0
  }
}
