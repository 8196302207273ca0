// A type as the runtime sees it (Mosa/Runtime/Vm/RuntimeType.cs): the base
// class index kept one higher than its value, the ranges of the type's fields
// and methods in the loader's arrays, lazily read names, and the
// generic-argument array.
module RuntimeTypes {
  import opened Wrappers
  import opened MetadataTokens
  import opened ListViews

  /**
   * The TypeDef row as RuntimeType's constructor reads it: string-heap
   * indices for the name and namespace, unlike the resolved row in Metadata.
   */
  datatype TypeDefIndices = TypeDefIndices(flags: int, nameIdx: int, namespaceIdx: int, extendsToken: int, fieldList: int, methodList: int)

  /**
   * The view of the members from the first token to the max token, both
   * included, given the module's offset into the loader array; empty when
   * the max token precedes the first.
   */
  function MemberView(first: int, max: int, offset: int): (v: ListView)
    ensures v.count >= 0 && (v.count == 0 ==> v == EmptyView)
  {
    var members := max - first + 1;
    if 0 < members then ListView(RowOf(first) - 1 + offset, members) else EmptyView
  }

  /**
   * For tokens of one table, the view covers the slot of row r (offset + r - 1)
   * exactly when r lies between the first and the max token's rows.
   */
  lemma MemberViewCovers(first: int, max: int, offset: int, r: int)
    requires IsToken(first) && IsToken(max) && TableOf(first) == TableOf(max)
    ensures Covers(MemberView(first, max, offset), offset + r - 1) <==> RowOf(first) <= r <= RowOf(max)
  {
    SameTableDifference(first, max);
  }

  /** The getter's view of the stored base-class value. */
  function ExtendsOf(stored: int): int
  {
    stored - 1
  }

  /** The value the setter stores for a base-class index. */
  function StoredExtends(index: int): (stored: int)
    ensures ExtendsOf(stored) == index
    ensures index >= 0 ==> stored > 0
  {
    index + 1
  }

  /** The value the constructor stores for the loader's index, as written: the index itself. */
  function StoredExtendsAsWritten(loaderIndex: int): int
  {
    loaderIndex
  }

  /**
   * As written, a type whose base the loader finds at index k reports base
   * k - 1: for a base at TypeDef row r >= 3 of a module, the type stored for
   * row r - 1. Only the loader's 0 for a missing base comes out as "none".
   */
  lemma ConstructorExtendsOffByOne(loaderIndex: int)
    ensures ExtendsOf(StoredExtendsAsWritten(loaderIndex)) == loaderIndex - 1
    ensures ExtendsOf(StoredExtendsAsWritten(loaderIndex)) != loaderIndex
    ensures ExtendsOf(StoredExtendsAsWritten(loaderIndex)) < 0 <==> loaderIndex <= 0
  {}

  /**
   * The value the constructor should store: none for a TypeDef row without a
   * base (its Extends coded index is null, row 0), otherwise the loader's index
   * stored as the setter stores it.
   */
  function StoredExtendsCorrected(extendsToken: int, loaderIndex: int): int
  {
    if RowOf(extendsToken) == 0 then 0 else StoredExtends(loaderIndex)
  }

  /**
   * Corrected, a type with a base reports the loader's index of that base, and
   * a type without one reports a negative index, as the as-written getter
   * does for it.
   */
  lemma ConstructorExtendsCorrected(extendsToken: int, loaderIndex: int)
    ensures RowOf(extendsToken) != 0 ==> ExtendsOf(StoredExtendsCorrected(extendsToken, loaderIndex)) == loaderIndex
    ensures RowOf(extendsToken) == 0 ==> ExtendsOf(StoredExtendsCorrected(extendsToken, loaderIndex)) < 0
  {}

  class RuntimeType {
    /** The owning metadata module, by identity. */
    const owner: int
    var storedExtends: int
    const flags: int
    var name: Option<string>
    const nameIdx: int
    var namespace: Option<string>
    const namespaceIdx: int
    const nativeSize: int
    const packing: int
    const fields: ListView
    const methods: ListView
    /** The length of the generic-argument array, null until parameters are set. */
    var arguments: Option<nat>

    /**
     * loaderIndex is the loader's index of the base type (the loader's
     * FindTypeIndexFromToken is not part of this class); fieldOffset and
     * methodOffset are the module's offsets into the loader's arrays. The
     * index is stored as it is, so Extends reports one less than it.
     */
    constructor(owner: int, row: TypeDefIndices, maxField: int, maxMethod: int, packing: int, size: int,
                loaderIndex: int, fieldOffset: int, methodOffset: int)
      ensures this.owner == owner && flags == row.flags && nameIdx == row.nameIdx && namespaceIdx == row.namespaceIdx
      ensures nativeSize == size && this.packing == packing
      ensures Extends() == loaderIndex - 1
      ensures fields == MemberView(row.fieldList, maxField, fieldOffset)
      ensures methods == MemberView(row.methodList, maxMethod, methodOffset)
      ensures name.None? && namespace.None? && arguments.None?
    {
      this.owner := owner;
      storedExtends := StoredExtendsAsWritten(loaderIndex);
      flags := row.flags;
      nameIdx := row.nameIdx;
      namespaceIdx := row.namespaceIdx;
      nativeSize := size;
      this.packing := packing;
      fields := MemberView(row.fieldList, maxField, fieldOffset);
      methods := MemberView(row.methodList, maxMethod, methodOffset);
      name := None;
      namespace := None;
      arguments := None;
    }

    /** The index of the base class; negative when there is none. */
    function Extends(): int
      reads this
    {
      ExtendsOf(storedExtends)
    }

    /** A negative index raises ArgumentException and changes nothing; any other is read back by Extends. */
    method SetExtends(value: int) returns (failure: Option<Error>)
      modifies this
      ensures value < 0 <==> failure == Some(Argument)
      ensures failure.Some? ==> unchanged(this)
      ensures failure.None? ==> Extends() == value && storedExtends > 0
      ensures name == old(name) && namespace == old(namespace) && arguments == old(arguments)
    {
      if value < 0 {
        return Some(Argument);
      }
      storedExtends := StoredExtends(value);
      return None;
    }

    predicate IsGeneric()
      reads this
    {
      arguments.Some? && arguments.value != 0
    }

    /** The argument array gets one slot per generic parameter. */
    method SetGenericParameter<P>(gprs: seq<P>)
      modifies this
      ensures arguments == Some(|gprs|)
      ensures IsGeneric() <==> |gprs| > 0
      ensures storedExtends == old(storedExtends) && name == old(name) && namespace == old(namespace)
    {
      arguments := Some(|gprs|);
    }

    /** The name as Name returns it; strings stands for the module's string heap. */
    function NameValue(strings: int -> string): string
      reads this
    {
      if name.Some? then name.value else strings(nameIdx)
    }

    function NamespaceValue(strings: int -> string): string
      reads this
    {
      if namespace.Some? then namespace.value else strings(namespaceIdx)
    }

    /** The first call reads the name and caches it; every later call returns the cached name. */
    method Name(strings: int -> string) returns (s: string)
      modifies this
      ensures s == old(NameValue(strings)) && name == Some(s)
      ensures old(name).Some? ==> s == old(name).value
      ensures storedExtends == old(storedExtends) && namespace == old(namespace) && arguments == old(arguments)
    {
      if name.None? {
        name := Some(strings(nameIdx));
      }
      s := name.value;
    }

    method Namespace(strings: int -> string) returns (s: string)
      modifies this
      ensures s == old(NamespaceValue(strings)) && namespace == Some(s)
      ensures old(namespace).Some? ==> s == old(namespace).value
      ensures storedExtends == old(storedExtends) && name == old(name) && arguments == old(arguments)
    {
      if namespace.None? {
        namespace := Some(strings(namespaceIdx));
      }
      s := namespace.value;
    }

    /** Equal types share module, name and namespace indices and base class. */
    predicate Equals(other: RuntimeType)
      reads this, other
    {
      owner == other.owner && nameIdx == other.nameIdx && namespaceIdx == other.namespaceIdx && storedExtends == other.storedExtends
    }

    /** "Namespace.Name", caching both. */
    method ToString(strings: int -> string) returns (s: string)
      modifies this
      ensures s == old(NamespaceValue(strings)) + "." + old(NameValue(strings))
      ensures name.Some? && namespace.Some?
    {
      var ns := Namespace(strings);
      var n := Name(strings);
      s := ns + "." + n;
    }
  }

  /** Reading the name twice gives the same string, read from the heap once. */
  method NameStable(t: RuntimeType, strings: int -> string) returns (first: string, second: string)
    modifies t
    ensures first == second == old(t.NameValue(strings))
  {
    first := t.Name(strings);
    second := t.Name(strings);
  }

  lemma EqualsReflexive(t: RuntimeType)
    ensures t.Equals(t)
  {}

  lemma EqualsSymmetric(a: RuntimeType, b: RuntimeType)
    ensures a.Equals(b) <==> b.Equals(a)
  {}
}
