// The lookups of the type system (Source/Runtime/Vm/DefaultTypeSystem.cs)
// that read its arrays without changing them, as functions over the arrays'
// values: array growth, module offsets, token-to-slot arithmetic, the
// first-match scans by name, and the decoding of compressed type indices.
module TypeLookup {
  import opened Wrappers
  import opened MetadataTokens
  import opened Metadata
  import opened TypeEntries
  import opened ListViews

  /**
   * AdjustMetadataSpace: the array's previous length, which becomes the
   * module's offset, and the array grown by the table's row count with
   * empty slots.
   */
  function AdjustMetadataSpace<T>(items: seq<Option<T>>, rows: nat): (r: (int, seq<Option<T>>))
    ensures r.0 == |items| && |r.1| == |items| + rows
    ensures r.1[..|items|] == items
    ensures forall i :: |items| <= i < |r.1| ==> r.1[i].None?
  {
    if rows > 0 then (|items|, items + seq(rows, _ => None)) else (|items|, items)
  }

  /** The offsets recorded for a module: a null module or a load order never recorded fails. */
  function GetModuleOffset(offsets: seq<ModuleOffsets>, mdl: Option<ModuleMetadata>): (r: Result<ModuleOffsets>)
    ensures r.Ok? <==> mdl.Some? && 0 <= mdl.value.loadOrder < |offsets|
    ensures r.Ok? ==> r.value == offsets[mdl.value.loadOrder]
  {
    if mdl.None? then Err(NullReference)
    else if 0 <= mdl.value.loadOrder < |offsets| then Ok(offsets[mdl.value.loadOrder])
    else Err(IndexOutOfRange)
  }

  /** The view of a module's TypeDef slots: one fewer than its TypeDef rows, from its type offset. */
  function GetTypesFromModule(offsets: seq<ModuleOffsets>, mdl: Option<ModuleMetadata>): (r: Result<ListView>)
    ensures mdl.None? ==> r == Err(ArgumentNull)
    ensures r.Ok? ==> mdl.Some? && 0 <= mdl.value.loadOrder < |offsets|
    ensures r.Ok? && WellFormed(mdl.value) ==>
              r.value == ListView(offsets[mdl.value.loadOrder].typeOffset, |mdl.value.typeDefs| - 1)
  {
    if mdl.None? then Err(ArgumentNull)
    else
      var offs :- GetModuleOffset(offsets, mdl);
      Ok(ListView(offs.typeOffset, Rows(TypeDefTable, |mdl.value.typeDefs|) - 1 + 0))
  }

  /** The slot of TypeDef row r: rows from 2 on are stored from the type offset. */
  function TypeDefSlot(offs: ModuleOffsets, row: int): int
  {
    offs.typeOffset + row - 2
  }

  /** The slot of TypeSpec row s, reserved after the TypeDef slots. */
  function TypeSpecSlot(offs: ModuleOffsets, md: ModuleMetadata, specRow: int): int
  {
    offs.typeOffset + (Rows(TypeDefTable, |md.typeDefs|) - 2) + specRow
  }

  /**
   * The TypeDef slots of rows 2..n and the TypeSpec slots of rows 1..m lie in
   * the module's n + m slots, and no TypeSpec slot is a TypeDef slot.
   */
  lemma TypeSlotsDisjoint(offs: ModuleOffsets, md: ModuleMetadata, row: int, specRow: int)
    requires WellFormed(md)
    requires 2 <= row <= |md.typeDefs| && 1 <= specRow <= |md.typeSpecs|
    ensures offs.typeOffset <= TypeDefSlot(offs, row) < TypeSpecSlot(offs, md, specRow)
    ensures TypeSpecSlot(offs, md, specRow) < offs.typeOffset + |md.typeDefs| + |md.typeSpecs|
  {}

  /** Whether a type has the given namespace and name. */
  predicate Named(t: TypeEntry, ns: string, name: string)
  {
    TypeNamespace(t) == ns && TypeName(t) == name
  }

  /** The first slot from `from` on holding an entry that satisfies p; empty slots are skipped. */
  function FirstFrom<T>(items: seq<Option<T>>, from: nat, p: T -> bool): (r: Option<int>)
    decreases |items| - from
    ensures r.Some? ==> from <= r.value < |items| && items[r.value].Some? && p(items[r.value].value)
    ensures r.Some? ==> forall j :: from <= j < r.value ==> items[j].None? || !p(items[j].value)
    ensures r.None? ==> forall j :: from <= j < |items| ==> items[j].None? || !p(items[j].value)
  {
    if from >= |items| then None
    else if items[from].Some? && p(items[from].value) then Some(from)
    else FirstFrom(items, from + 1, p)
  }

  /** A slot outside the array or holding null. */
  predicate MissingSlot<T>(items: seq<Option<T>>, j: int)
  {
    j < 0 || j >= |items| || items[j].None?
  }

  /**
   * The first slot of a view, from its k-th entry on, holding an entry that
   * satisfies p; an empty slot fails with NullReference and a slot outside
   * the array with IndexOutOfRange.
   */
  function FirstInView<T>(items: seq<Option<T>>, view: ListView, k: nat, p: T -> bool): (r: Result<Option<int>>)
    decreases view.count - k
    ensures r.Ok? && r.value.Some? ==>
              0 <= view.start + k <= r.value.value < view.start + view.count && r.value.value < |items| &&
              items[r.value.value].Some? && p(items[r.value.value].value)
    ensures r.Ok? && r.value.Some? ==>
              forall j :: view.start + k <= j < r.value.value && 0 <= j < |items| ==> items[j].Some? && !p(items[j].value)
    ensures r.Ok? && r.value.None? && k < view.count ==> 0 <= view.start + k && view.start + view.count <= |items|
    ensures r.Ok? && r.value.None? ==>
              forall j :: view.start + k <= j < view.start + view.count && 0 <= j < |items| ==> items[j].Some? && !p(items[j].value)
    ensures r.Err? ==> r.error == NullReference || r.error == IndexOutOfRange
    ensures r.Err? ==> exists j :: view.start + k <= j < view.start + view.count && MissingSlot(items, j)
  {
    if k >= view.count then Ok(None)
    else
      var slot := view.start + k;
      if !(0 <= slot < |items|) then assert MissingSlot(items, slot); Err(IndexOutOfRange)
      else if items[slot].None? then assert MissingSlot(items, slot); Err(NullReference)
      else if p(items[slot].value) then Ok(Some(slot))
      else FirstInView(items, view, k + 1, p)
  }

  /**
   * The first entry of a view that satisfies p, as the member scans of
   * GetMethod and GetFieldForMemberReference find it; `missing` when there
   * is none.
   */
  function ScanView<T>(items: seq<Option<T>>, view: ListView, p: T -> bool, missing: Error): (r: Result<T>)
    ensures r.Ok? ==> p(r.value) && exists i :: Covers(view, i) && 0 <= i < |items| && items[i] == Some(r.value)
    ensures r.Ok? ==> exists i :: Covers(view, i) && 0 <= i < |items| && items[i] == Some(r.value) &&
                        forall j :: view.start <= j < i && 0 <= j < |items| ==> items[j].Some? && !p(items[j].value)
    ensures r.Err? ==> r.error in {missing, NullReference, IndexOutOfRange}
    ensures r.Err? && r.error !in {NullReference, IndexOutOfRange} ==>
              forall i :: Covers(view, i) ==> 0 <= i < |items| && items[i].Some? && !p(items[i].value)
  {
    match FirstInView(items, view, 0, p)
    case Err(e) => Err(e)
    case Ok(None) => Err(missing)
    case Ok(Some(i)) => Ok(items[i].value)
  }

  /** FindType: the first non-null type with the namespace and name, or null. */
  function FindType(ns: string, name: string, types: seq<Option<TypeEntry>>): (r: Option<TypeEntry>)
    ensures r.Some? ==> Named(r.value, ns, name)
    ensures r.Some? <==> exists i :: 0 <= i < |types| && types[i].Some? && Named(types[i].value, ns, name)
    ensures r.Some? ==> exists i :: 0 <= i < |types| && types[i] == r &&
                          forall j :: 0 <= j < i ==> types[j].None? || !Named(types[j].value, ns, name)
  {
    match FirstFrom(types, 0, (t: TypeEntry) => Named(t, ns, name))
    case Some(i) => types[i]
    case None => None
  }

  /** The index of the first occurrence of c in s, or -1. */
  function IndexOf(s: string, c: char): (r: int)
    ensures -1 <= r < |s|
    ensures r >= 0 ==> s[r] == c
    ensures forall j :: 0 <= j < |s| && (r == -1 || j < r) ==> s[j] != c
  {
    if |s| == 0 then -1
    else if s[0] == c then 0
    else
      var k := IndexOf(s[1..], c);
      if k == -1 then -1 else k + 1
  }

  /** The index of the last occurrence of c in s, or -1. */
  function LastIndexOf(s: string, c: char): (r: int)
    ensures -1 <= r < |s|
    ensures r >= 0 ==> s[r] == c
    ensures forall j :: r < j < |s| ==> s[j] != c
  {
    if |s| == 0 then -1
    else if s[|s| - 1] == c then |s| - 1
    else LastIndexOf(s[..|s| - 1], c)
  }

  /**
   * The namespace and name of an assembly-qualified type name: the part
   * before the first comma, split at its last dot (no dot: empty namespace).
   */
  function SplitTypeName(typeName: string): (r: (string, string))
    ensures ',' !in r.0 && ',' !in r.1 && '.' !in r.1
    ensures (r.0 == "" && EndsAtComma(r.1, typeName)) || EndsAtComma(r.0 + "." + r.1, typeName)
  {
    var comma := IndexOf(typeName, ',');
    var first := if comma == -1 then typeName else typeName[..comma];
    assert EndsAtComma(first, typeName);
    var lastDot := LastIndexOf(first, '.');
    if lastDot == -1 then ("", first)
    else
      assert first == first[..lastDot] + "." + first[lastDot + 1..];
      (first[..lastDot], first[lastDot + 1..])
  }

  /** p starts s and is followed in s by a comma or by nothing. */
  predicate EndsAtComma(p: string, s: string)
  {
    p <= s && (|p| == |s| || s[|p|] == ',')
  }

  lemma IndexOfAt(s: string, c: char, k: int)
    requires 0 <= k < |s| && s[k] == c
    requires forall j :: 0 <= j < k ==> s[j] != c
    ensures IndexOf(s, c) == k
  {}

  lemma LastIndexOfAt(s: string, c: char, k: int)
    requires 0 <= k < |s| && s[k] == c
    requires forall j :: k < j < |s| ==> s[j] != c
    ensures LastIndexOf(s, c) == k
  {}

  /** ns + "." + name: its last dot is the one joining the two. */
  lemma JoinedSplitsAtDot(ns: string, name: string)
    requires ',' !in ns && ',' !in name && '.' !in name
    ensures var joined := ns + "." + name;
            ',' !in joined && LastIndexOf(joined, '.') == |ns| &&
            joined[..|ns|] == ns && joined[|ns| + 1..] == name
  {
    var joined := ns + "." + name;
    assert forall i :: |ns| < i < |joined| ==> joined[i] == name[i - |ns| - 1];
    LastIndexOfAt(joined, '.', |ns|);
    assert joined[..|ns|] == ns && joined[|ns| + 1..] == name;
  }

  /**
   * A namespace and a dot-free name joined by a dot, optionally followed by
   * a comma and an assembly name, split back into the two.
   */
  lemma SplitJoinedName(ns: string, name: string, assembly: string)
    requires ',' !in ns && ',' !in name && '.' !in name
    ensures SplitTypeName(ns + "." + name) == (ns, name)
    ensures SplitTypeName(ns + "." + name + "," + assembly) == (ns, name)
  {
    var joined := ns + "." + name;
    JoinedSplitsAtDot(ns, name);
    var qualified := joined + "," + assembly;
    assert qualified[..|joined|] == joined;
    assert forall j :: 0 <= j < |joined| ==> qualified[j] == joined[j];
    IndexOfAt(qualified, ',', |joined|);
  }

  /**
   * GetType by name: FindType over all types (the loader fallback is not part
   * of this model). A type is found exactly when one has the namespace and
   * name the type name splits into, and what is found has them.
   */
  function GetTypeByName(types: seq<Option<TypeEntry>>, typeName: string): (r: Option<TypeEntry>)
    ensures var (ns, name) := SplitTypeName(typeName);
            (r.Some? ==> Named(r.value, ns, name)) &&
            (r.Some? <==> exists i :: 0 <= i < |types| && types[i].Some? && Named(types[i].value, ns, name))
  {
    var (ns, name) := SplitTypeName(typeName);
    FindType(ns, name, types)
  }

  /** The module an AssemblyRef resolves to, or null when the loader does not know the assembly. */
  function Resolve(loader: map<string, ModuleMetadata>, asm: AssemblyRefRow): Option<ModuleMetadata>
  {
    if asm.name in loader then Some(loader[asm.name]) else None
  }

  /** The offsets of the module an AssemblyRef names; a null module fails as GetModuleOffset does. */
  function ReferencedOffsets(offsets: seq<ModuleOffsets>, loader: map<string, ModuleMetadata>, md: ModuleMetadata, scope: int)
    : Result<ModuleOffsets>
  {
    var asm :- ReadAssemblyRef(md, scope);
    GetModuleOffset(offsets, Resolve(loader, asm))
  }

  /**
   * ResolveAssemblyRef: the index of the first non-null type with the
   * TypeRef's namespace and name, scanning from the referenced module's
   * type offset to the end of the array; TypeLoadException when none.
   */
  function ResolveAssemblyRef(types: seq<Option<TypeEntry>>, offsets: seq<ModuleOffsets>, loader: map<string, ModuleMetadata>,
                              md: ModuleMetadata, typeRef: TypeRefRow): (r: Result<int>)
    ensures ReferencedOffsets(offsets, loader, md, typeRef.resolutionScope).Err? ==>
              r == Err(ReferencedOffsets(offsets, loader, md, typeRef.resolutionScope).error)
    ensures ReferencedOffsets(offsets, loader, md, typeRef.resolutionScope).Ok? ==>
              var from := ReferencedOffsets(offsets, loader, md, typeRef.resolutionScope).value.typeOffset;
              (from < 0 ==> r == Err(IndexOutOfRange)) &&
              (r.Ok? ==> from <= r.value < |types| && types[r.value].Some? &&
                         Named(types[r.value].value, typeRef.namespace, typeRef.name) &&
                         forall j :: from <= j < r.value ==> types[j].None? || !Named(types[j].value, typeRef.namespace, typeRef.name)) &&
              (r == Err(TypeLoad) <==>
                 from >= 0 && forall j :: from <= j < |types| ==> types[j].None? || !Named(types[j].value, typeRef.namespace, typeRef.name))
  {
    var offs :- ReferencedOffsets(offsets, loader, md, typeRef.resolutionScope);
    if offs.typeOffset < 0 then Err(IndexOutOfRange)
    else
      match FirstFrom(types, offs.typeOffset, (t: TypeEntry) => Named(t, typeRef.namespace, typeRef.name))
      case Some(i) => Ok(i)
      case None => Err(TypeLoad)
  }

  /**
   * FindTypeIndexFromToken: a TypeDef token gives its slot (row 0 gives 0);
   * a TypeRef gives -5 for a module scope, -4 for a module reference, the
   * resolved index for an assembly reference, and follows a TypeRef scope;
   * a TypeSpec gives -2; any other table is an ArgumentException. fuel
   * bounds the TypeRef chain.
   */
  function FindTypeIndexFromToken(types: seq<Option<TypeEntry>>, offsets: seq<ModuleOffsets>, loader: map<string, ModuleMetadata>,
                                  md: ModuleMetadata, token: int, fuel: nat): (r: Result<int>)
    decreases fuel
    ensures TableOf(token) == TypeRefTable && r.Ok? ==>
              r.value == -5 || r.value == -4 || (0 <= r.value < |types| && types[r.value].Some?)
    ensures TableOf(token) == TypeRefTable && ReadTypeRef(md, token).Err? ==> r == Err(ReadTypeRef(md, token).error)
    ensures TableOf(token) == TypeRefTable && ReadTypeRef(md, token).Ok? ==>
              var typeRef := ReadTypeRef(md, token).value;
              var scope := TableOf(typeRef.resolutionScope);
              (scope == ModuleTable ==> r == Ok(-5)) &&
              (scope == ModuleRefTable ==> r == Ok(-4)) &&
              (scope == AssemblyRefTable ==> r == ResolveAssemblyRef(types, offsets, loader, md, typeRef)) &&
              (scope == AssemblyRefTable && r.Ok? ==> Named(types[r.value].value, typeRef.namespace, typeRef.name)) &&
              (scope == TypeRefTable && fuel > 0 ==>
                 r == FindTypeIndexFromToken(types, offsets, loader, md, typeRef.resolutionScope, fuel - 1)) &&
              (scope !in {ModuleTable, ModuleRefTable, AssemblyRefTable, TypeRefTable} ==> r == Err(Argument))
    ensures TableOf(token) == TypeSpecTable ==> r == Ok(-2)
    ensures r.Ok? && TableOf(token) == TypeDefTable && RowOf(token) != 0 ==>
              0 <= md.loadOrder < |offsets| && r.value == TypeDefSlot(offsets[md.loadOrder], RowOf(token))
    ensures r.Err? && r.error == Argument ==>
              TableOf(token) != TypeDefTable && TableOf(token) != TypeSpecTable
  {
    var row := RowOf(token);
    var table := TableOf(token);
    if table == TypeDefTable then
      if row != 0 then
        if 0 <= md.loadOrder < |offsets| then Ok(TypeDefSlot(offsets[md.loadOrder], row)) else Err(IndexOutOfRange)
      else Ok(0)
    else if table == TypeRefTable then
      var typeRef :- ReadTypeRef(md, token);
      var scope := TableOf(typeRef.resolutionScope);
      if scope == ModuleTable then Ok(-5)
      else if scope == ModuleRefTable then Ok(-4)
      else if scope == AssemblyRefTable then ResolveAssemblyRef(types, offsets, loader, md, typeRef)
      else if scope == TypeRefTable then
        if fuel == 0 then Err(RecursionLimit)
        else FindTypeIndexFromToken(types, offsets, loader, md, typeRef.resolutionScope, fuel - 1)
      else Err(Argument)
    else if table == TypeSpecTable then Ok(-2)
    else Err(Argument)
  }

  /** The TypeDef view of the module an AssemblyRef names. */
  function ReferencedTypes(offsets: seq<ModuleOffsets>, loader: map<string, ModuleMetadata>, md: ModuleMetadata, scope: int): Result<ListView>
  {
    var asm :- ReadAssemblyRef(md, scope);
    GetTypesFromModule(offsets, Resolve(loader, asm))
  }

  /**
   * ResolveTypeRef: only assembly-reference scopes are implemented; the
   * first type of the resolved module's view with the TypeRef's name and
   * namespace, TypeLoadException when none.
   */
  function ResolveTypeRef(types: seq<Option<TypeEntry>>, offsets: seq<ModuleOffsets>, loader: map<string, ModuleMetadata>,
                          md: ModuleMetadata, token: int): (r: Result<TypeEntry>)
    ensures r.Ok? ==> ReadTypeRef(md, token).Ok?
    ensures r.Ok? ==> var row := ReadTypeRef(md, token).value;
                      TableOf(row.resolutionScope) == AssemblyRefTable && Named(r.value, row.namespace, row.name) &&
                      ReferencedTypes(offsets, loader, md, row.resolutionScope).Ok? &&
                      r.value in TypesIn(types, ReferencedTypes(offsets, loader, md, row.resolutionScope).value)
    ensures ReadTypeRef(md, token).Ok? && TableOf(ReadTypeRef(md, token).value.resolutionScope) in {ModuleTable, ModuleRefTable, TypeRefTable} ==>
              r == Err(NotImplemented)
    ensures r == Err(TypeLoad) <==>
              ReadTypeRef(md, token).Ok? &&
              var row := ReadTypeRef(md, token).value;
              TableOf(row.resolutionScope) == AssemblyRefTable && ReferencedTypes(offsets, loader, md, row.resolutionScope).Ok? &&
              var view := ReferencedTypes(offsets, loader, md, row.resolutionScope).value;
              forall i :: view.start <= i < view.start + view.count ==>
                0 <= i < |types| && types[i].Some? && !Named(types[i].value, row.namespace, row.name)
  {
    var row :- ReadTypeRef(md, token);
    var scope := TableOf(row.resolutionScope);
    if scope == ModuleTable || scope == ModuleRefTable || scope == TypeRefTable then Err(NotImplemented)
    else if scope == AssemblyRefTable then
      var view :- ReferencedTypes(offsets, loader, md, row.resolutionScope);
      var found :- FirstInView(types, view, 0, (t: TypeEntry) => Named(t, row.namespace, row.name));
      if found.None? then Err(TypeLoad) else Ok(types[found.value].value)
    else Err(NotSupported)
  }

  /** The non-null entries a view covers. */
  function TypesIn(types: seq<Option<TypeEntry>>, view: ListView): set<TypeEntry>
  {
    set i | view.start <= i < view.start + view.count && 0 <= i < |types| && types[i].Some? :: types[i].value
  }

  /** GetType's TypeDef case: row 0 is null, row r the entry in slot TypeOffset + r - 2. */
  function LookupTypeDef(types: seq<Option<TypeEntry>>, offsets: seq<ModuleOffsets>, md: ModuleMetadata, token: int): (r: Result<Option<TypeEntry>>)
    ensures RowOf(token) == 0 && 0 <= md.loadOrder < |offsets| ==> r == Ok(None)
    ensures r.Ok? && RowOf(token) != 0 ==>
              0 <= md.loadOrder < |offsets| && 0 <= TypeDefSlot(offsets[md.loadOrder], RowOf(token)) < |types| &&
              r.value == types[TypeDefSlot(offsets[md.loadOrder], RowOf(token))]
    ensures r.Err? ==> r.error == IndexOutOfRange
  {
    var offs :- GetModuleOffset(offsets, Some(md));
    if RowOf(token) == 0 then Ok(None)
    else
      var slot := TypeDefSlot(offs, RowOf(token));
      if 0 <= slot < |types| then Ok(types[slot]) else Err(IndexOutOfRange)
  }

  /**
   * GetType for a token other than a TypeSpec: a TypeRef resolved through
   * the loader; otherwise row 0 is null, a TypeDef the entry of its slot,
   * and any other table refused.
   */
  function LookupType(types: seq<Option<TypeEntry>>, offsets: seq<ModuleOffsets>, loader: map<string, ModuleMetadata>,
                      md: ModuleMetadata, token: int): (r: Result<Option<TypeEntry>>)
    requires TableOf(token) != TypeSpecTable
    ensures TableOf(token) == TypeDefTable ==> r == LookupTypeDef(types, offsets, md, token)
    ensures TableOf(token) == TypeRefTable ==>
              (r.Ok? <==> ResolveTypeRef(types, offsets, loader, md, token).Ok?) &&
              (r.Ok? ==> r.value == Some(ResolveTypeRef(types, offsets, loader, md, token).value))
    ensures TableOf(token) != TypeDefTable && TableOf(token) != TypeRefTable && r.Ok? ==> r.value.None?
    ensures TableOf(token) != TypeRefTable && GetModuleOffset(offsets, Some(md)).Err? ==>
              r == Err(GetModuleOffset(offsets, Some(md)).error)
    ensures TableOf(token) != TypeDefTable && TableOf(token) != TypeRefTable && GetModuleOffset(offsets, Some(md)).Ok? ==>
              r == if RowOf(token) == 0 then Ok(None) else Err(Argument)
  {
    if TableOf(token) == TypeRefTable then
      var t :- ResolveTypeRef(types, offsets, loader, md, token);
      Ok(Some(t))
    else
      var offs :- GetModuleOffset(offsets, Some(md));
      if RowOf(token) == 0 then Ok(None)
      else if TableOf(token) == TypeDefTable then LookupTypeDef(types, offsets, md, token)
      else Err(Argument)
  }

  /** FindTypeIndexFromToken and GetType agree on TypeDef tokens: the index is the slot GetType reads. */
  lemma TypeDefIndexAgrees(types: seq<Option<TypeEntry>>, offsets: seq<ModuleOffsets>, loader: map<string, ModuleMetadata>,
                           md: ModuleMetadata, token: int, fuel: nat)
    requires TableOf(token) == TypeDefTable && RowOf(token) != 0
    requires LookupTypeDef(types, offsets, md, token).Ok?
    ensures FindTypeIndexFromToken(types, offsets, loader, md, token, fuel).Ok?
    ensures var i := FindTypeIndexFromToken(types, offsets, loader, md, token, fuel).value;
            0 <= i < |types| && LookupTypeDef(types, offsets, md, token) == Ok(types[i])
  {}

  /** GetMethod's MethodDef case: row r is the entry in slot MethodOffset + r - 1. */
  function LookupMethodDef(methods: seq<Option<MethodEntry>>, offsets: seq<ModuleOffsets>, md: ModuleMetadata, token: int): (r: Result<Option<MethodEntry>>)
    ensures r.Ok? ==> 0 <= md.loadOrder < |offsets| &&
                      0 <= offsets[md.loadOrder].methodOffset + RowOf(token) - 1 < |methods| &&
                      r.value == methods[offsets[md.loadOrder].methodOffset + RowOf(token) - 1]
  {
    var offs :- GetModuleOffset(offsets, Some(md));
    var slot := offs.methodOffset + RowOf(token) - 1;
    if 0 <= slot < |methods| then Ok(methods[slot]) else Err(IndexOutOfRange)
  }

  /** GetField's Field case: row r is the entry in slot FieldOffset + r - 1. */
  function LookupField(fields: seq<Option<FieldEntry>>, offsets: seq<ModuleOffsets>, md: ModuleMetadata, token: int): (r: Result<Option<FieldEntry>>)
    ensures r.Ok? ==> 0 <= md.loadOrder < |offsets| &&
                      0 <= offsets[md.loadOrder].fieldOffset + RowOf(token) - 1 < |fields| &&
                      r.value == fields[offsets[md.loadOrder].fieldOffset + RowOf(token) - 1]
  {
    var offs :- GetModuleOffset(offsets, Some(md));
    var slot := offs.fieldOffset + RowOf(token) - 1;
    if 0 <= slot < |fields| then Ok(fields[slot]) else Err(IndexOutOfRange)
  }

  /**
   * DecodeTypeIndex: the TypeDefOrRefOrSpecEncoded form of section II.23.2.8
   * of ECMA-335 in one byte: the low two bits pick TypeDef (0), TypeRef (1)
   * or TypeSpec (2), tag 3 falls back to TypeDef, and the rest is the row.
   */
  function DecodeTypeIndex(signature: int): (token: int)
    requires 0 <= signature < 0x100
    ensures IsToken(token) && RowOf(token) == signature / 4
  {
    var tag := signature % 4;
    var table := if tag == 1 then TypeRefTable else if tag == 2 then TypeSpecTable else TypeDefTable;
    MakeToken(table, signature / 4)
  }

  /** The encoding DecodeTypeIndex reads, for a row that fits the byte. */
  function EncodeTypeIndex(table: int, row: int): (signature: int)
    requires table == TypeDefTable || table == TypeRefTable || table == TypeSpecTable
    requires 0 <= row < 0x40
    ensures 0 <= signature < 0x100
  {
    row * 4 + (if table == TypeRefTable then 1 else if table == TypeSpecTable then 2 else 0)
  }

  lemma DecodeEncodedTypeIndex(table: int, row: int)
    requires table == TypeDefTable || table == TypeRefTable || table == TypeSpecTable
    requires 0 <= row < 0x40
    ensures DecodeTypeIndex(EncodeTypeIndex(table, row)) == MakeToken(table, row)
  {}

  /** Every byte but those with tag 3 is the encoding of what it decodes to. */
  lemma EncodeDecodedTypeIndex(signature: int)
    requires 0 <= signature < 0x100 && signature % 4 != 3
    ensures var token := DecodeTypeIndex(signature);
            EncodeTypeIndex(TableOf(token), RowOf(token)) == signature
  {}

  /** Tag 3 is read as a TypeDef. */
  lemma ReservedTagIsTypeDef(signature: int)
    requires 0 <= signature < 0x100 && signature % 4 == 3
    ensures TableOf(DecodeTypeIndex(signature)) == TypeDefTable
  {}

  /** The attribute match InternalCallImplAttribute.Match decides; it is not part of this model. */
  type AttributeMatch = (CustomAttributeRow, CustomAttributeRow) -> bool

  /** Whether a method carries an attribute of the implementation type that matches the call's definition. */
  predicate Implements(m: MethodEntry, implType: Option<TypeEntry>, callDef: CustomAttributeRow, matches: AttributeMatch)
  {
    var impls := AttributesOfType(m.attributes, implType);
    exists j :: 0 <= j < |impls| && matches(callDef, impls[j])
  }

  /** Implements, as the predicate the scans test each method with. */
  function ImplementsCall(implType: Option<TypeEntry>, callDef: CustomAttributeRow, matches: AttributeMatch): MethodEntry -> bool
  {
    (m: MethodEntry) => Implements(m, implType, callDef, matches)
  }

  /** The test GetMethod applies to the methods of a MemberRef's class: the same name and signature. */
  function MatchesMemberRef(row: MemberRefRow): MethodEntry -> bool
  {
    (m: MethodEntry) => MethodName(m) == row.name && MethodSignature(m) == row.signature
  }

  /** The test GetFieldForMemberReference applies to the fields of a MemberRef's class: the same name. */
  function FieldNamed(name: string): FieldEntry -> bool
  {
    (f: FieldEntry) => f.row.name == name
  }

  /**
   * The scan of GetImplementationForInternalCall, from the k-th internal
   * type on: the first method, in type order and then method order, that
   * implements the call; NotImplementedException when there is none. A
   * null method or a slot outside the array fails as the enumeration does.
   */
  function SearchInternalTypes(methods: seq<Option<MethodEntry>>, internalTypes: seq<TypeEntry>, k: nat,
                               implType: Option<TypeEntry>, callDef: CustomAttributeRow, matches: AttributeMatch): (r: Result<MethodEntry>)
    decreases |internalTypes| - k
  {
    if k >= |internalTypes| then Err(NotImplemented)
    else
      match FirstInView(methods, MethodsOf(internalTypes[k]), 0, ImplementsCall(implType, callDef, matches))
      case Err(e) => Err(e)
      case Ok(Some(i)) => Ok(methods[i].value)
      case Ok(None) => SearchInternalTypes(methods, internalTypes, k + 1, implType, callDef, matches)
  }

  /** Whether slot i of the methods array is a method of the t-th internal type. */
  predicate MethodOfInternalType(methods: seq<Option<MethodEntry>>, internalTypes: seq<TypeEntry>, t: int, i: int)
  {
    0 <= t < |internalTypes| && Covers(MethodsOf(internalTypes[t]), i) && 0 <= i < |methods| && methods[i].Some?
  }

  /**
   * The search never yields null: a result is a method of some internal type
   * that implements the call, and NotImplementedException means that no
   * method of any internal type from the k-th on does.
   */
  lemma {:induction false} SearchInternalTypesMeaning(methods: seq<Option<MethodEntry>>, internalTypes: seq<TypeEntry>, k: nat,
                                                       implType: Option<TypeEntry>, callDef: CustomAttributeRow, matches: AttributeMatch)
    ensures var r := SearchInternalTypes(methods, internalTypes, k, implType, callDef, matches);
            r.Ok? ==> Implements(r.value, implType, callDef, matches) &&
                      exists t, i :: k <= t && MethodOfInternalType(methods, internalTypes, t, i) && methods[i] == Some(r.value)
    ensures var r := SearchInternalTypes(methods, internalTypes, k, implType, callDef, matches);
            r == Err(NotImplemented) ==>
              forall t, i :: k <= t && MethodOfInternalType(methods, internalTypes, t, i) ==> !Implements(methods[i].value, implType, callDef, matches)
    ensures var r := SearchInternalTypes(methods, internalTypes, k, implType, callDef, matches);
            r.Err? ==> r.error in {NotImplemented, NullReference, IndexOutOfRange}
    decreases |internalTypes| - k
  {
    if k < |internalTypes| {
      var p := ImplementsCall(implType, callDef, matches);
      var found := FirstInView(methods, MethodsOf(internalTypes[k]), 0, p);
      if found.Ok? {
        if found.value.Some? {
          var i := found.value.value;
          assert MethodOfInternalType(methods, internalTypes, k, i);
        } else {
          SearchInternalTypesMeaning(methods, internalTypes, k + 1, implType, callDef, matches);
          var r := SearchInternalTypes(methods, internalTypes, k, implType, callDef, matches);
          if r == Err(NotImplemented) {
            forall t, i | k <= t && MethodOfInternalType(methods, internalTypes, t, i)
              ensures !Implements(methods[i].value, implType, callDef, matches)
            {
              if t == k {
                assert !p(methods[i].value);
              }
            }
          }
        }
      }
    }
  }
}
