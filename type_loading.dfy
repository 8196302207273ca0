// What the loaders of Source/Runtime/Vm/DefaultTypeSystem.cs compute, as
// functions of the arrays they write: LoadMethods, LoadFields, LoadTypes,
// and the per-owner commits of LoadGenerics and LoadCustomAttributes. Each
// function follows its loop step by step, including the point where it
// fails (a row outside its table, a slot outside its array, a null entry),
// and returns the arrays as they stand at that point; the DefaultTypeSystem
// methods are proved to compute them, and the lemmas here say what they
// mean for valid metadata.
module TypeLoading {
  import opened Wrappers
  import opened MetadataTokens
  import opened Metadata
  import opened ListViews
  import opened TypeEntries
  import opened TypeLookup
  import opened OwnerGroups
  import RuntimeTypes

  /** The value of a row variable before anything is read into it. */
  const DefaultMethodDefRow := MethodDefRow(0, "", 0, 0)
  const DefaultTypeDefRow := TypeDefRow(0, "", "", 0, 0, 0)
  const DefaultLayoutRow := ClassLayoutRow(0, 0, 0)

  const InternalCallTypeAttributeName := "InternalCallTypeAttribute"
  const InternalCallTypeAttributeNamespace := "Mosa.Runtime.Vm"

  // ---------------------------------------------------------------- methods

  /**
   * LoadMethods from the method token `token` on, up to `last` excluded:
   * the method read so far and the following row (kept when there is none),
   * each method stored at the next offset with index offset + 1 and its
   * parameter bound (the next method's ParamList, or past the last Param).
   */
  function MethodsFrom(methods: seq<Option<MethodEntry>>, md: ModuleMetadata, declaring: TypeId,
                       token: int, last: int, offset: int, methodDef: MethodDefRow, next: MethodDefRow)
    : (r: (seq<Option<MethodEntry>>, int, Option<Error>))
    decreases last - token
    ensures |r.0| == |methods|
  {
    if token >= last then (methods, offset, None)
    else
      var maxMethod := MaxToken(MethodDefTable, |md.methodDefs|);
      var read := if token < maxMethod then ReadMethodDef(md, token + 1) else Ok(next);
      if read.Err? then (methods, offset, Some(read.error))
      else
        var maxParam := if token < maxMethod then read.value.paramList else MaxToken(ParamTable, |md.params|) + 1;
        if !(0 <= offset < |methods|) then (methods, offset, Some(IndexOutOfRange))
        else
          var entry := NewMethod(CilMethod(offset + 1, md.loadOrder, methodDef, maxParam, declaring));
          MethodsFrom(methods[offset := Some(entry)], md, declaring, token + 1, last, offset + 1, read.value, read.value)
  }

  /** LoadMethods: nothing when first is not below last, else the first row is read and the loop runs. */
  function LoadMethodsSpec(methods: seq<Option<MethodEntry>>, md: ModuleMetadata, declaring: TypeId,
                           first: int, last: int, offset: int): (r: (seq<Option<MethodEntry>>, int, Option<Error>))
    ensures |r.0| == |methods|
  {
    if first < last then
      match ReadMethodDef(md, first)
      case Err(e) => (methods, offset, Some(e))
      case Ok(row) => MethodsFrom(methods, md, declaring, first, last, offset, row, DefaultMethodDefRow)
    else (methods, offset, None)
  }

  /** The parameter bound LoadMethods gives the method of row t. */
  function MaxParamOf(md: ModuleMetadata, t: int): int
    requires 1 <= RowOf(t) <= |md.methodDefs|
  {
    if RowOf(t) < |md.methodDefs| then md.methodDefs[RowOf(t)].paramList else MaxToken(ParamTable, |md.params|) + 1
  }

  /** The entry LoadMethods stores for the method of token t in a given slot. */
  function LoadedMethod(md: ModuleMetadata, declaring: TypeId, t: int, slot: int): MethodEntry
    requires 1 <= RowOf(t) <= |md.methodDefs|
  {
    NewMethod(CilMethod(slot + 1, md.loadOrder, md.methodDefs[RowOf(t) - 1], MaxParamOf(md, t), declaring))
  }

  /** Method tokens from first to last excluded that all name rows of the table. */
  predicate MethodRange(md: ModuleMetadata, first: int, last: int)
  {
    WellFormed(md) && MakeToken(MethodDefTable, 1) <= first && last <= MaxToken(MethodDefTable, |md.methodDefs|) + 1
  }

  /** The slots from offset on hold the methods of tokens token to last - 1, in order. */
  predicate MethodsLoaded(loaded: seq<Option<MethodEntry>>, md: ModuleMetadata, declaring: TypeId, token: int, last: int, offset: int)
  {
    forall t :: token <= t < last ==>
      1 <= RowOf(t) <= |md.methodDefs| && 0 <= offset + (t - token) < |loaded| &&
      loaded[offset + (t - token)] == Some(LoadedMethod(md, declaring, t, offset + (t - token)))
  }

  /** Storing the method of token in slot offset, then the following ones from offset + 1, loads them all from offset. */
  lemma MethodsLoadedStep(methods: seq<Option<MethodEntry>>, loaded: seq<Option<MethodEntry>>, md: ModuleMetadata, declaring: TypeId,
                          token: int, last: int, offset: int)
    requires MethodRange(md, token, last) && token < last && 0 <= offset < |methods|
    requires 1 <= RowOf(token) <= |md.methodDefs|
    requires var stored := methods[offset := Some(LoadedMethod(md, declaring, token, offset))];
             MethodsLoaded(loaded, md, declaring, token + 1, last, offset + 1) && Kept(stored, loaded, offset + 1, offset + (last - token))
    ensures MethodsLoaded(loaded, md, declaring, token, last, offset) && Kept(methods, loaded, offset, offset + (last - token))
  {
    var stored := methods[offset := Some(LoadedMethod(md, declaring, token, offset))];
    assert loaded[offset] == stored[offset];
    forall i | 0 <= i < |methods| && !(offset <= i < offset + (last - token))
      ensures loaded[i] == methods[i]
    {
      assert loaded[i] == stored[i];
    }
  }

  /**
   * For method tokens of the table, LoadMethods succeeds exactly when the
   * slots from offset on hold all the methods, and then stores the method
   * of token t in slot offset + (t - first) and changes no other slot.
   */
  lemma {:induction false} MethodsFromStores(methods: seq<Option<MethodEntry>>, md: ModuleMetadata, declaring: TypeId,
                                             token: int, last: int, offset: int, methodDef: MethodDefRow, next: MethodDefRow)
    requires MethodRange(md, token, last) && token <= last
    requires token < last ==> methodDef == md.methodDefs[RowOf(token) - 1]
    decreases last - token
    ensures var r := MethodsFrom(methods, md, declaring, token, last, offset, methodDef, next);
            r.2.None? <==> token == last || (0 <= offset && offset + (last - token) <= |methods|)
    ensures var r := MethodsFrom(methods, md, declaring, token, last, offset, methodDef, next);
            r.2.None? ==>
              r.1 == offset + (last - token) &&
              MethodsLoaded(r.0, md, declaring, token, last, offset) && Kept(methods, r.0, offset, offset + (last - token))
  {
    if token < last {
      var maxMethod := MaxToken(MethodDefTable, |md.methodDefs|);
      assert TableOf(token) == MethodDefTable && 1 <= RowOf(token) <= |md.methodDefs|;
      if token < maxMethod {
        assert ReadMethodDef(md, token + 1) == Ok(md.methodDefs[RowOf(token)]);
      }
      var read := if token < maxMethod then ReadMethodDef(md, token + 1) else Ok(next);
      if 0 <= offset < |methods| {
        var entry := NewMethod(CilMethod(offset + 1, md.loadOrder, methodDef, MaxParamOf(md, token), declaring));
        assert entry == LoadedMethod(md, declaring, token, offset);
        var stored := methods[offset := Some(entry)];
        MethodsFromStores(stored, md, declaring, token + 1, last, offset + 1, read.value, read.value);
        var r := MethodsFrom(methods, md, declaring, token, last, offset, methodDef, next);
        if r.2.None? {
          assert r == MethodsFrom(stored, md, declaring, token + 1, last, offset + 1, read.value, read.value);
          MethodsLoadedStep(methods, r.0, md, declaring, token, last, offset);
        }
      }
    }
  }

  // ----------------------------------------------------------------- fields

  /** LoadFields from `token` on, up to `last` excluded: each field read and stored at the next offset. */
  function FieldsFrom(fields: seq<Option<FieldEntry>>, md: ModuleMetadata, declaring: TypeId,
                      token: int, last: int, offset: int): (r: (seq<Option<FieldEntry>>, int, Option<Error>))
    decreases last - token
    ensures |r.0| == |fields|
  {
    if token >= last then (fields, offset, None)
    else
      match ReadField(md, token)
      case Err(e) => (fields, offset, Some(e))
      case Ok(row) =>
        if !(0 <= offset < |fields|) then (fields, offset, Some(IndexOutOfRange))
        else FieldsFrom(fields[offset := Some(CilField(md.loadOrder, row, declaring))], md, declaring, token + 1, last, offset + 1)
  }

  /**
   * LoadFields: the loop over the field tokens of one type (the FieldRVA and
   * FieldLayout cursors it also keeps are not part of this model).
   */
  function LoadFieldsSpec(fields: seq<Option<FieldEntry>>, md: ModuleMetadata, declaring: TypeId,
                          first: int, last: int, offset: int): (r: (seq<Option<FieldEntry>>, int, Option<Error>))
    ensures |r.0| == |fields|
  {
    FieldsFrom(fields, md, declaring, first, last, offset)
  }

  /** Field tokens from first to last excluded that all name rows of the table. */
  predicate FieldRange(md: ModuleMetadata, first: int, last: int)
  {
    WellFormed(md) && MakeToken(FieldTable, 1) <= first && last <= MaxToken(FieldTable, |md.fields|) + 1
  }

  /** The slots from offset on hold the fields of tokens token to last - 1, in order. */
  predicate FieldsLoaded(loaded: seq<Option<FieldEntry>>, md: ModuleMetadata, declaring: TypeId, token: int, last: int, offset: int)
  {
    forall t :: token <= t < last ==>
      1 <= RowOf(t) <= |md.fields| && 0 <= offset + (t - token) < |loaded| &&
      loaded[offset + (t - token)] == Some(CilField(md.loadOrder, md.fields[RowOf(t) - 1], declaring))
  }

  /** Storing the field of token in slot offset, then the following ones from offset + 1, loads them all from offset. */
  lemma FieldsLoadedStep(fields: seq<Option<FieldEntry>>, loaded: seq<Option<FieldEntry>>, md: ModuleMetadata, declaring: TypeId,
                         token: int, last: int, offset: int)
    requires FieldRange(md, token, last) && token < last && 0 <= offset < |fields|
    requires 1 <= RowOf(token) <= |md.fields|
    requires var stored := fields[offset := Some(CilField(md.loadOrder, md.fields[RowOf(token) - 1], declaring))];
             FieldsLoaded(loaded, md, declaring, token + 1, last, offset + 1) && Kept(stored, loaded, offset + 1, offset + (last - token))
    ensures FieldsLoaded(loaded, md, declaring, token, last, offset) && Kept(fields, loaded, offset, offset + (last - token))
  {
    var stored := fields[offset := Some(CilField(md.loadOrder, md.fields[RowOf(token) - 1], declaring))];
    assert loaded[offset] == stored[offset];
    forall i | 0 <= i < |fields| && !(offset <= i < offset + (last - token))
      ensures loaded[i] == fields[i]
    {
      assert loaded[i] == stored[i];
    }
  }

  lemma {:induction false} FieldsFromStores(fields: seq<Option<FieldEntry>>, md: ModuleMetadata, declaring: TypeId,
                                            token: int, last: int, offset: int)
    requires FieldRange(md, token, last) && token <= last
    decreases last - token
    ensures var r := FieldsFrom(fields, md, declaring, token, last, offset);
            r.2.None? <==> token == last || (0 <= offset && offset + (last - token) <= |fields|)
    ensures var r := FieldsFrom(fields, md, declaring, token, last, offset);
            r.2.None? ==>
              r.1 == offset + (last - token) &&
              FieldsLoaded(r.0, md, declaring, token, last, offset) && Kept(fields, r.0, offset, offset + (last - token))
  {
    if token < last {
      assert ReadField(md, token) == Ok(md.fields[RowOf(token) - 1]);
      if 0 <= offset < |fields| {
        var stored := fields[offset := Some(CilField(md.loadOrder, md.fields[RowOf(token) - 1], declaring))];
        FieldsFromStores(stored, md, declaring, token + 1, last, offset + 1);
        var r := FieldsFrom(fields, md, declaring, token, last, offset);
        if r.2.None? {
          assert r == FieldsFrom(stored, md, declaring, token + 1, last, offset + 1);
          FieldsLoadedStep(fields, r.0, md, declaring, token, last, offset);
        }
      }
    }
  }

  // ------------------------------------------------------------- parameters

  /** LoadParameters from the Param token `token` on, through the last row: each row stored at the next offset. */
  function ParamsFrom(parameters: seq<Option<ParamEntry>>, md: ModuleMetadata, token: int, offset: int)
    : (r: (seq<Option<ParamEntry>>, Option<Error>))
    decreases MaxToken(ParamTable, |md.params|) - token
    ensures |r.0| == |parameters|
  {
    if token > MaxToken(ParamTable, |md.params|) then (parameters, None)
    else
      match ReadParam(md, token)
      case Err(e) => (parameters, Some(e))
      case Ok(row) =>
        if !(0 <= offset < |parameters|) then (parameters, Some(IndexOutOfRange))
        else ParamsFrom(parameters[offset := Some(RuntimeParameter(md.loadOrder, row))], md, token + 1, offset + 1)
  }

  /**
   * For a well-formed module, LoadParameters succeeds exactly when the slots
   * from offset on hold every Param row, and then stores row r in slot
   * offset + r - 1 and changes no other slot.
   */
  lemma {:induction false} ParamsFromStores(parameters: seq<Option<ParamEntry>>, md: ModuleMetadata, token: int, offset: int)
    requires WellFormed(md) && MakeToken(ParamTable, 1) <= token <= MaxToken(ParamTable, |md.params|) + 1
    decreases MaxToken(ParamTable, |md.params|) - token
    ensures var n := MaxToken(ParamTable, |md.params|) + 1 - token;
            var r := ParamsFrom(parameters, md, token, offset);
            (r.1.None? <==> n == 0 || (0 <= offset && offset + n <= |parameters|)) &&
            (r.1.Some? ==> r.1 == Some(IndexOutOfRange))
    ensures var n := MaxToken(ParamTable, |md.params|) + 1 - token;
            var r := ParamsFrom(parameters, md, token, offset);
            r.1.None? ==>
              (forall t :: token <= t < token + n ==>
                 1 <= RowOf(t) <= |md.params| &&
                 r.0[offset + (t - token)] == Some(RuntimeParameter(md.loadOrder, md.params[RowOf(t) - 1]))) &&
              (forall i :: 0 <= i < |parameters| && !(offset <= i < offset + n) ==> r.0[i] == parameters[i])
  {
    if token <= MaxToken(ParamTable, |md.params|) {
      InTable(token, ParamTable);
      assert ReadParam(md, token) == Ok(md.params[RowOf(token) - 1]);
      if 0 <= offset < |parameters| {
        ParamsFromStores(parameters[offset := Some(RuntimeParameter(md.loadOrder, md.params[RowOf(token) - 1]))],
                         md, token + 1, offset + 1);
      }
    }
  }

  /** LoadParameters: every Param row of the module, from the first. */
  function LoadParametersSpec(parameters: seq<Option<ParamEntry>>, md: ModuleMetadata, offset: int)
    : (r: (seq<Option<ParamEntry>>, Option<Error>))
    ensures |r.0| == |parameters|
  {
    ParamsFrom(parameters, md, MakeToken(ParamTable, 1), offset)
  }

  /**
   * LoadParameters of a well-formed module fails only when the Param rows
   * do not fit from offset on, and stores Param row r + 1 in slot offset + r.
   */
  lemma LoadParametersStores(parameters: seq<Option<ParamEntry>>, md: ModuleMetadata, offset: int)
    requires WellFormed(md)
    ensures var r := LoadParametersSpec(parameters, md, offset);
            (r.1.None? <==> |md.params| == 0 || (0 <= offset && offset + |md.params| <= |parameters|)) &&
            (r.1.Some? ==> r.1 == Some(IndexOutOfRange))
    ensures var r := LoadParametersSpec(parameters, md, offset);
            r.1.None? ==>
              (forall k :: 0 <= k < |md.params| ==> r.0[offset + k] == Some(RuntimeParameter(md.loadOrder, md.params[k]))) &&
              (forall i :: 0 <= i < |parameters| && !(offset <= i < offset + |md.params|) ==> r.0[i] == parameters[i])
  {
    var first := MakeToken(ParamTable, 1);
    ParamsFromStores(parameters, md, first, offset);
    var r := LoadParametersSpec(parameters, md, offset);
    if r.1.None? {
      forall k | 0 <= k < |md.params|
        ensures r.0[offset + k] == Some(RuntimeParameter(md.loadOrder, md.params[k]))
      {
        var t := first + k;
        InTable(t, ParamTable);
        assert first <= t < first + (MaxToken(ParamTable, |md.params|) + 1 - first);
      }
    }
  }

  // ------------------------------------------------------------------ types

  /** The arrays LoadTypes writes, and the InternalCallTypeAttribute type once found. */
  datatype Arena = Arena(types: seq<Option<TypeEntry>>, methods: seq<Option<MethodEntry>>,
                         fields: seq<Option<FieldEntry>>, rtCall: Option<TypeEntry>)

  predicate SameShape(a: Arena, b: Arena)
  {
    |a.types| == |b.types| && |a.methods| == |b.methods| && |a.fields| == |b.fields|
  }

  /**
   * The members of a type: from the row of its first member, in the
   * module's region of the array, up to the next type's first member
   * excluded; empty when there are none.
   */
  function MemberRange(first: int, last: int, moduleOffset: int): (v: ListView)
    ensures v.count >= 0
  {
    if first < last then ListView(RowOf(first) - 1 + moduleOffset, last - first) else EmptyView
  }

  /**
   * For tokens of one table, the range covers the slot of row r (offset +
   * r - 1) exactly when r lies from the first member's row up to the next
   * type's first row, that row excluded.
   */
  lemma MemberRangeCovers(first: int, last: int, offset: int, r: int)
    requires IsToken(first) && IsToken(last) && TableOf(first) == TableOf(last)
    ensures Covers(MemberRange(first, last, offset), offset + r - 1) <==> RowOf(first) <= r < RowOf(last)
  {
    SameTableDifference(first, last);
  }

  /**
   * RuntimeType's inclusive count (max - first + 1), given the next type's
   * first member as LoadTypes passes it, would take one member more than the
   * exclusive range: the next type's first.
   */
  lemma MemberViewOvercounts(first: int, last: int, offset: int)
    requires first < last
    ensures RuntimeTypes.MemberView(first, last, offset).start == MemberRange(first, last, offset).start
    ensures RuntimeTypes.MemberView(first, last, offset).count == MemberRange(first, last, offset).count + 1
  {}

  /** The ClassLayout row LoadTypes is waiting for, and its token. */
  datatype LayoutCursor = LayoutCursor(token: int, row: ClassLayoutRow)

  /** The cursor before the first type: row 1 when the table has rows, an all-zero row otherwise. */
  function FirstLayout(md: ModuleMetadata): Result<LayoutCursor>
  {
    var first := MakeToken(ClassLayoutTable, 1);
    if ClassLayoutTable * RowRadix < MaxToken(ClassLayoutTable, |md.classLayouts|) then
      var row :- ReadClassLayout(md, first);
      Ok(LayoutCursor(first, row))
    else Ok(LayoutCursor(first, DefaultLayoutRow))
  }

  /**
   * The packing and size for the type of a token, and the cursor after it:
   * the waiting row's values when its parent plus one is the token (and the
   * cursor moves on to the next row, if any), zeroes otherwise.
   */
  function TakeLayout(md: ModuleMetadata, cursor: LayoutCursor, token: int): Result<(int, int, LayoutCursor)>
  {
    if cursor.row.parent + 1 == token then
      var next := cursor.token + 1;
      if next <= MaxToken(ClassLayoutTable, |md.classLayouts|) then
        var row :- ReadClassLayout(md, next);
        Ok((cursor.row.packing, cursor.row.size, LayoutCursor(next, row)))
      else Ok((cursor.row.packing, cursor.row.size, LayoutCursor(next, cursor.row)))
    else Ok((0, 0, cursor))
  }

  /** The type LoadTypes creates for a TypeDef row. */
  function NewCilType(md: ModuleMetadata, offs: ModuleOffsets, token: int, row: TypeDefRow,
                      maxField: int, maxMethod: int, packing: int, size: int): TypeEntry
  {
    NewType(CilType(token, md.loadOrder, row, MemberRange(row.fieldList, maxField, offs.fieldOffset),
                    MemberRange(row.methodList, maxMethod, offs.methodOffset), packing, size))
  }

  /** Whether a type is InternalCallTypeAttribute of Mosa.Runtime.Vm. */
  predicate IsInternalCallTypeAttribute(t: TypeEntry)
  {
    TypeName(t) == InternalCallTypeAttributeName && TypeNamespace(t) == InternalCallTypeAttributeNamespace
  }

  /** The state LoadTypes' loop carries from one turn to the next. */
  datatype TypeLoop = TypeLoop(a: Arena, row: TypeDefRow, layout: LayoutCursor,
                               typeOffset: int, methodOffset: int, fieldOffset: int)

  /**
   * One turn of LoadTypes' do-while loop for the type of a token: the next
   * row read (or the tables' ends taken as bounds for the last type), the
   * layout taken, the type created, its methods and fields loaded, the type
   * stored, and InternalCallTypeAttribute remembered the first time.
   */
  function TypeTurn(s: TypeLoop, md: ModuleMetadata, offs: ModuleOffsets, token: int): (r: (TypeLoop, Option<Error>))
    ensures SameShape(r.0.a, s.a)
  {
    var maxTypeDef := MaxToken(TypeDefTable, |md.typeDefs|);
    var read := if token < maxTypeDef then ReadTypeDef(md, token + 1) else Ok(s.row);
    if read.Err? then (s, Some(read.error))
    else
      var maxField := if token < maxTypeDef then read.value.fieldList else MaxToken(FieldTable, |md.fields|) + 1;
      var maxMethod := if token < maxTypeDef then read.value.methodList else MaxToken(MethodDefTable, |md.methodDefs|) + 1;
      match TakeLayout(md, s.layout, token)
      case Err(e) => (s, Some(e))
      case Ok(taken) =>
        var rt := NewCilType(md, offs, token, s.row, maxField, maxMethod, taken.0, taken.1);
        var id := TypeId(md.loadOrder, token);
        var (methods, methodOffset, e1) := LoadMethodsSpec(s.a.methods, md, id, s.row.methodList, maxMethod, s.methodOffset);
        if e1.Some? then (s.(a := s.a.(methods := methods)), e1)
        else
          var (fields, fieldOffset, e2) := LoadFieldsSpec(s.a.fields, md, id, s.row.fieldList, maxField, s.fieldOffset);
          if e2.Some? then (s.(a := s.a.(methods := methods, fields := fields)), e2)
          else if !(0 <= s.typeOffset < |s.a.types|) then (s.(a := s.a.(methods := methods, fields := fields)), Some(IndexOutOfRange))
          else
            var rtCall := if s.a.rtCall.None? && IsInternalCallTypeAttribute(rt) then Some(rt) else s.a.rtCall;
            var a := Arena(s.a.types[s.typeOffset := Some(rt)], methods, fields, rtCall);
            (TypeLoop(a, read.value, taken.2, s.typeOffset + 1, methodOffset, fieldOffset), None)
  }

  /** LoadTypes' loop from the type of a token on, to the first error or past the last TypeDef row. */
  function TypesFrom(s: TypeLoop, md: ModuleMetadata, offs: ModuleOffsets, token: int): (r: (Arena, Option<Error>))
    decreases MaxToken(TypeDefTable, |md.typeDefs|) - token
    ensures SameShape(r.0, s.a)
  {
    var (s', e) := TypeTurn(s, md, offs, token);
    if e.Some? then (s'.a, e)
    else if token < MaxToken(TypeDefTable, |md.typeDefs|) then TypesFrom(s', md, offs, token + 1)
    else (s'.a, None)
  }

  /** The loop state before the first turn: TypeDef row 2 and the given method and field cursors. */
  function FirstTypeLoop(a: Arena, row: TypeDefRow, layout: LayoutCursor, offs: ModuleOffsets, methodOffset: int, fieldOffset: int): TypeLoop
  {
    TypeLoop(a, row, layout, offs.typeOffset, methodOffset, fieldOffset)
  }

  /**
   * LoadTypes as written: the layout cursor set up, TypeDef row 2 read (row
   * 1, <Module>, is skipped) and the loop run with the method and field
   * cursors at the module's offsets, whatever rows <Module> owns.
   */
  function LoadTypesAsWritten(a: Arena, md: ModuleMetadata, offs: ModuleOffsets): (r: (Arena, Option<Error>))
    ensures SameShape(r.0, a)
  {
    match FirstLayout(md)
    case Err(e) => (a, Some(e))
    case Ok(layout) =>
      var token := MakeToken(TypeDefTable, 2);
      match ReadTypeDef(md, token)
      case Err(e) => (a, Some(e))
      case Ok(row) => TypesFrom(FirstTypeLoop(a, row, layout, offs, offs.methodOffset, offs.fieldOffset), md, offs, token)
  }

  /**
   * LoadTypes with the method and field cursors aligned to the rows TypeDef
   * row 2 starts from, so that MethodDef row r lands in slot method offset
   * + r - 1 and Field row r in field offset + r - 1, the slots GetMethod and
   * GetField read; the rows <Module> owns stay empty.
   */
  function LoadTypesSpec(a: Arena, md: ModuleMetadata, offs: ModuleOffsets): (r: (Arena, Option<Error>))
    ensures SameShape(r.0, a)
  {
    match FirstLayout(md)
    case Err(e) => (a, Some(e))
    case Ok(layout) =>
      var token := MakeToken(TypeDefTable, 2);
      match ReadTypeDef(md, token)
      case Err(e) => (a, Some(e))
      case Ok(row) =>
        TypesFrom(FirstTypeLoop(a, row, layout, offs, offs.methodOffset + RowOf(row.methodList) - 1,
                                offs.fieldOffset + RowOf(row.fieldList) - 1), md, offs, token)
  }

  /** The slot GetType reads for TypeDef row r holds the type LoadTypes made from that row. */
  predicate TypeDefPlaced(types: seq<Option<TypeEntry>>, md: ModuleMetadata, offs: ModuleOffsets, r: int)
    requires 1 <= r <= |md.typeDefs|
  {
    var slot := TypeDefSlot(offs, r);
    0 <= slot < |types| && types[slot].Some? && types[slot].value.desc.CilType? &&
    types[slot].value.desc.token == TypeDefTable * RowRadix + r &&
    types[slot].value.desc.loadOrder == md.loadOrder &&
    types[slot].value.desc.row == md.typeDefs[r - 1]
  }

  /**
   * The FieldList and MethodList columns as section II.22.37 of ECMA-335
   * lays them out, from TypeDef row 2 on: tokens of rows 1 to n + 1 of the
   * Field and MethodDef tables, in order.
   */
  predicate ValidMemberLists(md: ModuleMetadata)
  {
    WellFormed(md) &&
    (forall k :: 1 <= k < |md.typeDefs| ==>
       MakeToken(MethodDefTable, 1) <= md.typeDefs[k].methodList <= MaxToken(MethodDefTable, |md.methodDefs|) + 1 &&
       MakeToken(FieldTable, 1) <= md.typeDefs[k].fieldList <= MaxToken(FieldTable, |md.fields|) + 1) &&
    (forall k :: 1 <= k < |md.typeDefs| - 1 ==>
       md.typeDefs[k].methodList <= md.typeDefs[k + 1].methodList && md.typeDefs[k].fieldList <= md.typeDefs[k + 1].fieldList)
  }

  /** Slot shift + t of the methods array holds the method LoadMethods made from MethodDef token t. */
  predicate MethodAt(methods: seq<Option<MethodEntry>>, md: ModuleMetadata, shift: int, t: int)
    requires 1 <= RowOf(t) <= |md.methodDefs|
  {
    var slot := shift + t;
    0 <= slot < |methods| && methods[slot].Some? && methods[slot].value.desc.CilMethod? &&
    methods[slot].value.desc.loadOrder == md.loadOrder &&
    methods[slot].value.desc.row == md.methodDefs[RowOf(t) - 1]
  }

  /** Slot shift + t of the fields array holds the field LoadFields made from Field token t. */
  predicate FieldAt(fields: seq<Option<FieldEntry>>, md: ModuleMetadata, shift: int, t: int)
    requires 1 <= RowOf(t) <= |md.fields|
  {
    var slot := shift + t;
    0 <= slot < |fields| && fields[slot].Some? &&
    fields[slot].value.loadOrder == md.loadOrder && fields[slot].value.row == md.fields[RowOf(t) - 1]
  }

  /** Every MethodDef token from first to last - 1 has its method at slot shift + token. */
  predicate MethodsStored(methods: seq<Option<MethodEntry>>, md: ModuleMetadata, shift: int, first: int, last: int)
  {
    forall t :: first <= t < last ==> 1 <= RowOf(t) <= |md.methodDefs| && MethodAt(methods, md, shift, t)
  }

  /** Every Field token from first to last - 1 has its field at slot shift + token. */
  predicate FieldsStored(fields: seq<Option<FieldEntry>>, md: ModuleMetadata, shift: int, first: int, last: int)
  {
    forall t :: first <= t < last ==> 1 <= RowOf(t) <= |md.fields| && FieldAt(fields, md, shift, t)
  }

  /** The two arrays have the same length and every slot outside lo to hi - 1 holds the same entry. */
  predicate Kept<T(==)>(before: seq<T>, after: seq<T>, lo: int, hi: int)
  {
    |before| == |after| && forall i :: 0 <= i < |before| && !(lo <= i < hi) ==> after[i] == before[i]
  }

  /** One type's method run: tokens first to last - 1 land at shift + token. */
  lemma OneTypeStoresMethods(methods: seq<Option<MethodEntry>>, md: ModuleMetadata, id: TypeId, first: int, last: int, shift: int)
    requires MethodRange(md, first, last) && first <= last
    ensures var r := LoadMethodsSpec(methods, md, id, first, last, shift + first);
            r.2.None? ==>
              r.1 == shift + last && MethodsStored(r.0, md, shift, first, last) && Kept(methods, r.0, shift + first, shift + last)
  {
    if first < last {
      assert ReadMethodDef(md, first) == Ok(md.methodDefs[RowOf(first) - 1]);
      MethodsFromStores(methods, md, id, first, last, shift + first, md.methodDefs[RowOf(first) - 1], DefaultMethodDefRow);
      var r := LoadMethodsSpec(methods, md, id, first, last, shift + first);
      if r.2.None? {
        assert shift + first + (last - first) == shift + last;
        forall t | first <= t < last
          ensures 1 <= RowOf(t) <= |md.methodDefs| && MethodAt(r.0, md, shift, t)
        {
          assert shift + first + (t - first) == shift + t;
        }
      }
    }
  }

  /** One type's field run: tokens first to last - 1 land at shift + token. */
  lemma OneTypeStoresFields(fields: seq<Option<FieldEntry>>, md: ModuleMetadata, id: TypeId, first: int, last: int, shift: int)
    requires FieldRange(md, first, last) && first <= last
    ensures var r := LoadFieldsSpec(fields, md, id, first, last, shift + first);
            r.2.None? ==>
              r.1 == shift + last && FieldsStored(r.0, md, shift, first, last) && Kept(fields, r.0, shift + first, shift + last)
  {
    FieldsFromStores(fields, md, id, first, last, shift + first);
    var r := LoadFieldsSpec(fields, md, id, first, last, shift + first);
    if r.2.None? {
      assert shift + first + (last - first) == shift + last;
      forall t | first <= t < last
        ensures 1 <= RowOf(t) <= |md.fields| && FieldAt(r.0, md, shift, t)
      {
        assert shift + first + (t - first) == shift + t;
      }
    }
  }

  /** The first member token past the type of TypeDef row k: the next row's, or one past the table for the last type. */
  function NextMethodList(md: ModuleMetadata, k: int): int
    requires 1 <= k <= |md.typeDefs|
  {
    if k < |md.typeDefs| then md.typeDefs[k].methodList else MaxToken(MethodDefTable, |md.methodDefs|) + 1
  }

  function NextFieldList(md: ModuleMetadata, k: int): int
    requires 1 <= k <= |md.typeDefs|
  {
    if k < |md.typeDefs| then md.typeDefs[k].fieldList else MaxToken(FieldTable, |md.fields|) + 1
  }

  /**
   * One successful turn for TypeDef row k: the type lands in the type
   * cursor's slot, nothing else in the types array changes, the cursor
   * moves on by one, and the next row read is row k + 1.
   */
  lemma TypeTurnPlaces(s: TypeLoop, md: ModuleMetadata, offs: ModuleOffsets, k: int)
    requires WellFormed(md) && 2 <= k <= |md.typeDefs| && s.row == md.typeDefs[k - 1]
    ensures var (s', e) := TypeTurn(s, md, offs, MakeToken(TypeDefTable, k));
            e.None? ==>
              0 <= s.typeOffset < |s.a.types| && s'.typeOffset == s.typeOffset + 1 &&
              s'.a.types == s.a.types[s.typeOffset := s'.a.types[s.typeOffset]] &&
              s'.a.types[s.typeOffset].Some? && s'.a.types[s.typeOffset].value.desc.CilType? &&
              s'.a.types[s.typeOffset].value.desc.token == TypeDefTable * RowRadix + k &&
              s'.a.types[s.typeOffset].value.desc.loadOrder == md.loadOrder &&
              s'.a.types[s.typeOffset].value.desc.row == md.typeDefs[k - 1] &&
              (k < |md.typeDefs| ==> s'.row == md.typeDefs[k])
  {
    var token := MakeToken(TypeDefTable, k);
    if k < |md.typeDefs| {
      assert token < MaxToken(TypeDefTable, |md.typeDefs|) && token + 1 == MakeToken(TypeDefTable, k + 1);
      assert ReadTypeDef(md, token + 1) == Ok(md.typeDefs[k]);
    }
  }

  /**
   * One successful turn for TypeDef row k, with the member lists laid out
   * as the standard says: the row's methods land at their shift, the method
   * cursor moves past them, and no other method slot changes.
   */
  lemma TypeTurnStoresMethods(s: TypeLoop, md: ModuleMetadata, offs: ModuleOffsets, k: int, shift: int)
    requires ValidMemberLists(md) && 2 <= k <= |md.typeDefs| && s.row == md.typeDefs[k - 1]
    requires s.methodOffset == shift + s.row.methodList
    ensures var (s', e) := TypeTurn(s, md, offs, MakeToken(TypeDefTable, k));
            var first := md.typeDefs[k - 1].methodList;
            var last := NextMethodList(md, k);
            e.None? ==>
              s'.methodOffset == shift + last && (k < |md.typeDefs| ==> s'.row == md.typeDefs[k]) &&
              MethodsStored(s'.a.methods, md, shift, first, last) && Kept(s.a.methods, s'.a.methods, shift + first, shift + last)
  {
    var token := MakeToken(TypeDefTable, k);
    var maxTypeDef := MaxToken(TypeDefTable, |md.typeDefs|);
    var read := if token < maxTypeDef then ReadTypeDef(md, token + 1) else Ok(s.row);
    if k < |md.typeDefs| {
      assert token < maxTypeDef && token + 1 == MakeToken(TypeDefTable, k + 1);
      assert read == Ok(md.typeDefs[k]);
    }
    var maxMethod := if token < maxTypeDef then read.value.methodList else MaxToken(MethodDefTable, |md.methodDefs|) + 1;
    assert maxMethod == NextMethodList(md, k);
    OneTypeStoresMethods(s.a.methods, md, TypeId(md.loadOrder, token), s.row.methodList, maxMethod, shift);
  }

  /**
   * One successful turn for TypeDef row k, with the member lists laid out
   * as the standard says: the row's fields land at their shift, the field
   * cursor moves past them, and no other field slot changes.
   */
  lemma TypeTurnStoresFields(s: TypeLoop, md: ModuleMetadata, offs: ModuleOffsets, k: int, shift: int)
    requires ValidMemberLists(md) && 2 <= k <= |md.typeDefs| && s.row == md.typeDefs[k - 1]
    requires s.fieldOffset == shift + s.row.fieldList
    ensures var (s', e) := TypeTurn(s, md, offs, MakeToken(TypeDefTable, k));
            var first := md.typeDefs[k - 1].fieldList;
            var last := NextFieldList(md, k);
            e.None? ==>
              s'.fieldOffset == shift + last && (k < |md.typeDefs| ==> s'.row == md.typeDefs[k]) &&
              FieldsStored(s'.a.fields, md, shift, first, last) && Kept(s.a.fields, s'.a.fields, shift + first, shift + last)
  {
    var token := MakeToken(TypeDefTable, k);
    var maxTypeDef := MaxToken(TypeDefTable, |md.typeDefs|);
    var read := if token < maxTypeDef then ReadTypeDef(md, token + 1) else Ok(s.row);
    if k < |md.typeDefs| {
      assert token < maxTypeDef && token + 1 == MakeToken(TypeDefTable, k + 1);
      assert read == Ok(md.typeDefs[k]);
    }
    var maxField := if token < maxTypeDef then read.value.fieldList else MaxToken(FieldTable, |md.fields|) + 1;
    assert maxField == NextFieldList(md, k);
    OneTypeStoresFields(s.a.fields, md, TypeId(md.loadOrder, token), s.row.fieldList, maxField, shift);
  }

  /** r is the outcome of LoadTypes' loop from the type of TypeDef row k on, in state s. */
  predicate RunFrom(r: (Arena, Option<Error>), s: TypeLoop, md: ModuleMetadata, offs: ModuleOffsets, k: int)
    requires 0 <= k < RowRadix
  {
    r == TypesFrom(s, md, offs, MakeToken(TypeDefTable, k))
  }

  /** A successful run from TypeDef row k before the last is a successful turn followed by the run from row k + 1. */
  lemma RunFromNext(s: TypeLoop, md: ModuleMetadata, offs: ModuleOffsets, k: int, r: (Arena, Option<Error>))
    requires WellFormed(md) && 2 <= k < |md.typeDefs|
    requires RunFrom(r, s, md, offs, k) && r.1.None?
    ensures TypeTurn(s, md, offs, MakeToken(TypeDefTable, k)).1.None?
    ensures RunFrom(r, TypeTurn(s, md, offs, MakeToken(TypeDefTable, k)).0, md, offs, k + 1)
  {
    assert MakeToken(TypeDefTable, k) + 1 == MakeToken(TypeDefTable, k + 1);
  }

  /** A successful run from the last TypeDef row is that row's turn alone. */
  lemma RunFromLast(s: TypeLoop, md: ModuleMetadata, offs: ModuleOffsets, k: int, r: (Arena, Option<Error>))
    requires WellFormed(md) && 2 <= k == |md.typeDefs|
    requires RunFrom(r, s, md, offs, k) && r.1.None?
    ensures TypeTurn(s, md, offs, MakeToken(TypeDefTable, k)).1.None?
    ensures r.0 == TypeTurn(s, md, offs, MakeToken(TypeDefTable, k)).0.a
  {
  }

  lemma {:induction false} TypesFromPlaces(s: TypeLoop, md: ModuleMetadata, offs: ModuleOffsets, k: int, r: (Arena, Option<Error>))
    requires WellFormed(md) && 2 <= k <= |md.typeDefs|
    requires s.row == md.typeDefs[k - 1] && s.typeOffset == TypeDefSlot(offs, k)
    requires RunFrom(r, s, md, offs, k)
    decreases |md.typeDefs| - k
    ensures r.1.None? ==>
              (forall row :: k <= row <= |md.typeDefs| ==> TypeDefPlaced(r.0.types, md, offs, row)) &&
              (forall i :: 0 <= i < |s.a.types| && !(s.typeOffset <= i <= TypeDefSlot(offs, |md.typeDefs|)) ==> r.0.types[i] == s.a.types[i])
  {
    var token := MakeToken(TypeDefTable, k);
    var s' := TypeTurn(s, md, offs, token).0;
    if r.1.None? {
      TypeTurnPlaces(s, md, offs, k);
      assert TypeDefPlaced(s'.a.types, md, offs, k);
      if k < |md.typeDefs| {
        RunFromNext(s, md, offs, k, r);
        TypesFromPlaces(s', md, offs, k + 1, r);
      }
    }
  }

  /**
   * Every TypeDef row from 2 on sits in the slot GetType reads for it (type
   * offset + row - 2), and no slot outside the module's TypeDef region
   * differs from a.
   */
  predicate TypesPlaced(r: (Arena, Option<Error>), a: Arena, md: ModuleMetadata, offs: ModuleOffsets)
    requires WellFormed(md) && SameShape(r.0, a)
  {
    2 <= |md.typeDefs| &&
    (forall row :: 2 <= row <= |md.typeDefs| ==> TypeDefPlaced(r.0.types, md, offs, row)) &&
    (forall i :: 0 <= i < |a.types| && !(offs.typeOffset <= i <= TypeDefSlot(offs, |md.typeDefs|)) ==> r.0.types[i] == a.types[i])
  }

  /**
   * A successful LoadTypes places every TypeDef row where GetType reads it,
   * as written and corrected alike: placement does not depend on the member
   * cursors.
   */
  lemma LoadTypesPlaces(a: Arena, md: ModuleMetadata, offs: ModuleOffsets)
    requires WellFormed(md)
    ensures LoadTypesSpec(a, md, offs).1.None? ==> TypesPlaced(LoadTypesSpec(a, md, offs), a, md, offs)
    ensures LoadTypesAsWritten(a, md, offs).1.None? ==> TypesPlaced(LoadTypesAsWritten(a, md, offs), a, md, offs)
  {
    var r := LoadTypesSpec(a, md, offs);
    var w := LoadTypesAsWritten(a, md, offs);
    if r.1.None? || w.1.None? {
      var token := MakeToken(TypeDefTable, 2);
      assert ReadTypeDef(md, token).Ok?;
      var row := md.typeDefs[1];
      TypesFromPlaces(FirstTypeLoop(a, row, FirstLayout(md).value, offs, offs.methodOffset + RowOf(row.methodList) - 1,
                                    offs.fieldOffset + RowOf(row.fieldList) - 1), md, offs, 2, r);
      TypesFromPlaces(FirstTypeLoop(a, row, FirstLayout(md).value, offs, offs.methodOffset, offs.fieldOffset), md, offs, 2, w);
    }
  }

  /**
   * One type's methods stored into before (giving mid), then the following
   * types' stored into mid (giving after): together, every token from the
   * first type's on lands at its shift, and slots outside the run keep
   * their old entries.
   */
  lemma CombineMethodRuns(before: seq<Option<MethodEntry>>, mid: seq<Option<MethodEntry>>, after: seq<Option<MethodEntry>>,
                         md: ModuleMetadata, shift: int, first: int, next: int, end: int)
    requires first <= next <= end
    requires MethodsStored(mid, md, shift, first, next) && Kept(before, mid, shift + first, shift + next)
    requires MethodsStored(after, md, shift, next, end) && Kept(mid, after, shift + next, shift + end)
    ensures MethodsStored(after, md, shift, first, end) && Kept(before, after, shift + first, shift + end)
  {
    forall t | first <= t < next
      ensures 1 <= RowOf(t) <= |md.methodDefs| && MethodAt(after, md, shift, t)
    {
      assert MethodAt(mid, md, shift, t);
      assert after[shift + t] == mid[shift + t];
    }
    forall i | 0 <= i < |before| && !(shift + first <= i < shift + end)
      ensures after[i] == before[i]
    {
      assert mid[i] == before[i];
    }
  }

  /** CombineMethodRuns for the fields array. */
  lemma CombineFieldRuns(before: seq<Option<FieldEntry>>, mid: seq<Option<FieldEntry>>, after: seq<Option<FieldEntry>>,
                         md: ModuleMetadata, shift: int, first: int, next: int, end: int)
    requires first <= next <= end
    requires FieldsStored(mid, md, shift, first, next) && Kept(before, mid, shift + first, shift + next)
    requires FieldsStored(after, md, shift, next, end) && Kept(mid, after, shift + next, shift + end)
    ensures FieldsStored(after, md, shift, first, end) && Kept(before, after, shift + first, shift + end)
  {
    forall t | first <= t < next
      ensures 1 <= RowOf(t) <= |md.fields| && FieldAt(after, md, shift, t)
    {
      assert FieldAt(mid, md, shift, t);
      assert after[shift + t] == mid[shift + t];
    }
    forall i | 0 <= i < |before| && !(shift + first <= i < shift + end)
      ensures after[i] == before[i]
    {
      assert mid[i] == before[i];
    }
  }

  lemma {:induction false} TypesFromStoresMethods(s: TypeLoop, md: ModuleMetadata, offs: ModuleOffsets, k: int, shift: int, r: (Arena, Option<Error>))
    requires ValidMemberLists(md) && 2 <= k <= |md.typeDefs| && s.row == md.typeDefs[k - 1]
    requires s.methodOffset == shift + s.row.methodList
    requires RunFrom(r, s, md, offs, k)
    decreases |md.typeDefs| - k
    ensures var end := MaxToken(MethodDefTable, |md.methodDefs|) + 1;
            r.1.None? ==>
              MethodsStored(r.0.methods, md, shift, s.row.methodList, end) && Kept(s.a.methods, r.0.methods, shift + s.row.methodList, shift + end)
  {
    var token := MakeToken(TypeDefTable, k);
    var end := MaxToken(MethodDefTable, |md.methodDefs|) + 1;
    var s' := TypeTurn(s, md, offs, token).0;
    if r.1.None? {
      TypeTurnStoresMethods(s, md, offs, k, shift);
      if k == |md.typeDefs| {
        RunFromLast(s, md, offs, k, r);
      } else {
        RunFromNext(s, md, offs, k, r);
        TypesFromStoresMethods(s', md, offs, k + 1, shift, r);
        CombineMethodRuns(s.a.methods, s'.a.methods, r.0.methods, md, shift, s.row.methodList, s'.row.methodList, end);
      }
    }
  }

  lemma {:induction false} TypesFromStoresFields(s: TypeLoop, md: ModuleMetadata, offs: ModuleOffsets, k: int, shift: int, r: (Arena, Option<Error>))
    requires ValidMemberLists(md) && 2 <= k <= |md.typeDefs| && s.row == md.typeDefs[k - 1]
    requires s.fieldOffset == shift + s.row.fieldList
    requires RunFrom(r, s, md, offs, k)
    decreases |md.typeDefs| - k
    ensures var end := MaxToken(FieldTable, |md.fields|) + 1;
            r.1.None? ==>
              FieldsStored(r.0.fields, md, shift, s.row.fieldList, end) && Kept(s.a.fields, r.0.fields, shift + s.row.fieldList, shift + end)
  {
    var token := MakeToken(TypeDefTable, k);
    var end := MaxToken(FieldTable, |md.fields|) + 1;
    var s' := TypeTurn(s, md, offs, token).0;
    if r.1.None? {
      TypeTurnStoresFields(s, md, offs, k, shift);
      if k == |md.typeDefs| {
        RunFromLast(s, md, offs, k, r);
      } else {
        RunFromNext(s, md, offs, k, r);
        TypesFromStoresFields(s', md, offs, k + 1, shift, r);
        CombineFieldRuns(s.a.fields, s'.a.fields, r.0.fields, md, shift, s.row.fieldList, s'.row.fieldList, end);
      }
    }
  }

  /** A successful LoadTypesAsWritten is the loop run from TypeDef row 2 with the cursors at the module's offsets. */
  lemma LoadTypesAsWrittenRuns(a: Arena, md: ModuleMetadata, offs: ModuleOffsets)
    requires WellFormed(md) && 2 <= |md.typeDefs|
    ensures var r := LoadTypesAsWritten(a, md, offs);
            r.1.None? ==>
              FirstLayout(md).Ok? &&
              RunFrom(r, FirstTypeLoop(a, md.typeDefs[1], FirstLayout(md).value, offs, offs.methodOffset, offs.fieldOffset), md, offs, 2)
  {
    assert ReadTypeDef(md, MakeToken(TypeDefTable, 2)) == Ok(md.typeDefs[1]);
  }

  /**
   * With the methods from token first on stored one slot per token from the
   * module's method offset, GetMethod's slot for MethodDef token t holds the
   * method of token t + first - 1.
   */
  lemma ShiftedMethodFound(methods: seq<Option<MethodEntry>>, md: ModuleMetadata, offsets: seq<ModuleOffsets>, first: int, token: int)
    requires WellFormed(md) && 0 <= md.loadOrder < |offsets|
    requires MakeToken(MethodDefTable, 1) <= first <= token
    requires token + (first - MakeToken(MethodDefTable, 1)) < MaxToken(MethodDefTable, |md.methodDefs|) + 1
    requires MethodsStored(methods, md, offsets[md.loadOrder].methodOffset - first, first, MaxToken(MethodDefTable, |md.methodDefs|) + 1)
    ensures var found := LookupMethodDef(methods, offsets, md, token);
            1 <= RowOf(token) + RowOf(first) - 1 <= |md.methodDefs| &&
            found.Ok? && found.value.Some? && found.value.value.desc.CilMethod? &&
            found.value.value.desc.row == md.methodDefs[RowOf(token) + RowOf(first) - 2]
  {
    var moved := token + (first - MakeToken(MethodDefTable, 1));
    InTable(first, MethodDefTable);
    InTable(token, MethodDefTable);
    InTable(moved, MethodDefTable);
    assert MethodAt(methods, md, offsets[md.loadOrder].methodOffset - first, moved);
  }

  /**
   * As written, GetMethod's slot for MethodDef row r holds the method of row
   * r + s - 1, s being the first row TypeDef row 2 owns: one off for every
   * method <Module> owns.
   */
  lemma LoadTypesAsWrittenShiftsMethods(a: Arena, md: ModuleMetadata, offs: ModuleOffsets, offsets: seq<ModuleOffsets>, token: int)
    requires ValidMemberLists(md) && 2 <= |md.typeDefs|
    requires 0 <= md.loadOrder < |offsets| && offsets[md.loadOrder] == offs
    requires md.typeDefs[1].methodList <= token
    requires token + (md.typeDefs[1].methodList - MakeToken(MethodDefTable, 1)) < MaxToken(MethodDefTable, |md.methodDefs|) + 1
    ensures var r := LoadTypesAsWritten(a, md, offs);
            var found := LookupMethodDef(r.0.methods, offsets, md, token);
            r.1.None? ==>
              1 <= RowOf(token) + RowOf(md.typeDefs[1].methodList) - 1 <= |md.methodDefs| &&
              found.Ok? && found.value.Some? && found.value.value.desc.CilMethod? &&
              found.value.value.desc.row == md.methodDefs[RowOf(token) + RowOf(md.typeDefs[1].methodList) - 2]
  {
    var r := LoadTypesAsWritten(a, md, offs);
    if r.1.None? {
      LoadTypesAsWrittenRuns(a, md, offs);
      var first := md.typeDefs[1].methodList;
      var loop := FirstTypeLoop(a, md.typeDefs[1], FirstLayout(md).value, offs, offs.methodOffset, offs.fieldOffset);
      TypesFromStoresMethods(loop, md, offs, 2, offs.methodOffset - first, r);
      ShiftedMethodFound(r.0.methods, md, offsets, first, token);
    }
  }

  /** The loop state LoadTypesSpec starts from: TypeDef row 2, the first layout row and the aligned member cursors. */
  function AlignedLoop(a: Arena, md: ModuleMetadata, offs: ModuleOffsets, layout: LayoutCursor): TypeLoop
    requires 2 <= |md.typeDefs|
  {
    var row := md.typeDefs[1];
    FirstTypeLoop(a, row, layout, offs, offs.methodOffset + RowOf(row.methodList) - 1, offs.fieldOffset + RowOf(row.fieldList) - 1)
  }

  /** A successful LoadTypesSpec is the loop run from TypeDef row 2 with the aligned cursors. */
  lemma LoadTypesSpecRuns(a: Arena, md: ModuleMetadata, offs: ModuleOffsets)
    requires WellFormed(md) && 2 <= |md.typeDefs|
    ensures var r := LoadTypesSpec(a, md, offs);
            r.1.None? ==> FirstLayout(md).Ok? && RunFrom(r, AlignedLoop(a, md, offs, FirstLayout(md).value), md, offs, 2)
  {
    assert ReadTypeDef(md, MakeToken(TypeDefTable, 2)) == Ok(md.typeDefs[1]);
  }

  /** A method stored at its aligned slot is what GetMethod finds for its token. */
  lemma MethodFound(methods: seq<Option<MethodEntry>>, md: ModuleMetadata, offsets: seq<ModuleOffsets>, shift: int, token: int)
    requires 0 <= md.loadOrder < |offsets| && 1 <= RowOf(token) <= |md.methodDefs| && MethodAt(methods, md, shift, token)
    requires shift + token == offsets[md.loadOrder].methodOffset + RowOf(token) - 1
    ensures var found := LookupMethodDef(methods, offsets, md, token);
            found.Ok? && found.value.Some? && found.value.value.desc.CilMethod? &&
            found.value.value.desc.row == md.methodDefs[RowOf(token) - 1]
  {
  }

  /** A field stored at its aligned slot is what GetField finds for its token. */
  lemma FieldFound(fields: seq<Option<FieldEntry>>, md: ModuleMetadata, offsets: seq<ModuleOffsets>, shift: int, token: int)
    requires 0 <= md.loadOrder < |offsets| && 1 <= RowOf(token) <= |md.fields| && FieldAt(fields, md, shift, token)
    requires shift + token == offsets[md.loadOrder].fieldOffset + RowOf(token) - 1
    ensures var found := LookupField(fields, offsets, md, token);
            found.Ok? && found.value.Some? && found.value.value.row == md.fields[RowOf(token) - 1]
  {
  }

  /** With the cursors aligned, GetMethod's slot for every MethodDef row from TypeDef row 2's first on holds that row's method. */
  lemma LoadTypesAlignsMethods(a: Arena, md: ModuleMetadata, offs: ModuleOffsets, offsets: seq<ModuleOffsets>, token: int)
    requires ValidMemberLists(md) && 2 <= |md.typeDefs|
    requires 0 <= md.loadOrder < |offsets| && offsets[md.loadOrder] == offs
    requires md.typeDefs[1].methodList <= token < MaxToken(MethodDefTable, |md.methodDefs|) + 1
    ensures var r := LoadTypesSpec(a, md, offs);
            var found := LookupMethodDef(r.0.methods, offsets, md, token);
            r.1.None? ==>
              1 <= RowOf(token) <= |md.methodDefs| &&
              found.Ok? && found.value.Some? && found.value.value.desc.CilMethod? &&
              found.value.value.desc.row == md.methodDefs[RowOf(token) - 1]
  {
    var r := LoadTypesSpec(a, md, offs);
    if r.1.None? {
      LoadTypesSpecRuns(a, md, offs);
      var row := md.typeDefs[1];
      var loop := AlignedLoop(a, md, offs, FirstLayout(md).value);
      var shift := loop.methodOffset - row.methodList;
      TypesFromStoresMethods(loop, md, offs, 2, shift, r);
      InTable(row.methodList, MethodDefTable);
      InTable(token, MethodDefTable);
      MethodFound(r.0.methods, md, offsets, shift, token);
    }
  }

  /** With the cursors aligned, GetField's slot for every Field row from TypeDef row 2's first on holds that row's field. */
  lemma LoadTypesAlignsFields(a: Arena, md: ModuleMetadata, offs: ModuleOffsets, offsets: seq<ModuleOffsets>, token: int)
    requires ValidMemberLists(md) && 2 <= |md.typeDefs|
    requires 0 <= md.loadOrder < |offsets| && offsets[md.loadOrder] == offs
    requires md.typeDefs[1].fieldList <= token < MaxToken(FieldTable, |md.fields|) + 1
    ensures var r := LoadTypesSpec(a, md, offs);
            var found := LookupField(r.0.fields, offsets, md, token);
            r.1.None? ==>
              1 <= RowOf(token) <= |md.fields| &&
              found.Ok? && found.value.Some? && found.value.value.row == md.fields[RowOf(token) - 1]
  {
    var r := LoadTypesSpec(a, md, offs);
    if r.1.None? {
      LoadTypesSpecRuns(a, md, offs);
      var row := md.typeDefs[1];
      var loop := AlignedLoop(a, md, offs, FirstLayout(md).value);
      var shift := loop.fieldOffset - row.fieldList;
      TypesFromStoresFields(loop, md, offs, 2, shift, r);
      InTable(row.fieldList, FieldTable);
      InTable(token, FieldTable);
      FieldFound(r.0.fields, md, offsets, shift, token);
    }
  }
}
