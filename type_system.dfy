// DefaultTypeSystem (Source/Runtime/Vm/DefaultTypeSystem.cs): the arrays of
// all types, methods, fields and parameters of the loaded modules, each
// module's offsets into them, the internal-call cache and the types marked
// with InternalCallTypeAttribute. AssemblyLoaded grows the arrays and runs
// the loaders; the lookups resolve metadata tokens against them. Every
// method is proved to compute what the functions of modules TypeLoading,
// TypeLookup and Annotations say, and the lemmas there say what that means.
module TypeSystems {
  import opened Wrappers
  import opened MetadataTokens
  import opened Metadata
  import opened ListViews
  import opened TypeEntries
  import opened TypeLookup
  import opened TypeLoading
  import opened OwnerGroups
  import opened Annotations

  /** The attribute that marks a method as the implementation of an internal call. */
  const InternalCallImplAttributeName := "Mosa.Runtime.Vm.InternalCallImplAttribute"

  /**
   * The implementation of an internal call that is not remembered: its
   * first InternalCallImplAttribute (there must be one) searched for among
   * the methods of the internal types. A call with no such attribute fails
   * on its first element; otherwise a result is a method of an internal
   * type implementing the first such attribute, and NotImplementedException
   * means that no method of any internal type does.
   */
  function InternalCallTarget(types: seq<Option<TypeEntry>>, methods: seq<Option<MethodEntry>>, internalTypes: seq<TypeEntry>,
                              call: MethodEntry, matches: AttributeMatch): (r: Result<MethodEntry>)
    ensures var implType := GetTypeByName(types, InternalCallImplAttributeName);
            var callDefs := AttributesOfType(call.attributes, implType);
            (|callDefs| == 0 ==> r == Err(IndexOutOfRange)) &&
            (r.Ok? ==> |callDefs| > 0 && Implements(r.value, implType, callDefs[0], matches) &&
                       exists t, i :: MethodOfInternalType(methods, internalTypes, t, i) && methods[i] == Some(r.value)) &&
            (r == Err(NotImplemented) ==>
               |callDefs| > 0 &&
               forall t, i :: MethodOfInternalType(methods, internalTypes, t, i) ==> !Implements(methods[i].value, implType, callDefs[0], matches))
  {
    var implType := GetTypeByName(types, InternalCallImplAttributeName);
    var callDefs := AttributesOfType(call.attributes, implType);
    if |callDefs| == 0 then Err(IndexOutOfRange)
    else
      SearchInternalTypesMeaning(methods, internalTypes, 0, implType, callDefs[0], matches);
      SearchInternalTypes(methods, internalTypes, 0, implType, callDefs[0], matches)
  }

  class DefaultTypeSystem {
    var types: seq<Option<TypeEntry>>
    var methods: seq<Option<MethodEntry>>
    var fields: seq<Option<FieldEntry>>
    var parameters: seq<Option<ParamEntry>>
    var moduleOffsets: seq<ModuleOffsets>
    /** The cache of GetImplementationForInternalCall. */
    var internalCallTargets: map<MethodEntry, MethodEntry>
    /** The types that carry InternalCallTypeAttribute. */
    var internalTypes: seq<TypeEntry>
    /** InternalCallTypeAttribute, once LoadTypes has met it. */
    var rtCallTypeAttribute: Option<TypeEntry>
    /** The assembly loader: the modules it can resolve, by assembly name. */
    const loader: map<string, ModuleMetadata>
    /**
     * Which loaders run: false for the source's, whose LoadTypes starts the
     * member cursors at the module's offsets and whose LoadGenerics commits
     * a group only on a greater owner token; true for the corrected ones.
     */
    const corrected: bool

    constructor(loader: map<string, ModuleMetadata>, corrected: bool)
      ensures this.loader == loader && this.corrected == corrected
      ensures types == [] && methods == [] && fields == [] && parameters == [] && moduleOffsets == []
      ensures internalCallTargets == map[] && internalTypes == [] && rtCallTypeAttribute.None?
    {
      this.loader := loader;
      this.corrected := corrected;
      types := [];
      methods := [];
      fields := [];
      parameters := [];
      moduleOffsets := [];
      internalCallTargets := map[];
      internalTypes := [];
      rtCallTypeAttribute := None;
    }

    /** The arrays LoadTypes writes. */
    function LoadState(): Arena
      reads this
    {
      Arena(types, methods, fields, rtCallTypeAttribute)
    }

    /** The arrays LoadGenerics and LoadCustomAttributes write. */
    function AnnotatedState(): Tables
      reads this
    {
      Tables(types, methods, internalTypes)
    }

    // ------------------------------------------------------------ loaders

    /**
     * LoadMethods: the methods from `first` up to `last` excluded, stored
     * from `offset` on; returns the offset after the last one.
     */
    method LoadMethods(md: ModuleMetadata, declaring: TypeId, first: int, last: int, offset: int)
      returns (next: int, failure: Option<Error>)
      modifies this`methods
      ensures (methods, next, failure) == LoadMethodsSpec(old(methods), md, declaring, first, last, offset)
    {
      next, failure := offset, None;
      if first < last {
        var read := ReadMethodDef(md, first);
        if read.Err? {
          failure := Some(read.error);
          return;
        }
        var methodDef := read.value;
        var nextMethodDef := DefaultMethodDefRow;
        var maxMethod := MaxToken(MethodDefTable, |md.methodDefs|);
        var token := first;
        while token < last
          invariant token <= last
          invariant LoadMethodsSpec(old(methods), md, declaring, first, last, offset) ==
                    MethodsFrom(methods, md, declaring, token, last, next, methodDef, nextMethodDef)
          decreases last - token
        {
          var maxParam;
          if token < maxMethod {
            var row := ReadMethodDef(md, token + 1);
            if row.Err? {
              failure := Some(row.error);
              return;
            }
            nextMethodDef := row.value;
            maxParam := nextMethodDef.paramList;
          } else {
            maxParam := MaxToken(ParamTable, |md.params|) + 1;
          }
          if !(0 <= next < |methods|) {
            failure := Some(IndexOutOfRange);
            return;
          }
          methods := methods[next := Some(NewMethod(CilMethod(next + 1, md.loadOrder, methodDef, maxParam, declaring)))];
          next := next + 1;
          methodDef := nextMethodDef;
          token := token + 1;
        }
      }
    }

    /** LoadFields: the fields from `first` up to `last` excluded, stored from `offset` on. */
    method LoadFields(md: ModuleMetadata, declaring: TypeId, first: int, last: int, offset: int)
      returns (next: int, failure: Option<Error>)
      modifies this`fields
      ensures (fields, next, failure) == LoadFieldsSpec(old(fields), md, declaring, first, last, offset)
    {
      next, failure := offset, None;
      var token := first;
      while token < last
        invariant LoadFieldsSpec(old(fields), md, declaring, first, last, offset) ==
                  FieldsFrom(fields, md, declaring, token, last, next)
        decreases last - token
      {
        var field := ReadField(md, token);
        if field.Err? {
          failure := Some(field.error);
          return;
        }
        if !(0 <= next < |fields|) {
          failure := Some(IndexOutOfRange);
          return;
        }
        fields := fields[next := Some(CilField(md.loadOrder, field.value, declaring))];
        next := next + 1;
        token := token + 1;
      }
    }

    /** LoadParameters: every Param row of the module, stored from `offset` on. */
    method LoadParameters(md: ModuleMetadata, offset: int) returns (failure: Option<Error>)
      modifies this`parameters
      ensures (parameters, failure) == LoadParametersSpec(old(parameters), md, offset)
    {
      failure := None;
      var maxParam := MaxToken(ParamTable, |md.params|);
      var token := MakeToken(ParamTable, 1);
      var next := offset;
      while token <= maxParam
        invariant LoadParametersSpec(old(parameters), md, offset) == ParamsFrom(parameters, md, token, next)
        decreases maxParam - token
      {
        var row := ReadParam(md, token);
        if row.Err? {
          failure := Some(row.error);
          return;
        }
        if !(0 <= next < |parameters|) {
          failure := Some(IndexOutOfRange);
          return;
        }
        parameters := parameters[next := Some(RuntimeParameter(md.loadOrder, row.value))];
        next := next + 1;
        token := token + 1;
      }
    }

    /**
     * One turn of LoadTypes' loop, for the type of a token: the next row read
     * (the tables' ends are the bounds of the last type), the type's layout
     * taken, the type created with its methods and fields, stored, and
     * remembered when it is InternalCallTypeAttribute; returns the cursors
     * the next turn starts from.
     */
    method LoadType(md: ModuleMetadata, offs: ModuleOffsets, token: int, typeDefRow: TypeDefRow, layout: LayoutCursor,
                    typeOffset: int, methodOffset: int, fieldOffset: int)
      returns (nextRow: TypeDefRow, nextLayout: LayoutCursor, nextType: int, nextMethod: int, nextField: int, failure: Option<Error>)
      modifies this`types, this`methods, this`fields, this`rtCallTypeAttribute
      ensures (TypeLoop(LoadState(), nextRow, nextLayout, nextType, nextMethod, nextField), failure) ==
              TypeTurn(TypeLoop(old(LoadState()), typeDefRow, layout, typeOffset, methodOffset, fieldOffset), md, offs, token)
    {
      nextRow, nextLayout, nextType, nextMethod, nextField := typeDefRow, layout, typeOffset, methodOffset, fieldOffset;
      var maxTypeDef := MaxToken(TypeDefTable, |md.typeDefs|);
      var maxField, maxMethod;
      if token < maxTypeDef {
        var row := ReadTypeDef(md, token + 1);
        if row.Err? {
          failure := Some(row.error);
          return;
        }
        maxField := row.value.fieldList;
        maxMethod := row.value.methodList;
        nextRow := row.value;
      } else {
        maxMethod := MaxToken(MethodDefTable, |md.methodDefs|) + 1;
        maxField := MaxToken(FieldTable, |md.fields|) + 1;
      }
      var packing, size := 0, 0;
      var tokenLayout, layoutRow := layout.token, layout.row;
      if layoutRow.parent + 1 == token {
        size := layoutRow.size;
        packing := layoutRow.packing;
        tokenLayout := tokenLayout + 1;
        if tokenLayout <= MaxToken(ClassLayoutTable, |md.classLayouts|) {
          var row := ReadClassLayout(md, tokenLayout);
          if row.Err? {
            nextRow := typeDefRow;
            failure := Some(row.error);
            return;
          }
          layoutRow := row.value;
        }
      }
      var rt := NewCilType(md, offs, token, typeDefRow, maxField, maxMethod, packing, size);
      var id := TypeId(md.loadOrder, token);
      var methodsAt, fieldsAt;
      methodsAt, failure := LoadMethods(md, id, typeDefRow.methodList, maxMethod, methodOffset);
      if failure.Some? {
        nextRow := typeDefRow;
        return;
      }
      fieldsAt, failure := LoadFields(md, id, typeDefRow.fieldList, maxField, fieldOffset);
      if failure.Some? {
        nextRow := typeDefRow;
        return;
      }
      if !(0 <= typeOffset < |types|) {
        nextRow := typeDefRow;
        failure := Some(IndexOutOfRange);
        return;
      }
      types := types[typeOffset := Some(rt)];
      if rtCallTypeAttribute.None? && IsInternalCallTypeAttribute(rt) {
        rtCallTypeAttribute := Some(rt);
      }
      nextLayout, nextType, nextMethod, nextField := LayoutCursor(tokenLayout, layoutRow), typeOffset + 1, methodsAt, fieldsAt;
    }

    /** The outcome of LoadTypes: LoadTypesAsWritten, or LoadTypesSpec corrected. */
    function LoadTypesOutcome(a: Arena, md: ModuleMetadata, offs: ModuleOffsets): (Arena, Option<Error>)
    {
      if corrected then LoadTypesSpec(a, md, offs) else LoadTypesAsWritten(a, md, offs)
    }

    /**
     * LoadTypes: every TypeDef row from 2 on becomes a type with its layout,
     * methods and fields, stored from the module's type offset on. As
     * written the method and field cursors start at the module's offsets;
     * corrected, at the rows TypeDef row 2 owns.
     */
    method LoadTypes(md: ModuleMetadata, offs: ModuleOffsets) returns (failure: Option<Error>)
      modifies this`types, this`methods, this`fields, this`rtCallTypeAttribute
      ensures !corrected ==> (LoadState(), failure) == LoadTypesAsWritten(old(LoadState()), md, offs)
      ensures corrected ==> (LoadState(), failure) == LoadTypesSpec(old(LoadState()), md, offs)
    {
      failure := None;
      var maxTypeDef := MaxToken(TypeDefTable, |md.typeDefs|);
      var layout := LayoutCursor(MakeToken(ClassLayoutTable, 1), DefaultLayoutRow);
      if ClassLayoutTable * RowRadix < MaxToken(ClassLayoutTable, |md.classLayouts|) {
        var row := ReadClassLayout(md, layout.token);
        if row.Err? {
          failure := Some(row.error);
          return;
        }
        layout := layout.(row := row.value);
      }
      var token := MakeToken(TypeDefTable, 2);
      var first := ReadTypeDef(md, token);
      if first.Err? {
        failure := Some(first.error);
        return;
      }
      var typeDefRow := first.value;
      var typeOffset := offs.typeOffset;
      var methodOffset, fieldOffset := offs.methodOffset, offs.fieldOffset;
      if corrected {
        methodOffset, fieldOffset := methodOffset + RowOf(typeDefRow.methodList) - 1, fieldOffset + RowOf(typeDefRow.fieldList) - 1;
      }
      var done := false;
      while !done
        invariant !done ==>
                    LoadTypesOutcome(old(LoadState()), md, offs) ==
                    TypesFrom(TypeLoop(LoadState(), typeDefRow, layout, typeOffset, methodOffset, fieldOffset), md, offs, token)
        invariant done ==> LoadTypesOutcome(old(LoadState()), md, offs) == (LoadState(), None)
        invariant failure.None?
        decreases if done then 0 else 1, maxTypeDef - token
      {
        typeDefRow, layout, typeOffset, methodOffset, fieldOffset, failure :=
          LoadType(md, offs, token, typeDefRow, layout, typeOffset, methodOffset, fieldOffset);
        if failure.Some? {
          return;
        }
        done := token >= maxTypeDef;
        token := token + 1;
      }
    }

    // ------------------------------------------------- generics and attributes

    /** SetGenericParameters: the owner's type or method records how many generic parameters it has. */
    method SetGenericParameters(group: Group<GenericParamRow>, typeOffset: int, methodOffset: int) returns (failure: Option<Error>)
      modifies this`types, this`methods
      ensures (AnnotatedState(), failure) == SetGenericParametersSpec(old(AnnotatedState()), group, typeOffset, methodOffset)
    {
      failure := None;
      var slot := GenericSlot(group.owner, typeOffset, methodOffset);
      if TableOf(group.owner) == TypeDefTable {
        if !(0 <= slot < |types|) {
          failure := Some(IndexOutOfRange);
        } else if types[slot].None? {
          failure := Some(NullReference);
        } else {
          types := types[slot := Some(types[slot].value.(genericArgs := Some(|group.rows|)))];
        }
      } else if TableOf(group.owner) == MethodDefTable {
        if !(0 <= slot < |methods|) {
          failure := Some(IndexOutOfRange);
        } else if methods[slot].None? {
          failure := Some(NullReference);
        } else {
          methods := methods[slot := Some(methods[slot].value.(genericArgs := Some(|group.rows|)))];
        }
      } else {
        failure := Some(InvalidProgram);
      }
    }

    /**
     * LoadGenerics: the GenericParam rows grouped by owner, each group
     * committed when the owner token grows (as written) or changes
     * (corrected), and at the end. The offsets are decremented first, as
     * SetGenericParameters expects.
     */
    method LoadGenerics(md: ModuleMetadata, typeOffset: int, methodOffset: int) returns (failure: Option<Error>)
      modifies this`types, this`methods
      ensures !corrected ==>
                (AnnotatedState(), failure) ==
                ApplyGenericGroups(old(AnnotatedState()), GenericGroupsAsWritten(md.genericParams), typeOffset - 1, methodOffset - 1)
      ensures corrected ==>
                (AnnotatedState(), failure) ==
                ApplyGenericGroups(old(AnnotatedState()), GenericGroups(md.genericParams), typeOffset - 1, methodOffset - 1)
    {
      failure := None;
      var typeOffset, methodOffset := typeOffset - 1, methodOffset - 1;
      var rows := md.genericParams;
      var owner := 0;
      var gprs: seq<GenericParamRow> := [];
      var k := 0;
      while k < |rows|
        invariant 0 <= k <= |rows|
        invariant GenericScan(rows[..k], corrected).owner == owner && GenericScan(rows[..k], corrected).pending == gprs
        invariant (AnnotatedState(), None) ==
                  ApplyGenericGroups(old(AnnotatedState()), GenericScan(rows[..k], corrected).committed, typeOffset, methodOffset)
        invariant failure.None?
      {
        var gpr := rows[k];
        GenericScanStep(rows, corrected, k);
        ghost var committed := GenericScan(rows[..k], corrected).committed;
        if (if corrected then owner != gpr.owner else owner < gpr.owner) {
          if owner != 0 && |gprs| != 0 {
            ApplyGenericGroupsAppend(old(AnnotatedState()), committed, Group(owner, gprs), typeOffset, methodOffset);
            failure := SetGenericParameters(Group(owner, gprs), typeOffset, methodOffset);
            assert committed + [Group(owner, gprs)] == GenericScan(rows[..k + 1], corrected).committed;
            if failure.Some? {
              GenericLoadStops(rows, corrected, k + 1, old(AnnotatedState()), typeOffset, methodOffset);
              return;
            }
            gprs := [];
          } else {
            assert GenericScan(rows[..k + 1], corrected).committed == committed;
          }
          owner := gpr.owner;
        } else {
          assert GenericScan(rows[..k + 1], corrected).committed == committed;
        }
        gprs := gprs + [gpr];
        k := k + 1;
      }
      assert rows[..k] == rows;
      ghost var groups := GenericGroupsBy(rows, corrected);
      if |gprs| != 0 {
        failure := SetGenericParameters(Group(owner, gprs), typeOffset, methodOffset);
      }
    }

    /** When the commit of a prefix's groups fails, so does the whole load, with the same arrays. */
    static lemma GenericLoadStops(rows: seq<GenericParamRow>, corrected: bool, k: nat, t: Tables, typeOffset: int, methodOffset: int)
      requires k <= |rows|
      requires ApplyGenericGroups(t, GenericScan(rows[..k], corrected).committed, typeOffset, methodOffset).1.Some?
      ensures ApplyGenericGroups(t, GenericGroupsBy(rows, corrected), typeOffset, methodOffset) ==
              ApplyGenericGroups(t, GenericScan(rows[..k], corrected).committed, typeOffset, methodOffset)
    {
      var c := GenericScan(rows[..k], corrected).committed;
      GenericCommittedIsPrefix(rows, corrected, k);
      var all := GenericGroupsBy(rows, corrected);
      assert all == c + all[|c|..];
      ApplyGenericGroupsStops(t, c, all[|c|..], typeOffset, methodOffset);
    }

    /**
     * SetAttributes: a TypeDef owner, found as GetType finds it, gets the
     * attributes and joins the internal types when it carries
     * InternalCallTypeAttribute; a MethodDef owner, found as GetMethod finds
     * it, gets the attributes; other targets are ignored.
     */
    method SetAttributes(md: ModuleMetadata, group: Group<CustomAttributeRow>) returns (failure: Option<Error>)
      modifies this`types, this`methods, this`internalTypes
      ensures (AnnotatedState(), failure) == SetAttributesSpec(old(AnnotatedState()), moduleOffsets, rtCallTypeAttribute, md, group)
    {
      failure := None;
      if TableOf(group.owner) == TypeDefTable {
        var found := LookupTypeDef(types, moduleOffsets, md, group.owner);
        if found.Err? {
          failure := Some(found.error);
        } else if found.value.None? {
          failure := Some(NullReference);
        } else {
          var updated := found.value.value.(attributes := Some(group.rows));
          types := types[TypeDefSlot(moduleOffsets[md.loadOrder], RowOf(group.owner)) := Some(updated)];
          if rtCallTypeAttribute.Some? && IsDefined(updated, rtCallTypeAttribute.value) {
            internalTypes := internalTypes + [updated];
          }
        }
      } else if TableOf(group.owner) == MethodDefTable {
        var found := LookupMethodDef(methods, moduleOffsets, md, group.owner);
        if found.Err? {
          failure := Some(found.error);
        } else if found.value.None? {
          failure := Some(NullReference);
        } else {
          var slot := moduleOffsets[md.loadOrder].methodOffset + RowOf(group.owner) - 1;
          methods := methods[slot := Some(found.value.value.(attributes := Some(group.rows)))];
        }
      }
    }

    /** LoadCustomAttributes: the CustomAttribute rows grouped by parent, each group committed when the parent changes and at the end. */
    method LoadCustomAttributes(md: ModuleMetadata) returns (failure: Option<Error>)
      modifies this`types, this`methods, this`internalTypes
      ensures (AnnotatedState(), failure) ==
              ApplyAttributeGroups(old(AnnotatedState()), moduleOffsets, rtCallTypeAttribute, md, AttributeGroups(md.customAttributes))
    {
      failure := None;
      var rows := md.customAttributes;
      var owner := 0;
      var attributes: seq<CustomAttributeRow> := [];
      var k := 0;
      while k < |rows|
        invariant 0 <= k <= |rows|
        invariant Scan(rows[..k], AttributeOwner).owner == owner && Scan(rows[..k], AttributeOwner).pending == attributes
        invariant (AnnotatedState(), None) ==
                  ApplyAttributeGroups(old(AnnotatedState()), moduleOffsets, rtCallTypeAttribute, md, Scan(rows[..k], AttributeOwner).committed)
        invariant failure.None?
      {
        var car := rows[k];
        assert rows[..k + 1][..k] == rows[..k];
        ghost var committed := Scan(rows[..k], AttributeOwner).committed;
        if owner != car.parent {
          if owner != 0 && |attributes| != 0 {
            failure := SetAttributes(md, Group(owner, attributes));
            assert committed + [Group(owner, attributes)] == Scan(rows[..k + 1], AttributeOwner).committed;
            if failure.Some? {
              AttributeLoadStops(rows, k + 1, old(AnnotatedState()), moduleOffsets, rtCallTypeAttribute, md);
              return;
            }
            attributes := [];
          }
          owner := car.parent;
        }
        attributes := attributes + [car];
        k := k + 1;
      }
      assert rows[..k] == rows;
      if |attributes| != 0 {
        failure := SetAttributes(md, Group(owner, attributes));
      }
    }

    static lemma AttributeLoadStops(rows: seq<CustomAttributeRow>, k: nat, t: Tables, offsets: seq<ModuleOffsets>,
                                    rtCall: Option<TypeEntry>, md: ModuleMetadata)
      requires k <= |rows|
      requires ApplyAttributeGroups(t, offsets, rtCall, md, Scan(rows[..k], AttributeOwner).committed).1.Some?
      ensures ApplyAttributeGroups(t, offsets, rtCall, md, AttributeGroups(rows)) ==
              ApplyAttributeGroups(t, offsets, rtCall, md, Scan(rows[..k], AttributeOwner).committed)
    {
      var c := Scan(rows[..k], AttributeOwner).committed;
      CommittedIsPrefix(rows, AttributeOwner, k);
      var all := AttributeGroups(rows);
      assert all == c + all[|c|..];
      ApplyAttributeGroupsStops(t, offsets, rtCall, md, c, all[|c|..]);
    }

    // ------------------------------------------------------------ lookups

    /**
     * GetType for a token: a TypeRef is resolved through the loader; else
     * row 0 is null, a TypeDef is read from its slot, a TypeSpec is resolved
     * (and remembered) on first use, and any other table is refused. fuel
     * bounds the chain of TypeSpecs resolved through one another.
     */
    method GetType(mdl: Option<ModuleMetadata>, token: int, fuel: nat) returns (r: Result<Option<TypeEntry>>)
      modifies this`types
      decreases fuel, 2
      ensures |types| == |old(types)|
      ensures mdl.None? ==> r == Err(NullReference) && types == old(types)
      ensures mdl.Some? && TableOf(token) != TypeSpecTable ==>
                types == old(types) && r == LookupType(types, moduleOffsets, loader, mdl.value, token)
      ensures mdl.Some? && TableOf(token) != TypeRefTable ==>
                (!(0 <= mdl.value.loadOrder < |moduleOffsets|) ==> r == Err(IndexOutOfRange) && types == old(types)) &&
                (0 <= mdl.value.loadOrder < |moduleOffsets| && RowOf(token) == 0 ==> r == Ok(None) && types == old(types))
      ensures mdl.Some? && TableOf(token) !in {TypeDefTable, TypeRefTable, TypeSpecTable} &&
              0 <= mdl.value.loadOrder < |moduleOffsets| && RowOf(token) != 0 ==>
                r == Err(Argument) && types == old(types)
      ensures mdl.Some? && TableOf(token) == TypeSpecTable && 0 <= mdl.value.loadOrder < |moduleOffsets| && RowOf(token) != 0 ==>
                var slot := TypeSpecSlot(moduleOffsets[mdl.value.loadOrder], mdl.value, RowOf(token));
                (0 <= slot < |old(types)| && old(types)[slot].Some? ==> r == Ok(old(types)[slot]) && types == old(types)) &&
                (r.Ok? && r.value.Some? ==> 0 <= slot < |types| && types[slot] == r.value)
    {
      if mdl.None? {
        return Err(NullReference);
      }
      var md := mdl.value;
      var table := TableOf(token);
      if table == TypeRefTable {
        var t := ResolveTypeRef(types, moduleOffsets, loader, md, token);
        if t.Err? {
          return Err(t.error);
        }
        return Ok(Some(t.value));
      }
      if !(0 <= md.loadOrder < |moduleOffsets|) {
        return Err(IndexOutOfRange);
      }
      var typeIndex := moduleOffsets[md.loadOrder].typeOffset;
      var row := RowOf(token);
      if row == 0 {
        return Ok(None);
      }
      if table == TypeDefTable {
        typeIndex := typeIndex + row - 2;
        if !(0 <= typeIndex < |types|) {
          return Err(IndexOutOfRange);
        }
        r := Ok(types[typeIndex]);
      } else if table == TypeSpecTable {
        r := ResolveTypeSpec(md, token, fuel);
      } else {
        r := Err(Argument);
      }
    }

    /**
     * ResolveTypeSpec: the TypeSpec's slot, after the module's TypeDef
     * slots; when empty, the TypeSpec's signature is resolved and the
     * result stored there. A set slot is returned as it is.
     */
    method ResolveTypeSpec(md: ModuleMetadata, token: int, fuel: nat) returns (r: Result<Option<TypeEntry>>)
      modifies this`types
      decreases fuel, 1
      ensures |types| == |old(types)|
      ensures r.Ok? ==> 0 <= md.loadOrder < |moduleOffsets| &&
                        0 <= TypeSpecSlot(moduleOffsets[md.loadOrder], md, RowOf(token)) < |types| &&
                        r.value == types[TypeSpecSlot(moduleOffsets[md.loadOrder], md, RowOf(token))]
      ensures 0 <= md.loadOrder < |moduleOffsets| ==>
                var slot := TypeSpecSlot(moduleOffsets[md.loadOrder], md, RowOf(token));
                (!(0 <= slot < |old(types)|) ==> r == Err(IndexOutOfRange)) &&
                (0 <= slot < |old(types)| && old(types)[slot].Some? ==> r == Ok(old(types)[slot]) && types == old(types))
      ensures 0 <= md.loadOrder < |moduleOffsets| && ReadTypeSpec(md, token).Ok? && ReadTypeSpec(md, token).value.signature.OtherSig? ==>
                var slot := TypeSpecSlot(moduleOffsets[md.loadOrder], md, RowOf(token));
                0 <= slot < |old(types)| && old(types)[slot].None? ==> r == Err(NotSupported)
    {
      if !(0 <= md.loadOrder < |moduleOffsets|) {
        return Err(IndexOutOfRange);
      }
      var typeIndex := TypeSpecSlot(moduleOffsets[md.loadOrder], md, RowOf(token));
      if !(0 <= typeIndex < |types|) {
        return Err(IndexOutOfRange);
      }
      if types[typeIndex].None? {
        var typeSpec := ReadTypeSpec(md, token);
        if typeSpec.Err? {
          return Err(typeSpec.error);
        }
        var resolved := ResolveSignatureType(md, typeSpec.value.signature, fuel);
        if resolved.Err? {
          return Err(resolved.error);
        }
        types := types[typeIndex := resolved.value];
      }
      return Ok(types[typeIndex]);
    }

    /**
     * ResolveSignatureType: a class or value type is the type of its token;
     * a generic instance is a new generic type over the type of its base
     * token; any other element type is not supported.
     */
    method ResolveSignatureType(md: ModuleMetadata, signature: SignatureType, fuel: nat) returns (r: Result<Option<TypeEntry>>)
      modifies this`types
      decreases fuel, 0
      ensures |types| == |old(types)|
      ensures signature.OtherSig? ==> r == Err(NotSupported) && types == old(types)
      ensures signature.GenericInstSig? && r.Ok? ==>
                r.value.Some? && r.value.value.desc.GenericType? &&
                r.value.value.desc.loadOrder == md.loadOrder && r.value.value.desc.signature == signature
      ensures fuel > 0 && (signature.ClassSig? || signature.ValueTypeSig?) && TableOf(signature.token) != TypeSpecTable ==>
                r == LookupType(old(types), moduleOffsets, loader, md, signature.token)
      ensures fuel > 0 && signature.GenericInstSig? && TableOf(signature.baseToken) != TypeSpecTable ==>
                var b := LookupType(old(types), moduleOffsets, loader, md, signature.baseToken);
                (b.Err? ==> r == Err(b.error)) &&
                (b.Ok? ==> r.Ok? && r.value.value.desc.base == b.value)
    {
      if signature.OtherSig? {
        return Err(NotSupported);
      }
      if fuel == 0 {
        return Err(RecursionLimit);
      }
      match signature
      case ClassSig(token) =>
        r := GetType(Some(md), token, fuel - 1);
      case ValueTypeSig(token) =>
        r := GetType(Some(md), token, fuel - 1);
      case GenericInstSig(baseToken, _) =>
        var baseType := GetType(Some(md), baseToken, fuel - 1);
        if baseType.Err? {
          return Err(baseType.error);
        }
        r := Ok(Some(NewType(GenericType(baseType.value, md.loadOrder, signature))));
    }

    /** GetField: a Field token is read from its slot, a MemberRef is looked up by name in its class. */
    method GetField(mdl: Option<ModuleMetadata>, token: int, fuel: nat) returns (r: Result<Option<FieldEntry>>)
      modifies this`types
      decreases fuel, 4
      ensures |types| == |old(types)|
      ensures mdl.None? ==> r == Err(ArgumentNull)
      ensures mdl.Some? && TableOf(token) != FieldTable && TableOf(token) != MemberRefTable ==> r == Err(Argument)
      ensures mdl.Some? && TableOf(token) == FieldTable ==> r == LookupField(fields, moduleOffsets, mdl.value, token)
      ensures mdl.Some? && TableOf(token) == MemberRefTable && r.Ok? ==>
                ReadMemberRef(mdl.value, token).Ok? && r.value.Some? &&
                r.value.value.row.name == ReadMemberRef(mdl.value, token).value.name && r.value in fields
    {
      if mdl.None? {
        return Err(ArgumentNull);
      }
      var table := TableOf(token);
      if table != FieldTable && table != MemberRefTable {
        return Err(Argument);
      }
      if table == MemberRefTable {
        var field := GetFieldForMemberReference(mdl.value, token, fuel);
        if field.Err? {
          return Err(field.error);
        }
        r := Ok(Some(field.value));
      } else {
        r := LookupField(fields, moduleOffsets, mdl.value, token);
      }
    }

    /**
     * GetFieldForMemberReference: the MemberRef's class (a TypeSpec resolved,
     * a TypeDef or TypeRef looked up, any other table not supported), then
     * the first of its fields with the MemberRef's name.
     */
    method GetFieldForMemberReference(md: ModuleMetadata, token: int, fuel: nat) returns (r: Result<FieldEntry>)
      modifies this`types
      decreases fuel, 3
      ensures |types| == |old(types)|
      ensures ReadMemberRef(md, token).Err? ==> r == Err(ReadMemberRef(md, token).error)
      ensures ReadMemberRef(md, token).Ok? && TableOf(ReadMemberRef(md, token).value.classToken) !in {TypeSpecTable, TypeDefTable, TypeRefTable} ==>
                r == Err(NotSupported)
      ensures ReadMemberRef(md, token).Ok? && TableOf(ReadMemberRef(md, token).value.classToken) in {TypeDefTable, TypeRefTable} ==>
                var row := ReadMemberRef(md, token).value;
                r == match LookupType(old(types), moduleOffsets, loader, md, row.classToken)
                     case Err(e) => Err(e)
                     case Ok(None) => Err(InvalidOperation)
                     case Ok(Some(t)) => ScanView(fields, FieldsOf(t), FieldNamed(row.name), InvalidOperation)
      ensures r.Ok? ==> ReadMemberRef(md, token).Ok? && r.value.row.name == ReadMemberRef(md, token).value.name &&
                        Some(r.value) in fields
    {
      var row := ReadMemberRef(md, token);
      if row.Err? {
        return Err(row.error);
      }
      var classToken := row.value.classToken;
      var ownerType;
      match TableOf(classToken) {
        case TypeSpecTable =>
          ownerType := ResolveTypeSpec(md, classToken, fuel);
        case TypeDefTable =>
          ownerType := GetType(Some(md), classToken, fuel);
        case TypeRefTable =>
          ownerType := GetType(Some(md), classToken, fuel);
        case _ =>
          return Err(NotSupported);
      }
      if ownerType.Err? {
        return Err(ownerType.error);
      }
      if ownerType.value.None? {
        return Err(InvalidOperation);
      }
      r := ScanFieldsFor(FieldsOf(ownerType.value.value), row.value.name);
    }

    /** The fields of a MemberRef's class scanned for the first with its name. */
    method ScanFieldsFor(view: ListView, name: string) returns (r: Result<FieldEntry>)
      ensures r == ScanView(fields, view, FieldNamed(name), InvalidOperation)
    {
      ghost var named := FieldNamed(name);
      var k := 0;
      while k < view.count
        invariant 0 <= k && (view.count >= 0 ==> k <= view.count)
        invariant FirstInView(fields, view, 0, named) == FirstInView(fields, view, k, named)
        decreases view.count - k
      {
        var slot := view.start + k;
        if !(0 <= slot < |fields|) {
          return Err(IndexOutOfRange);
        }
        if fields[slot].None? {
          return Err(NullReference);
        }
        if fields[slot].value.row.name == name {
          return Ok(fields[slot].value);
        }
        k := k + 1;
      }
      return Err(InvalidOperation);
    }

    /**
     * GetMethod: a MethodDef is read from its slot; a MemberRef is the first
     * method of its class with the same name and signature; a MethodSpec is
     * instantiated from its generic method; any other table is not supported.
     */
    method GetMethod(mdl: Option<ModuleMetadata>, token: int, fuel: nat) returns (r: Result<Option<MethodEntry>>)
      modifies this`types
      decreases fuel, 4
      ensures |types| == |old(types)|
      ensures mdl.None? ==> r == Err(ArgumentNull)
      ensures mdl.Some? && TableOf(token) == MethodDefTable ==> r == LookupMethodDef(methods, moduleOffsets, mdl.value, token)
      ensures mdl.Some? && TableOf(token) !in {MethodDefTable, MemberRefTable, MethodSpecTable} ==> r == Err(NotSupported)
      ensures mdl.Some? && TableOf(token) == MemberRefTable && ReadMemberRef(mdl.value, token).Ok? &&
              TableOf(ReadMemberRef(mdl.value, token).value.classToken) != TypeSpecTable ==>
                var row := ReadMemberRef(mdl.value, token).value;
                r == match LookupType(old(types), moduleOffsets, loader, mdl.value, row.classToken)
                     case Err(e) => Err(e)
                     case Ok(None) => Err(NullReference)
                     case Ok(Some(t)) =>
                       match ScanView(methods, MethodsOf(t), MatchesMemberRef(row), MissingMethod)
                       case Err(e) => Err(e)
                       case Ok(m) => Ok(Some(m))
      ensures mdl.Some? && TableOf(token) == MemberRefTable && r.Ok? ==>
                ReadMemberRef(mdl.value, token).Ok? && r.value.Some? &&
                MatchesMemberRef(ReadMemberRef(mdl.value, token).value)(r.value.value) && r.value in methods
      ensures mdl.Some? && TableOf(token) == MethodSpecTable && r.Ok? ==>
                ReadMethodSpec(mdl.value, token).Ok? && r.value.Some? && r.value.value.desc.GenericMethod? &&
                r.value.value.desc.generic.desc.CilMethod? &&
                r.value.value.desc.specSignature == ReadMethodSpec(mdl.value, token).value.instantiation
      ensures mdl.Some? && TableOf(token) == MethodSpecTable && fuel > 0 && ReadMethodSpec(mdl.value, token).Ok? &&
              TableOf(ReadMethodSpec(mdl.value, token).value.methodToken) == MethodDefTable ==>
                var g := LookupMethodDef(methods, moduleOffsets, mdl.value, ReadMethodSpec(mdl.value, token).value.methodToken);
                (g.Err? ==> r == Err(g.error)) &&
                (g.Ok? && g.value.None? ==> r == Err(NullReference)) &&
                (g.Ok? && g.value.Some? && g.value.value.desc.GenericMethod? ==> r == Err(InvalidCast)) &&
                (g.Ok? && g.value.Some? && !g.value.value.desc.GenericMethod? ==>
                   r.Ok? && r.value.Some? && r.value.value.desc.generic == g.value.value)
      ensures mdl.Some? && TableOf(token) == MethodSpecTable && r.Ok? &&
              TableOf(ReadMethodSpec(mdl.value, token).value.methodToken) == MemberRefTable ==>
                var row := ReadMemberRef(mdl.value, ReadMethodSpec(mdl.value, token).value.methodToken);
                row.Ok? && MatchesMemberRef(row.value)(r.value.value.desc.generic) && Some(r.value.value.desc.generic) in methods
    {
      if mdl.None? {
        return Err(ArgumentNull);
      }
      var md := mdl.value;
      match TableOf(token)
      case MethodDefTable =>
        r := LookupMethodDef(methods, moduleOffsets, md, token);
      case MemberRefTable =>
        r := GetMethodForMemberReference(md, token, fuel);
      case MethodSpecTable =>
        r := DecodeMethodSpec(md, token, fuel);
      case _ =>
        r := Err(NotSupported);
    }

    /**
     * The MemberRef branch of GetMethod: the first method of the MemberRef's
     * class with the MemberRef's name and signature.
     */
    method GetMethodForMemberReference(md: ModuleMetadata, token: int, fuel: nat) returns (r: Result<Option<MethodEntry>>)
      modifies this`types
      decreases fuel, 3
      ensures |types| == |old(types)|
      ensures ReadMemberRef(md, token).Err? ==> r == Err(ReadMemberRef(md, token).error)
      ensures ReadMemberRef(md, token).Ok? && TableOf(ReadMemberRef(md, token).value.classToken) != TypeSpecTable ==>
                var row := ReadMemberRef(md, token).value;
                r == match LookupType(old(types), moduleOffsets, loader, md, row.classToken)
                     case Err(e) => Err(e)
                     case Ok(None) => Err(NullReference)
                     case Ok(Some(t)) =>
                       match ScanView(methods, MethodsOf(t), MatchesMemberRef(row), MissingMethod)
                       case Err(e) => Err(e)
                       case Ok(m) => Ok(Some(m))
      ensures r.Ok? ==>
                ReadMemberRef(md, token).Ok? && r.value.Some? &&
                MatchesMemberRef(ReadMemberRef(md, token).value)(r.value.value) && r.value in methods
    {
      var row := ReadMemberRef(md, token);
      if row.Err? {
        return Err(row.error);
      }
      var classType := GetType(Some(md), row.value.classToken, fuel);
      if classType.Err? {
        return Err(classType.error);
      }
      if classType.value.None? {
        return Err(NullReference);
      }
      var found := ScanMethodsFor(MethodsOf(classType.value.value), row.value);
      if found.Err? {
        return Err(found.error);
      }
      return Ok(Some(found.value));
    }

    /** The methods of a MemberRef's class scanned for the first with its name and signature. */
    method ScanMethodsFor(view: ListView, row: MemberRefRow) returns (r: Result<MethodEntry>)
      ensures r == ScanView(methods, view, MatchesMemberRef(row), MissingMethod)
    {
      ghost var matching := MatchesMemberRef(row);
      var k := 0;
      while k < view.count
        invariant 0 <= k && (view.count >= 0 ==> k <= view.count)
        invariant FirstInView(methods, view, 0, matching) == FirstInView(methods, view, k, matching)
        decreases view.count - k
      {
        var slot := view.start + k;
        if !(0 <= slot < |methods|) {
          return Err(IndexOutOfRange);
        }
        if methods[slot].None? {
          return Err(NullReference);
        }
        var m := methods[slot].value;
        if MethodName(m) == row.name && MethodSignature(m) == row.signature {
          return Ok(m);
        }
        k := k + 1;
      }
      return Err(MissingMethod);
    }

    /**
     * DecodeMethodSpec: the MethodSpec's method, which must be a method
     * defined by a MethodDef row, instantiated with the MethodSpec's
     * signature.
     */
    method DecodeMethodSpec(md: ModuleMetadata, token: int, fuel: nat) returns (r: Result<Option<MethodEntry>>)
      modifies this`types
      decreases fuel, 3
      ensures |types| == |old(types)|
      ensures ReadMethodSpec(md, token).Err? ==> r == Err(ReadMethodSpec(md, token).error)
      ensures r.Ok? ==> ReadMethodSpec(md, token).Ok? && r.value.Some? && r.value.value.desc.GenericMethod? &&
                        r.value.value.desc.generic.desc.CilMethod? &&
                        r.value.value.desc.signature == MethodSignature(r.value.value.desc.generic) &&
                        r.value.value.desc.specSignature == ReadMethodSpec(md, token).value.instantiation
      ensures fuel > 0 && ReadMethodSpec(md, token).Ok? && TableOf(ReadMethodSpec(md, token).value.methodToken) == MethodDefTable ==>
                var g := LookupMethodDef(methods, moduleOffsets, md, ReadMethodSpec(md, token).value.methodToken);
                (g.Err? ==> r == Err(g.error)) &&
                (g.Ok? && g.value.None? ==> r == Err(NullReference)) &&
                (g.Ok? && g.value.Some? && g.value.value.desc.GenericMethod? ==> r == Err(InvalidCast)) &&
                (g.Ok? && g.value.Some? && !g.value.value.desc.GenericMethod? ==>
                   r.Ok? && r.value.Some? && r.value.value.desc.generic == g.value.value)
      ensures r.Ok? && TableOf(ReadMethodSpec(md, token).value.methodToken) == MemberRefTable ==>
                var row := ReadMemberRef(md, ReadMethodSpec(md, token).value.methodToken);
                row.Ok? && MatchesMemberRef(row.value)(r.value.value.desc.generic) && Some(r.value.value.desc.generic) in methods
    {
      var methodSpec := ReadMethodSpec(md, token);
      if methodSpec.Err? {
        return Err(methodSpec.error);
      }
      if fuel == 0 {
        return Err(RecursionLimit);
      }
      var genericMethod := GetMethod(Some(md), methodSpec.value.methodToken, fuel - 1);
      if genericMethod.Err? {
        return Err(genericMethod.error);
      }
      if genericMethod.value.Some? && genericMethod.value.value.desc.GenericMethod? {
        return Err(InvalidCast);
      }
      if genericMethod.value.None? {
        return Err(NullReference);
      }
      var generic := genericMethod.value.value;
      r := Ok(Some(NewMethod(GenericMethod(generic, MethodSignature(generic), methodSpec.value.instantiation))));
    }

    // ------------------------------------------------------- internal calls

    /**
     * The methods of one internal type, scanned for the first that carries
     * an implementation attribute matching the call's definition.
     */
    method FindImplementation(view: ListView, callImplType: Option<TypeEntry>, callDef: CustomAttributeRow, matches: AttributeMatch)
      returns (r: Result<Option<int>>)
      ensures r == FirstInView(methods, view, 0, ImplementsCall(callImplType, callDef, matches))
    {
      ghost var implements := ImplementsCall(callImplType, callDef, matches);
      var k := 0;
      while k < view.count
        invariant 0 <= k && (view.count >= 0 ==> k <= view.count)
        invariant FirstInView(methods, view, 0, implements) == FirstInView(methods, view, k, implements)
        decreases view.count - k
      {
        var slot := view.start + k;
        if !(0 <= slot < |methods|) {
          return Err(IndexOutOfRange);
        }
        if methods[slot].None? {
          return Err(NullReference);
        }
        var found := MethodImplements(methods[slot].value, callImplType, callDef, matches);
        if found {
          return Ok(Some(slot));
        }
        k := k + 1;
      }
      return Ok(None);
    }

    /** Whether one of a method's implementation attributes matches the call's definition. */
    static method MethodImplements(m: MethodEntry, callImplType: Option<TypeEntry>, callDef: CustomAttributeRow, matches: AttributeMatch)
      returns (found: bool)
      ensures found <==> Implements(m, callImplType, callDef, matches)
    {
      var callImpls := AttributesOfType(m.attributes, callImplType);
      var j := 0;
      while j < |callImpls|
        invariant 0 <= j <= |callImpls|
        invariant forall i :: 0 <= i < j ==> !matches(callDef, callImpls[i])
      {
        if matches(callDef, callImpls[j]) {
          return true;
        }
        j := j + 1;
      }
      return false;
    }

    /** The internal types scanned in order for the first method that implements the call. */
    method SearchInternalTypesFor(callImplType: Option<TypeEntry>, callDef: CustomAttributeRow, matches: AttributeMatch)
      returns (r: Result<MethodEntry>)
      ensures r == SearchInternalTypes(methods, internalTypes, 0, callImplType, callDef, matches)
    {
      var t := 0;
      while t < |internalTypes|
        invariant 0 <= t <= |internalTypes|
        invariant SearchInternalTypes(methods, internalTypes, 0, callImplType, callDef, matches) ==
                  SearchInternalTypes(methods, internalTypes, t, callImplType, callDef, matches)
      {
        var found := FindImplementation(MethodsOf(internalTypes[t]), callImplType, callDef, matches);
        if found.Err? {
          return Err(found.error);
        }
        if found.value.Some? {
          return Ok(methods[found.value.value].value);
        }
        t := t + 1;
      }
      return Err(NotImplemented);
    }

    /**
     * GetImplementationForInternalCall: the remembered target when there is
     * one; otherwise the call's first InternalCallImplAttribute is matched
     * against those of the methods of every internal type in order, and the
     * first method with a matching one is remembered and returned.
     */
    method GetImplementationForInternalCall(internalCall: Option<MethodEntry>, matches: AttributeMatch) returns (r: Result<MethodEntry>)
      modifies this`internalCallTargets
      ensures internalCall.None? ==> r == Err(ArgumentNull) && internalCallTargets == old(internalCallTargets)
      ensures internalCall.Some? && internalCall.value in old(internalCallTargets) ==>
                r == Ok(old(internalCallTargets)[internalCall.value]) && internalCallTargets == old(internalCallTargets)
      ensures internalCall.Some? && internalCall.value !in old(internalCallTargets) ==>
                r == InternalCallTarget(types, methods, internalTypes, internalCall.value, matches)
      ensures internalCall.Some? && internalCall.value !in old(internalCallTargets) && r.Ok? ==>
                internalCallTargets == old(internalCallTargets)[internalCall.value := r.value]
      ensures r.Err? ==> internalCallTargets == old(internalCallTargets)
    {
      if internalCall.None? {
        return Err(ArgumentNull);
      }
      var call := internalCall.value;
      if call in internalCallTargets {
        return Ok(internalCallTargets[call]);
      }
      r := FindInternalCallTarget(call, matches);
      if r.Ok? {
        internalCallTargets := internalCallTargets[call := r.value];
      }
    }

    /** The uncached part of GetImplementationForInternalCall: the call's first definition searched for. */
    method FindInternalCallTarget(call: MethodEntry, matches: AttributeMatch) returns (r: Result<MethodEntry>)
      ensures r == InternalCallTarget(types, methods, internalTypes, call, matches)
    {
      var callImplType := GetTypeByName(types, InternalCallImplAttributeName);
      var callDefAttrs := AttributesOfType(call.attributes, callImplType);
      if |callDefAttrs| == 0 {
        return Err(IndexOutOfRange);
      }
      r := SearchInternalTypesFor(callImplType, callDefAttrs[0], matches);
    }

    // ------------------------------------------------------------- modules

    /**
     * The room AssemblyLoaded makes for a module: the offsets array padded up
     * to its load order, each array grown by the module's rows with empty
     * slots (the methods also by its MethodSpecs, the types by its
     * TypeSpecs), and its offsets, the arrays' previous lengths, recorded.
     */
    method ReserveSpace(md: ModuleMetadata) returns (modOffset: ModuleOffsets)
      requires md.loadOrder >= |moduleOffsets|
      modifies this`moduleOffsets, this`fields, this`methods, this`parameters, this`types
      ensures modOffset == ModuleOffsets(old(|fields|), old(|methods|), old(|parameters|), old(|types|))
      ensures |moduleOffsets| == md.loadOrder + 1 && moduleOffsets[..old(|moduleOffsets|)] == old(moduleOffsets)
      ensures forall i :: old(|moduleOffsets|) <= i < md.loadOrder ==> moduleOffsets[i] == NoOffsets
      ensures moduleOffsets[md.loadOrder] == modOffset
      ensures fields == old(fields) + seq(Rows(FieldTable, |md.fields|), _ => None)
      ensures methods == old(methods) + seq(Rows(MethodDefTable, |md.methodDefs|) + Rows(MethodSpecTable, |md.methodSpecs|), _ => None)
      ensures parameters == old(parameters) + seq(Rows(ParamTable, |md.params|), _ => None)
      ensures types == old(types) + seq(Rows(TypeDefTable, |md.typeDefs|) + Rows(TypeSpecTable, |md.typeSpecs|), _ => None)
    {
      moduleOffsets := moduleOffsets + seq(md.loadOrder + 1 - |moduleOffsets|, _ => NoOffsets);
      var fieldSpace := AdjustMetadataSpace(fields, Rows(FieldTable, |md.fields|));
      fields := fieldSpace.1;
      var methodSpace := AdjustMetadataSpace(methods, Rows(MethodDefTable, |md.methodDefs|));
      methods := methodSpace.1;
      var parameterSpace := AdjustMetadataSpace(parameters, Rows(ParamTable, |md.params|));
      parameters := parameterSpace.1;
      var typeSpace := AdjustMetadataSpace(types, Rows(TypeDefTable, |md.typeDefs|));
      types := typeSpace.1;
      modOffset := ModuleOffsets(fieldSpace.0, methodSpace.0, parameterSpace.0, typeSpace.0);
      moduleOffsets := moduleOffsets[md.loadOrder := modOffset];
      methods := AdjustMetadataSpace(methods, Rows(MethodSpecTable, |md.methodSpecs|)).1;
      types := AdjustMetadataSpace(types, Rows(TypeSpecTable, |md.typeSpecs|)).1;
    }

    /**
     * The loaders AssemblyLoaded runs, in order, up to the first failure:
     * LoadTypes, LoadGenerics, LoadParameters and LoadCustomAttributes. On
     * success every TypeDef row from 2 on is in its slot.
     */
    method LoadModule(md: ModuleMetadata, modOffset: ModuleOffsets) returns (failure: Option<Error>)
      modifies this`types, this`methods, this`fields, this`parameters, this`rtCallTypeAttribute, this`internalTypes
      ensures |types| == old(|types|) && |methods| == old(|methods|) && |fields| == old(|fields|) && |parameters| == old(|parameters|)
      ensures failure.None? && WellFormed(md) ==>
                2 <= |md.typeDefs| && forall row :: 2 <= row <= |md.typeDefs| ==> TypeDefPlaced(types, md, modOffset, row)
    {
      ghost var empty := LoadState();
      failure := LoadTypes(md, modOffset);
      if failure.Some? {
        return;
      }
      if WellFormed(md) {
        LoadTypesPlaces(empty, md, modOffset);
      }
      ghost var loaded := types;
      failure := LoadGenerics(md, modOffset.typeOffset, modOffset.methodOffset);
      if failure.Some? {
        return;
      }
      failure := LoadParameters(md, modOffset.parameterOffset);
      if failure.Some? {
        return;
      }
      ghost var annotated := types;
      failure := LoadCustomAttributes(md);
      if failure.None? && WellFormed(md) {
        PlacementKept(loaded, annotated, md, modOffset);
        PlacementKept(annotated, types, md, modOffset);
      }
    }

    /**
     * AssemblyLoaded: a module loaded after all the recorded ones gets its
     * offsets and room in the arrays, and is loaded; a null module or one
     * whose load order is already recorded is refused.
     */
    method AssemblyLoaded(mdl: Option<ModuleMetadata>) returns (failure: Option<Error>)
      modifies this
      ensures mdl.None? ==> failure == Some(ArgumentNull) && unchanged(this)
      ensures mdl.Some? && mdl.value.loadOrder < old(|moduleOffsets|) ==> failure == Some(Argument) && unchanged(this)
      ensures mdl.Some? && mdl.value.loadOrder >= old(|moduleOffsets|) ==>
                var md := mdl.value;
                |moduleOffsets| == md.loadOrder + 1 && moduleOffsets[..old(|moduleOffsets|)] == old(moduleOffsets) &&
                (forall i :: old(|moduleOffsets|) <= i < md.loadOrder ==> moduleOffsets[i] == NoOffsets) &&
                moduleOffsets[md.loadOrder] == ModuleOffsets(old(|fields|), old(|methods|), old(|parameters|), old(|types|)) &&
                |fields| == old(|fields|) + Rows(FieldTable, |md.fields|) &&
                |methods| == old(|methods|) + Rows(MethodDefTable, |md.methodDefs|) + Rows(MethodSpecTable, |md.methodSpecs|) &&
                |parameters| == old(|parameters|) + Rows(ParamTable, |md.params|) &&
                |types| == old(|types|) + Rows(TypeDefTable, |md.typeDefs|) + Rows(TypeSpecTable, |md.typeSpecs|)
      ensures mdl.Some? && failure.None? && WellFormed(mdl.value) ==>
                var md := mdl.value;
                2 <= |md.typeDefs| && 0 <= md.loadOrder < |moduleOffsets| &&
                forall row :: 2 <= row <= |md.typeDefs| ==> TypeDefPlaced(types, md, moduleOffsets[md.loadOrder], row)
    {
      if mdl.None? {
        return Some(ArgumentNull);
      }
      var md := mdl.value;
      if md.loadOrder < |moduleOffsets| {
        return Some(Argument);
      }
      var modOffset := ReserveSpace(md);
      failure := LoadModule(md, modOffset);
    }
  }

  /** Annotating entries keeps every TypeDef row where LoadTypes placed it. */
  lemma PlacementKept(types: seq<Option<TypeEntry>>, types': seq<Option<TypeEntry>>, md: ModuleMetadata, offs: ModuleOffsets)
    requires SameTypeDescs(types, types')
    requires forall row :: 2 <= row <= |md.typeDefs| ==> TypeDefPlaced(types, md, offs, row)
    ensures forall row :: 2 <= row <= |md.typeDefs| ==> TypeDefPlaced(types', md, offs, row)
  {
    forall row | 2 <= row <= |md.typeDefs|
      ensures TypeDefPlaced(types', md, offs, row)
    {
      assert TypeDefPlaced(types, md, offs, row);
    }
  }
}
