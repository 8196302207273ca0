// What LoadGenerics and LoadCustomAttributes attach to the loaded types and
// methods: each owner's group of GenericParam rows becomes its generic
// argument count, each owner's group of CustomAttribute rows its attribute
// list, and types marked with InternalCallTypeAttribute join the internal
// types. Both loops commit one owner group at a time (module OwnerGroups).
module Annotations {
  import opened Wrappers
  import opened MetadataTokens
  import opened Metadata
  import opened TypeEntries
  import opened TypeLookup
  import opened OwnerGroups

  /** The arrays the two loaders update, and the internal types found so far. */
  datatype Tables = Tables(types: seq<Option<TypeEntry>>, methods: seq<Option<MethodEntry>>, internalTypes: seq<TypeEntry>)

  /** Two type arrays hold entries in the same slots, made from the same descriptions. */
  predicate SameTypeDescs(a: seq<Option<TypeEntry>>, b: seq<Option<TypeEntry>>)
  {
    |a| == |b| && forall i :: 0 <= i < |a| ==> a[i].Some? == b[i].Some? && (a[i].Some? ==> a[i].value.desc == b[i].value.desc)
  }

  predicate SameMethodDescs(a: seq<Option<MethodEntry>>, b: seq<Option<MethodEntry>>)
  {
    |a| == |b| && forall i :: 0 <= i < |a| ==> a[i].Some? == b[i].Some? && (a[i].Some? ==> a[i].value.desc == b[i].value.desc)
  }

  /** Only the annotations of entries change: every slot keeps its description. */
  predicate KeepsDescs(t: Tables, t': Tables)
  {
    SameTypeDescs(t.types, t'.types) && SameMethodDescs(t.methods, t'.methods)
  }

  // ------------------------------------------------------------------ generics

  /**
   * The slot SetGenericParameters writes for an owner token, with the type
   * and method offsets LoadGenerics passes (already one less than the
   * module's): type offset + row - 1 for a TypeDef, method offset + row for
   * a MethodDef.
   */
  function GenericSlot(owner: int, typeOffset: int, methodOffset: int): int
  {
    if TableOf(owner) == TypeDefTable then typeOffset + RowOf(owner) - 1 else methodOffset + RowOf(owner)
  }

  /**
   * SetGenericParameters: the owner's entry records the number of generic
   * parameters; an owner outside the TypeDef and MethodDef tables is an
   * invalid program, a slot out of the array or an empty one an error.
   */
  function SetGenericParametersSpec(t: Tables, group: Group<GenericParamRow>, typeOffset: int, methodOffset: int): (r: (Tables, Option<Error>))
    ensures |r.0.types| == |t.types| && |r.0.methods| == |t.methods|
    ensures r.1.None? ==> KeepsDescs(t, r.0)
    ensures r.1.None? <==>
              var slot := GenericSlot(group.owner, typeOffset, methodOffset);
              (TableOf(group.owner) == TypeDefTable && 0 <= slot < |t.types| && t.types[slot].Some?) ||
              (TableOf(group.owner) == MethodDefTable && 0 <= slot < |t.methods| && t.methods[slot].Some?)
    ensures r.1.Some? ==> r.0 == t
  {
    var slot := GenericSlot(group.owner, typeOffset, methodOffset);
    if TableOf(group.owner) == TypeDefTable then
      if !(0 <= slot < |t.types|) then (t, Some(IndexOutOfRange))
      else if t.types[slot].None? then (t, Some(NullReference))
      else (t.(types := t.types[slot := Some(t.types[slot].value.(genericArgs := Some(|group.rows|)))]), None)
    else if TableOf(group.owner) == MethodDefTable then
      if !(0 <= slot < |t.methods|) then (t, Some(IndexOutOfRange))
      else if t.methods[slot].None? then (t, Some(NullReference))
      else (t.(methods := t.methods[slot := Some(t.methods[slot].value.(genericArgs := Some(|group.rows|)))]), None)
    else (t, Some(InvalidProgram))
  }

  /** The committed groups applied in order, up to the first failing one. */
  function ApplyGenericGroups(t: Tables, groups: seq<Group<GenericParamRow>>, typeOffset: int, methodOffset: int): (r: (Tables, Option<Error>))
    ensures |r.0.types| == |t.types| && |r.0.methods| == |t.methods|
    ensures r.1.None? ==> KeepsDescs(t, r.0)
  {
    if |groups| == 0 then (t, None)
    else
      var (t', e) := ApplyGenericGroups(t, groups[..|groups| - 1], typeOffset, methodOffset);
      if e.Some? then (t', e)
      else SetGenericParametersSpec(t', groups[|groups| - 1], typeOffset, methodOffset)
  }

  /** After groups applied without failure, one more group is one more commit. */
  lemma ApplyGenericGroupsAppend(t: Tables, groups: seq<Group<GenericParamRow>>, g: Group<GenericParamRow>, typeOffset: int, methodOffset: int)
    requires ApplyGenericGroups(t, groups, typeOffset, methodOffset).1.None?
    ensures ApplyGenericGroups(t, groups + [g], typeOffset, methodOffset) ==
            SetGenericParametersSpec(ApplyGenericGroups(t, groups, typeOffset, methodOffset).0, g, typeOffset, methodOffset)
  {
    assert (groups + [g])[..|groups|] == groups;
  }

  /** Once a commit fails, the later groups are not applied. */
  lemma {:induction false} ApplyGenericGroupsStops(t: Tables, groups: seq<Group<GenericParamRow>>, more: seq<Group<GenericParamRow>>,
                                                   typeOffset: int, methodOffset: int)
    requires ApplyGenericGroups(t, groups, typeOffset, methodOffset).1.Some?
    decreases |more|
    ensures ApplyGenericGroups(t, groups + more, typeOffset, methodOffset) == ApplyGenericGroups(t, groups, typeOffset, methodOffset)
  {
    if |more| == 0 {
      assert groups + more == groups;
    } else {
      var shorter := more[..|more| - 1];
      ApplyGenericGroupsStops(t, groups, shorter, typeOffset, methodOffset);
      assert (groups + more)[..|groups + more| - 1] == groups + shorter;
    }
  }

  /** The owner's entry exists and records n generic parameters. */
  predicate HasGenericCount(t: Tables, owner: int, typeOffset: int, methodOffset: int, n: nat)
  {
    var slot := GenericSlot(owner, typeOffset, methodOffset);
    (TableOf(owner) == TypeDefTable && 0 <= slot < |t.types| && t.types[slot].Some? && t.types[slot].value.genericArgs == Some(n)) ||
    (TableOf(owner) == MethodDefTable && 0 <= slot < |t.methods| && t.methods[slot].Some? && t.methods[slot].value.genericArgs == Some(n))
  }

  /** Distinct owners have distinct slots (tokens of a table differ by their rows). */
  lemma GenericSlotsDiffer(a: int, b: int, typeOffset: int, methodOffset: int)
    requires a != b && TableOf(a) == TableOf(b)
    ensures GenericSlot(a, typeOffset, methodOffset) != GenericSlot(b, typeOffset, methodOffset)
  {
    assert a == TableOf(a) * RowRadix + RowOf(a) && b == TableOf(b) * RowRadix + RowOf(b);
  }

  /**
   * After a successful LoadGenerics every owner's entry records the size of
   * its last group: when the groups come from rows sorted by owner, its
   * only one.
   */
  lemma {:induction false} ApplyGenericGroupsSets(t: Tables, groups: seq<Group<GenericParamRow>>, typeOffset: int, methodOffset: int)
    ensures var r := ApplyGenericGroups(t, groups, typeOffset, methodOffset);
            r.1.None? ==>
              forall j :: 0 <= j < |groups| && (forall l :: j < l < |groups| ==> groups[l].owner != groups[j].owner) ==>
                HasGenericCount(r.0, groups[j].owner, typeOffset, methodOffset, |groups[j].rows|)
  {
    var r := ApplyGenericGroups(t, groups, typeOffset, methodOffset);
    if |groups| > 0 && r.1.None? {
      var n := |groups| - 1;
      var (t', e) := ApplyGenericGroups(t, groups[..n], typeOffset, methodOffset);
      ApplyGenericGroupsSets(t, groups[..n], typeOffset, methodOffset);
      forall j | 0 <= j < |groups| && (forall l :: j < l < |groups| ==> groups[l].owner != groups[j].owner)
        ensures HasGenericCount(r.0, groups[j].owner, typeOffset, methodOffset, |groups[j].rows|)
      {
        if j < n {
          assert groups[..n][j] == groups[j];
          assert forall l :: j < l < n ==> groups[..n][l].owner != groups[..n][j].owner;
          assert HasGenericCount(t', groups[j].owner, typeOffset, methodOffset, |groups[j].rows|);
          assert groups[n].owner != groups[j].owner;
          if TableOf(groups[n].owner) == TableOf(groups[j].owner) {
            GenericSlotsDiffer(groups[n].owner, groups[j].owner, typeOffset, methodOffset);
          }
        }
      }
    }
  }

  // ------------------------------------------------------------------ attributes

  /**
   * SetAttributes: a TypeDef owner is looked up as GetType does and gets the
   * attributes (and joins the internal types when InternalCallTypeAttribute
   * is known and among them); a MethodDef owner is looked up as GetMethod
   * does and gets the attributes; a missing entry is a null reference; the
   * other attribute targets are ignored.
   */
  function SetAttributesSpec(t: Tables, offsets: seq<ModuleOffsets>, rtCall: Option<TypeEntry>, md: ModuleMetadata,
                             group: Group<CustomAttributeRow>): (r: (Tables, Option<Error>))
    ensures |r.0.types| == |t.types| && |r.0.methods| == |t.methods|
    ensures r.1.None? ==> KeepsDescs(t, r.0)
    ensures r.1.Some? ==> r.0 == t
    ensures TableOf(group.owner) != TypeDefTable && TableOf(group.owner) != MethodDefTable ==> r == (t, None)
  {
    if TableOf(group.owner) == TypeDefTable then
      match LookupTypeDef(t.types, offsets, md, group.owner)
      case Err(e) => (t, Some(e))
      case Ok(None) => (t, Some(NullReference))
      case Ok(Some(ty)) =>
        var slot := TypeDefSlot(offsets[md.loadOrder], RowOf(group.owner));
        var updated := ty.(attributes := Some(group.rows));
        var internal := if rtCall.Some? && IsDefined(updated, rtCall.value) then t.internalTypes + [updated] else t.internalTypes;
        (Tables(t.types[slot := Some(updated)], t.methods, internal), None)
    else if TableOf(group.owner) == MethodDefTable then
      match LookupMethodDef(t.methods, offsets, md, group.owner)
      case Err(e) => (t, Some(e))
      case Ok(None) => (t, Some(NullReference))
      case Ok(Some(m)) =>
        var slot := offsets[md.loadOrder].methodOffset + RowOf(group.owner) - 1;
        (t.(methods := t.methods[slot := Some(m.(attributes := Some(group.rows)))]), None)
    else (t, None)
  }

  /** The committed groups applied in order, up to the first failing one. */
  function ApplyAttributeGroups(t: Tables, offsets: seq<ModuleOffsets>, rtCall: Option<TypeEntry>, md: ModuleMetadata,
                                groups: seq<Group<CustomAttributeRow>>): (r: (Tables, Option<Error>))
    ensures |r.0.types| == |t.types| && |r.0.methods| == |t.methods|
    ensures r.1.None? ==> KeepsDescs(t, r.0)
  {
    if |groups| == 0 then (t, None)
    else
      var (t', e) := ApplyAttributeGroups(t, offsets, rtCall, md, groups[..|groups| - 1]);
      if e.Some? then (t', e)
      else SetAttributesSpec(t', offsets, rtCall, md, groups[|groups| - 1])
  }

  /** Once a commit fails, the later groups are not applied. */
  lemma {:induction false} ApplyAttributeGroupsStops(t: Tables, offsets: seq<ModuleOffsets>, rtCall: Option<TypeEntry>, md: ModuleMetadata,
                                                     groups: seq<Group<CustomAttributeRow>>, more: seq<Group<CustomAttributeRow>>)
    requires ApplyAttributeGroups(t, offsets, rtCall, md, groups).1.Some?
    decreases |more|
    ensures ApplyAttributeGroups(t, offsets, rtCall, md, groups + more) == ApplyAttributeGroups(t, offsets, rtCall, md, groups)
  {
    if |more| == 0 {
      assert groups + more == groups;
    } else {
      var shorter := more[..|more| - 1];
      ApplyAttributeGroupsStops(t, offsets, rtCall, md, groups, shorter);
      assert (groups + more)[..|groups + more| - 1] == groups + shorter;
    }
  }

  /** The attribute slot of an owner: where GetType or GetMethod finds it. */
  function AttributeSlot(offs: ModuleOffsets, owner: int): int
  {
    if TableOf(owner) == TypeDefTable then TypeDefSlot(offs, RowOf(owner)) else offs.methodOffset + RowOf(owner) - 1
  }

  /** The owner's entry exists and carries exactly the given attributes. */
  predicate HasAttributes(t: Tables, offs: ModuleOffsets, owner: int, rows: seq<CustomAttributeRow>)
  {
    var slot := AttributeSlot(offs, owner);
    (TableOf(owner) == TypeDefTable && 0 <= slot < |t.types| && t.types[slot].Some? && t.types[slot].value.attributes == Some(rows)) ||
    (TableOf(owner) == MethodDefTable && 0 <= slot < |t.methods| && t.methods[slot].Some? && t.methods[slot].value.attributes == Some(rows))
  }

  lemma AttributeSlotsDiffer(a: int, b: int, offs: ModuleOffsets)
    requires a != b && TableOf(a) == TableOf(b)
    ensures AttributeSlot(offs, a) != AttributeSlot(offs, b)
  {
    assert a == TableOf(a) * RowRadix + RowOf(a) && b == TableOf(b) * RowRadix + RowOf(b);
  }

  /**
   * One owner group: its owner now carries the rows, every other owner keeps
   * what it carried, and the internal types grow at most by one type that
   * carries InternalCallTypeAttribute.
   */
  lemma SetAttributesStep(t: Tables, offsets: seq<ModuleOffsets>, rtCall: Option<TypeEntry>, md: ModuleMetadata,
                          group: Group<CustomAttributeRow>)
    requires 0 <= md.loadOrder < |offsets|
    ensures var r := SetAttributesSpec(t, offsets, rtCall, md, group);
            r.1.None? ==>
              ((TableOf(group.owner) == TypeDefTable || TableOf(group.owner) == MethodDefTable) ==>
                 HasAttributes(r.0, offsets[md.loadOrder], group.owner, group.rows)) &&
              (forall o, rows :: o != group.owner && HasAttributes(t, offsets[md.loadOrder], o, rows) ==>
                 HasAttributes(r.0, offsets[md.loadOrder], o, rows))
    ensures var r := SetAttributesSpec(t, offsets, rtCall, md, group);
            r.0.internalTypes == t.internalTypes ||
            (r.0.internalTypes == t.internalTypes + [r.0.internalTypes[|t.internalTypes|]] &&
             rtCall.Some? && IsDefined(r.0.internalTypes[|t.internalTypes|], rtCall.value))
  {
    var r := SetAttributesSpec(t, offsets, rtCall, md, group);
    var offs := offsets[md.loadOrder];
    if r.1.None? {
      forall o, rows | o != group.owner && HasAttributes(t, offs, o, rows)
        ensures HasAttributes(r.0, offs, o, rows)
      {
        if TableOf(o) == TableOf(group.owner) {
          AttributeSlotsDiffer(o, group.owner, offs);
        }
      }
    }
  }

  /**
   * After a successful LoadCustomAttributes every TypeDef or MethodDef
   * owner's entry carries the rows of its last group.
   */
  lemma {:induction false} ApplyAttributeGroupsSets(t: Tables, offsets: seq<ModuleOffsets>, rtCall: Option<TypeEntry>, md: ModuleMetadata,
                                                    groups: seq<Group<CustomAttributeRow>>)
    requires 0 <= md.loadOrder < |offsets|
    ensures var r := ApplyAttributeGroups(t, offsets, rtCall, md, groups);
            r.1.None? ==>
              forall j :: 0 <= j < |groups| && (TableOf(groups[j].owner) == TypeDefTable || TableOf(groups[j].owner) == MethodDefTable) &&
                          (forall l :: j < l < |groups| ==> groups[l].owner != groups[j].owner) ==>
                HasAttributes(r.0, offsets[md.loadOrder], groups[j].owner, groups[j].rows)
  {
    var r := ApplyAttributeGroups(t, offsets, rtCall, md, groups);
    var offs := offsets[md.loadOrder];
    if |groups| > 0 && r.1.None? {
      var n := |groups| - 1;
      var (t', e) := ApplyAttributeGroups(t, offsets, rtCall, md, groups[..n]);
      ApplyAttributeGroupsSets(t, offsets, rtCall, md, groups[..n]);
      SetAttributesStep(t', offsets, rtCall, md, groups[n]);
      forall j | 0 <= j < n && (TableOf(groups[j].owner) == TypeDefTable || TableOf(groups[j].owner) == MethodDefTable) &&
                 (forall l :: j < l < |groups| ==> groups[l].owner != groups[j].owner)
        ensures HasAttributes(r.0, offs, groups[j].owner, groups[j].rows)
      {
        assert groups[..n][j] == groups[j];
        assert forall l :: j < l < n ==> groups[..n][l].owner != groups[..n][j].owner;
      }
    }
  }

  /** The internal types after are those before followed by types that carry InternalCallTypeAttribute. */
  predicate OnlyAddsInternal(before: seq<TypeEntry>, after: seq<TypeEntry>, rtCall: Option<TypeEntry>)
  {
    |before| <= |after| && after[..|before|] == before &&
    forall i :: |before| <= i < |after| ==> rtCall.Some? && IsDefined(after[i], rtCall.value)
  }

  /** One more attribute group keeps OnlyAddsInternal: it adds nothing or one marked type. */
  lemma OnlyAddsInternalStep(before: seq<TypeEntry>, mid: seq<TypeEntry>, after: seq<TypeEntry>, rtCall: Option<TypeEntry>)
    requires OnlyAddsInternal(before, mid, rtCall)
    requires after == mid ||
             (|after| > |mid| && after == mid + [after[|mid|]] && rtCall.Some? && IsDefined(after[|mid|], rtCall.value))
    ensures OnlyAddsInternal(before, after, rtCall)
  {
    if after != mid {
      var added := after[|mid|];
      forall i | |before| <= i < |after|
        ensures rtCall.Some? && IsDefined(after[i], rtCall.value)
      {
        if i < |mid| {
          assert after[i] == mid[i];
        } else {
          assert after[i] == added;
        }
      }
      assert after[..|before|] == mid[..|before|];
    }
  }

  /** LoadCustomAttributes only adds to the internal types, and only types that carry InternalCallTypeAttribute. */
  lemma {:induction false} ApplyAttributeGroupsInternal(t: Tables, offsets: seq<ModuleOffsets>, rtCall: Option<TypeEntry>, md: ModuleMetadata,
                                                        groups: seq<Group<CustomAttributeRow>>)
    requires 0 <= md.loadOrder < |offsets|
    ensures OnlyAddsInternal(t.internalTypes, ApplyAttributeGroups(t, offsets, rtCall, md, groups).0.internalTypes, rtCall)
  {
    if |groups| > 0 {
      var n := |groups| - 1;
      var (t', e) := ApplyAttributeGroups(t, offsets, rtCall, md, groups[..n]);
      ApplyAttributeGroupsInternal(t, offsets, rtCall, md, groups[..n]);
      var r := ApplyAttributeGroups(t, offsets, rtCall, md, groups);
      if e.None? {
        SetAttributesStep(t', offsets, rtCall, md, groups[n]);
        assert r == SetAttributesSpec(t', offsets, rtCall, md, groups[n]);
        OnlyAddsInternalStep(t.internalTypes, t'.internalTypes, r.0.internalTypes, rtCall);
      } else {
        assert r == (t', e);
      }
    }
  }
}
