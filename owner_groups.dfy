// Grouping of owner-sorted metadata rows (GenericParam and CustomAttribute)
// into one group per owner, as LoadGenerics and LoadCustomAttributes in
// Source/Runtime/Vm/DefaultTypeSystem.cs do it. A group is committed when
// the owner changes and it is not the initial owner 0, and the trailing
// group is committed at the end.
module OwnerGroups {
  import opened MetadataTokens
  import opened Metadata

  datatype Group<R> = Group(owner: int, rows: seq<R>)

  /** The loop's state: the groups committed so far, the current owner and its pending rows. */
  datatype ScanState<R> = ScanState(committed: seq<Group<R>>, owner: int, pending: seq<R>)

  /** One row: a new owner commits the pending group (if any), then the row is added. */
  function Step<R>(s: ScanState<R>, row: R, owner: int): ScanState<R>
  {
    if s.owner != owner then
      if s.owner != 0 && |s.pending| != 0 then ScanState(s.committed + [Group(s.owner, s.pending)], owner, [row])
      else ScanState(s.committed, owner, s.pending + [row])
    else ScanState(s.committed, s.owner, s.pending + [row])
  }

  function Scan<R>(rows: seq<R>, ownerOf: R -> int): ScanState<R>
  {
    if |rows| == 0 then ScanState([], 0, [])
    else Step(Scan(rows[..|rows| - 1], ownerOf), rows[|rows| - 1], ownerOf(rows[|rows| - 1]))
  }

  /** The trailing group is committed when it is not empty. */
  function Finish<R>(s: ScanState<R>): seq<Group<R>>
  {
    if |s.pending| != 0 then s.committed + [Group(s.owner, s.pending)] else s.committed
  }

  function Groups<R>(rows: seq<R>, ownerOf: R -> int): seq<Group<R>>
  {
    Finish(Scan(rows, ownerOf))
  }

  function Flatten<R>(groups: seq<Group<R>>): seq<R>
  {
    if |groups| == 0 then [] else Flatten(groups[..|groups| - 1]) + groups[|groups| - 1].rows
  }

  /** Every group is non-empty and holds rows of its own owner only; neighbours have different owners. */
  predicate WellGrouped<R>(groups: seq<Group<R>>, ownerOf: R -> int)
  {
    (forall i :: 0 <= i < |groups| ==> |groups[i].rows| > 0) &&
    (forall i, j :: 0 <= i < |groups| && 0 <= j < |groups[i].rows| ==> ownerOf(groups[i].rows[j]) == groups[i].owner) &&
    (forall i :: 0 < i < |groups| ==> groups[i - 1].owner != groups[i].owner)
  }

  predicate NoNullOwner<R>(rows: seq<R>, ownerOf: R -> int)
  {
    forall i :: 0 <= i < |rows| ==> ownerOf(rows[i]) != 0
  }

  /** What the scan keeps true for rows with non-null owners. */
  ghost predicate ScanInvariant<R>(s: ScanState<R>, rows: seq<R>, ownerOf: R -> int)
  {
    WellGrouped(s.committed, ownerOf) &&
    Flatten(s.committed) + s.pending == rows &&
    (|rows| == 0 ==> s.owner == 0 && s.committed == []) &&
    (|rows| > 0 ==> s.owner != 0 && |s.pending| > 0 &&
                    (forall j :: 0 <= j < |s.pending| ==> ownerOf(s.pending[j]) == s.owner) &&
                    (|s.committed| > 0 ==> s.committed[|s.committed| - 1].owner != s.owner))
  }

  lemma FlattenAppend<R>(groups: seq<Group<R>>, g: Group<R>)
    ensures Flatten(groups + [g]) == Flatten(groups) + g.rows
  {
    assert (groups + [g])[..|groups|] == groups;
  }

  /** A non-empty group of one owner, different from the last group's, keeps the groups well formed. */
  lemma WellGroupedAppend<R>(groups: seq<Group<R>>, g: Group<R>, ownerOf: R -> int)
    requires WellGrouped(groups, ownerOf)
    requires |g.rows| > 0 && forall j :: 0 <= j < |g.rows| ==> ownerOf(g.rows[j]) == g.owner
    requires |groups| > 0 ==> groups[|groups| - 1].owner != g.owner
    ensures WellGrouped(groups + [g], ownerOf)
  {
    var c := groups + [g];
    forall i, j | 0 <= i < |c| && 0 <= j < |c[i].rows|
      ensures ownerOf(c[i].rows[j]) == c[i].owner
    {
      if i < |groups| { assert c[i] == groups[i]; }
    }
    forall i | 0 < i < |c|
      ensures c[i - 1].owner != c[i].owner
    {
      if i < |groups| { assert c[i - 1] == groups[i - 1] && c[i] == groups[i]; }
    }
  }

  /** A row of a new owner after a pending group commits that group. */
  lemma StepCommits<R>(s: ScanState<R>, front: seq<R>, row: R, ownerOf: R -> int)
    requires ScanInvariant(s, front, ownerOf) && ownerOf(row) != 0
    requires s.owner != ownerOf(row) && s.owner != 0 && |s.pending| != 0
    ensures ScanInvariant(ScanState(s.committed + [Group(s.owner, s.pending)], ownerOf(row), [row]), front + [row], ownerOf)
  {
    assert |front| > 0;
    FlattenAppend(s.committed, Group(s.owner, s.pending));
    WellGroupedAppend(s.committed, Group(s.owner, s.pending), ownerOf);
  }

  /** A row of the current owner joins the pending group. */
  lemma StepExtends<R>(s: ScanState<R>, front: seq<R>, row: R, ownerOf: R -> int)
    requires ScanInvariant(s, front, ownerOf) && ownerOf(row) != 0
    requires s.owner == ownerOf(row)
    ensures ScanInvariant(ScanState(s.committed, s.owner, s.pending + [row]), front + [row], ownerOf)
  {
    assert |front| > 0;
    assert Flatten(s.committed) + (s.pending + [row]) == (Flatten(s.committed) + s.pending) + [row];
  }

  /** One row with a non-null owner keeps the scan's invariant. */
  lemma StepKeepsInvariant<R>(s: ScanState<R>, front: seq<R>, row: R, ownerOf: R -> int)
    requires ScanInvariant(s, front, ownerOf) && ownerOf(row) != 0
    ensures ScanInvariant(Step(s, row, ownerOf(row)), front + [row], ownerOf)
  {
    var o := ownerOf(row);
    if s.owner != o && s.owner != 0 && |s.pending| != 0 {
      StepCommits(s, front, row, ownerOf);
    } else if s.owner != o {
      assert |front| == 0 && s.committed == [] && s.pending == [];
      assert front + [row] == [row];
    } else {
      StepExtends(s, front, row, ownerOf);
    }
  }

  lemma {:induction false} ScanKeepsInvariant<R>(rows: seq<R>, ownerOf: R -> int)
    requires NoNullOwner(rows, ownerOf)
    ensures ScanInvariant(Scan(rows, ownerOf), rows, ownerOf)
  {
    if |rows| > 0 {
      var front := rows[..|rows| - 1];
      var row := rows[|rows| - 1];
      assert ownerOf(rows[|rows| - 1]) != 0;
      assert NoNullOwner(front, ownerOf) by {
        forall i | 0 <= i < |front| ensures ownerOf(front[i]) != 0 {
          assert front[i] == rows[i];
        }
      }
      ScanKeepsInvariant(front, ownerOf);
      StepKeepsInvariant(Scan(front, ownerOf), front, row, ownerOf);
      assert rows == front + [row];
    }
  }

  /**
   * With no row owned by 0, the groups partition the rows in order: each is
   * non-empty, holds only its owner's rows, and neighbours differ in owner,
   * so every run of one owner's rows is committed exactly once.
   */
  lemma GroupsPartition<R>(rows: seq<R>, ownerOf: R -> int)
    requires NoNullOwner(rows, ownerOf)
    ensures WellGrouped(Groups(rows, ownerOf), ownerOf)
    ensures Flatten(Groups(rows, ownerOf)) == rows
  {
    ScanKeepsInvariant(rows, ownerOf);
    var s := Scan(rows, ownerOf);
    if |s.pending| != 0 {
      FlattenAppend(s.committed, Group(s.owner, s.pending));
      WellGroupedAppend(s.committed, Group(s.owner, s.pending), ownerOf);
    } else {
      assert s.pending == [];
    }
  }

  /** The owner of a GenericParam row and the parent of a CustomAttribute row, the keys the two loaders group by. */
  function GenericOwner(g: GenericParamRow): int
  {
    g.owner
  }

  function AttributeOwner(a: CustomAttributeRow): int
  {
    a.parent
  }

  function AttributeGroups(rows: seq<CustomAttributeRow>): seq<Group<CustomAttributeRow>>
  {
    Groups(rows, AttributeOwner)
  }

  /** The groups committed after a prefix of the rows begin the groups of all the rows. */
  lemma {:induction false} CommittedIsPrefix<R>(rows: seq<R>, ownerOf: R -> int, k: nat)
    requires k <= |rows|
    decreases |rows| - k
    ensures |Scan(rows[..k], ownerOf).committed| <= |Groups(rows, ownerOf)|
    ensures Groups(rows, ownerOf)[..|Scan(rows[..k], ownerOf).committed|] == Scan(rows[..k], ownerOf).committed
  {
    var c := Scan(rows[..k], ownerOf).committed;
    if k == |rows| {
      assert rows[..k] == rows;
      assert Groups(rows, ownerOf)[..|c|] == c;
    } else {
      CommittedIsPrefix(rows, ownerOf, k + 1);
      assert rows[..k + 1][..k] == rows[..k];
      var c' := Scan(rows[..k + 1], ownerOf).committed;
      assert c'[..|c|] == c;
      assert Groups(rows, ownerOf)[..|c'|][..|c|] == Groups(rows, ownerOf)[..|c|];
    }
  }

  // LoadGenerics as written: a group is committed only when the new owner
  // token is greater than the current one.

  /**
   * One row as written: the current owner only ever grows, so a row whose
   * owner is not greater joins the pending group of the current owner.
   */
  function StepAsWritten<R>(s: ScanState<R>, row: R, owner: int): (r: ScanState<R>)
    ensures r.owner >= s.owner && (r.owner == s.owner || r.owner == owner)
    ensures owner <= s.owner ==> r.committed == s.committed && r.pending == s.pending + [row]
  {
    if s.owner < owner then
      if s.owner != 0 && |s.pending| != 0 then ScanState(s.committed + [Group(s.owner, s.pending)], owner, [row])
      else ScanState(s.committed, owner, s.pending + [row])
    else ScanState(s.committed, s.owner, s.pending + [row])
  }

  /** A step as written drops no row: the row follows the rows seen so far. */
  lemma StepAsWrittenKeepsRows<R>(s: ScanState<R>, row: R, owner: int)
    ensures var r := StepAsWritten(s, row, owner);
            Flatten(r.committed) + r.pending == Flatten(s.committed) + s.pending + [row]
  {
    if s.owner < owner && s.owner != 0 && |s.pending| != 0 {
      FlattenAppend(s.committed, Group(s.owner, s.pending));
    }
  }

  function ScanAsWritten<R>(rows: seq<R>, ownerOf: R -> int): ScanState<R>
  {
    if |rows| == 0 then ScanState([], 0, [])
    else StepAsWritten(ScanAsWritten(rows[..|rows| - 1], ownerOf), rows[|rows| - 1], ownerOf(rows[|rows| - 1]))
  }

  /** The scan as written keeps every row, in order, in its committed and pending rows. */
  lemma {:induction false} ScanAsWrittenKeepsRows<R>(rows: seq<R>, ownerOf: R -> int)
    ensures Flatten(ScanAsWritten(rows, ownerOf).committed) + ScanAsWritten(rows, ownerOf).pending == rows
  {
    if |rows| > 0 {
      ScanAsWrittenKeepsRows(rows[..|rows| - 1], ownerOf);
      StepAsWrittenKeepsRows(ScanAsWritten(rows[..|rows| - 1], ownerOf), rows[|rows| - 1], ownerOf(rows[|rows| - 1]));
      assert rows[..|rows| - 1] + [rows[|rows| - 1]] == rows;
    }
  }

  /**
   * The groups LoadGenerics applies as written: every parameter is applied
   * once and in table order, but possibly to another owner's group.
   */
  function GenericGroupsAsWritten(rows: seq<GenericParamRow>): (groups: seq<Group<GenericParamRow>>)
    ensures Flatten(groups) == rows
  {
    var s := ScanAsWritten(rows, GenericOwner);
    ScanAsWrittenKeepsRows(rows, GenericOwner);
    if |s.pending| != 0 then
      FlattenAppend(s.committed, Group(s.owner, s.pending));
      Finish(s)
    else Finish(s)
  }

  function GenericGroups(rows: seq<GenericParamRow>): seq<Group<GenericParamRow>>
  {
    Groups(rows, GenericOwner)
  }

  /** LoadGenerics' scan of the GenericParam rows, committing on a greater owner as written or on any other owner corrected. */
  function GenericScan(rows: seq<GenericParamRow>, corrected: bool): ScanState<GenericParamRow>
  {
    if corrected then Scan(rows, GenericOwner) else ScanAsWritten(rows, GenericOwner)
  }

  /** One more row of LoadGenerics' scan, written out for either commit test. */
  lemma GenericScanStep(rows: seq<GenericParamRow>, corrected: bool, k: nat)
    requires k < |rows|
    ensures var s := GenericScan(rows[..k], corrected);
            var g := rows[k];
            GenericScan(rows[..k + 1], corrected) ==
              if (if corrected then s.owner != g.owner else s.owner < g.owner) then
                if s.owner != 0 && |s.pending| != 0 then ScanState(s.committed + [Group(s.owner, s.pending)], g.owner, [g])
                else ScanState(s.committed, g.owner, s.pending + [g])
              else ScanState(s.committed, s.owner, s.pending + [g])
  {
    assert rows[..k + 1][..k] == rows[..k];
  }

  /** The groups LoadGenerics applies: GenericGroupsAsWritten, or GenericGroups corrected. */
  function GenericGroupsBy(rows: seq<GenericParamRow>, corrected: bool): (groups: seq<Group<GenericParamRow>>)
    ensures groups == if corrected then GenericGroups(rows) else GenericGroupsAsWritten(rows)
  {
    Finish(GenericScan(rows, corrected))
  }

  /** Under either rule, the groups committed after a prefix of the rows begin the groups of all the rows. */
  lemma {:induction false} GenericCommittedIsPrefix(rows: seq<GenericParamRow>, corrected: bool, k: nat)
    requires k <= |rows|
    decreases |rows| - k
    ensures |GenericScan(rows[..k], corrected).committed| <= |GenericGroupsBy(rows, corrected)|
    ensures GenericGroupsBy(rows, corrected)[..|GenericScan(rows[..k], corrected).committed|] == GenericScan(rows[..k], corrected).committed
  {
    var c := GenericScan(rows[..k], corrected).committed;
    var all := GenericGroupsBy(rows, corrected);
    if k == |rows| {
      assert rows[..k] == rows;
      assert all[..|c|] == c;
    } else {
      GenericCommittedIsPrefix(rows, corrected, k + 1);
      assert rows[..k + 1][..k] == rows[..k];
      var c' := GenericScan(rows[..k + 1], corrected).committed;
      assert c'[..|c|] == c;
      assert all[..|c'|][..|c|] == all[..|c|];
    }
  }

  /**
   * The position of an owner in the GenericParam table's sort order: the
   * TypeOrMethodDef coded index of section II.24.2.6 of ECMA-335 (row shifted
   * left by one, tag 0 for TypeDef and 1 for MethodDef).
   */
  function CodedOwner(owner: int): int
  {
    RowOf(owner) * 2 + (if TableOf(owner) == MethodDefTable then 1 else 0)
  }

  /**
   * A generic method of row 1 followed by a generic type of row 5, in coded
   * order: as written, the type's parameter joins the method's group, so the
   * method gets two parameters and the type none.
   */
  lemma GenericGroupsMergeOwners()
    ensures var rows := [GenericParamRow(0, 0, MakeToken(MethodDefTable, 1), "T"),
                         GenericParamRow(0, 0, MakeToken(TypeDefTable, 5), "U")];
            CodedOwner(rows[0].owner) < CodedOwner(rows[1].owner) &&
            GenericGroupsAsWritten(rows) == [Group(MakeToken(MethodDefTable, 1), rows)] &&
            !WellGrouped(GenericGroupsAsWritten(rows), GenericOwner) &&
            GenericGroups(rows) == [Group(MakeToken(MethodDefTable, 1), rows[..1]), Group(MakeToken(TypeDefTable, 5), rows[1..])]
  {
    var rows := [GenericParamRow(0, 0, MakeToken(MethodDefTable, 1), "T"),
                 GenericParamRow(0, 0, MakeToken(TypeDefTable, 5), "U")];
    MergedAsWritten(rows);
    SplitCorrected(rows);
    assert GenericOwner(GenericGroupsAsWritten(rows)[0].rows[1]) != GenericGroupsAsWritten(rows)[0].owner;
  }

  /** The as-written half of GenericGroupsMergeOwners: both rows stay with the first owner. */
  lemma MergedAsWritten(rows: seq<GenericParamRow>)
    requires |rows| == 2 && rows[0].owner == MakeToken(MethodDefTable, 1) && rows[1].owner == MakeToken(TypeDefTable, 5)
    ensures GenericGroupsAsWritten(rows) == [Group(MakeToken(MethodDefTable, 1), rows)]
  {
    var ownerOf := GenericOwner;
    assert rows[..1] == [rows[0]] && rows[..0] == [];
    assert ScanAsWritten(rows[..1], ownerOf) == ScanState([], MakeToken(MethodDefTable, 1), [rows[0]]);
    assert rows[..|rows| - 1] == rows[..1];
    assert ScanAsWritten(rows, ownerOf) == ScanState([], MakeToken(MethodDefTable, 1), [rows[0], rows[1]]);
    assert [rows[0], rows[1]] == rows;
  }

  /** The corrected half of GenericGroupsMergeOwners: each owner gets its own row. */
  lemma SplitCorrected(rows: seq<GenericParamRow>)
    requires |rows| == 2 && rows[0].owner == MakeToken(MethodDefTable, 1) && rows[1].owner == MakeToken(TypeDefTable, 5)
    ensures GenericGroups(rows) == [Group(MakeToken(MethodDefTable, 1), rows[..1]), Group(MakeToken(TypeDefTable, 5), rows[1..])]
  {
    var ownerOf := GenericOwner;
    assert rows[..1] == [rows[0]] && rows[..0] == [];
    assert Scan(rows[..1], ownerOf) == ScanState([], MakeToken(MethodDefTable, 1), [rows[0]]);
    assert rows[..|rows| - 1] == rows[..1];
    assert rows[1..] == [rows[1]];
  }

  /** The corrected grouping gives every owner of a sorted GenericParam table its own parameters. */
  lemma GenericGroupsPartition(rows: seq<GenericParamRow>)
    requires forall i :: 0 <= i < |rows| ==> rows[i].owner != 0
    ensures WellGrouped(GenericGroups(rows), GenericOwner)
    ensures Flatten(GenericGroups(rows)) == rows
  {
    GroupsPartition(rows, GenericOwner);
  }
}
