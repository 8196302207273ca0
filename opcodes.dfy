// The CIL opcode numbering of Mosa/Runtime/CompilerFramework/IL/OpCode.cs, following
// section III.1.2.1 of ECMA-335: single-byte opcodes, the 0xFE escape, the
// two-byte opcodes (stored as 0x100 | second byte) and the annotation opcodes
// 0xC7..0xCF that MOSA reserves for its own IR transforms.
module OpCodes {

  const Nop: int := 0x000
  const Break: int := 0x001
  const Ldarg_0: int := 0x002
  const Ldarg_1: int := 0x003
  const Ldarg_2: int := 0x004
  const Ldarg_3: int := 0x005
  const Ldloc_0: int := 0x006
  const Ldloc_1: int := 0x007
  const Ldloc_2: int := 0x008
  const Ldloc_3: int := 0x009
  const Stloc_0: int := 0x00A
  const Stloc_1: int := 0x00B
  const Stloc_2: int := 0x00C
  const Stloc_3: int := 0x00D
  const Ldarg_s: int := 0x00E
  const Ldarga_s: int := 0x00F
  const Starg_s: int := 0x010
  const Ldloc_s: int := 0x011
  const Ldloca_s: int := 0x012
  const Stloc_s: int := 0x013
  const Ldnull: int := 0x014
  const Ldc_i4_m1: int := 0x015
  const Ldc_i4_0: int := 0x016
  const Ldc_i4_1: int := 0x017
  const Ldc_i4_2: int := 0x018
  const Ldc_i4_3: int := 0x019
  const Ldc_i4_4: int := 0x01A
  const Ldc_i4_5: int := 0x01B
  const Ldc_i4_6: int := 0x01C
  const Ldc_i4_7: int := 0x01D
  const Ldc_i4_8: int := 0x01E
  const Ldc_i4_s: int := 0x01F
  const Ldc_i4: int := 0x020
  const Ldc_i8: int := 0x021
  const Ldc_r4: int := 0x022
  const Ldc_r8: int := 0x023
  const Dup: int := 0x025
  const Pop: int := 0x026
  const Jmp: int := 0x027
  const Call: int := 0x028
  const Calli: int := 0x029
  const Ret: int := 0x02A
  const Br_s: int := 0x02B
  const Brfalse_s: int := 0x02C
  const Brtrue_s: int := 0x02D
  const Beq_s: int := 0x02E
  const Bge_s: int := 0x02F
  const Bgt_s: int := 0x030
  const Ble_s: int := 0x031
  const Blt_s: int := 0x032
  const Bne_un_s: int := 0x033
  const Bge_un_s: int := 0x034
  const Bgt_un_s: int := 0x035
  const Ble_un_s: int := 0x036
  const Blt_un_s: int := 0x037
  const Br: int := 0x038
  const Brfalse: int := 0x039
  const Brtrue: int := 0x03A
  const Beq: int := 0x03B
  const Bge: int := 0x03C
  const Bgt: int := 0x03D
  const Ble: int := 0x03E
  const Blt: int := 0x03F
  const Bne_un: int := 0x040
  const Bge_un: int := 0x041
  const Bgt_un: int := 0x042
  const Ble_un: int := 0x043
  const Blt_un: int := 0x044
  const Switch: int := 0x045
  const Ldind_i1: int := 0x046
  const Ldind_u1: int := 0x047
  const Ldind_i2: int := 0x048
  const Ldind_u2: int := 0x049
  const Ldind_i4: int := 0x04A
  const Ldind_u4: int := 0x04B
  const Ldind_i8: int := 0x04C
  const Ldind_i: int := 0x04D
  const Ldind_r4: int := 0x04E
  const Ldind_r8: int := 0x04F
  const Ldind_ref: int := 0x050
  const Stind_ref: int := 0x051
  const Stind_i1: int := 0x052
  const Stind_i2: int := 0x053
  const Stind_i4: int := 0x054
  const Stind_i8: int := 0x055
  const Stind_r4: int := 0x056
  const Stind_r8: int := 0x057
  const Add: int := 0x058
  const Sub: int := 0x059
  const Mul: int := 0x05A
  const Div: int := 0x05B
  const Div_un: int := 0x05C
  const Rem: int := 0x05D
  const Rem_un: int := 0x05E
  const And: int := 0x05F
  const Or: int := 0x060
  const Xor: int := 0x061
  const Shl: int := 0x062
  const Shr: int := 0x063
  const Shr_un: int := 0x064
  const Neg: int := 0x065
  const Not: int := 0x066
  const Conv_i1: int := 0x067
  const Conv_i2: int := 0x068
  const Conv_i4: int := 0x069
  const Conv_i8: int := 0x06A
  const Conv_r4: int := 0x06B
  const Conv_r8: int := 0x06C
  const Conv_u4: int := 0x06D
  const Conv_u8: int := 0x06E
  const Callvirt: int := 0x06F
  const Cpobj: int := 0x070
  const Ldobj: int := 0x071
  const Ldstr: int := 0x072
  const Newobj: int := 0x073
  const Castclass: int := 0x074
  const Isinst: int := 0x075
  const Conv_r_un: int := 0x076
  const Unbox: int := 0x079
  const Throw: int := 0x07A
  const Ldfld: int := 0x07B
  const Ldflda: int := 0x07C
  const Stfld: int := 0x07D
  const Ldsfld: int := 0x07E
  const Ldsflda: int := 0x07F
  const Stsfld: int := 0x080
  const Stobj: int := 0x081
  const Conv_ovf_i1_un: int := 0x082
  const Conv_ovf_i2_un: int := 0x083
  const Conv_ovf_i4_un: int := 0x084
  const Conv_ovf_i8_un: int := 0x085
  const Conv_ovf_u1_un: int := 0x086
  const Conv_ovf_u2_un: int := 0x087
  const Conv_ovf_u4_un: int := 0x088
  const Conv_ovf_u8_un: int := 0x089
  const Conv_ovf_i_un: int := 0x08A
  const Conv_ovf_u_un: int := 0x08B
  const Box: int := 0x08C
  const Newarr: int := 0x08D
  const Ldlen: int := 0x08E
  const Ldelema: int := 0x08F
  const Ldelem_i1: int := 0x090
  const Ldelem_u1: int := 0x091
  const Ldelem_i2: int := 0x092
  const Ldelem_u2: int := 0x093
  const Ldelem_i4: int := 0x094
  const Ldelem_u4: int := 0x095
  const Ldelem_i8: int := 0x096
  const Ldelem_i: int := 0x097
  const Ldelem_r4: int := 0x098
  const Ldelem_r8: int := 0x099
  const Ldelem_ref: int := 0x09A
  const Stelem_i: int := 0x09B
  const Stelem_i1: int := 0x09C
  const Stelem_i2: int := 0x09D
  const Stelem_i4: int := 0x09E
  const Stelem_i8: int := 0x09F
  const Stelem_r4: int := 0x0A0
  const Stelem_r8: int := 0x0A1
  const Stelem_ref: int := 0x0A2
  const Ldelem: int := 0x0A3
  const Stelem: int := 0x0A4
  const Unbox_any: int := 0x0A5
  const Conv_ovf_i1: int := 0x0B3
  const Conv_ovf_u1: int := 0x0B4
  const Conv_ovf_i2: int := 0x0B5
  const Conv_ovf_u2: int := 0x0B6
  const Conv_ovf_i4: int := 0x0B7
  const Conv_ovf_u4: int := 0x0B8
  const Conv_ovf_i8: int := 0x0B9
  const Conv_ovf_u8: int := 0x0BA
  const Refanyval: int := 0x0C2
  const Ckfinite: int := 0x0C3
  const Mkrefany: int := 0x0C6
  const Ann_call: int := 0x0C7
  const Ann_catch: int := 0x0C8
  const Ann_dead: int := 0x0C9
  const Ann_hoisted: int := 0x0CA
  const Ann_hoistedcall: int := 0x0CB
  const Ann_lab: int := 0x0CC
  const Ann_def: int := 0x0CD
  const Ann_ref_s: int := 0x0CE
  const Ann_phi: int := 0x0CF
  const Ldtoken: int := 0x0D0
  const Conv_u2: int := 0x0D1
  const Conv_u1: int := 0x0D2
  const Conv_i: int := 0x0D3
  const Conv_ovf_i: int := 0x0D4
  const Conv_ovf_u: int := 0x0D5
  const Add_ovf: int := 0x0D6
  const Add_ovf_un: int := 0x0D7
  const Mul_ovf: int := 0x0D8
  const Mul_ovf_un: int := 0x0D9
  const Sub_ovf: int := 0x0DA
  const Sub_ovf_un: int := 0x0DB
  const Endfinally: int := 0x0DC
  const Leave: int := 0x0DD
  const Leave_s: int := 0x0DE
  const Stind_i: int := 0x0DF
  const Conv_u: int := 0x0E0
  const Extop: int := 0x0FE
  const Arglist: int := 0x100
  const Ceq: int := 0x101
  const Cgt: int := 0x102
  const Cgt_un: int := 0x103
  const Clt: int := 0x104
  const Clt_un: int := 0x105
  const Ldftn: int := 0x106
  const Ldvirtftn: int := 0x107
  const Ldarg: int := 0x109
  const Ldarga: int := 0x10A
  const Starg: int := 0x10B
  const Ldloc: int := 0x10C
  const Ldloca: int := 0x10D
  const Stloc: int := 0x10E
  const Localalloc: int := 0x10F
  const Endfilter: int := 0x111
  const PreUnaligned: int := 0x112
  const PreVolatile: int := 0x113
  const PreTail: int := 0x114
  const InitObj: int := 0x115
  const PreConstrained: int := 0x116
  const Cpblk: int := 0x117
  const Initblk: int := 0x118
  const PreNo: int := 0x119
  const Rethrow: int := 0x11A
  const Sizeof: int := 0x11C
  const Refanytype: int := 0x11D
  const PreReadOnly: int := 0x11E

  // The enumeration in declaration order, cut into short parts so that each
  // part's ordering can be checked on its own.
  const Part0: seq<int> := [
      Nop, Break, Ldarg_0, Ldarg_1, Ldarg_2, Ldarg_3,
      Ldloc_0, Ldloc_1, Ldloc_2, Ldloc_3, Stloc_0, Stloc_1,
      Stloc_2, Stloc_3, Ldarg_s, Ldarga_s, Starg_s, Ldloc_s,
      Ldloca_s, Stloc_s, Ldnull, Ldc_i4_m1, Ldc_i4_0, Ldc_i4_1,
      Ldc_i4_2, Ldc_i4_3, Ldc_i4_4, Ldc_i4_5, Ldc_i4_6, Ldc_i4_7,
      Ldc_i4_8, Ldc_i4_s, Ldc_i4, Ldc_i8, Ldc_r4, Ldc_r8]
  const Part1: seq<int> := [
      Dup, Pop, Jmp, Call, Calli, Ret,
      Br_s, Brfalse_s, Brtrue_s, Beq_s, Bge_s, Bgt_s,
      Ble_s, Blt_s, Bne_un_s, Bge_un_s, Bgt_un_s, Ble_un_s,
      Blt_un_s, Br, Brfalse, Brtrue, Beq, Bge,
      Bgt, Ble, Blt, Bne_un, Bge_un, Bgt_un]
  const Part2: seq<int> := [
      Ble_un, Blt_un, Switch, Ldind_i1, Ldind_u1, Ldind_i2,
      Ldind_u2, Ldind_i4, Ldind_u4, Ldind_i8, Ldind_i, Ldind_r4,
      Ldind_r8, Ldind_ref, Stind_ref, Stind_i1, Stind_i2, Stind_i4,
      Stind_i8, Stind_r4, Stind_r8, Add, Sub, Mul,
      Div, Div_un, Rem, Rem_un, And, Or]
  const Part3: seq<int> := [
      Xor, Shl, Shr, Shr_un, Neg, Not,
      Conv_i1, Conv_i2, Conv_i4, Conv_i8, Conv_r4, Conv_r8,
      Conv_u4, Conv_u8, Callvirt, Cpobj, Ldobj, Ldstr,
      Newobj, Castclass, Isinst, Conv_r_un]
  const Part4: seq<int> := [
      Unbox, Throw, Ldfld, Ldflda, Stfld, Ldsfld,
      Ldsflda, Stsfld, Stobj, Conv_ovf_i1_un, Conv_ovf_i2_un, Conv_ovf_i4_un,
      Conv_ovf_i8_un, Conv_ovf_u1_un, Conv_ovf_u2_un, Conv_ovf_u4_un, Conv_ovf_u8_un, Conv_ovf_i_un,
      Conv_ovf_u_un, Box, Newarr, Ldlen, Ldelema]
  const Part5: seq<int> := [
      Ldelem_i1, Ldelem_u1, Ldelem_i2, Ldelem_u2, Ldelem_i4, Ldelem_u4,
      Ldelem_i8, Ldelem_i, Ldelem_r4, Ldelem_r8, Ldelem_ref, Stelem_i,
      Stelem_i1, Stelem_i2, Stelem_i4, Stelem_i8, Stelem_r4, Stelem_r8,
      Stelem_ref, Ldelem, Stelem, Unbox_any]
  const Part6: seq<int> := [
      Conv_ovf_i1, Conv_ovf_u1, Conv_ovf_i2, Conv_ovf_u2, Conv_ovf_i4, Conv_ovf_u4,
      Conv_ovf_i8, Conv_ovf_u8]
  const Part7: seq<int> := [
      Refanyval, Ckfinite]
  const Part8: seq<int> := [
      Mkrefany, Ann_call, Ann_catch, Ann_dead, Ann_hoisted, Ann_hoistedcall,
      Ann_lab, Ann_def, Ann_ref_s, Ann_phi, Ldtoken, Conv_u2,
      Conv_u1, Conv_i, Conv_ovf_i, Conv_ovf_u, Add_ovf, Add_ovf_un,
      Mul_ovf, Mul_ovf_un, Sub_ovf, Sub_ovf_un, Endfinally, Leave,
      Leave_s, Stind_i, Conv_u]
  const Part9: seq<int> := [
      Extop]
  const Part10: seq<int> := [
      Arglist, Ceq, Cgt, Cgt_un, Clt, Clt_un,
      Ldftn, Ldvirtftn]
  const Part11: seq<int> := [
      Ldarg, Ldarga, Starg, Ldloc, Ldloca, Stloc,
      Localalloc]
  const Part12: seq<int> := [
      Endfilter, PreUnaligned, PreVolatile, PreTail, InitObj, PreConstrained,
      Cpblk, Initblk, PreNo, Rethrow]
  const Part13: seq<int> := [
      Sizeof, Refanytype, PreReadOnly]
  const Enumerated: seq<int> :=
    Part0 + Part1 + Part2 + Part3 + Part4 + Part5 + Part6 + Part7 + Part8 + Part9 + Part10 + Part11 + Part12 + Part13

  /** The opcodes MOSA reserves for annotations in its IR; a binary never holds them. */
  predicate IsAnnotation(op: int)
  {
    Ann_call <= op <= Ann_phi
  }

  /** The values the enumeration leaves out, as the comments of the opcode table list them. */
  predicate IsUndefined(v: int)
  {
    v == 0x24 || 0x77 <= v <= 0x78 || 0xA6 <= v <= 0xB2 || 0xBB <= v <= 0xC1 ||
    0xC4 <= v <= 0xC5 || 0xE1 <= v <= 0xFD || v == 0xFF ||
    v == 0x108 || v == 0x110 || v == 0x11B
  }

  /** The six instruction prefixes. */
  const Prefixes: set<int> := {PreUnaligned, PreVolatile, PreTail, PreConstrained, PreNo, PreReadOnly}

  /** The unconditional and conditional branches, short forms and long forms in the same order. */
  const ShortBranches: seq<int> := [
    Br_s, Brfalse_s, Brtrue_s, Beq_s, Bge_s, Bgt_s, Ble_s,
    Blt_s, Bne_un_s, Bge_un_s, Bgt_un_s, Ble_un_s, Blt_un_s]
  const LongBranches: seq<int> := [
    Br, Brfalse, Brtrue, Beq, Bge, Bgt, Ble,
    Blt, Bne_un, Bge_un, Bgt_un, Ble_un, Blt_un]

  /** Each element is smaller than the next one. */
  predicate Increasing(s: seq<int>)
  {
    forall i :: 0 <= i < |s| - 1 ==> s[i] < s[i + 1]
  }

  /** Two increasing sequences joined at an increasing seam form an increasing sequence. */
  lemma IncreasingJoin(a: seq<int>, b: seq<int>)
    requires Increasing(a) && Increasing(b)
    requires a != [] && b != [] ==> a[|a| - 1] < b[0]
    ensures Increasing(a + b)
  {
    forall i | 0 <= i < |a + b| - 1
      ensures (a + b)[i] < (a + b)[i + 1]
    {
      if i + 1 < |a| {
        assert (a + b)[i] == a[i] && (a + b)[i + 1] == a[i + 1];
      } else if i + 1 == |a| {
        assert (a + b)[i] == a[|a| - 1] && (a + b)[i + 1] == b[0];
      } else {
        assert (a + b)[i] == b[i - |a|] && (a + b)[i + 1] == b[i - |a| + 1];
      }
    }
  }

  /** In an increasing sequence every element is smaller than every later one. */
  lemma {:induction false} IncreasingOrdered(s: seq<int>, i: int, j: int)
    requires Increasing(s) && 0 <= i < j < |s|
    ensures s[i] < s[j]
    decreases j - i
  {
    if i + 1 < j {
      IncreasingOrdered(s, i + 1, j);
    }
  }

  lemma PartsIncreasing0()
    ensures Increasing(Part0) && Increasing(Part1)
  {}
  lemma PartsIncreasing1()
    ensures Increasing(Part2) && Increasing(Part3)
  {}
  lemma PartsIncreasing2()
    ensures Increasing(Part4) && Increasing(Part5) && Increasing(Part6) && Increasing(Part7)
  {}
  lemma PartsIncreasing3()
    ensures Increasing(Part8) && Increasing(Part9)
  {}
  lemma PartsIncreasing4()
    ensures Increasing(Part10) && Increasing(Part11) && Increasing(Part12) && Increasing(Part13)
  {}
  /** The enumeration is declared in increasing order of value. */
  lemma EnumeratedIncreasing()
    ensures Increasing(Enumerated)
  {
    PartsIncreasing0(); PartsIncreasing1(); PartsIncreasing2(); PartsIncreasing3(); PartsIncreasing4();
    var done := Part0;
    IncreasingJoin(done, Part1);
    done := done + Part1;
    IncreasingJoin(done, Part2);
    done := done + Part2;
    IncreasingJoin(done, Part3);
    done := done + Part3;
    IncreasingJoin(done, Part4);
    done := done + Part4;
    IncreasingJoin(done, Part5);
    done := done + Part5;
    IncreasingJoin(done, Part6);
    done := done + Part6;
    IncreasingJoin(done, Part7);
    done := done + Part7;
    IncreasingJoin(done, Part8);
    done := done + Part8;
    IncreasingJoin(done, Part9);
    done := done + Part9;
    IncreasingJoin(done, Part10);
    done := done + Part10;
    IncreasingJoin(done, Part11);
    done := done + Part11;
    IncreasingJoin(done, Part12);
    done := done + Part12;
    IncreasingJoin(done, Part13);
    done := done + Part13;
    assert done == Enumerated;
  }

  /** All enumerated opcode values are pairwise distinct. */
  lemma EnumeratedDistinct()
    ensures forall i, j :: 0 <= i < j < |Enumerated| ==> Enumerated[i] != Enumerated[j]
  {
    EnumeratedIncreasing();
    forall i, j | 0 <= i < j < |Enumerated|
      ensures Enumerated[i] != Enumerated[j]
    {
      IncreasingOrdered(Enumerated, i, j);
    }
  }

  /** A value strictly between two neighbours of an increasing sequence is not in it. */
  lemma {:induction false} GapNotIn(s: seq<int>, k: int, v: int)
    requires Increasing(s) && 0 <= k < |s| - 1 && s[k] < v < s[k + 1]
    ensures v !in s
  {
    if v in s {
      var j :| 0 <= j < |s| && s[j] == v;
      if j < k {
        IncreasingOrdered(s, j, k);
      } else if k + 1 < j {
        IncreasingOrdered(s, k + 1, j);
      }
    }
  }

  /** No enumerated opcode takes an undefined value. */
  lemma UndefinedNotEnumerated(v: int)
    requires IsUndefined(v)
    ensures v !in Enumerated
  {
    EnumeratedIncreasing();
    var e := Enumerated;
    assert e[35] == 0x23 && e[36] == 0x25;
    assert e[117] == 0x76 && e[118] == 0x79;
    assert e[162] == 0xA5 && e[163] == 0xB3;
    assert e[170] == 0xBA && e[171] == 0xC2;
    assert e[172] == 0xC3 && e[173] == 0xC6;
    assert e[199] == 0xE0 && e[200] == 0xFE && e[201] == 0x100;
    assert e[208] == 0x107 && e[209] == 0x109;
    assert e[215] == 0x10F && e[216] == 0x111;
    assert e[225] == 0x11A && e[226] == 0x11C;
    var k :=
      if v == 0x24 then 35
      else if v <= 0x78 then 117
      else if v <= 0xB2 then 162
      else if v <= 0xC1 then 170
      else if v <= 0xC5 then 172
      else if v <= 0xFD then 199
      else if v == 0xFF then 200
      else if v == 0x108 then 208
      else if v == 0x110 then 215
      else 225;
    GapNotIn(e, k, v);
  }

  /** Extop is 0xFE, and every enumerated value above it is a two-byte opcode in 0x100..0x11E. */
  lemma TwoByteRange()
    ensures Extop == 0xFE
    ensures forall i :: 0 <= i < |Enumerated| && Enumerated[i] > Extop ==>
              0x100 <= Enumerated[i] <= 0x11E
  {
    EnumeratedIncreasing();
    var e := Enumerated;
    assert e[200] == Extop && e[201] == 0x100 && e[|e| - 1] == 0x11E;
    forall i | 0 <= i < |e| && e[i] > Extop
      ensures 0x100 <= e[i] <= 0x11E
    {
      if i < 200 {
        IncreasingOrdered(e, i, 200);
      } else if i > 201 {
        IncreasingOrdered(e, 201, i);
      }
      if i < |e| - 1 {
        IncreasingOrdered(e, i, |e| - 1);
      }
    }
  }

  /** The annotation opcodes fill 0xC7..0xCF exactly, nine values in a row. */
  lemma AnnotationRange()
    ensures forall v :: IsAnnotation(v) <==> 0xC7 <= v <= 0xCF
    ensures forall v :: IsAnnotation(v) ==>
              v in [Ann_call, Ann_catch, Ann_dead, Ann_hoisted, Ann_hoistedcall,
                    Ann_lab, Ann_def, Ann_ref_s, Ann_phi]
  {}

  /** Every long branch is its short form plus 0x0D, Br included. */
  lemma LongBranchOffset()
    ensures |ShortBranches| == |LongBranches| == 13
    ensures forall i :: 0 <= i < 13 ==> LongBranches[i] == ShortBranches[i] + 0x0D
    ensures forall i :: 0 <= i < 13 ==> 0x2B <= ShortBranches[i] <= 0x37
  {}

  /** The prefixes are exactly 0x112, 0x113, 0x114, 0x116, 0x119 and 0x11E. */
  lemma PrefixValues()
    ensures Prefixes == {0x112, 0x113, 0x114, 0x116, 0x119, 0x11E}
  {}
}
