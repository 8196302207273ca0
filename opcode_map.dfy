// The opCodeMap table of Mosa/Runtime/CompilerFramework/CIL/CILDecodingStage.cs:
// which instruction object the decoder uses for each opcode, and the operand
// each opcode carries in the code stream.
module OpCodeMap {
  import opened Wrappers
  import opened OpCodes

  /** The instruction classes the table instantiates. */
  datatype InstructionClass =
    | NopInstruction
    | BreakInstruction
    | LdargInstruction
    | StlocInstruction
    | LdargaInstruction
    | StargInstruction
    | LdlocInstruction
    | LdlocaInstruction
    | LdcInstruction
    | DupInstruction
    | PopInstruction
    | JumpInstruction
    | CallInstruction
    | CalliInstruction
    | ReturnInstruction
    | BranchInstruction
    | UnaryBranchInstruction
    | BinaryBranchInstruction
    | SwitchInstruction
    | LdobjInstruction
    | StobjInstruction
    | AddInstruction
    | SubInstruction
    | MulInstruction
    | DivInstruction
    | BinaryLogicInstruction
    | RemInstruction
    | ShiftInstruction
    | NegInstruction
    | NotInstruction
    | ConversionInstruction
    | CallvirtInstruction
    | CpobjInstruction
    | LdstrInstruction
    | NewobjInstruction
    | CastclassInstruction
    | IsInstInstruction
    | UnboxInstruction
    | ThrowInstruction
    | LdfldInstruction
    | LdfldaInstruction
    | StfldInstruction
    | LdsfldInstruction
    | LdsfldaInstruction
    | StsfldInstruction
    | BoxInstruction
    | NewarrInstruction
    | LdlenInstruction
    | LdelemaInstruction
    | LdelemInstruction
    | StelemInstruction
    | UnboxAnyInstruction
    | RefanyvalInstruction
    | UnaryArithmeticInstruction
    | MkrefanyInstruction
    | LdtokenInstruction
    | ArithmeticOverflowInstruction
    | EndfinallyInstruction
    | LeaveInstruction
    | ArglistInstruction
    | BinaryComparisonInstruction
    | LdftnInstruction
    | LdvirtftnInstruction
    | LocalallocInstruction
    | EndfilterInstruction
    | UnalignedPrefixInstruction
    | PrefixInstruction
    | InitObjInstruction
    | ConstrainedPrefixInstruction
    | CpblkInstruction
    | InitblkInstruction
    | NoPrefixInstruction
    | RethrowInstruction
    | SizeofInstruction
    | RefanytypeInstruction

  /** A table entry: the shared instruction object, by class and the opcode it was constructed with. */
  datatype Handler = Handler(cls: InstructionClass, code: int)

  /**
   * The entries that the decoder treats as prefixes: PrefixInstruction and its
   * subclasses for unaligned., constrained. and no.
   */
  predicate IsPrefix(h: Handler)
  {
    h.cls.PrefixInstruction? || h.cls.UnalignedPrefixInstruction? ||
    h.cls.ConstrainedPrefixInstruction? || h.cls.NoPrefixInstruction?
  }

  /**
   * The table exactly as written; a missing key is None. Every key is a
   * one-byte opcode or 0x100 plus a byte, and every entry but ldind.u1's is
   * constructed with its own key.
   */
  function LookupAsWritten(op: int): (r: Option<Handler>)
    ensures r.Some? ==> 0 <= op < 0x200
    ensures r.Some? && op != Ldind_u1 ==> r.value.code == op
  {
    if op < 0 then None
    else if op < 0x30 then Entries00(op)
    else if op < 0x60 then Entries30(op)
    else if op < 0x90 then Entries60(op)
    else if op < 0xD0 then Entries90(op)
    else if op < 0x100 then EntriesD0(op)
    else if op < 0x200 then Entries100(op)
    else None
  }

  /** The entries for opcodes 0x0..0x2F. */
  function Entries00(op: int): Option<Handler>
  {
    if op == Nop then Some(Handler(NopInstruction, Nop)) else
    if op == Break then Some(Handler(BreakInstruction, Break)) else
    if op == Ldarg_0 then Some(Handler(LdargInstruction, Ldarg_0)) else
    if op == Ldarg_1 then Some(Handler(LdargInstruction, Ldarg_1)) else
    if op == Ldarg_2 then Some(Handler(LdargInstruction, Ldarg_2)) else
    if op == Ldarg_3 then Some(Handler(LdargInstruction, Ldarg_3)) else
    if op == Ldloc_0 then Some(Handler(LdargInstruction, Ldloc_0)) else
    if op == Ldloc_1 then Some(Handler(LdargInstruction, Ldloc_1)) else
    if op == Ldloc_2 then Some(Handler(LdargInstruction, Ldloc_2)) else
    if op == Ldloc_3 then Some(Handler(LdargInstruction, Ldloc_3)) else
    if op == Stloc_0 then Some(Handler(StlocInstruction, Stloc_0)) else
    if op == Stloc_1 then Some(Handler(StlocInstruction, Stloc_1)) else
    if op == Stloc_2 then Some(Handler(StlocInstruction, Stloc_2)) else
    if op == Stloc_3 then Some(Handler(StlocInstruction, Stloc_3)) else
    if op == Ldarg_s then Some(Handler(LdargInstruction, Ldarg_s)) else
    if op == Ldarga_s then Some(Handler(LdargaInstruction, Ldarga_s)) else
    if op == Starg_s then Some(Handler(StargInstruction, Starg_s)) else
    if op == Ldloc_s then Some(Handler(LdlocInstruction, Ldloc_s)) else
    if op == Ldloca_s then Some(Handler(LdlocaInstruction, Ldloca_s)) else
    if op == Stloc_s then Some(Handler(StlocInstruction, Stloc_s)) else
    if op == Ldnull then Some(Handler(LdcInstruction, Ldnull)) else
    if op == Ldc_i4_m1 then Some(Handler(LdcInstruction, Ldc_i4_m1)) else
    if op == Ldc_i4_0 then Some(Handler(LdcInstruction, Ldc_i4_0)) else
    if op == Ldc_i4_1 then Some(Handler(LdcInstruction, Ldc_i4_1)) else
    if op == Ldc_i4_2 then Some(Handler(LdcInstruction, Ldc_i4_2)) else
    if op == Ldc_i4_3 then Some(Handler(LdcInstruction, Ldc_i4_3)) else
    if op == Ldc_i4_4 then Some(Handler(LdcInstruction, Ldc_i4_4)) else
    if op == Ldc_i4_5 then Some(Handler(LdcInstruction, Ldc_i4_5)) else
    if op == Ldc_i4_6 then Some(Handler(LdcInstruction, Ldc_i4_6)) else
    if op == Ldc_i4_7 then Some(Handler(LdcInstruction, Ldc_i4_7)) else
    if op == Ldc_i4_8 then Some(Handler(LdcInstruction, Ldc_i4_8)) else
    if op == Ldc_i4_s then Some(Handler(LdcInstruction, Ldc_i4_s)) else
    if op == Ldc_i4 then Some(Handler(LdcInstruction, Ldc_i4)) else
    if op == Ldc_i8 then Some(Handler(LdcInstruction, Ldc_i8)) else
    if op == Ldc_r4 then Some(Handler(LdcInstruction, Ldc_r4)) else
    if op == Ldc_r8 then Some(Handler(LdcInstruction, Ldc_r8)) else
    if op == Dup then Some(Handler(DupInstruction, Dup)) else
    if op == Pop then Some(Handler(PopInstruction, Pop)) else
    if op == Jmp then Some(Handler(JumpInstruction, Jmp)) else
    if op == Call then Some(Handler(CallInstruction, Call)) else
    if op == Calli then Some(Handler(CalliInstruction, Calli)) else
    if op == Ret then Some(Handler(ReturnInstruction, Ret)) else
    if op == Br_s then Some(Handler(BranchInstruction, Br_s)) else
    if op == Brfalse_s then Some(Handler(UnaryBranchInstruction, Brfalse_s)) else
    if op == Brtrue_s then Some(Handler(UnaryBranchInstruction, Brtrue_s)) else
    if op == Beq_s then Some(Handler(BinaryBranchInstruction, Beq_s)) else
    if op == Bge_s then Some(Handler(BinaryBranchInstruction, Bge_s)) else
    None
  }

  /** The entries for opcodes 0x30..0x5F. */
  function Entries30(op: int): Option<Handler>
  {
    if op == Bgt_s then Some(Handler(BinaryBranchInstruction, Bgt_s)) else
    if op == Ble_s then Some(Handler(BinaryBranchInstruction, Ble_s)) else
    if op == Blt_s then Some(Handler(BinaryBranchInstruction, Blt_s)) else
    if op == Bne_un_s then Some(Handler(BinaryBranchInstruction, Bne_un_s)) else
    if op == Bge_un_s then Some(Handler(BinaryBranchInstruction, Bge_un_s)) else
    if op == Bgt_un_s then Some(Handler(BinaryBranchInstruction, Bgt_un_s)) else
    if op == Ble_un_s then Some(Handler(BinaryBranchInstruction, Ble_un_s)) else
    if op == Blt_un_s then Some(Handler(BinaryBranchInstruction, Blt_un_s)) else
    if op == Br then Some(Handler(BranchInstruction, Br)) else
    if op == Brfalse then Some(Handler(UnaryBranchInstruction, Brfalse)) else
    if op == Brtrue then Some(Handler(UnaryBranchInstruction, Brtrue)) else
    if op == Beq then Some(Handler(BinaryBranchInstruction, Beq)) else
    if op == Bge then Some(Handler(BinaryBranchInstruction, Bge)) else
    if op == Bgt then Some(Handler(BinaryBranchInstruction, Bgt)) else
    if op == Ble then Some(Handler(BinaryBranchInstruction, Ble)) else
    if op == Blt then Some(Handler(BinaryBranchInstruction, Blt)) else
    if op == Bne_un then Some(Handler(BinaryBranchInstruction, Bne_un)) else
    if op == Bge_un then Some(Handler(BinaryBranchInstruction, Bge_un)) else
    if op == Bgt_un then Some(Handler(BinaryBranchInstruction, Bgt_un)) else
    if op == Ble_un then Some(Handler(BinaryBranchInstruction, Ble_un)) else
    if op == Blt_un then Some(Handler(BinaryBranchInstruction, Blt_un)) else
    if op == Switch then Some(Handler(SwitchInstruction, Switch)) else
    if op == Ldind_i1 then Some(Handler(LdobjInstruction, Ldind_i1)) else
    if op == Ldind_u1 then Some(Handler(LdobjInstruction, Ldind_i1)) else
    if op == Ldind_i2 then Some(Handler(LdobjInstruction, Ldind_i2)) else
    if op == Ldind_u2 then Some(Handler(LdobjInstruction, Ldind_u2)) else
    if op == Ldind_i4 then Some(Handler(LdobjInstruction, Ldind_i4)) else
    if op == Ldind_u4 then Some(Handler(LdobjInstruction, Ldind_u4)) else
    if op == Ldind_i8 then Some(Handler(LdobjInstruction, Ldind_i8)) else
    if op == Ldind_i then Some(Handler(LdobjInstruction, Ldind_i)) else
    if op == Ldind_r4 then Some(Handler(LdobjInstruction, Ldind_r4)) else
    if op == Ldind_r8 then Some(Handler(LdobjInstruction, Ldind_r8)) else
    if op == Ldind_ref then Some(Handler(LdobjInstruction, Ldind_ref)) else
    if op == Stind_ref then Some(Handler(StobjInstruction, Stind_ref)) else
    if op == Stind_i1 then Some(Handler(StobjInstruction, Stind_i1)) else
    if op == Stind_i2 then Some(Handler(StobjInstruction, Stind_i2)) else
    if op == Stind_i4 then Some(Handler(StobjInstruction, Stind_i4)) else
    if op == Stind_i8 then Some(Handler(StobjInstruction, Stind_i8)) else
    if op == Stind_r4 then Some(Handler(StobjInstruction, Stind_r4)) else
    if op == Stind_r8 then Some(Handler(StobjInstruction, Stind_r8)) else
    if op == Add then Some(Handler(AddInstruction, Add)) else
    if op == Sub then Some(Handler(SubInstruction, Sub)) else
    if op == Mul then Some(Handler(MulInstruction, Mul)) else
    if op == Div then Some(Handler(DivInstruction, Div)) else
    if op == Div_un then Some(Handler(BinaryLogicInstruction, Div_un)) else
    if op == Rem then Some(Handler(RemInstruction, Rem)) else
    if op == Rem_un then Some(Handler(BinaryLogicInstruction, Rem_un)) else
    if op == And then Some(Handler(BinaryLogicInstruction, And)) else
    None
  }

  /** The entries for opcodes 0x60..0x8F. */
  function Entries60(op: int): Option<Handler>
  {
    if op == Or then Some(Handler(BinaryLogicInstruction, Or)) else
    if op == Xor then Some(Handler(BinaryLogicInstruction, Xor)) else
    if op == Shl then Some(Handler(ShiftInstruction, Shl)) else
    if op == Shr then Some(Handler(ShiftInstruction, Shr)) else
    if op == Shr_un then Some(Handler(ShiftInstruction, Shr_un)) else
    if op == Neg then Some(Handler(NegInstruction, Neg)) else
    if op == Not then Some(Handler(NotInstruction, Not)) else
    if op == Conv_i1 then Some(Handler(ConversionInstruction, Conv_i1)) else
    if op == Conv_i2 then Some(Handler(ConversionInstruction, Conv_i2)) else
    if op == Conv_i4 then Some(Handler(ConversionInstruction, Conv_i4)) else
    if op == Conv_i8 then Some(Handler(ConversionInstruction, Conv_i8)) else
    if op == Conv_r4 then Some(Handler(ConversionInstruction, Conv_r4)) else
    if op == Conv_r8 then Some(Handler(ConversionInstruction, Conv_r8)) else
    if op == Conv_u4 then Some(Handler(ConversionInstruction, Conv_u4)) else
    if op == Conv_u8 then Some(Handler(ConversionInstruction, Conv_u8)) else
    if op == Callvirt then Some(Handler(CallvirtInstruction, Callvirt)) else
    if op == Cpobj then Some(Handler(CpobjInstruction, Cpobj)) else
    if op == Ldobj then Some(Handler(LdobjInstruction, Ldobj)) else
    if op == Ldstr then Some(Handler(LdstrInstruction, Ldstr)) else
    if op == Newobj then Some(Handler(NewobjInstruction, Newobj)) else
    if op == Castclass then Some(Handler(CastclassInstruction, Castclass)) else
    if op == Isinst then Some(Handler(IsInstInstruction, Isinst)) else
    if op == Conv_r_un then Some(Handler(ConversionInstruction, Conv_r_un)) else
    if op == Unbox then Some(Handler(UnboxInstruction, Unbox)) else
    if op == Throw then Some(Handler(ThrowInstruction, Throw)) else
    if op == Ldfld then Some(Handler(LdfldInstruction, Ldfld)) else
    if op == Ldflda then Some(Handler(LdfldaInstruction, Ldflda)) else
    if op == Stfld then Some(Handler(StfldInstruction, Stfld)) else
    if op == Ldsfld then Some(Handler(LdsfldInstruction, Ldsfld)) else
    if op == Ldsflda then Some(Handler(LdsfldaInstruction, Ldsflda)) else
    if op == Stsfld then Some(Handler(StsfldInstruction, Stsfld)) else
    if op == Stobj then Some(Handler(StobjInstruction, Stobj)) else
    if op == Conv_ovf_i1_un then Some(Handler(ConversionInstruction, Conv_ovf_i1_un)) else
    if op == Conv_ovf_i2_un then Some(Handler(ConversionInstruction, Conv_ovf_i2_un)) else
    if op == Conv_ovf_i4_un then Some(Handler(ConversionInstruction, Conv_ovf_i4_un)) else
    if op == Conv_ovf_i8_un then Some(Handler(ConversionInstruction, Conv_ovf_i8_un)) else
    if op == Conv_ovf_u1_un then Some(Handler(ConversionInstruction, Conv_ovf_u1_un)) else
    if op == Conv_ovf_u2_un then Some(Handler(ConversionInstruction, Conv_ovf_u2_un)) else
    if op == Conv_ovf_u4_un then Some(Handler(ConversionInstruction, Conv_ovf_u4_un)) else
    if op == Conv_ovf_u8_un then Some(Handler(ConversionInstruction, Conv_ovf_u8_un)) else
    if op == Conv_ovf_i_un then Some(Handler(ConversionInstruction, Conv_ovf_i_un)) else
    if op == Conv_ovf_u_un then Some(Handler(ConversionInstruction, Conv_ovf_u_un)) else
    if op == Box then Some(Handler(BoxInstruction, Box)) else
    if op == Newarr then Some(Handler(NewarrInstruction, Newarr)) else
    if op == Ldlen then Some(Handler(LdlenInstruction, Ldlen)) else
    if op == Ldelema then Some(Handler(LdelemaInstruction, Ldelema)) else
    None
  }

  /** The entries for opcodes 0x90..0xCF. */
  function Entries90(op: int): Option<Handler>
  {
    if op == Ldelem_i1 then Some(Handler(LdelemInstruction, Ldelem_i1)) else
    if op == Ldelem_u1 then Some(Handler(LdelemInstruction, Ldelem_u1)) else
    if op == Ldelem_i2 then Some(Handler(LdelemInstruction, Ldelem_i2)) else
    if op == Ldelem_u2 then Some(Handler(LdelemInstruction, Ldelem_u2)) else
    if op == Ldelem_i4 then Some(Handler(LdelemInstruction, Ldelem_i4)) else
    if op == Ldelem_u4 then Some(Handler(LdelemInstruction, Ldelem_u4)) else
    if op == Ldelem_i8 then Some(Handler(LdelemInstruction, Ldelem_i8)) else
    if op == Ldelem_i then Some(Handler(LdelemInstruction, Ldelem_i)) else
    if op == Ldelem_r4 then Some(Handler(LdelemInstruction, Ldelem_r4)) else
    if op == Ldelem_r8 then Some(Handler(LdelemInstruction, Ldelem_r8)) else
    if op == Ldelem_ref then Some(Handler(LdelemInstruction, Ldelem_ref)) else
    if op == Stelem_i then Some(Handler(StelemInstruction, Stelem_i)) else
    if op == Stelem_i1 then Some(Handler(StelemInstruction, Stelem_i1)) else
    if op == Stelem_i2 then Some(Handler(StelemInstruction, Stelem_i2)) else
    if op == Stelem_i4 then Some(Handler(StelemInstruction, Stelem_i4)) else
    if op == Stelem_i8 then Some(Handler(StelemInstruction, Stelem_i8)) else
    if op == Stelem_r4 then Some(Handler(StelemInstruction, Stelem_r4)) else
    if op == Stelem_r8 then Some(Handler(StelemInstruction, Stelem_r8)) else
    if op == Stelem_ref then Some(Handler(StelemInstruction, Stelem_ref)) else
    if op == Ldelem then Some(Handler(LdelemInstruction, Ldelem)) else
    if op == Stelem then Some(Handler(StelemInstruction, Stelem)) else
    if op == Unbox_any then Some(Handler(UnboxAnyInstruction, Unbox_any)) else
    if op == Conv_ovf_i1 then Some(Handler(ConversionInstruction, Conv_ovf_i1)) else
    if op == Conv_ovf_u1 then Some(Handler(ConversionInstruction, Conv_ovf_u1)) else
    if op == Conv_ovf_i2 then Some(Handler(ConversionInstruction, Conv_ovf_i2)) else
    if op == Conv_ovf_u2 then Some(Handler(ConversionInstruction, Conv_ovf_u2)) else
    if op == Conv_ovf_i4 then Some(Handler(ConversionInstruction, Conv_ovf_i4)) else
    if op == Conv_ovf_u4 then Some(Handler(ConversionInstruction, Conv_ovf_u4)) else
    if op == Conv_ovf_i8 then Some(Handler(ConversionInstruction, Conv_ovf_i8)) else
    if op == Conv_ovf_u8 then Some(Handler(ConversionInstruction, Conv_ovf_u8)) else
    if op == Refanyval then Some(Handler(RefanyvalInstruction, Refanyval)) else
    if op == Ckfinite then Some(Handler(UnaryArithmeticInstruction, Ckfinite)) else
    if op == Mkrefany then Some(Handler(MkrefanyInstruction, Mkrefany)) else
    None
  }

  /** The entries for opcodes 0xD0..0xFF. */
  function EntriesD0(op: int): Option<Handler>
  {
    if op == Ldtoken then Some(Handler(LdtokenInstruction, Ldtoken)) else
    if op == Conv_u2 then Some(Handler(ConversionInstruction, Conv_u2)) else
    if op == Conv_u1 then Some(Handler(ConversionInstruction, Conv_u1)) else
    if op == Conv_i then Some(Handler(ConversionInstruction, Conv_i)) else
    if op == Conv_ovf_i then Some(Handler(ConversionInstruction, Conv_ovf_i)) else
    if op == Conv_ovf_u then Some(Handler(ConversionInstruction, Conv_ovf_u)) else
    if op == Add_ovf then Some(Handler(ArithmeticOverflowInstruction, Add_ovf)) else
    if op == Add_ovf_un then Some(Handler(ArithmeticOverflowInstruction, Add_ovf_un)) else
    if op == Mul_ovf then Some(Handler(ArithmeticOverflowInstruction, Mul_ovf)) else
    if op == Mul_ovf_un then Some(Handler(ArithmeticOverflowInstruction, Mul_ovf_un)) else
    if op == Sub_ovf then Some(Handler(ArithmeticOverflowInstruction, Sub_ovf)) else
    if op == Sub_ovf_un then Some(Handler(ArithmeticOverflowInstruction, Sub_ovf_un)) else
    if op == Endfinally then Some(Handler(EndfinallyInstruction, Endfinally)) else
    if op == Leave then Some(Handler(LeaveInstruction, Leave)) else
    if op == Leave_s then Some(Handler(LeaveInstruction, Leave_s)) else
    if op == Stind_i then Some(Handler(StobjInstruction, Stind_i)) else
    if op == Conv_u then Some(Handler(ConversionInstruction, Conv_u)) else
    None
  }

  /** The entries for opcodes 0x100..0x1FF. */
  function Entries100(op: int): Option<Handler>
  {
    if op == Arglist then Some(Handler(ArglistInstruction, Arglist)) else
    if op == Ceq then Some(Handler(BinaryComparisonInstruction, Ceq)) else
    if op == Cgt then Some(Handler(BinaryComparisonInstruction, Cgt)) else
    if op == Cgt_un then Some(Handler(BinaryComparisonInstruction, Cgt_un)) else
    if op == Clt then Some(Handler(BinaryComparisonInstruction, Clt)) else
    if op == Clt_un then Some(Handler(BinaryComparisonInstruction, Clt_un)) else
    if op == Ldftn then Some(Handler(LdftnInstruction, Ldftn)) else
    if op == Ldvirtftn then Some(Handler(LdvirtftnInstruction, Ldvirtftn)) else
    if op == Ldarg then Some(Handler(LdargInstruction, Ldarg)) else
    if op == Ldarga then Some(Handler(LdargaInstruction, Ldarga)) else
    if op == Starg then Some(Handler(StargInstruction, Starg)) else
    if op == Ldloc then Some(Handler(LdlocInstruction, Ldloc)) else
    if op == Ldloca then Some(Handler(LdlocaInstruction, Ldloca)) else
    if op == Stloc then Some(Handler(StlocInstruction, Stloc)) else
    if op == Localalloc then Some(Handler(LocalallocInstruction, Localalloc)) else
    if op == Endfilter then Some(Handler(EndfilterInstruction, Endfilter)) else
    if op == PreUnaligned then Some(Handler(UnalignedPrefixInstruction, PreUnaligned)) else
    if op == PreVolatile then Some(Handler(PrefixInstruction, PreVolatile)) else
    if op == PreTail then Some(Handler(PrefixInstruction, PreTail)) else
    if op == InitObj then Some(Handler(InitObjInstruction, InitObj)) else
    if op == PreConstrained then Some(Handler(ConstrainedPrefixInstruction, PreConstrained)) else
    if op == Cpblk then Some(Handler(CpblkInstruction, Cpblk)) else
    if op == Initblk then Some(Handler(InitblkInstruction, Initblk)) else
    if op == PreNo then Some(Handler(NoPrefixInstruction, PreNo)) else
    if op == Rethrow then Some(Handler(RethrowInstruction, Rethrow)) else
    if op == Sizeof then Some(Handler(SizeofInstruction, Sizeof)) else
    if op == Refanytype then Some(Handler(RefanytypeInstruction, Refanytype)) else
    if op == PreReadOnly then Some(Handler(PrefixInstruction, PreReadOnly)) else
    None
  }

  /**
   * The table as intended: every entry is constructed with its own key. The
   * table as written differs only at ldind.u1, whose handler carries ldind.i1.
   */
  function Lookup(op: int): (r: Option<Handler>)
    ensures r.Some? ==> r.value.code == op
  {
    if op == Ldind_u1 then Some(Handler(LdobjInstruction, Ldind_u1)) else LookupAsWritten(op)
  }

  /** The written table constructs the ldind.u1 handler with ldind.i1, a sign-extending load. */
  lemma LdindU1Mislabelled()
    ensures LookupAsWritten(Ldind_u1) == Some(Handler(LdobjInstruction, Ldind_i1))
    ensures LookupAsWritten(Ldind_u1).value.code != Ldind_u1
    ensures Lookup(Ldind_u1).value.code == Ldind_u1
  {}

  /** Apart from ldind.u1 the corrected table is the written one. */
  lemma LookupAgrees(op: int)
    requires op != Ldind_u1
    ensures Lookup(op) == LookupAsWritten(op)
  {}

  /** Values that no opcode has find no handler. */
  lemma UndefinedHasNoHandler(op: int)
    requires IsUndefined(op)
    ensures Lookup(op) == None && LookupAsWritten(op) == None
  {
    if 0xA6 <= op <= 0xB2 {
    } else if 0xBB <= op <= 0xC1 {
    } else if 0xE1 <= op <= 0xFD {
    } else if op < 0x100 {
    } else {
    }
  }

  /** The annotation opcodes and the bare 0xFE escape find no handler either. */
  lemma ReservedHasNoHandler(op: int)
    requires IsAnnotation(op) || op == Extop
    ensures Lookup(op) == None && LookupAsWritten(op) == None
  {}

  /** No single-byte opcode has a prefix handler. */
  lemma NoSingleBytePrefix(op: int)
    requires op < 0x100 && Lookup(op).Some?
    ensures !IsPrefix(Lookup(op).value)
  {
    if op < 0x80 {
      NoLowPrefix(op);
    } else {
      NoHighPrefix(op);
    }
  }

  /** No opcode below 0x80 has a prefix handler. */
  lemma NoLowPrefix(op: int)
    requires op < 0x80 && Lookup(op).Some?
    ensures !IsPrefix(Lookup(op).value)
  {
    if op < 0x40 {
    } else {
    }
  }

  /** No single-byte opcode from 0x80 on has a prefix handler. */
  lemma NoHighPrefix(op: int)
    requires 0x80 <= op < 0x100 && Lookup(op).Some?
    ensures !IsPrefix(Lookup(op).value)
  {
    if op < 0xC0 {
    } else {
    }
  }

  /** Exactly the six prefix opcodes have prefix handlers. */
  lemma PrefixHandlers(op: int)
    ensures (Lookup(op).Some? && IsPrefix(Lookup(op).value)) <==> op in Prefixes
  {
    if op < 0x100 {
      assert op !in Prefixes;
      if Lookup(op).Some? {
        NoSingleBytePrefix(op);
      }
    }
  }

  /** Only br and br.s are decoded by BranchInstruction. */
  lemma BranchHandlers(op: int)
    ensures (Lookup(op).Some? && Lookup(op).value.cls.BranchInstruction?) <==> (op == Br || op == Br_s)
  {}

  /**
   * The operand that follows each opcode in the code stream, by the operand
   * types of Partition III of ECMA-335. Tokens of every kind (method, field,
   * type, string, signature) are four bytes.
   */
  datatype OperandKind =
    | InlineNone
    | ShortInlineVar       // unsigned int8: a short argument or local index, an alignment, a no. mask
    | ShortInlineI         // int8
    | InlineVar            // unsigned int16
    | InlineI              // int32
    | InlineI8             // int64
    | ShortInlineR         // float32, kept as its four bytes
    | InlineR              // float64, kept as its eight bytes
    | ShortInlineBrTarget  // int8 branch displacement
    | InlineBrTarget       // int32 branch displacement
    | InlineToken          // metadata token
    | InlineSwitch         // unsigned int32 count, then that many int32 displacements

  function OperandOf(op: int): OperandKind
  {
    if Ldarg_s <= op <= Stloc_s || op == PreUnaligned || op == PreNo then ShortInlineVar
    else if op == Ldc_i4_s then ShortInlineI
    else if Ldarg <= op <= Stloc then InlineVar
    else if op == Ldc_i4 then InlineI
    else if op == Ldc_i8 then InlineI8
    else if op == Ldc_r4 then ShortInlineR
    else if op == Ldc_r8 then InlineR
    else if Br_s <= op <= Blt_un_s || op == Leave_s then ShortInlineBrTarget
    else if Br <= op <= Blt_un || op == Leave then InlineBrTarget
    else if op == Switch then InlineSwitch
    else if op == Jmp || op == Call || op == Calli || Callvirt <= op <= Isinst || op == Unbox ||
      Ldfld <= op <= Stobj || op == Box || op == Newarr || op == Ldelema ||
      Ldelem <= op <= Unbox_any || op == Refanyval || op == Mkrefany || op == Ldtoken ||
      op == Ldftn || op == Ldvirtftn || op == InitObj || op == PreConstrained || op == Sizeof
    then InlineToken
    else InlineNone
  }

  /** Bytes of an operand; for a switch, the bytes of its count. */
  function Width(k: OperandKind): (n: nat)
    ensures k.InlineNone? <==> n == 0
  {
    match k
    case InlineNone => 0
    case ShortInlineVar => 1
    case ShortInlineI => 1
    case ShortInlineBrTarget => 1
    case InlineVar => 2
    case InlineI | ShortInlineR | InlineBrTarget | InlineToken | InlineSwitch => 4
    case InlineI8 | InlineR => 8
  }

  /** Every short branch carries a one-byte displacement and every long one four bytes. */
  lemma BranchOperands(i: int)
    requires 0 <= i < |ShortBranches|
    ensures OperandOf(ShortBranches[i]) == ShortInlineBrTarget && Width(OperandOf(ShortBranches[i])) == 1
    ensures OperandOf(LongBranches[i]) == InlineBrTarget && Width(OperandOf(LongBranches[i])) == 4
  {}

  /** Of the prefixes, unaligned. and no. carry a byte, constrained. a token, the others nothing. */
  lemma PrefixOperands()
    ensures Width(OperandOf(PreUnaligned)) == 1 && Width(OperandOf(PreNo)) == 1
    ensures Width(OperandOf(PreConstrained)) == 4
    ensures OperandOf(PreVolatile) == InlineNone && OperandOf(PreTail) == InlineNone
    ensures OperandOf(PreReadOnly) == InlineNone
  {}

  /** Every key is a one-byte opcode other than the escape, or an escaped two-byte one. */
  lemma HandlerKeys(op: int)
    requires Lookup(op).Some?
    ensures (0 <= op < 0x100 && op != Extop) || 0x100 <= op < 0x200
  {
    if op < 0 {
    } else if op < 0x80 {
    } else if op < 0x100 {
    } else if op >= 0x200 {
    }
  }
}
