# A Dafny model of MOSA's CIL front end and type loader

MOSA (the Managed Operating System Alliance) compiles .NET CIL into native
code for its own operating system. This project models the core of that
compiler's front end and runtime type system, and proves properties of it in
Dafny:

- **CIL opcodes and decoding.** The opcode enumeration, the stage's table from
  opcodes to instruction handlers, and the decoding stage. The stage reads a
  method header (tiny or fat, with its exception-handling data sections
  skipped). It then walks the code bytes and emits one node per instruction,
  with any prefix attached. Bytes are `seq<byte>`. The stage is a class whose
  methods read through a code reader and append to an instruction list. Each
  method is proved to compute the same thing as a recursive function over the
  bytes (`Walk`, `ParseHeader`, `DecodeMethod`).
- **Instruction classes.** `BranchInstruction.Decode`, the `StelemInstruction`
  constructor and `Decode`, and the opcode choice of the x86 `ADC`
  instruction.
- **The default type system.** `DefaultTypeSystem` as a class whose fields
  are its arrays of types, methods, fields and parameters, plus the per-module
  offsets into them:
  - `AssemblyLoaded` reserves each module's space and then loads its types,
    methods, fields, generic parameters, parameters and custom attributes.
  - Every loader is a method proved equal to a function of the old state.
  - The class is built with a flag, `corrected`. Without it, `LoadTypes` and
    `LoadGenerics` behave as the code is written; with it, they behave as
    the fixes under "## Findings" intend.
  - The lookups (`GetType`, `GetField`, `GetMethod` and their helpers) are
    methods over those arrays, specified by pure lookup functions.
  - Lemmas state where each loaded row lands and that a lookup finds it.
- **`RuntimeType`.** The stored base-class index, the member views, the
  lazily read name and namespace, and equality.
- **Smaller pieces.** `SymbolOperand` equality, the `GetIDTJumpLocation`
  intrinsic that turns a constant interrupt number into a symbol for its
  service routine, and the PCI driver registry's best-priority search.

Metadata tables are sequences of row records. A token is
`table << 24 | row`. Constants that come from ECMA-335 are cited by section:
table numbers from section II.22, header and section flags from section
II.25.4, and coded indexes from section II.24.2.6. The enum files that hold
these constants in the repository are not part of this model.

## Model

| member | source | states |
|---|---|---|
| OpCodes.EnumeratedIncreasing | Mosa/Runtime/CompilerFramework/IL/OpCode.cs:19-271 | the enumeration lists its opcodes in strictly increasing order of value |
| OpCodes.EnumeratedDistinct | Mosa/Runtime/CompilerFramework/IL/OpCode.cs:19-271 | no two enumerated opcodes share a value |
| OpCodes.UndefinedNotEnumerated | Mosa/Runtime/CompilerFramework/IL/OpCode.cs:19-271 | none of the values the table skips (0x24, 0x77-0x78, 0xA6-0xB2, …) is an opcode |
| OpCodes.TwoByteRange | Mosa/Runtime/CompilerFramework/IL/OpCode.cs:239-271 | Extop is 0xFE and every opcode after it lies in 0x100..0x11E |
| OpCodes.AnnotationRange | Mosa/Runtime/CompilerFramework/IL/OpCode.cs:209-218 | the IR annotation opcodes are exactly 0xC7..0xCF |
| OpCodes.LongBranchOffset | Mosa/Runtime/CompilerFramework/IL/OpCode.cs:65-92 | each long branch is its short form plus 0x0D |
| OpCodes.PrefixValues | Mosa/Runtime/CompilerFramework/IL/OpCode.cs:259-271 | the six prefixes are 0x112, 0x113, 0x114, 0x116, 0x119 and 0x11E |
| OpCodeMap.LookupAsWritten | Mosa/Runtime/CompilerFramework/CIL/CILDecodingStage.cs:40-270 | the table as written: keys are one-byte opcodes or 0x100 plus a byte, and every entry but ldind.u1's is built with its own key |
| OpCodeMap.Lookup | Mosa/Runtime/CompilerFramework/CIL/CILDecodingStage.cs:40-270 | the corrected table: the written one except that ldind.u1 gets an ldind.u1 handler |
| OpCodeMap.LdindU1Mislabelled | Mosa/Runtime/CompilerFramework/CIL/CILDecodingStage.cs:112 | the written table builds the 0x47 handler with Ldind_i1 |
| OpCodeMap.LookupAgrees | Mosa/Runtime/CompilerFramework/CIL/CILDecodingStage.cs:40-270 | apart from 0x47 the corrected and written tables agree everywhere |
| OpCodeMap.UndefinedHasNoHandler | Mosa/Runtime/CompilerFramework/CIL/CILDecodingStage.cs:40-270 | undefined values are not keys of the table |
| OpCodeMap.ReservedHasNoHandler | Mosa/Runtime/CompilerFramework/CIL/CILDecodingStage.cs:40-270 | annotation opcodes and the bare escape 0xFE are not keys |
| OpCodeMap.NoSingleBytePrefix | Mosa/Runtime/CompilerFramework/CIL/CILDecodingStage.cs:40-256 | no one-byte opcode maps to a prefix handler |
| OpCodeMap.NoLowPrefix | Mosa/Runtime/CompilerFramework/CIL/CILDecodingStage.cs:40-180 | no opcode below 0x80 maps to a prefix handler |
| OpCodeMap.NoHighPrefix | Mosa/Runtime/CompilerFramework/CIL/CILDecodingStage.cs:150-256 | no one-byte opcode from 0x80 on maps to a prefix handler |
| OpCodeMap.PrefixHandlers | Mosa/Runtime/CompilerFramework/CIL/CILDecodingStage.cs:257-269 | an opcode has a prefix handler exactly when it is one of the six prefixes |
| OpCodeMap.BranchHandlers | Mosa/Runtime/CompilerFramework/CIL/CILDecodingStage.cs:84-97 | only br.s and br are handled by BranchInstruction |
| OpCodeMap.Width | Mosa/Runtime/CompilerFramework/CIL/CILDecodingStage.cs:566-650 | the operand byte count of each operand kind, zero exactly for no operand |
| OpCodeMap.BranchOperands | Mosa/Runtime/CompilerFramework/CIL/CILDecodingStage.cs:84-111 | short branches carry a 1-byte displacement and long ones 4 bytes |
| OpCodeMap.PrefixOperands | Mosa/Runtime/CompilerFramework/CIL/CILDecodingStage.cs:257-269 | unaligned. and no. take a byte, constrained. a token, the other prefixes nothing |
| OpCodeMap.HandlerKeys | Mosa/Runtime/CompilerFramework/CIL/CILDecodingStage.cs:485-489 | every key is a one-byte opcode other than 0xFE, or 0x100 plus a byte |
| CodeReading.UnsignedEncode | Mosa/Runtime/CompilerFramework/CIL/CILDecodingStage.cs:565-614 | reading back the little-endian encoding of a value gives the value |
| CodeReading.EncodeUnsigned | Mosa/Runtime/CompilerFramework/CIL/CILDecodingStage.cs:565-614 | encoding a read value gives the bytes back |
| CodeReading.UnsignedBound | Mosa/Runtime/CompilerFramework/CIL/CILDecodingStage.cs:565-614 | n little-endian bytes hold a value below 256^n |
| CodeReading.SignedUnsign | Mosa/Runtime/CompilerFramework/CIL/CILDecodingStage.cs:575-623 | two's-complement reading round-trips every value in range |
| CodeReading.ReadUnsigned | Mosa/Runtime/CompilerFramework/CIL/CILDecodingStage.cs:566-614 | fails exactly when fewer than n bytes remain; otherwise a value below 256^n whose encoding is the bytes read |
| CodeReading.ReadSigned | Mosa/Runtime/CompilerFramework/CIL/CILDecodingStage.cs:575-623 | fails exactly when ReadUnsigned does; otherwise the value lies in the signed n-byte range |
| CodeReading.BytesShift | Mosa/Runtime/CompilerFramework/CIL/CILDecodingStage.cs:566-650 | a read behind a prefix of the stream equals the read from the rest |
| CodeReading.BytesExtend | Mosa/Runtime/CompilerFramework/CIL/CILDecodingStage.cs:566-650 | bytes appended after the stream do not change a successful read |
| CodeReading.CodeReader.Seek | Mosa/Runtime/CompilerFramework/CIL/CILDecodingStage.cs:423 | the position becomes the target and the bytes stay |
| CodeReading.CodeReader.ReadUnsignedValue | Mosa/Runtime/CompilerFramework/CIL/CILDecodingStage.cs:593-614 | result equals ReadUnsigned at the old position, which moves on n bytes on success |
| CodeReading.CodeReader.ReadSignedValue | Mosa/Runtime/CompilerFramework/CIL/CILDecodingStage.cs:575-623 | result equals ReadSigned at the old position, which moves on n bytes on success |
| CodeReading.CodeReader.ReadByte | Mosa/Runtime/CompilerFramework/CIL/CILDecodingStage.cs:566-569 | one byte at the old position, or end of stream |
| CodeReading.CodeReader.ReadRaw | Mosa/Runtime/CompilerFramework/CIL/CILDecodingStage.cs:629-641 | the n bytes at the old position, unread as numbers |
| CodeReading.CodeReader.ReadAvailable | Mosa/Runtime/CompilerFramework/CIL/CILDecodingStage.cs:435-436 | Stream.Read copies at most n bytes: those that remain |
| MethodHeaders.TruncDiv | Mosa/Runtime/CompilerFramework/CIL/CILDecodingStage.cs:438-442 | C# integer division truncates toward zero: the remainder has the dividend's sign and is smaller than the divisor |
| MethodHeaders.ClauseCountMeaning | Mosa/Runtime/CompilerFramework/CIL/CILDecodingStage.cs:438-450 | from length 4 on, the count is the most whole clauses that fit after the 4-byte section head; a length below 4 + size gives no clause |
| MethodHeaders.Align4 | Mosa/Runtime/CompilerFramework/CIL/CILDecodingStage.cs:420-422 | the data sections start at a multiple of four, at most three bytes on |
| MethodHeaders.Align4Least | Mosa/Runtime/CompilerFramework/CIL/CILDecodingStage.cs:420-422 | that multiple of four is the least one not below the code end |
| MethodHeaders.TinyCodeSize | Mosa/Runtime/CompilerFramework/CIL/CILDecodingStage.cs:397 | a tiny header's code size is its upper six bits |
| MethodHeaders.FatFlags | Mosa/Runtime/CompilerFramework/CIL/CILDecodingStage.cs:402 | the second header byte is the high half of the flags |
| MethodHeaders.SkipSections | Mosa/Runtime/CompilerFramework/CIL/CILDecodingStage.cs:431-455 | a successful skip ends past where it started and inside the stream |
| MethodHeaders.TinyHeader | Mosa/Runtime/CompilerFramework/CIL/CILDecodingStage.cs:394-399 | a tiny header byte reads back as its code size, with flags 2 and code after one byte |
| MethodHeaders.FatHeader | Mosa/Runtime/CompilerFramework/CIL/CILDecodingStage.cs:401-408 | the twelve bytes of a fat header read back as the header they encode |
| MethodHeaders.FatHeaderBadSize | Mosa/Runtime/CompilerFramework/CIL/CILDecodingStage.cs:403-404 | a fat header whose size bits are not 3 is rejected as InvalidData |
| MethodHeaders.OtherHeaderKind | Mosa/Runtime/CompilerFramework/CIL/CILDecodingStage.cs:410-411 | a kind that is neither tiny nor fat is rejected as InvalidData |
| MethodHeaders.HeaderCodeStart | Mosa/Runtime/CompilerFramework/CIL/CILDecodingStage.cs:392-459 | the code starts one byte (tiny) or twelve bytes (fat) after the header start, inside the stream |
| MethodHeaders.SmallSection | Mosa/Runtime/CompilerFramework/CIL/CILDecodingStage.cs:440-446 | a small section: a length byte and two padding bytes, then 12-byte clauses |
| MethodHeaders.FatSection | Mosa/Runtime/CompilerFramework/CIL/CILDecodingStage.cs:434-439 | a fat section: a 3-byte length, then 24-byte clauses |
| MethodHeaders.LastSection | Mosa/Runtime/CompilerFramework/CIL/CILDecodingStage.cs:455 | a section without the 0x80 bit ends the skipping |
| MethodHeaders.NextSection | Mosa/Runtime/CompilerFramework/CIL/CILDecodingStage.cs:431-455 | a section with the 0x80 bit is followed by another after its clauses |
| CilDecoding.ReadOpCode | Mosa/Runtime/CompilerFramework/CIL/CILDecodingStage.cs:485-487 | one byte, or 0xFE and a byte b read as 0x100 or b, and where reading stopped |
| CilDecoding.DecodeOperand | Mosa/Runtime/CompilerFramework/CIL/CILDecodingStage.cs:501 | a handler's Decode reads its operand's bytes, and br/br.s their displacement |
| CilDecoding.WalkNodes | Mosa/Runtime/CompilerFramework/CIL/CILDecodingStage.cs:480-515 | every node's handler is a table entry that is not a prefix, at an offset inside the code |
| CilDecoding.Overrun | Mosa/Runtime/CompilerFramework/CIL/CILDecodingStage.cs:480 | a walk that starts past the code end (`!=` test) never stops successfully |
| CilDecoding.LatestPrefixWins | Mosa/Runtime/CompilerFramework/CIL/CILDecodingStage.cs:491-494 | at a prefix the prefix held before is dropped |
| CilDecoding.WalkInstruction | Mosa/Runtime/CompilerFramework/CIL/CILDecodingStage.cs:496-514 | a non-prefix instruction emits one node with the pending prefix and clears it |
| CilDecoding.WalkPrefixSkipped | Mosa/Runtime/CompilerFramework/CIL/CILDecodingStage.cs:491-494 | as written, a prefix is held without its operand being read |
| CilDecoding.WalkPrefixRead | Mosa/Runtime/CompilerFramework/CIL/CILDecodingStage.cs:491-494 | corrected, a prefix is held with its operand bytes |
| CilDecoding.PrefixOperandMisread | Mosa/Runtime/CompilerFramework/CIL/CILDecodingStage.cs:491-494 | as written, `unaligned. 4; ldind.i4` decodes as an ldarg.2 carrying the prefix, then a bare ldind.i4 |
| CilDecoding.PrefixOperandRead | Mosa/Runtime/CompilerFramework/CIL/CILDecodingStage.cs:491-494 | corrected, the same bytes decode as one ldind.i4 carrying `unaligned. 4` |
| CilDecoding.TablesKeyed | Mosa/Runtime/CompilerFramework/CIL/CILDecodingStage.cs:40-270 | every table entry's key is an encodable opcode |
| CilDecoding.DecodersReadBack | Mosa/Runtime/CompilerFramework/CIL/CILDecodingStage.cs:566-650 | every handler reads back an operand that fits its opcode |
| CilDecoding.InstrStep | Mosa/Runtime/CompilerFramework/CIL/CILDecodingStage.cs:480-515 | one encoded instruction, with or without a prefix, is one step of the walk emitting its node |
| CilDecoding.DecodeAssembled | Mosa/Runtime/CompilerFramework/CIL/CILDecodingStage.cs:466-516 | decoding the assembly of well-formed instructions gives back one node per instruction, offsets included |
| DecodingStages.DecodeWithoutCompiler | Mosa/Runtime/CompilerFramework/CIL/CILDecodingStage.cs:343-344 | a null compiler is an ArgumentNullException |
| DecodingStages.DecodeTinyMethod | Mosa/Runtime/CompilerFramework/CIL/CILDecodingStage.cs:337-371 | a tiny header over assembled code decodes to that header and the instructions' nodes |
| DecodingStages.DecodingStage.constructor | Mosa/Runtime/CompilerFramework/CIL/CILDecodingStage.cs:293-305 | the stage starts with an empty instruction list |
| DecodingStages.DecodingStage.ReadSectionLayout | Mosa/Runtime/CompilerFramework/CIL/CILDecodingStage.cs:432-446 | equals SectionLayout at the old position |
| DecodingStages.DecodingStage.SkipClauses | Mosa/Runtime/CompilerFramework/CIL/CILDecodingStage.cs:450-453 | the reader ends at SectionEnd, or fails when the stream is shorter |
| DecodingStages.DecodingStage.SkipDataSections | Mosa/Runtime/CompilerFramework/CIL/CILDecodingStage.cs:431-455 | equals SkipSections at the old position |
| DecodingStages.DecodingStage.ReadHeaderFields | Mosa/Runtime/CompilerFramework/CIL/CILDecodingStage.cs:394-412 | equals ParseHeaderFields at the old position, and the reader stops where the code starts |
| DecodingStages.DecodingStage.ReadFatFields | Mosa/Runtime/CompilerFramework/CIL/CILDecodingStage.cs:401-408 | the fat branch of ParseHeaderFields |
| DecodingStages.DecodingStage.ReadMethodHeader | Mosa/Runtime/CompilerFramework/CIL/CILDecodingStage.cs:392-459 | equals ParseHeader, and the reader is back at the code start |
| DecodingStages.DecodingStage.Decode | Mosa/Runtime/CompilerFramework/CIL/CILDecodingStage.cs:466-516 | the nodes equal Walk over the code, and the list grows by exactly them |
| DecodingStages.DecodingStage.Run | Mosa/Runtime/CompilerFramework/CIL/CILDecodingStage.cs:337-371 | the result equals DecodeMethod, and the list grows by its nodes |
| BranchInstructions.DecodeBranch | Mosa/Runtime/CompilerFramework/CIL/BranchInstruction.cs:43-65 | one target; br.s reads 1 byte and br 4; fails exactly when those bytes are missing |
| BranchInstructions.ShortTargets | Mosa/Runtime/CompilerFramework/CIL/BranchInstruction.cs:51-56 | br.s 0x05 targets +5 and br.s 0xFB targets -5 |
| BranchInstructions.TargetRoundTrip | Mosa/Runtime/CompilerFramework/CIL/BranchInstruction.cs:51-63 | every displacement that fits is read back from its two's-complement bytes |
| BranchInstructions.OtherOpcodes | Mosa/Runtime/CompilerFramework/CIL/BranchInstruction.cs:48-64 | any other opcode reads nothing and leaves target 0 |
| BranchInstructions.Decode | Mosa/Runtime/CompilerFramework/CIL/BranchInstruction.cs:43-65 | the reader method gives DecodeBranch's targets and position |
| StelemInstructions.ElementOf | Mosa/Runtime/CompilerFramework/IL/StelemInstruction.cs:32-60 | an element type exactly for the opcodes stelem.i through stelem.ref |
| StelemInstructions.NewStelem | Mosa/Runtime/CompilerFramework/IL/StelemInstruction.cs:29-61 | construction succeeds exactly for stelem.i..stelem.ref, with 3 operands; otherwise NotImplemented |
| StelemInstructions.IntegerElements | Mosa/Runtime/CompilerFramework/IL/StelemInstruction.cs:34-45 | the integer forms store I1, I2, I4 and I8 |
| StelemInstructions.OtherElements | Mosa/Runtime/CompilerFramework/IL/StelemInstruction.cs:46-57 | stelem.i, .r4, .r8 and .ref store I, R4, R8 and Object |
| StelemInstructions.ElementsDistinct | Mosa/Runtime/CompilerFramework/IL/StelemInstruction.cs:32-60 | distinct opcodes store distinct element types |
| StelemInstructions.Decode | Mosa/Runtime/CompilerFramework/IL/StelemInstruction.cs:67-77 | succeeds, reading nothing, exactly when the element type is known |
| StelemInstructions.ConstructedDecodesNothing | Mosa/Runtime/CompilerFramework/IL/StelemInstruction.cs:29-77 | every constructed stelem decodes without reading |
| AdcInstructions.ComputeOpCode | Source/Platforms/x86/CPUx86/AdcInstruction.cs:50-58 | every chosen opcode is an ADC form of the Intel manual for the operands; a failure is ArgumentException |
| AdcInstructions.ChoiceComplete | Source/Platforms/x86/CPUx86/AdcInstruction.cs:50-58 | an opcode is chosen exactly when such a form exists |
| AdcInstructions.ThirdIgnored | Source/Platforms/x86/CPUx86/AdcInstruction.cs:50-58 | the third operand never changes the choice |
| AdcInstructions.MemoryShares | Source/Platforms/x86/CPUx86/AdcInstruction.cs:23-26 | memory destinations use the register destinations' opcodes |
| SymbolOperands.NewSymbol | Source/Runtime/CompilerFramework/Operands/SymbolOperand.cs:36-53 | the constructor keeps the type and the name, null included |
| SymbolOperands.EqualsMeaning | Source/Runtime/CompilerFramework/Operands/SymbolOperand.cs:64-75 | a symbol equals exactly the symbols with its type and name |
| SymbolOperands.EqualsReflexive | Source/Runtime/CompilerFramework/Operands/SymbolOperand.cs:64-75 | Equals is reflexive |
| SymbolOperands.EqualsSymmetric | Source/Runtime/CompilerFramework/Operands/SymbolOperand.cs:64-75 | Equals is symmetric |
| SymbolOperands.EqualsTransitive | Source/Runtime/CompilerFramework/Operands/SymbolOperand.cs:64-75 | Equals is transitive |
| IdtJumpLocations.Decimal | Source/Platforms/x86/Intrinsic/GetIDTJumpLocation.cs:49 | a non-empty string of decimal digits |
| IdtJumpLocations.DecimalRoundTrip | Source/Platforms/x86/Intrinsic/GetIDTJumpLocation.cs:49 | reading the digits back gives the number |
| IdtJumpLocations.IsrNameParses | Source/Platforms/x86/Intrinsic/GetIDTJumpLocation.cs:49 | the interrupt number can be read back out of the routine's name |
| IdtJumpLocations.IsrNameInjective | Source/Platforms/x86/Intrinsic/GetIDTJumpLocation.cs:49 | distinct interrupts get distinct routine names |
| IdtJumpLocations.IsrSymbol | Source/Platforms/x86/Intrinsic/GetIDTJumpLocation.cs:32-49 | a pointer symbol whose name reads back as the interrupt number, exactly for an int or sbyte constant operand in 0..256; InvalidCast for a uint constant, whose `(int)` unboxing throws; otherwise InvalidOperation |
| IdtJumpLocations.Context.SetInstruction | Source/Platforms/x86/Intrinsic/GetIDTJumpLocation.cs:49 | the context holds the new instruction, result and single operand |
| IdtJumpLocations.Context.ReplaceIntrinsicCall | Source/Platforms/x86/Intrinsic/GetIDTJumpLocation.cs:30-50 | becomes a move of IsrSymbol into the result; when IsrSymbol fails, fails with its error and leaves the context unchanged |
| PciRegistries.BestUnique | Mosa/DeviceDrivers/PCI/PCIRegistry.cs:43-58 | at most one entry is the best eligible one |
| PciRegistries.ClassEntriesMembers | Mosa/DeviceDrivers/PCI/PCIRegistry.cs:70-76 | a class contributes exactly its signatures that support the platform |
| PciRegistries.RegisteredMembers | Mosa/DeviceDrivers/PCI/PCIRegistry.cs:66-77 | an entry is registered exactly when some class carries a supported signature for it |
| PciRegistries.PCIRegistry.constructor | Mosa/DeviceDrivers/PCI/PCIRegistry.cs:22-26 | the registry starts empty for its platform |
| PciRegistries.PCIRegistry.AddDeviceDriver | Mosa/DeviceDrivers/PCI/PCIRegistry.cs:28-31 | appends one entry |
| PciRegistries.PCIRegistry.FindDriver | Mosa/DeviceDrivers/PCI/PCIRegistry.cs:43-58 | null exactly when no entry is eligible (non-zero priority and matching); otherwise the driver of the best eligible entry |
| PciRegistries.PCIRegistry.RegisterDeviceDrivers | Mosa/DeviceDrivers/PCI/PCIRegistry.cs:66-77 | appends Registered(classes, platform) |
| RuntimeTypes.MemberView | Mosa/Runtime/Vm/RuntimeType.cs:125-147 | a view with a non-negative count, and the empty view whenever it holds nothing |
| RuntimeTypes.MemberViewCovers | Mosa/Runtime/Vm/RuntimeType.cs:125-147 | the view covers row r's slot exactly when r lies between the first and max rows |
| RuntimeTypes.StoredExtends | Mosa/Runtime/Vm/RuntimeType.cs:165-173 | the setter's stored value reads back through the getter, and is positive for an index >= 0 |
| RuntimeTypes.ConstructorExtendsOffByOne | Mosa/Runtime/Vm/RuntimeType.cs:118 | as written, the constructor makes Extends report the loader index minus one, which is negative ("none") only for an index of 0 or less |
| RuntimeTypes.ConstructorExtendsCorrected | Mosa/Runtime/Vm/RuntimeType.cs:118 | corrected, a type with a base (an Extends token with a non-zero row) reports the loader's index of its base, and a type without one a negative index |
| RuntimeTypes.RuntimeType.constructor | Mosa/Runtime/Vm/RuntimeType.cs:113-148 | fields, size and packing from the row; the loader index stored as is, so Extends reports it minus one; member views; names not yet read |
| RuntimeTypes.RuntimeType.SetExtends | Mosa/Runtime/Vm/RuntimeType.cs:168-173 | a negative value is refused with ArgumentException and changes nothing; otherwise Extends becomes the value |
| RuntimeTypes.RuntimeType.SetGenericParameter | Mosa/Runtime/Vm/RuntimeType.cs:233-237 | the argument array gets one slot per row; IsGeneric exactly when there are rows |
| RuntimeTypes.RuntimeType.Name | Mosa/Runtime/Vm/RuntimeType.cs:195-204 | reads the name once and then returns the cached one |
| RuntimeTypes.RuntimeType.Namespace | Mosa/Runtime/Vm/RuntimeType.cs:209-218 | reads the namespace once and then returns the cached one |
| RuntimeTypes.RuntimeType.ToString | Mosa/Runtime/Vm/RuntimeType.cs:252-255 | namespace, a dot, then the name |
| RuntimeTypes.NameStable | Mosa/Runtime/Vm/RuntimeType.cs:195-204 | two reads of Name give the same string |
| RuntimeTypes.EqualsReflexive | Mosa/Runtime/Vm/RuntimeType.cs:243-246 | Equals is reflexive |
| RuntimeTypes.EqualsSymmetric | Mosa/Runtime/Vm/RuntimeType.cs:243-246 | Equals is symmetric |
| MetadataTokens.MakeToken | Source/Runtime/Vm/DefaultTypeSystem.cs:689 | a token's table and row read back |
| MetadataTokens.TokenSplit | Source/Runtime/Vm/DefaultTypeSystem.cs:269-277 | a token is rebuilt from its table and its row |
| MetadataTokens.SameTableDifference | Source/Runtime/Vm/DefaultTypeSystem.cs:738 | tokens of one table differ by their rows' difference |
| MetadataTokens.InTable | Source/Runtime/Vm/DefaultTypeSystem.cs:738 | a value between a table's tokens is a token of that table |
| Metadata.Rows | Source/Runtime/Vm/DefaultTypeSystem.cs:654 | `RowIndexMask & GetMaxTokenValue` is the row count of a well-formed table |
| Metadata.RowIndex | Source/Runtime/Vm/DefaultTypeSystem.cs:690 | a read succeeds exactly for a token of the table with a row in 1..count; otherwise a bad-row error |
| TypeEntries.AttributesOfType | Source/Runtime/Vm/DefaultTypeSystem.cs:613 | exactly the attributes of the given type, each as often as the method carries it; the first returned is the first such attribute the method carries (the `callDefAttrs[0]` GetImplementationForInternalCall uses); none before attributes are set |
| TypeEntries.Filter | Source/Runtime/Vm/DefaultTypeSystem.cs:623 | exactly the rows of the given type, each as often as the input holds it, no more rows than the input; the first is the first row of that type in the input |
| TypeLookup.AdjustMetadataSpace | Source/Runtime/Vm/DefaultTypeSystem.cs:651-662 | returns the old length; the array grows by the row count with empty slots and keeps its prefix |
| TypeLookup.GetModuleOffset | Source/Runtime/Vm/DefaultTypeSystem.cs:175-179 | the recorded offsets, or an error for a null or unrecorded module |
| TypeLookup.GetTypesFromModule | Source/Runtime/Vm/DefaultTypeSystem.cs:155-168 | a null module is ArgumentNull; otherwise the view from the type offset over the TypeDef row count minus one |
| TypeLookup.TypeSlotsDisjoint | Source/Runtime/Vm/DefaultTypeSystem.cs:425-445 | TypeDef slots precede TypeSpec slots, all inside the module's region |
| TypeLookup.FirstFrom | Source/Runtime/Vm/DefaultTypeSystem.cs:346-358 | the first non-null slot that satisfies the test, and none before it |
| TypeLookup.FirstInView | Source/Runtime/Vm/DefaultTypeSystem.cs:618-633 | the first covered slot that satisfies the test; null or out-of-range slots fail as the C# does |
| TypeLookup.ScanView | Source/Runtime/Vm/DefaultTypeSystem.cs:414-422 | the first covered entry that satisfies the test: every covered slot before it is present and fails the test; the given error only when every covered slot is present and none passes; otherwise NullReference or IndexOutOfRange |
| TypeLookup.FindType | Source/Runtime/Vm/DefaultTypeSystem.cs:346-358 | a match exactly when some non-null type has the name, and then the first one |
| TypeLookup.IndexOf | Source/Runtime/Vm/DefaultTypeSystem.cs:303-304 | the first occurrence, or -1 |
| TypeLookup.LastIndexOf | Source/Runtime/Vm/DefaultTypeSystem.cs:305 | the last occurrence, or -1 |
| TypeLookup.SplitTypeName | Source/Runtime/Vm/DefaultTypeSystem.cs:303-316 | the part before the first comma, split at a dot into a namespace and a dot-free name, or an empty namespace and that part |
| TypeLookup.GetTypeByName | Source/Runtime/Vm/DefaultTypeSystem.cs:300-322 | a type exactly when some type has the namespace and name the type name splits into, and then one with them |
| TypeLookup.SplitJoinedName | Source/Runtime/Vm/DefaultTypeSystem.cs:303-316 | `ns.name` and `ns.name,assembly` split back into ns and name |
| TypeLookup.ResolveAssemblyRef | Source/Runtime/Vm/DefaultTypeSystem.cs:245-265 | errors reading the AssemblyRef or finding the module's offsets pass through; otherwise the first index from the module's type offset on whose type has the TypeRef's name; TypeLoad exactly when no type from there on has it |
| TypeLookup.FindTypeIndexFromToken | Source/Runtime/Vm/DefaultTypeSystem.cs:187-243 | TypeDef: the slot GetType reads; TypeRef: -5 for a Module scope, -4 for a ModuleRef scope, ResolveAssemblyRef's index of a type with the TypeRef's name for an AssemblyRef scope, the scope's own index for a TypeRef scope, Argument for other scopes, read errors passed through; TypeSpec: -2; Argument only for other tables |
| TypeLookup.ResolveTypeRef | Source/Runtime/Vm/DefaultTypeSystem.cs:1078-1110 | a type of the referenced assembly with the TypeRef's namespace and name; TypeLoad exactly when every slot of that assembly's types is present and none has the name; module, module-ref and TypeRef scopes are NotImplemented |
| TypeLookup.LookupTypeDef | Source/Runtime/Vm/DefaultTypeSystem.cs:276-286 | row 0 is null; row r is the entry in slot TypeOffset + r - 2, or IndexOutOfRange |
| TypeLookup.LookupType | Source/Runtime/Vm/DefaultTypeSystem.cs:267-298 | TypeDef via LookupTypeDef, TypeRef via ResolveTypeRef; other tables: an error finding the module's offsets passes through, row 0 is null, any other row Argument |
| TypeLookup.TypeDefIndexAgrees | Source/Runtime/Vm/DefaultTypeSystem.cs:187-243 | FindTypeIndexFromToken's index of a TypeDef is the slot GetType reads |
| TypeLookup.LookupMethodDef | Source/Runtime/Vm/DefaultTypeSystem.cs:510-514 | row r is slot MethodOffset + r - 1 |
| TypeLookup.LookupField | Source/Runtime/Vm/DefaultTypeSystem.cs:376-378 | row r is slot FieldOffset + r - 1 |
| TypeLookup.DecodeTypeIndex | Source/Runtime/Vm/DefaultTypeSystem.cs:482-494 | a token whose row is the byte shifted right by two |
| TypeLookup.DecodeEncodedTypeIndex | Source/Runtime/Vm/DefaultTypeSystem.cs:482-494 | decoding the encoding of a TypeDef, TypeRef or TypeSpec row gives that token |
| TypeLookup.EncodeDecodedTypeIndex | Source/Runtime/Vm/DefaultTypeSystem.cs:482-494 | every byte whose tag is not 3 is the encoding of its decoding |
| TypeLookup.ReservedTagIsTypeDef | Source/Runtime/Vm/DefaultTypeSystem.cs:484 | tag 3 decodes as a TypeDef |
| TypeLookup.SearchInternalTypesMeaning | Source/Runtime/Vm/DefaultTypeSystem.cs:618-636 | a found method belongs to an internal type and implements the call; NotImplemented means none does |
| OwnerGroups.ScanKeepsInvariant | Source/Runtime/Vm/DefaultTypeSystem.cs:905-923 | grouping keeps the committed groups well formed and concatenating to the rows seen |
| OwnerGroups.GroupsPartition | Source/Runtime/Vm/DefaultTypeSystem.cs:905-929 | with a new owner starting a group, the groups partition the rows into runs of one owner |
| OwnerGroups.CommittedIsPrefix | Source/Runtime/Vm/DefaultTypeSystem.cs:905-929 | groups committed after a prefix of the rows begin the final groups |
| OwnerGroups.StepAsWritten | Source/Runtime/Vm/DefaultTypeSystem.cs:905-920 | as written, one row: the current owner never decreases, and a row whose owner is not greater joins the pending group with nothing committed |
| OwnerGroups.StepAsWrittenKeepsRows | Source/Runtime/Vm/DefaultTypeSystem.cs:905-920 | as written, one row drops nothing: it follows the rows already committed or pending |
| OwnerGroups.ScanAsWrittenKeepsRows | Source/Runtime/Vm/DefaultTypeSystem.cs:905-920 | the scan as written keeps every row in order |
| OwnerGroups.GenericGroupsAsWritten | Source/Runtime/Vm/DefaultTypeSystem.cs:905-929 | the groups LoadGenerics applies as written hold every parameter once, in table order |
| OwnerGroups.GenericGroupsMergeOwners | Source/Runtime/Vm/DefaultTypeSystem.cs:910 | as written, a MethodDef owner followed by a TypeDef owner of smaller token ends up in one group |
| OwnerGroups.GenericGroupsPartition | Source/Runtime/Vm/DefaultTypeSystem.cs:905-929 | corrected, every owner of a sorted GenericParam table gets its own group |
| Annotations.SetGenericParametersSpec | Source/Runtime/Vm/DefaultTypeSystem.cs:939-956 | succeeds exactly for a loaded TypeDef or MethodDef owner; lengths kept; a failure changes nothing |
| Annotations.ApplyGenericGroupsStops | Source/Runtime/Vm/DefaultTypeSystem.cs:905-929 | once a commit fails, later groups are not applied |
| Annotations.GenericSlotsDiffer | Source/Runtime/Vm/DefaultTypeSystem.cs:939-956 | distinct owners of one table have distinct slots |
| Annotations.ApplyGenericGroupsSets | Source/Runtime/Vm/DefaultTypeSystem.cs:889-956 | after a successful load, the last group of each owner has set that owner's generic-parameter count |
| Annotations.SetAttributesSpec | Source/Runtime/Vm/DefaultTypeSystem.cs:1004-1070 | lengths kept; a failure changes nothing; owners other than TypeDefs and MethodDefs are ignored |
| Annotations.ApplyAttributeGroupsStops | Source/Runtime/Vm/DefaultTypeSystem.cs:963-996 | once a commit fails, later groups are not applied |
| Annotations.AttributeSlotsDiffer | Source/Runtime/Vm/DefaultTypeSystem.cs:1004-1070 | distinct parents of one table have distinct slots |
| Annotations.ApplyAttributeGroupsSets | Source/Runtime/Vm/DefaultTypeSystem.cs:963-1070 | after a successful load, the last group of each TypeDef or MethodDef owner has set that owner's attributes |
| Annotations.ApplyAttributeGroupsInternal | Source/Runtime/Vm/DefaultTypeSystem.cs:1004-1070 | internal types only grow, and only by types marked InternalCallTypeAttribute |
| TypeLoading.MethodsFromStores | Source/Runtime/Vm/DefaultTypeSystem.cs:750-776 | on success the methods of rows first..last-1 sit in consecutive slots and nothing else changes |
| TypeLoading.FieldsFromStores | Source/Runtime/Vm/DefaultTypeSystem.cs:805-881 | on success the fields of rows first..last-1 sit in consecutive slots and nothing else changes |
| TypeLoading.ParamsFromStores | Source/Runtime/Vm/DefaultTypeSystem.cs:783-795 | each Param row lands in its slot from the offset on |
| TypeLoading.LoadParametersStores | Source/Runtime/Vm/DefaultTypeSystem.cs:783-795 | after a successful load every Param row r is at offset + r - 1 |
| TypeLoading.MemberRange | Source/Runtime/Vm/DefaultTypeSystem.cs:722 | the views given to a type have non-negative counts |
| TypeLoading.MemberRangeCovers | Source/Runtime/Vm/DefaultTypeSystem.cs:722 | the view covers row r's slot exactly when r lies from the first member's row up to the next type's first row, that row excluded |
| TypeLoading.MemberViewOvercounts | Mosa/Runtime/Vm/RuntimeType.cs:125-147 | RuntimeType's inclusive view of the same two tokens starts at the same slot and holds one member more |
| TypeLoading.TypesFromPlaces | Source/Runtime/Vm/DefaultTypeSystem.cs:691-738 | each turn of the loop puts its TypeDef row's type in its slot and keeps the rest |
| TypeLoading.LoadTypesAsWritten | Source/Runtime/Vm/DefaultTypeSystem.cs:671-740 | as written, with the cursors at the module offsets: the arrays keep their lengths |
| TypeLoading.LoadTypesPlaces | Source/Runtime/Vm/DefaultTypeSystem.cs:671-740 | as written and corrected, every TypeDef row from 2 on sits where GetType reads it; slots outside the region are untouched |
| TypeLoading.LoadTypesAsWrittenShiftsMethods | Source/Runtime/Vm/DefaultTypeSystem.cs:679-680 | as written, GetMethod for MethodDef row r finds the method of row r + s - 1, s being the first method row of TypeDef row 2 |
| TypeLoading.LoadTypesAlignsMethods | Source/Runtime/Vm/DefaultTypeSystem.cs:671-740 | with aligned cursors, GetMethod finds each MethodDef row's own method |
| TypeLoading.LoadTypesAlignsFields | Source/Runtime/Vm/DefaultTypeSystem.cs:671-740 | with aligned cursors, GetField finds each Field row's own field |
| TypeSystems.InternalCallTarget | Source/Runtime/Vm/DefaultTypeSystem.cs:612-636 | no definition attribute gives IndexOutOfRange; a target implements the call and belongs to an internal type; NotImplemented means none does |
| TypeSystems.PlacementKept | Source/Runtime/Vm/DefaultTypeSystem.cs:889-1070 | annotating entries keeps every TypeDef row where LoadTypes put it |
| TypeSystems.DefaultTypeSystem.constructor | Source/Runtime/Vm/DefaultTypeSystem.cs:61-68 | all arrays start empty; `corrected` chooses the loaders as written or corrected |
| TypeSystems.DefaultTypeSystem.LoadMethods | Source/Runtime/Vm/DefaultTypeSystem.cs:750-776 | the loop computes LoadMethodsSpec of the old array |
| TypeSystems.DefaultTypeSystem.LoadFields | Source/Runtime/Vm/DefaultTypeSystem.cs:805-881 | the loop computes LoadFieldsSpec of the old array |
| TypeSystems.DefaultTypeSystem.LoadParameters | Source/Runtime/Vm/DefaultTypeSystem.cs:783-795 | the loop computes LoadParametersSpec of the old array |
| TypeSystems.DefaultTypeSystem.LoadType | Source/Runtime/Vm/DefaultTypeSystem.cs:698-736 | one loop turn computes TypeTurn of the old state |
| TypeSystems.DefaultTypeSystem.LoadTypes | Source/Runtime/Vm/DefaultTypeSystem.cs:671-740 | the loop computes LoadTypesAsWritten of the old arrays (cursors at the module offsets, lines 679-680), or LoadTypesSpec when corrected |
| TypeSystems.DefaultTypeSystem.SetGenericParameters | Source/Runtime/Vm/DefaultTypeSystem.cs:939-956 | computes SetGenericParametersSpec of the old arrays |
| TypeSystems.DefaultTypeSystem.LoadGenerics | Source/Runtime/Vm/DefaultTypeSystem.cs:889-930 | applies GenericGroupsAsWritten (commit on a greater owner, line 910), or GenericGroups when corrected, in order, stopping at the first failure |
| TypeSystems.DefaultTypeSystem.SetAttributes | Source/Runtime/Vm/DefaultTypeSystem.cs:1004-1070 | computes SetAttributesSpec of the old arrays |
| TypeSystems.DefaultTypeSystem.LoadCustomAttributes | Source/Runtime/Vm/DefaultTypeSystem.cs:963-996 | computes the attribute groups applied in order, stopping at the first failure |
| TypeSystems.DefaultTypeSystem.GetType | Source/Runtime/Vm/DefaultTypeSystem.cs:267-298 | a null module is a NullReference; TypeDef and TypeRef tokens as LookupType; row 0 null; a TypeSpec's slot is reused or filled by ResolveTypeSpec; other tables Argument |
| TypeSystems.DefaultTypeSystem.ResolveTypeSpec | Source/Runtime/Vm/DefaultTypeSystem.cs:425-445 | a filled slot is returned as is; otherwise the slot holds the result; an unsupported signature is NotSupported |
| TypeSystems.DefaultTypeSystem.ResolveSignatureType | Source/Runtime/Vm/DefaultTypeSystem.cs:447-480 | a class or value-type signature is the type its token looks up to; a generic instance's base is looked up, its error passed through, otherwise the instance (of this module, with this signature) has that base; other signatures NotSupported with the types unchanged |
| TypeSystems.DefaultTypeSystem.GetField | Source/Runtime/Vm/DefaultTypeSystem.cs:360-382 | null module ArgumentNull; Field tokens as LookupField; MemberRefs by name; other tables Argument |
| TypeSystems.DefaultTypeSystem.ScanFieldsFor | Source/Runtime/Vm/DefaultTypeSystem.cs:414-422 | the loop finds what ScanView finds with the name test |
| TypeSystems.DefaultTypeSystem.GetFieldForMemberReference | Source/Runtime/Vm/DefaultTypeSystem.cs:384-423 | a field of the MemberRef's class with the MemberRef's name; InvalidOperation when the class or the field is missing; other class tables NotSupported |
| TypeSystems.DefaultTypeSystem.GetMethod | Source/Runtime/Vm/DefaultTypeSystem.cs:501-552 | null module ArgumentNull; MethodDef as LookupMethodDef; MemberRef: the first method of its class with its name and signature, MissingMethod when there is none; MethodSpec: an instance of the method its MethodDef token looks up to (lookup errors pass through, a null method NullReference, a generic instance InvalidCast), or of a matching method for a MemberRef token, with the spec's instantiation; other tables NotSupported |
| TypeSystems.DefaultTypeSystem.DecodeMethodSpec | Source/Runtime/Vm/DefaultTypeSystem.cs:554-568 | read errors pass through; the result instantiates exactly the method the MethodDef token looks up to (its errors pass through, null is NullReference, a generic instance fails the cast as InvalidCast), or a method matching a MemberRef token; signature from that method, instantiation from the spec |
| TypeSystems.DefaultTypeSystem.GetMethodForMemberReference | Source/Runtime/Vm/DefaultTypeSystem.cs:517-541 | read errors pass through; for a non-TypeSpec class, the lookup of the class then the first method of it with the MemberRef's name and signature (MissingMethod when none); a result always matches and is one of the loaded methods |
| TypeSystems.DefaultTypeSystem.ScanMethodsFor | Source/Runtime/Vm/DefaultTypeSystem.cs:525-539 | the loop finds what ScanView finds with the MemberRef test |
| TypeSystems.DefaultTypeSystem.FindImplementation | Source/Runtime/Vm/DefaultTypeSystem.cs:620-633 | equals FirstInView over the type's methods with the implementation test |
| TypeSystems.DefaultTypeSystem.MethodImplements | Source/Runtime/Vm/DefaultTypeSystem.cs:623-629 | true exactly when one of the method's implementation attributes matches the call's definition |
| TypeSystems.DefaultTypeSystem.FindInternalCallTarget | Source/Runtime/Vm/DefaultTypeSystem.cs:612-636 | computes InternalCallTarget: IndexOutOfRange with no definition attribute, else the first implementing method of the internal types |
| TypeSystems.DefaultTypeSystem.SearchInternalTypesFor | Source/Runtime/Vm/DefaultTypeSystem.cs:618-636 | equals SearchInternalTypes over the internal types |
| TypeSystems.DefaultTypeSystem.GetImplementationForInternalCall | Source/Runtime/Vm/DefaultTypeSystem.cs:584-637 | null is ArgumentNull; a cached call returns its target; otherwise InternalCallTarget, cached on success |
| TypeSystems.DefaultTypeSystem.ReserveSpace | Source/Runtime/Vm/DefaultTypeSystem.cs:124-138 | offsets grow to the load order, padded with empty offsets, the new one holding the old array lengths; each array grows by empty slots for its rows |
| TypeSystems.DefaultTypeSystem.LoadModule | Source/Runtime/Vm/DefaultTypeSystem.cs:140-147 | array lengths kept; on success, with either set of loaders, every TypeDef row from 2 on sits where GetType reads it |
| TypeSystems.DefaultTypeSystem.AssemblyLoaded | Source/Runtime/Vm/DefaultTypeSystem.cs:114-148 | null module ArgumentNull; a late module Argument, unchanged; otherwise space reserved and the module loaded by the loaders `corrected` chooses |

## Left out

- Name properties, `AddToPipeline`, `Visit`, `ToString` of the instruction classes and operands, and the `Latency` property are not modelled. They return constants or build debug strings. `AdcInstruction`'s latency is kept as a constant only.
- `Run` does not read the local-variable signature (`StandAloneSig`) when the header names one. That reads metadata and parses a signature outside this core.
- Data-section clauses are skipped as byte counts, as the decoder does. The `EhClause` fields are not decoded, and the debug assertion on the section kind is not modelled.
- The instruction list is a sequence that decoding appends to. The fixed-capacity `Instructions` container and `InsertAfter` are not part of this model.
- Handler `Decode` bodies other than `BranchInstruction` and `StelemInstruction` are not part of this model. Each reads the operand of its opcode's ECMA-335 operand type. Float and double constants are kept as raw bytes.
- The type-system lookups that can follow one another (`GetType` through TypeSpecs, `FindTypeIndexFromToken` through TypeRef scopes) carry a `fuel` bound. A lookup that runs out of fuel fails with a RecursionLimit error. The C# recurses without bound.
- Entries are values, not objects. Identity comparisons of `RuntimeType`, `IMetadataModule`, `RuntimeMethod` and `SigType` become equality of records. `SymbolOperand` compares operand types by reference (Source/Runtime/CompilerFramework/Operands/SymbolOperand.cs:68), so two equal but distinct `SigType` objects differ there and agree here.
- The assembly loader is a map from assembly names to modules.
- The `GetType(string)` fallback that loads `names[1].dll` through the loader inside try/catch is not modelled. `TypeLookup.GetTypeByName` is `FindType` over all types.
- Signatures are compared as opaque integers in `GetMethod`. Signature blobs are not parsed. `ResolveSignatureType` sees an already parsed signature.
- `InternalCallImplAttribute.Match` is a parameter, because its body is not part of this model.
- `TypeSystems.DefaultTypeSystem.GetImplementationForInternalCall` uses `callDefAttrs[0]`. With no definition attribute the model returns IndexOutOfRange, as the array access would throw. The debug assertions are not modelled.
- `TypeLoading.LoadTypesAsWritten` and `TypeLoading.LoadTypesSpec`: a read past the TypeDef table is an error (BadMetadataRow), so a module with no TypeDef row beyond `<Module>` is refused. The C# reads row `TypeDef+2` without a guard (DefaultTypeSystem.cs:689-690), and its do/while (lines 691-738) runs once whatever the count; what that read returns is up to the metadata provider, which is not part of this model.
- `TypeLoading.MemberRange`: `CilRuntimeType` is not part of this model, so the views it builds from the two member tokens `LoadTypes` passes are not known. `MemberRange` assumes the next type's first member is excluded. `RuntimeType`'s own arithmetic includes it and so takes one member more (`TypeLoading.MemberViewOvercounts`).
- `LoadFields` also reads the field's RVA and layout rows. Those cursors are not modelled. Only the field entries and their slots are.
- `TypeSystems.DefaultTypeSystem.ResolveTypeSpec`: the contract does not say that only an empty TypeSpec slot is written. It says the slot holds the result afterwards and that array lengths are kept.
- `TypeSystems.DefaultTypeSystem.GetType`: a module that is null where C# would call through it is modelled as a NullReference error.
- `TypeSystems.DefaultTypeSystem.AssemblyLoaded`: a load order above the number of recorded modules is accepted, and the offsets array is padded with default entries. This is what the C# does after `Array.Resize`. Only a load order below the count is refused.
- `TypeSystems.DefaultTypeSystem.LoadModule` states only the placement of TypeDef rows and the array lengths. What each loader does is stated by the loader's own contract and by the TypeLoading and Annotations lemmas.
- `TypeSystems.DefaultTypeSystem.DecodeMethodSpec` is not memoised: every call makes a new generic-method entry, as the C# does.
- `RuntimeType.Fields` and `Methods` return the views the constructor made. Their list-view classes are not part of this model.
- `RuntimeTypes.RuntimeType.constructor` takes the loader's index as a parameter. `FindTypeIndexFromToken` is modelled on its own in TypeLookup.
- `IdtJumpLocations.IsrSymbol` accepts 256 as the source's `irq > 256` test does, although the IDT has 256 entries (0..255).
- `PCIRegistry.CreateDevice`, `RegisterBuildInDeviceDrivers` and `StartDrivers` use reflection and the device manager. They are not modelled. `RegisterDeviceDrivers` takes the assembly's classes with their attributes as a sequence. Signature matching (`CompareTo`) is a parameter.

## Findings

| source | as written | input that shows it | evidently intended | confidence | as-written member | corrected member |
|---|---|---|---|---|---|---|
| Mosa/Runtime/CompilerFramework/CIL/CILDecodingStage.cs:491-494 | a prefix is held with `continue`, without calling its `Decode`, so operands of `unaligned.`, `no.` and `constrained.` are read as opcodes | bytes `FE 12 04 4A` (`unaligned. 4; ldind.i4`) decode as `ldarg.2` with the prefix, then a bare `ldind.i4` | the prefix reads its operand and the next instruction carries it | not executed | CilDecoding.PrefixOperandMisread | CilDecoding.PrefixOperandRead |
| Mosa/Runtime/CompilerFramework/CIL/CILDecodingStage.cs:112 | opcode 0x47 `ldind.u1` gets `new LdobjInstruction(OpCode.Ldind_i1)` | opcode 0x47 | a handler built with `Ldind_u1`, an unsigned load | not executed | OpCodeMap.LdindU1Mislabelled | OpCodeMap.LookupAgrees |
| Mosa/Runtime/Vm/RuntimeType.cs:118 | the constructor stores the loader's index as is, while the getter (line 167) subtracts one and the setter (line 172) adds one | base type at loader index 5: `Extends` reports 4 | store index + 1 as the setter does, and a negative Extends for a type without a base | not executed | RuntimeTypes.ConstructorExtendsOffByOne | RuntimeTypes.ConstructorExtendsCorrected |
| Source/Runtime/Vm/DefaultTypeSystem.cs:910 | a group is committed only when the raw owner token grows, but the GenericParam table is sorted by coded owner index | rows owned by MethodDef row 1, then by TypeDef row 5 | commit whenever the owner changes (`DefaultTypeSystem` with `corrected` set) | not executed | OwnerGroups.GenericGroupsMergeOwners | OwnerGroups.GenericGroupsPartition |
| Source/Runtime/Vm/DefaultTypeSystem.cs:679-680 | the method and field cursors start at the module offsets, but the loop starts at TypeDef row 2 and skips the members of `<Module>` | `<Module>` owning one global method: GetMethod for MethodDef row 2 finds the method of row 3 | start the cursors at the first member of TypeDef row 2 (`DefaultTypeSystem` with `corrected` set) | not executed | TypeLoading.LoadTypesAsWrittenShiftsMethods | TypeLoading.LoadTypesAlignsMethods |
