// BranchInstruction.Decode of Mosa/Runtime/CompilerFramework/CIL/BranchInstruction.cs:
// the unconditional branches br and br.s, whose single target is read raw
// (relative to the end of the instruction) from the code stream.
module BranchInstructions {
  import opened Wrappers
  import opened CodeReading
  import opened OpCodes

  /** The targets a decode produces, and the position after its immediate. */
  datatype BranchDecode = BranchDecode(targets: seq<int>, next: int)

  /**
   * br.s reads a signed byte and br a signed 32-bit word; any other opcode
   * reads nothing. The single target is stored as read, never made absolute.
   */
  function DecodeBranch(bytes: seq<byte>, pos: int, op: int): (r: Result<BranchDecode>)
    requires pos >= 0
    ensures r.Ok? ==> |r.value.targets| == 1
    ensures r.Ok? ==> r.value.next == pos + (if op == Br_s then 1 else if op == Br then 4 else 0)
    ensures r.Err? <==> (op == Br_s && pos + 1 > |bytes|) || (op == Br && pos + 4 > |bytes|)
  {
    if op == Br_s then
      match ReadSigned(bytes, pos, 1)
      case Err(e) => Err(e)
      case Ok(t) => Ok(BranchDecode([t], pos + 1))
    else if op == Br then
      match ReadSigned(bytes, pos, 4)
      case Err(e) => Err(e)
      case Ok(t) => Ok(BranchDecode([t], pos + 4))
    else Ok(BranchDecode([0], pos))
  }

  /** br.s 0x05 jumps five bytes forward and br.s 0xFB five bytes back. */
  lemma ShortTargets()
    ensures DecodeBranch([0x05], 0, Br_s) == Ok(BranchDecode([5], 1))
    ensures DecodeBranch([0xFB], 0, Br_s) == Ok(BranchDecode([-5], 1))
  {
    assert [0x05][0..1] == [0x05];
    assert [0xFB][0..1] == [0xFB];
  }

  /** Any displacement br or br.s can hold is decoded from its two's-complement bytes. */
  lemma {:induction false} TargetRoundTrip(t: int, op: int, rest: seq<byte>)
    requires op == Br_s || op == Br
    requires var n := if op == Br_s then 1 else 4; -(Radix(n) as int) <= 2 * t < Radix(n)
    ensures var n := if op == Br_s then 1 else 4;
      DecodeBranch(Encode(Unsign(t, n), n) + rest, 0, op) == Ok(BranchDecode([t], n))
  {
    var n := if op == Br_s then 1 else 4;
    var bytes := Encode(Unsign(t, n), n) + rest;
    SignedUnsign(t, n);
    assert bytes[0..n] == Encode(Unsign(t, n), n);
    UnsignedEncode(Unsign(t, n), n);
  }

  /** Any other opcode leaves the stream where it was and its target at zero. */
  lemma OtherOpcodes(bytes: seq<byte>, pos: int, op: int)
    requires pos >= 0 && op != Br_s && op != Br
    ensures DecodeBranch(bytes, pos, op) == Ok(BranchDecode([0], pos))
  {}

  /**
   * BranchInstruction.Decode: allocates a one-element branch list and fills
   * it from the stream for the opcode that was read.
   */
  method Decode(reader: CodeReader, op: int) returns (r: Result<seq<int>>)
    requires reader.Valid()
    modifies reader
    ensures reader.Valid()
    ensures var d := DecodeBranch(reader.bytes, old(reader.position), op);
      r == (if d.Ok? then Ok(d.value.targets) else Err(d.error)) &&
      reader.position == (if d.Ok? then d.value.next else old(reader.position))
  {
    var targets := new int[1](_ => 0);
    if op == Br_s {
      var t := reader.ReadSignedValue(1);
      if t.Err? {
        return Err(t.error);
      }
      targets[0] := t.value;
    } else if op == Br {
      var t := reader.ReadSignedValue(4);
      if t.Err? {
        return Err(t.error);
      }
      targets[0] := t.value;
    }
    assert targets[..] == [targets[0]];
    r := Ok(targets[..]);
  }
}
