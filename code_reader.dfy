// The code stream of a method body and the fixed-width little-endian reads the
// CIL decoder performs on it: the IInstructionDecoder.Decode primitives of
// Mosa/Runtime/CompilerFramework/CIL/CILDecodingStage.cs, which forward to a
// System.IO.BinaryReader over the stream.
module CodeReading {
  import opened Wrappers

  type byte = b: int | 0 <= b < 0x100

  /** 256 to the power n: the number of values n bytes can hold. */
  function Radix(n: nat): (r: nat)
    ensures r >= 1
  {
    if n == 0 then 1 else 0x100 * Radix(n - 1)
  }

  /** The unsigned little-endian value of a byte sequence. */
  function Unsigned(bs: seq<byte>): nat
  {
    if bs == [] then 0 else bs[0] + 0x100 * Unsigned(bs[1..])
  }

  /** The n-byte little-endian encoding of v (taken modulo 256^n). */
  function Encode(v: nat, n: nat): (bs: seq<byte>)
    ensures |bs| == n
  {
    if n == 0 then [] else [v % 0x100] + Encode(v / 0x100, n - 1)
  }

  /** Two's-complement reading of an n-byte unsigned value. */
  function Signed(u: int, n: nat): int
  {
    if 2 * u >= Radix(n) then u - Radix(n) else u
  }

  /** The n-byte two's-complement pattern of v. */
  function Unsign(v: int, n: nat): int
  {
    if v < 0 then v + Radix(n) else v
  }

  /** An n-byte little-endian value is below 256^n. */
  lemma {:induction false} UnsignedBound(bs: seq<byte>)
    ensures Unsigned(bs) < Radix(|bs|)
  {
    if bs != [] {
      UnsignedBound(bs[1..]);
    }
  }

  /** Decoding an encoding gives the value back. */
  lemma {:induction false} UnsignedEncode(v: nat, n: nat)
    requires v < Radix(n)
    ensures Unsigned(Encode(v, n)) == v
  {
    if n > 0 {
      var bs := Encode(v, n);
      assert bs[1..] == Encode(v / 0x100, n - 1);
      UnsignedEncode(v / 0x100, n - 1);
    }
  }

  /** Encoding a decoded value gives the bytes back. */
  lemma {:induction false} EncodeUnsigned(bs: seq<byte>)
    ensures Encode(Unsigned(bs), |bs|) == bs
  {
    if bs != [] {
      EncodeUnsigned(bs[1..]);
      var u := Unsigned(bs);
      assert u % 0x100 == bs[0] && u / 0x100 == Unsigned(bs[1..]);
    }
  }

  /** The signed reading is a two's-complement round trip for every value in range. */
  lemma SignedUnsign(v: int, n: nat)
    requires n > 0 && -(Radix(n) as int) <= 2 * v < Radix(n)
    ensures 0 <= Unsign(v, n) < Radix(n)
    ensures Signed(Unsign(v, n), n) == v
  {}

  /** The n bytes at pos, if the stream holds them. */
  function Bytes(bytes: seq<byte>, pos: int, n: nat): (r: Result<seq<byte>>)
    ensures r.Ok? <==> 0 <= pos && pos + n <= |bytes|
    ensures r.Ok? ==> |r.value| == n && forall i :: 0 <= i < n ==> r.value[i] == bytes[pos + i]
  {
    if 0 <= pos && pos + n <= |bytes| then Ok(bytes[pos..pos + n]) else Err(EndOfStream)
  }

  /** The unsigned little-endian value of the n bytes at pos. */
  function ReadUnsigned(bytes: seq<byte>, pos: int, n: nat): (r: Result<int>)
    ensures r.Ok? <==> 0 <= pos && pos + n <= |bytes|
    ensures r.Ok? ==> 0 <= r.value < Radix(n) && Encode(r.value, n) == bytes[pos..pos + n]
  {
    match Bytes(bytes, pos, n)
    case Err(e) => Err(e)
    case Ok(bs) =>
      UnsignedBound(bs);
      EncodeUnsigned(bs);
      Ok(Unsigned(bs))
  }

  /** The two's-complement value of the n bytes at pos. */
  function ReadSigned(bytes: seq<byte>, pos: int, n: nat): (r: Result<int>)
    ensures r.Ok? <==> 0 <= pos && pos + n <= |bytes|
    ensures r.Ok? ==> -(Radix(n) as int) <= 2 * r.value < Radix(n)
  {
    match ReadUnsigned(bytes, pos, n)
    case Err(e) => Err(e)
    case Ok(u) => Ok(Signed(u, n))
  }

  /** Bytes read behind a prefix of the stream are the bytes read from the rest of it. */
  lemma BytesShift(front: seq<byte>, bytes: seq<byte>, pos: int, n: nat)
    requires pos >= 0
    ensures Bytes(front + bytes, pos + |front|, n) == Bytes(bytes, pos, n)
  {
    if pos + n <= |bytes| {
      assert (front + bytes)[pos + |front|..pos + |front| + n] == bytes[pos..pos + n];
    }
  }

  /** Bytes appended after the stream do not change a read that succeeds without them. */
  lemma BytesExtend(bytes: seq<byte>, extra: seq<byte>, pos: int, n: nat)
    requires Bytes(bytes, pos, n).Ok?
    ensures Bytes(bytes + extra, pos, n) == Bytes(bytes, pos, n)
  {
    assert (bytes + extra)[pos..pos + n] == bytes[pos..pos + n];
  }

  /**
   * The binary reader over a method's code stream. The stream is fixed; the
   * position moves with every read and may be set past the end, where the
   * next read fails.
   */
  class CodeReader {
    const bytes: seq<byte>
    var position: int

    ghost predicate Valid()
      reads this
    {
      0 <= position
    }

    constructor (bytes: seq<byte>)
      ensures Valid() && this.bytes == bytes && position == 0
    {
      this.bytes := bytes;
      position := 0;
    }

    /** Moves to an absolute position, as assigning BaseStream.Position does. */
    method Seek(p: int)
      requires p >= 0
      modifies this
      ensures Valid() && position == p
    {
      position := p;
    }

    /** Reads n bytes as one unsigned little-endian value. */
    method ReadUnsignedValue(n: nat) returns (r: Result<int>)
      requires Valid()
      modifies this
      ensures Valid()
      ensures r == ReadUnsigned(bytes, old(position), n)
      ensures position == if r.Ok? then old(position) + n else old(position)
    {
      if position + n <= |bytes| {
        var bs := bytes[position..position + n];
        UnsignedBound(bs);
        EncodeUnsigned(bs);
        r := Ok(Unsigned(bs));
        position := position + n;
      } else {
        r := Err(EndOfStream);
      }
    }

    /** Reads n bytes as one two's-complement little-endian value. */
    method ReadSignedValue(n: nat) returns (r: Result<int>)
      requires Valid()
      modifies this
      ensures Valid()
      ensures r == ReadSigned(bytes, old(position), n)
      ensures position == if r.Ok? then old(position) + n else old(position)
    {
      var u := ReadUnsignedValue(n);
      if u.Ok? {
        r := Ok(Signed(u.value, n));
      } else {
        r := Err(u.error);
      }
    }

    /** BinaryReader.ReadByte. */
    method ReadByte() returns (r: Result<int>)
      requires Valid()
      modifies this
      ensures Valid()
      ensures r == ReadUnsigned(bytes, old(position), 1)
      ensures position == if r.Ok? then old(position) + 1 else old(position)
    {
      r := ReadUnsignedValue(1);
    }

    /** Reads n bytes without interpreting them; single and double constants are kept this way. */
    method ReadRaw(n: nat) returns (r: Result<seq<byte>>)
      requires Valid()
      modifies this
      ensures Valid()
      ensures r == Bytes(bytes, old(position), n)
      ensures position == if r.Ok? then old(position) + n else old(position)
    {
      if position + n <= |bytes| {
        r := Ok(bytes[position..position + n]);
        position := position + n;
      } else {
        r := Err(EndOfStream);
      }
    }

    /**
     * Stream.Read(buffer, 0, n): copies the bytes that are left, up to n of
     * them, and never fails at the end of the stream.
     */
    method ReadAvailable(n: nat) returns (got: seq<byte>)
      requires Valid()
      modifies this
      ensures Valid()
      ensures got == Available(bytes, old(position), n)
      ensures position == old(position) + |got|
    {
      got := Available(bytes, position, n);
      position := position + |got|;
    }
  }

  /** The at most n bytes a Stream.Read at pos copies. */
  function Available(bytes: seq<byte>, pos: int, n: nat): (got: seq<byte>)
    requires pos >= 0
    ensures |got| <= n
    ensures |got| == if pos + n <= |bytes| then n else if pos <= |bytes| then |bytes| - pos else 0
    ensures forall i :: 0 <= i < |got| ==> got[i] == bytes[pos + i]
  {
    if pos + n <= |bytes| then bytes[pos..pos + n]
    else if pos <= |bytes| then bytes[pos..]
    else []
  }
}
