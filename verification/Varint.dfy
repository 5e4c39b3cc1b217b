/**
 Base-128 varints as util/protolib.py writes and reads them: the format of section "Base 128
 Varints" of the Protocol Buffers Encoding specification, with the reader's 10-byte limit and
 its reduction to 32 bits.

 Bit operations are written as arithmetic: `& 0x7f` is `% 128`, `>> 7` is `/ 128`, and an `|`
 of disjoint bits is `+`.
 */
module Varint {
  type Byte = b: int | 0 <= b < 256

  const TWO_32: int := 0x1_0000_0000
  const TWO_63: int := 0x8000_0000_0000_0000
  const TWO_64: int := 0x1_0000_0000_0000_0000
  const TWO_70: int := 0x40_0000_0000_0000_0000

  function Encode(v: nat): (s: seq<Byte>)
    ensures |s| >= 1
  {
    if v < 128 then [v] else [128 + v % 128] + Encode(v / 128)
  }

  // ---------- files ----------

  class OutFile {
    var data: seq<Byte>

    constructor ()
      ensures data == []
    {
      data := [];
    }

    method Write(bytes: seq<Byte>)
      modifies this
      ensures data == old(data) + bytes
    {
      data := data + bytes;
    }
  }

  class InFile {
    const data: seq<Byte>
    var pos: nat

    ghost predicate Valid()
      reads this
    {
      pos <= |data|
    }

    ghost function Rest(): seq<Byte>
      requires Valid()
      reads this
    {
      data[pos..]
    }

    constructor (data: seq<Byte>)
      ensures this.data == data && Valid() && Rest() == data
    {
      this.data := data;
      pos := 0;
    }

    /** Reads up to `n` bytes, fewer at the end of the file, and everything for a negative `n`. */
    method Read(n: int) returns (bytes: seq<Byte>)
      requires Valid()
      modifies this
      ensures Valid()
      ensures bytes == Taken(old(Rest()), n) && Rest() == Dropped(old(Rest()), n)
    {
      var stop := if n < 0 || pos + n > |data| then |data| else pos + n;
      bytes := data[pos..stop];
      pos := stop;
    }
  }

  function Taken(s: seq<Byte>, n: int): seq<Byte> {
    if n < 0 || n > |s| then s else s[..n]
  }

  function Dropped(s: seq<Byte>, n: int): seq<Byte> {
    if n < 0 || n > |s| then [] else s[n..]
  }

  // ---------- writing ----------

  method EncodeVarint32(out: OutFile, value: nat)
    modifies out
    ensures out.data == old(out.data) + Encode(value)
  {
    var bits: nat, rest: nat := value % 128, value / 128;
    while rest != 0
      invariant bits < 128
      invariant out.data + Encode(128 * rest + bits) == old(out.data) + Encode(value)
      decreases rest
    {
      EncodeStep(out.data, rest, bits);
      out.Write([128 + bits]);
      bits, rest := rest % 128, rest / 128;
    }
    out.Write([bits]);
  }

  lemma {:induction false} EncodeStep(before: seq<Byte>, rest: nat, bits: nat)
    requires rest > 0 && bits < 128
    ensures before + Encode(128 * rest + bits) == before + [128 + bits] + Encode(rest)
  {
    assert (128 * rest + bits) % 128 == bits && (128 * rest + bits) / 128 == rest;
  }

  // ---------- reading ----------

  datatype Result = Eof | TooLong | Decoded(value: int, length: nat)

  /** The little-endian base-128 number of a run of bytes. */
  function Payload(s: seq<Byte>): nat {
    if s == [] then 0 else s[0] % 128 + 128 * Payload(s[1..])
  }

  /** The index of the first byte that ends a run, or the length when there is none. */
  function Terminator(s: seq<Byte>): (k: nat)
    ensures k <= |s| && (k < |s| ==> s[k] < 128)
    ensures forall i :: 0 <= i < k ==> s[i] >= 128
  {
    if s == [] then 0
    else if s[0] < 128 then 0
    else
      var k := Terminator(s[1..]);
      assert forall i :: 1 <= i < k + 1 ==> s[i] == s[1..][i - 1];
      k + 1
  }

  /** How the reader reduces a number to 32 bits: from 2^63 on it takes it for a negative one. */
  function Wrap(r: nat): (v: int)
    ensures -TWO_32 <= v < TWO_32 && (v - r) % TWO_32 == 0 && (v >= 0 <==> r < TWO_63)
  {
    if r < TWO_63 then r % TWO_32 else r % TWO_32 - TWO_32
  }

  /** The reduction as the reader computes it: subtract 2^64, then set all bits above the low 32. */
  function Reduce(result: nat): (v: int)
    ensures v == Wrap(result)
  {
    if result > 0x7FFF_FFFF_FFFF_FFFF then
      assert TWO_64 == TWO_32 * TWO_32;
      assert (result - TWO_64) % TWO_32 == result % TWO_32;
      (result - TWO_64) % TWO_32 - TWO_32
    else result % TWO_32
  }

  function Decode(s: seq<Byte>): Result {
    var k := Terminator(s);
    if k < |s| && k < 10 then Decoded(Wrap(Payload(s[..k + 1])), k + 1)
    else if |s| >= 10 then TooLong
    else Eof
  }

  /** The number of bytes the reader takes from the file, whatever the outcome. */
  function Consumed(s: seq<Byte>): (n: nat)
    ensures n <= |s| && n <= 10 && (s != [] ==> n > 0)
  {
    match Decode(s)
    case Decoded(_, n) => n
    case TooLong => 10
    case Eof => |s|
  }

  function Power128(n: nat): (p: nat)
    ensures p > 0
  {
    if n == 0 then 1 else 128 * Power128(n - 1)
  }

  lemma {:induction false} PayloadSnoc(s: seq<Byte>, b: Byte)
    ensures Payload(s + [b]) == Payload(s) + b % 128 * Power128(|s|)
  {
    if s == [] {
      assert [b][1..] == [];
    } else {
      assert (s + [b])[1..] == s[1..] + [b];
      PayloadSnoc(s[1..], b);
      Shift(Payload(s[1..]), b % 128, Power128(|s| - 1));
    }
  }

  lemma {:induction false} Shift(x: nat, digit: nat, power: nat)
    ensures 128 * (x + digit * power) == 128 * x + digit * (128 * power)
  {
  }

  lemma {:induction false} PayloadStep(s: seq<Byte>, n: nat)
    requires n < |s|
    ensures Payload(s[..n + 1]) == Payload(s[..n]) + s[n] % 128 * Power128(n)
    ensures s[n..][..1] == [s[n]] && s[n..][1..] == s[n + 1..]
  {
    PayloadSnoc(s[..n], s[n]);
    assert s[..n + 1] == s[..n] + [s[n]];
  }

  lemma {:induction false} TerminatorAt(s: seq<Byte>, k: nat)
    requires k <= |s| && (k < |s| ==> s[k] < 128) && forall i :: 0 <= i < k ==> s[i] >= 128
    ensures Terminator(s) == k
  {
    if s != [] && s[0] >= 128 {
      TerminatorAt(s[1..], k - 1);
    }
  }

  /**
   Reads one varint: at most ten bytes, stopping at the end of the file.  The file is left
   behind the bytes read.
   */
  method DecodeVarint32(file: InFile) returns (r: Result)
    requires file.Valid()
    modifies file
    ensures file.Valid() && r == Decode(old(file.Rest()))
    ensures file.Rest() == old(file.Rest())[Consumed(old(file.Rest()))..]
  {
    ghost var s := file.Rest();
    var result: nat, power: nat, n: nat := 0, 1, 0;
    while n < 10
      invariant file.Valid() && n <= |s| && file.Rest() == s[n..]
      invariant forall i :: 0 <= i < n ==> s[i] >= 128
      invariant result == Payload(s[..n]) && power == Power128(n)
    {
      var c := file.Read(1);
      if |c| == 0 {
        TerminatorAt(s, n);
        return Eof;
      }
      var b: int := c[0];
      PayloadStep(s, n);
      result := result + b % 128 * power;
      n := n + 1;
      if b < 128 {
        TerminatorAt(s, n - 1);
        return Decoded(Reduce(result), n);
      }
      power := 128 * power;
    }
    r := TooLong;
  }

  // ---------- the two together ----------

  lemma {:induction false} EncodeShape(v: nat)
    ensures var s := Encode(v);
            && Payload(s) == v
            && s[|s| - 1] < 128
            && forall i :: 0 <= i < |s| - 1 ==> s[i] >= 128
  {
    if v >= 128 {
      EncodeShape(v / 128);
      assert Encode(v)[1..] == Encode(v / 128);
    } else {
      assert [v][1..] == [];
    }
  }

  lemma {:induction false} EncodeLength(v: nat, n: nat)
    requires n >= 1
    ensures |Encode(v)| <= n <==> v < Power128(n)
  {
    if v >= 128 {
      if n > 1 {
        EncodeLength(v / 128, n - 1);
      }
    } else {
      assert Power128(n) >= 128 by {
        PowerAtLeast(n);
      }
    }
  }

  lemma {:induction false} PowerAtLeast(n: nat)
    requires n >= 1
    ensures Power128(n) >= 128
  {
    if n > 1 {
      PowerAtLeast(n - 1);
    }
  }

  lemma {:induction false} TenBytes()
    ensures Power128(10) == TWO_70
  {
    assert Power128(2) == 0x4000;
    assert Power128(4) == 0x1000_0000;
    assert Power128(6) == 0x400_0000_0000;
    assert Power128(8) == 0x100_0000_0000_0000;
  }

  /** What is read back for any number written, whatever follows it. */
  lemma {:induction false} DecodeEncode(v: nat, rest: seq<Byte>)
    ensures Decode(Encode(v) + rest) == if v < TWO_70 then Decoded(Wrap(v), |Encode(v)|) else TooLong
  {
    var s := Encode(v);
    EncodeShape(v);
    TerminatorAt(s + rest, |s| - 1);
    EncodeLength(v, 10);
    TenBytes();
    assert (s + rest)[..|s|] == s;
  }

  /** Exactly the 32-bit numbers survive the trip. */
  lemma {:induction false} RoundTripIff(v: nat, rest: seq<Byte>)
    ensures Decode(Encode(v) + rest) == Decoded(v, |Encode(v)|) <==> v < TWO_32
  {
    DecodeEncode(v, rest);
  }
}
