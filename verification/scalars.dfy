// Scalar values on the wire: zigzag, sign extension, little-endian words, and
// the casts of each protobuf scalar kind.
module Scalars {
  import opened Bits
  import opened Varint

  // ---------------------------------------------------------------- zigzag
  // `m` is the number of values of the word, 2^32 or 2^64.

  /** `((uintN_t)v << 1) ^ sign` */
  function ZigZag(v: int, m: nat): nat
    requires -(m as int) <= 2 * v < m
  {
    Xor(2 * ToUnsigned(v, m) % m, if v < 0 then m - 1 else 0)
  }

  /** `(intN_t)((v >> 1) ^ ((uintN_t)0 - (v & 1)))` */
  function UnZigZag(u: nat, m: nat): int
    requires u < m
  {
    ToSigned(Xor(u / 2, if u % 2 == 0 then 0 else m - 1), m)
  }

  /** The shift/xor code computes the interleaving 0, -1, 1, -2, 2, ... */
  lemma {:induction false} ZigZagInterleaves(v: int, m: nat, n: nat)
    requires -(m as int) <= 2 * v < m && m == Pow2(n)
    ensures ZigZag(v, m) == (if v >= 0 then 2 * v else -2 * v - 1) < m
  {
    hide Pow2, Xor;
    if v >= 0 {
      SmallMod(2 * v, m);
      XorZero(2 * v);
    } else {
      ModOf(2 * (v + m), 1, m, 2 * v + m);
      XorOnes(2 * v + m, n);
    }
  }

  lemma {:induction false} UnZigZagInterleaves(u: nat, m: nat, n: nat)
    requires u < m && m == Pow2(n) && m % 2 == 0
    ensures UnZigZag(u, m) == if u % 2 == 0 then u / 2 else -(u / 2) - 1
    ensures -(m as int) <= 2 * UnZigZag(u, m) < m
  {
    hide Pow2, Xor;
    if u % 2 == 0 {
      XorZero(u / 2);
    } else {
      XorOnes(u / 2, n);
    }
  }

  /** The admitted round-trip axiom, at every width, in both directions. */
  lemma {:induction false} ZigZagBijection(v: int, u: nat, m: nat, n: nat)
    requires -(m as int) <= 2 * v < m && u < m && m == Pow2(n) && m % 2 == 0
    ensures ZigZag(v, m) < m && UnZigZag(ZigZag(v, m), m) == v
    ensures -(m as int) <= 2 * UnZigZag(u, m) < m
    ensures ZigZag(UnZigZag(u, m), m) == u
  {
    hide *;
    ZigZagInterleaves(v, m, n);
    UnZigZagInterleaves(ZigZag(v, m), m, n);
    UnZigZagInterleaves(u, m, n);
    ZigZagInterleaves(UnZigZag(u, m), m, n);
  }

  // ----------------------------------------------------- little-endian words

  function LittleEndian(v: nat, n: nat): (s: seq<byte>)
    ensures |s| == n
  {
    if n == 0 then [] else [v % 256] + LittleEndian(v / 256, n - 1)
  }

  function WordValue(s: seq<byte>): nat {
    if s == [] then 0 else s[0] + 256 * WordValue(s[1..])
  }

  lemma {:induction false} WordRoundTrip(v: nat, n: nat)
    requires v < Pow2(8 * n)
    ensures WordValue(LittleEndian(v, n)) == v
  {
    if n > 0 {
      Pow2Step(8 * (n - 1), Pow2(8 * (n - 1)), 8, 256);
      WordRoundTrip(v / 256, n - 1);
      assert LittleEndian(v, n)[1..] == LittleEndian(v / 256, n - 1);
    }
  }

  lemma {:induction false} Word4(s: seq<byte>)
    requires |s| == 4
    ensures WordValue(s) == (s[0] as int) + 256 * (s[1] as int) + 65536 * (s[2] as int) + 16777216 * (s[3] as int)
  {
    assert s[1..][1..] == s[2..] && s[2..][1..] == s[3..] && s[3..][1..] == [];
    assert WordValue(s[3..]) == s[3];
    assert WordValue(s[2..]) == s[2] + 256 * WordValue(s[3..]);
  }

  lemma {:induction false} LittleEndian4(v: nat)
    ensures LittleEndian(v, 4) == [v % 256, v / 256 % 256, v / 65536 % 256, v / 16777216 % 256]
  {
    assert LittleEndian(v / 65536, 2) == [v / 65536 % 256, v / 16777216 % 256];
    assert v / 256 / 256 == v / 65536;
  }

  lemma {:induction false} Word8(s: seq<byte>)
    requires |s| == 8
    ensures WordValue(s) == WordValue(s[..4]) + 4294967296 * WordValue(s[4..])
  {
    Word4(s[..4]);
    var t := s[1..];
    assert t[1..] == s[2..] && s[2..][1..] == s[3..] && s[3..][1..] == s[4..];
    assert WordValue(s) == s[0] + 256 * WordValue(s[1..]);
    assert WordValue(s[1..]) == s[1] + 256 * WordValue(s[2..]);
    assert WordValue(s[2..]) == s[2] + 256 * WordValue(s[3..]);
  }

  lemma {:induction false} LittleEndian8(v: nat)
    ensures LittleEndian(v, 8) == LittleEndian(v, 4) + LittleEndian(v / 4294967296, 4)
  {
    assert v / 256 / 256 == v / 65536;
    assert v / 65536 / 256 == v / 16777216;
    assert v / 16777216 / 256 == v / 4294967296;
    assert LittleEndian(v, 8) == [v % 256] + LittleEndian(v / 256, 7);
    assert LittleEndian(v / 256, 7) == [v / 256 % 256] + LittleEndian(v / 65536, 6);
    assert LittleEndian(v / 65536, 6) == [v / 65536 % 256] + LittleEndian(v / 16777216, 5);
    LittleEndian4(v);
  }

  lemma {:induction false} HighBytes(v: nat)
    ensures v / 4294967296 / 256 == v / 1099511627776
    ensures v / 4294967296 / 65536 == v / 281474976710656
    ensures v / 4294967296 / 16777216 == v / 72057594037927936
  {
  }

  method Fixed32EncodeAt(buf: array<byte>, off: nat, v: nat) returns (end: nat)
    requires off + 4 <= buf.Length
    modifies buf
    ensures end == off + 4
    ensures Wrote(old(buf[..]), buf[..], off, LittleEndian(v, 4))
  {
    buf[off] := v % 256;
    buf[off + 1] := v / 256 % 256;
    buf[off + 2] := v / 65536 % 256;
    buf[off + 3] := v / 16777216 % 256;
    LittleEndian4(v);
    return off + 4;
  }

  method Fixed64EncodeAt(buf: array<byte>, off: nat, v: nat) returns (end: nat)
    requires off + 8 <= buf.Length
    modifies buf
    ensures end == off + 8
    ensures Wrote(old(buf[..]), buf[..], off, LittleEndian(v, 8))
  {
    ghost var before := buf[..];
    buf[off] := v % 256;
    buf[off + 1] := v / 256 % 256;
    buf[off + 2] := v / 65536 % 256;
    buf[off + 3] := v / 16777216 % 256;
    buf[off + 4] := v / 4294967296 % 256;
    buf[off + 5] := v / 1099511627776 % 256;
    buf[off + 6] := v / 281474976710656 % 256;
    buf[off + 7] := v / 72057594037927936 % 256;
    LittleEndian4(v);
    LittleEndian4(v / 4294967296);
    LittleEndian8(v);
    HighBytes(v);
    assert buf[..] == before[..off] + LittleEndian(v, 8) + before[off + 8..];
    return off + 8;
  }

  method Fixed32Decode(buf: seq<byte>) returns (r: Result<nat>)
    ensures r == DecodeWord(buf, 4)
  {
    if |buf| < 4 {
      return Err(Truncated);
    }
    Word4(buf[..4]);
    return Ok((buf[0] as int) + (buf[1] as int) * 256 + (buf[2] as int) * 65536 + (buf[3] as int) * 16777216);
  }

  method Fixed64Decode(buf: seq<byte>) returns (r: Result<nat>)
    ensures r == DecodeWord(buf, 8)
  {
    if |buf| < 8 {
      return Err(Truncated);
    }
    ghost var s := buf[..8];
    Word8(s);
    Word4(s[..4]);
    Word4(s[4..]);
    return Ok((buf[0] as int) + (buf[1] as int) * 256 + (buf[2] as int) * 65536 + (buf[3] as int) * 16777216
              + (buf[4] as int) * 4294967296 + (buf[5] as int) * 1099511627776
              + (buf[6] as int) * 281474976710656 + (buf[7] as int) * 72057594037927936);
  }

  function DecodeWord(s: seq<byte>, n: nat): (r: Result<nat>) {
    if |s| < n then Err(Truncated) else Ok(WordValue(s[..n]))
  }

  // ------------------------------------------------------------------ kinds

  /** The scalar kinds. An enum field is one more kind: an int32 on the wire. */
  datatype Kind =
    | Int32 | Int64 | UInt32 | UInt64 | SInt32 | SInt64 | Bool | Enum
    | Fixed32 | SFixed32 | Fixed64 | SFixed64
  {
    function WireType(): nat {
      if Fixed32? || SFixed32? then 5
      else if Fixed64? || SFixed64? then 1
      else 0
    }

    /** The number of values of the C type. */
    function Values(): (m: nat)
      ensures m == 2 || m == TWO_32 || m == TWO_64
    {
      if Bool? then 2
      else if Int64? || UInt64? || SInt64? || Fixed64? || SFixed64? then TWO_64
      else TWO_32
    }

    predicate Signed() {
      Int32? || Int64? || SInt32? || SInt64? || Enum? || SFixed32? || SFixed64?
    }

    /** Singular fields of these kinds are read by the five-byte decoder. */
    predicate Narrow() {
      UInt32? || SInt32? || Bool?
    }
  }

  /** The values of the field's C type. */
  predicate InRange(k: Kind, v: int) {
    var m: int := k.Values();
    if k.Signed() then -m <= 2 * v < m else 0 <= v < m
  }

  /** The unsigned word a value is written as: `(uint64_t)(int64_t)v` and so on. */
  function ToWire(k: Kind, v: int): nat
    requires InRange(k, v)
  {
    match k
    case Int32 | Int64 | Enum => ToUnsigned(v, TWO_64)
    case SInt32 | SInt64 => ZigZag(v, k.Values())
    case SFixed32 | SFixed64 => ToUnsigned(v, k.Values())
    case _ => v
  }

  /** The casts a decoder applies to the word it read. */
  function FromWire(k: Kind, raw: nat): int {
    match k
    case Bool => if raw != 0 then 1 else 0
    case Int32 | Enum | SFixed32 | Int64 | SFixed64 => ToSigned(raw % k.Values(), k.Values())
    case UInt32 | Fixed32 | UInt64 | Fixed64 => raw % k.Values()
    case SInt32 | SInt64 => UnZigZag(raw % k.Values(), k.Values())
  }

  /** What the kind's decoder can return: it truncates to this many values. */
  function WordOf(k: Kind): nat {
    if k.Narrow() || k.WireType() == 5 then TWO_32 else TWO_64
  }

  lemma {:induction false} WireRoundTrip(k: Kind, v: int)
    requires InRange(k, v)
    ensures ToWire(k, v) < WordOf(k) && FromWire(k, ToWire(k, v)) == v
  {
    hide Pow2, Xor, ZigZag, UnZigZag;
    Pow2Values();
    match k
    case SInt32 =>
      ZigZagBijection(v, 0, TWO_32, 32);
      SmallMod(ZigZag(v, TWO_32), TWO_32);
    case SInt64 =>
      ZigZagBijection(v, 0, TWO_64, 64);
      SmallMod(ZigZag(v, TWO_64), TWO_64);
    case Int32 | Enum => SignTrip(v);
    case _ => SmallMod(ToWire(k, v), k.Values());
  }

  /** Sign-extended to 64 bits and truncated back to 32. */
  lemma {:induction false} SignTrip(v: int)
    requires -(TWO_32 as int) <= 2 * v < TWO_32
    ensures ToSigned(ToUnsigned(v, TWO_64) % TWO_32, TWO_32) == v
  {
    if v < 0 {
      ModOf(v + TWO_64, TWO_32 - 1, TWO_32, v + TWO_32);
    }
  }

  /** Every word decodes to a value of the field's type. */
  lemma {:induction false} FromWireInRange(k: Kind, raw: nat)
    ensures InRange(k, FromWire(k, raw))
  {
    hide Pow2, Xor, ZigZag, UnZigZag;
    Pow2Values();
    match k
    case SInt32 => UnZigZagInterleaves(raw % TWO_32, TWO_32, 32);
    case SInt64 => UnZigZagInterleaves(raw % TWO_64, TWO_64, 64);
    case _ =>
  }

  /** `gremlin_enum_wire`: `(uint64_t)(int64_t)(int32_t)v` of a C enum of either signedness. */
  function EnumWire(v: int): nat
    requires -0x8000_0000 <= v < TWO_32
  {
    ToUnsigned(ToSigned(v % TWO_32, TWO_32), TWO_64)
  }

  /** Read back through an enum type of the same signedness, it is unchanged. */
  lemma {:induction false} EnumWireRoundTrip(v: int)
    requires -0x8000_0000 <= v < TWO_32
    ensures EnumWire(v) < TWO_64
    ensures FromWire(Enum, EnumWire(v)) == if v < 0x8000_0000 then v else v - TWO_32
    ensures v < 0x8000_0000 ==> EnumWire(v) == ToWire(Enum, v)
  {
    if v < 0 {
      ModOf(v, -1, TWO_32, v + TWO_32);
    } else {
      SmallMod(v, TWO_32);
    }
    SignTrip(ToSigned(v % TWO_32, TWO_32));
  }
}
