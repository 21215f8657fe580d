// Base 128 varints: sizes, encoders and decoders of runtime/include/gremlin.h.
module Varint {
  import opened Bits

  type byte = b: int | 0 <= b < 256

  datatype Error = Truncated | Overflow | InvalidWireType | InvalidFieldNum

  datatype Result<+T> = Ok(value: T) | Err(error: Error)

  datatype Decoded = Good(value: nat, consumed: nat) | Bad(error: Error)

  // ---------------------------------------------------------------- sizes

  function SizeCascade(v: nat): nat {
    if v < 0x80 then 1
    else if v < 0x4000 then 2
    else if v < 0x20_0000 then 3
    else if v < 0x1000_0000 then 4
    else if v < 0x8_0000_0000 then 5
    else if v < 0x400_0000_0000 then 6
    else if v < 0x2_0000_0000_0000 then 7
    else if v < 0x100_0000_0000_0000 then 8
    else if v < 0x8000_0000_0000_0000 then 9
    else 10
  }

  function SizeCascade32(v: nat): nat {
    if v < 0x80 then 1
    else if v < 0x4000 then 2
    else if v < 0x20_0000 then 3
    else if v < 0x1000_0000 then 4
    else 5
  }

  /** The count-leading-zeros form. */
  function SizeClz(v: nat): nat {
    if v == 0 then 1 else (64 - LeadingZeros(v, 64) + 6) / 7
  }

  // -------------------------------------------------------------- encoding

  /** The canonical encoding: 7-bit groups, least significant first. */
  function Bytes(v: nat): (s: seq<byte>)
    ensures |s| >= 1
  {
    if v < 128 then [v] else [128 + v % 128] + Bytes(v / 128)
  }

  /** A value of at most 7k bits takes at most k bytes, band by band. */
  lemma {:induction false} BitsToBytes(v: nat, bits: nat)
    requires 1 <= bits <= 64
    requires v < 0x80 <==> bits <= 7
    requires v < 0x4000 <==> bits <= 14
    requires v < 0x20_0000 <==> bits <= 21
    requires v < 0x1000_0000 <==> bits <= 28
    requires v < 0x8_0000_0000 <==> bits <= 35
    requires v < 0x400_0000_0000 <==> bits <= 42
    requires v < 0x2_0000_0000_0000 <==> bits <= 49
    requires v < 0x100_0000_0000_0000 <==> bits <= 56
    requires v < 0x8000_0000_0000_0000 <==> bits <= 63
    ensures (bits + 6) / 7 == SizeCascade(v)
  {
  }

  lemma {:induction false} Band(v: nat, k: nat, limit: nat)
    requires v < Pow2(64) && k <= 64 && limit == Pow2(k)
    ensures v < limit <==> 64 - LeadingZeros(v, 64) <= k
  {
    LeadingZerosBound(v, 64, k);
  }

  /** The header's admitted bridge axiom: the two size formulas agree. */
  lemma {:induction false} ClzIsCascade(v: nat)
    requires v < TWO_64
    ensures SizeClz(v) == SizeCascade(v)
  {
    if v > 0 {
      Pow2Values();
      Band(v, 0, 1);
      Band(v, 7, 0x80);
      Band(v, 14, 0x4000);
      Band(v, 21, 0x20_0000);
      Band(v, 28, 0x1000_0000);
      Band(v, 35, 0x8_0000_0000);
      Band(v, 42, 0x400_0000_0000);
      Band(v, 49, 0x2_0000_0000_0000);
      Band(v, 56, 0x100_0000_0000_0000);
      Band(v, 63, 0x8000_0000_0000_0000);
      BitsToBytes(v, 64 - LeadingZeros(v, 64));
    }
  }

  lemma {:induction false} CascadeIsLength(v: nat)
    requires v < TWO_64
    ensures |Bytes(v)| == SizeCascade(v)
    ensures v < TWO_32 ==> |Bytes(v)| == SizeCascade32(v)
  {
    if v >= 128 {
      CascadeIsLength(v / 128);
    }
  }

  lemma {:induction false} SliceOfSlice(s: seq<byte>, a: nat, b: nat, lo: nat, hi: nat)
    requires a <= b <= |s| && lo <= hi <= b - a
    ensures s[a..b][lo..hi] == s[a + lo..a + hi]
  {
    var x, y := s[a..b][lo..hi], s[a + lo..a + hi];
    assert forall k :: 0 <= k < hi - lo ==> x[k] == s[a..b][lo + k] == s[a + lo + k] == y[k];
  }

  /** `after` is `before` with `data` stored at `off`. */
  predicate Wrote(before: seq<byte>, after: seq<byte>, off: nat, data: seq<byte>) {
    off + |data| <= |before| && after == before[..off] + data + before[off + |data|..]
  }

  lemma {:induction false} WroteMore(a: seq<byte>, b: seq<byte>, c: seq<byte>, off: nat, d1: seq<byte>, d2: seq<byte>)
    requires Wrote(a, b, off, d1) && Wrote(b, c, off + |d1|, d2)
    ensures Wrote(a, c, off, d1 + d2)
  {
    assert b[..off + |d1|] == a[..off] + d1;
    assert b[off + |d1| + |d2|..] == a[off + |d1| + |d2|..];
  }

  /** Stores one byte after the bytes `done` written since `before`. */
  method StoreByte(buf: array<byte>, off: nat, b: byte, ghost before: seq<byte>, ghost start: nat, ghost done: seq<byte>)
    requires off < buf.Length && off == start + |done|
    requires Wrote(before, buf[..], start, done)
    modifies buf
    ensures Wrote(before, buf[..], start, done + [b])
  {
    ghost var mid := buf[..];
    buf[off] := b;
    assert buf[..] == mid[..off] + [b] + mid[off + 1..];
    WroteMore(before, mid, buf[..], start, done, [b]);
  }

  lemma {:induction false} WroteNothing(a: seq<byte>, off: nat)
    requires off <= |a|
    ensures Wrote(a, a, off, [])
  {
  }

  method EncodeAt(buf: array<byte>, off: nat, v: nat) returns (end: nat)
    requires off + |Bytes(v)| <= buf.Length
    modifies buf
    ensures end == off + |Bytes(v)|
    ensures Wrote(old(buf[..]), buf[..], off, Bytes(v))
  {
    ghost var before := buf[..];
    WroteNothing(before, off);
    hide Wrote, Bytes;
    BytesStep(v);
    if v < 128 {
      assert [] + [v] == Bytes(v);
      StoreByte(buf, off, v, before, off, []);
      return off + 1;
    }
    var rest := v;
    end := off;
    ghost var done: seq<byte> := [];
    while rest >= 128
      invariant done + Bytes(rest) == Bytes(v) && end == off + |done|
      invariant Wrote(before, buf[..], off, done)
    {
      BytesStep(rest);
      StoreByte(buf, end, 128 + rest % 128, before, off, done);
      MoreGroups(done, rest);
      done := done + [128 + rest % 128];
      end := end + 1;
      rest := rest / 128;
    }
    BytesStep(rest);
    StoreByte(buf, end, rest, before, off, done);
    end := end + 1;
  }

  lemma {:induction false} BytesStep(v: nat)
    ensures v < 128 ==> Bytes(v) == [v]
    ensures v >= 128 ==> Bytes(v) == [128 + v % 128] + Bytes(v / 128)
  {
  }

  lemma {:induction false} MoreGroups(done: seq<byte>, rest: nat)
    requires rest >= 128
    ensures done + Bytes(rest) == (done + [128 + rest % 128]) + Bytes(rest / 128)
  {
  }

  // -------------------------------------------------------------- decoding

  /** The two decoders differ only in their word and their byte limit. */
  datatype Word = W32 | W64 {
    function Bits(): nat { if W32? then 32 else 64 }
    function Limit(): nat { if W32? then 5 else 10 }
    function Modulus(): (m: nat)
      ensures m > 0
    {
      if W32? then TWO_32 else TWO_64
    }
  }

  /** Index of the first byte without the continuation bit, or |s|. */
  function Terminator(s: seq<byte>): (i: nat)
    ensures i <= |s|
    ensures i < |s| ==> s[i] < 128
    ensures forall k :: 0 <= k < i ==> s[k] >= 128
  {
    if s == [] || s[0] < 128 then 0 else 1 + Terminator(s[1..])
  }

  /** The value of 7-bit groups, least significant first. */
  function GroupSum(s: seq<byte>): nat {
    if s == [] then 0 else s[0] % 128 + 128 * GroupSum(s[1..])
  }

  /** What a decoder must return on the bytes `s`. */
  function Decode(s: seq<byte>, w: Word): (d: Decoded)
    ensures d.Good? ==> 1 <= d.consumed <= |s| && d.consumed <= w.Limit() && d.value < w.Modulus()
  {
    var i := Terminator(s);
    if i < |s| && i < w.Limit() then Good(GroupSum(s[..i + 1]) % w.Modulus(), i + 1)
    else if |s| >= w.Limit() then Bad(Overflow)
    else Bad(Truncated)
  }

  lemma {:induction false} GroupSumAppend(s: seq<byte>, b: byte)
    ensures GroupSum(s + [b]) == GroupSum(s) + (b % 128) * Pow2(7 * |s|)
    ensures GroupSum(s) < Pow2(7 * |s|)
  {
    hide Pow2;
    GroupFactor();
    if s == [] {
      assert (s + [b])[1..] == [];
    } else {
      assert (s + [b])[1..] == s[1..] + [b];
      GroupSumAppend(s[1..], b);
      var p := Pow2(7 * |s[1..]|);
      Pow2Step(7 * |s[1..]|, p, 7, 128);
      Regroup(b % 128, p);
    }
  }

  lemma {:induction false} GroupFactor()
    ensures Pow2(0) == 1 && Pow2(7) == 128
  {
  }

  lemma {:induction false} Regroup(a: nat, p: nat)
    ensures 128 * (a * p) == a * (p * 128)
  {
  }

  lemma {:induction false} TerminatorAt(s: seq<byte>, i: nat)
    requires i <= |s| && (i < |s| ==> s[i] < 128)
    requires forall k :: 0 <= k < i ==> s[k] >= 128
    ensures Terminator(s) == i
  {
    if i > 0 {
      TerminatorAt(s[1..], i - 1);
    }
  }

  method VarintDecode(buf: seq<byte>, w: Word) returns (r: Decoded)
    ensures r == Decode(buf, w)
  {
    if |buf| >= 1 && buf[0] < 128 {
      OneByte(buf, w);
      return Good(buf[0], 1);
    }
    var value: nat, i, shift := 0, 0, 0;
    while i < |buf| && i < w.Limit()
      invariant 0 <= i <= w.Limit() && i <= |buf| && shift == 7 * i
      invariant value == GroupSum(buf[..i]) % w.Modulus()
      invariant forall k :: 0 <= k < i ==> buf[k] >= 128
    {
      var b := buf[i];
      DecodeStep(buf, i, value, w);
      value := Or(value, (b % 128 * Pow2(shift)) % w.Modulus());
      i := i + 1;
      if b < 128 {
        TerminatorAt(buf, i - 1);
        DecodeIs(buf, w, i);
        return Good(value, i);
      }
      shift := shift + 7;
    }
    NoTerminator(buf, w, i);
    return if i == w.Limit() then Bad(Overflow) else Bad(Truncated);
  }

  lemma {:induction false} OneByte(s: seq<byte>, w: Word)
    requires |s| >= 1 && s[0] < 128
    ensures Decode(s, w) == Good(s[0], 1)
  {
    DecodeIs(s, w, 1);
    assert s[..1][1..] == [];
  }

  lemma {:induction false} DecodeIs(s: seq<byte>, w: Word, n: nat)
    requires 1 <= n <= |s| && n <= w.Limit() && Terminator(s) == n - 1
    ensures Decode(s, w) == Good(GroupSum(s[..n]) % w.Modulus(), n)
  {
  }

  lemma {:induction false} NoTerminator(s: seq<byte>, w: Word, n: nat)
    requires n <= |s| && (n == |s| || n == w.Limit()) && n <= w.Limit()
    requires forall k :: 0 <= k < n ==> s[k] >= 128
    ensures Decode(s, w) == Bad(if n == w.Limit() then Overflow else Truncated)
  {
    var i := Terminator(s);
    assert i < |s| ==> s[i] < 128;
  }

  lemma {:induction false} ModulusIsPow2(w: Word)
    ensures w.Modulus() == Pow2(w.Bits())
  {
    Pow2Values();
  }

  lemma {:induction false} GroupSumStep(s: seq<byte>, i: nat)
    requires i < |s|
    ensures GroupSum(s[..i + 1]) == GroupSum(s[..i]) + (s[i] % 128) * Pow2(7 * i)
    ensures GroupSum(s[..i]) < Pow2(7 * i)
  {
    assert s[..i + 1] == s[..i] + [s[i]];
    GroupSumAppend(s[..i], s[i]);
  }

  lemma {:induction false} GroupsFit(i: nat, w: Word)
    requires i < w.Limit()
    ensures Pow2(7 * i) <= w.Modulus()
  {
    ModulusIsPow2(w);
    Pow2Monotone(7 * i, w.Bits());
  }

  /** `value |= (uintN_t)(b & 0x7F) << shift` adds the next group. */
  lemma {:induction false} DecodeStep(buf: seq<byte>, i: nat, value: nat, w: Word)
    requires i < |buf| && i < w.Limit()
    requires value == GroupSum(buf[..i]) % w.Modulus()
    ensures Or(value, (buf[i] % 128 * Pow2(7 * i)) % w.Modulus()) == GroupSum(buf[..i + 1]) % w.Modulus()
  {
    GroupSumStep(buf, i);
    GroupsFit(i, w);
    SmallMod(GroupSum(buf[..i]), w.Modulus());
    OrShifted(value, buf[i] % 128, 7 * i, w.Bits());
    ModulusIsPow2(w);
  }

  lemma {:induction false} EncodedShape(v: nat, rest: seq<byte>)
    ensures Terminator(Bytes(v) + rest) == |Bytes(v)| - 1
    ensures GroupSum(Bytes(v)) == v
  {
    var s := Bytes(v) + rest;
    if v >= 128 {
      assert s[1..] == Bytes(v / 128) + rest;
      assert Bytes(v)[1..] == Bytes(v / 128);
      EncodedShape(v / 128, rest);
    } else {
      assert Bytes(v)[1..] == [];
    }
  }

  lemma {:induction false} EncodedSize(v: nat, w: Word)
    requires v < w.Modulus()
    ensures |Bytes(v)| == (if w.W32? then SizeCascade32(v) else SizeCascade(v)) <= w.Limit()
  {
    CascadeIsLength(v);
  }

  /** Decoding an encoded value followed by anything gives it back. */
  lemma {:induction false} DecodeEncoded(v: nat, rest: seq<byte>, w: Word)
    requires v < w.Modulus()
    ensures Decode(Bytes(v) + rest, w) == Good(v, |Bytes(v)|)
  {
    hide Bytes, Decode, Terminator, GroupSum, SizeCascade, SizeCascade32;
    var e := Bytes(v);
    EncodedSize(v, w);
    EncodedShape(v, rest);
    DecodeIs(e + rest, w, |e|);
    assert (e + rest)[..|e|] == e;
    SmallMod(v, w.Modulus());
  }

  /** When the 32-bit decoder accepts, the 64-bit one reads the same bytes. */
  lemma {:induction false} NarrowAgreesWithWide(s: seq<byte>)
    requires Decode(s, W32).Good?
    ensures Decode(s, W64).Good?
    ensures Decode(s, W64).consumed == Decode(s, W32).consumed
    ensures Decode(s, W64).value % TWO_32 == Decode(s, W32).value
  {
    var g := GroupSum(s[..Terminator(s) + 1]);
    ModMod(g);
  }

  lemma {:induction false} ModMod(g: nat)
    ensures g % TWO_64 % TWO_32 == g % TWO_32
  {
    var d := g / TWO_64;
    assert g == TWO_32 * (TWO_32 * d) + g % TWO_64;
    var e := (g % TWO_64) / TWO_32;
    ModOf(g, TWO_32 * d + e, TWO_32, g % TWO_64 % TWO_32);
  }

  /** Only the bytes up to the terminator matter. */
  lemma {:induction false} DecodeLocal(s: seq<byte>, t: seq<byte>, w: Word)
    requires Decode(s, w).Good? && Decode(s, w).consumed <= |t|
    requires s[..Decode(s, w).consumed] == t[..Decode(s, w).consumed]
    ensures Decode(t, w) == Decode(s, w)
  {
    var n := Decode(s, w).consumed;
    assert forall k :: 0 <= k < n ==> s[..n][k] == t[..n][k];
    assert forall k :: 0 <= k < n ==> s[k] == t[k];
    TerminatorAt(t, n - 1);
  }
}
