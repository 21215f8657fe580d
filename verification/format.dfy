// The wire format in plain numbers: which bytes each kind, packing and absent
// value has, stated without the tables the encoder and the reader share.
module Format {
  import opened Bits
  import opened Options
  import opened Varint
  import opened Wire
  import opened Scalars
  import opened Records
  import opened Schema
  import opened Cells
  import opened RoundTrip

  // ----------------------------------------------------------------- scalars

  /** The values of each kind's C type. */
  lemma {:induction false} KindRange(k: Kind, v: int)
    ensures k.Int32? || k.SInt32? || k.SFixed32? || k.Enum? ==> (InRange(k, v) <==> -0x8000_0000 <= v < 0x8000_0000)
    ensures k.Int64? || k.SInt64? || k.SFixed64? ==>
              (InRange(k, v) <==> -0x8000_0000_0000_0000 <= v < 0x8000_0000_0000_0000)
    ensures k.UInt32? || k.Fixed32? ==> (InRange(k, v) <==> 0 <= v < 0x1_0000_0000)
    ensures k.UInt64? || k.Fixed64? ==> (InRange(k, v) <==> 0 <= v < 0x1_0000_0000_0000_0000)
    ensures k.Bool? ==> (InRange(k, v) <==> 0 <= v <= 1)
  {
    Pow2Values();
  }

  /** Four bytes, least significant first. */
  function FourBytes(v: nat): seq<byte> {
    [v % 256, v / 256 % 256, v / 65536 % 256, v / 16777216 % 256]
  }

  lemma {:induction false} WordMod(v: int, m: int)
    requires 0 < m && -m <= v < m
    ensures v % m == if v < 0 then v + m else v
  {
    if v < 0 {
      ModOf(v, -1, m, v + m);
    } else {
      SmallMod(v, m);
    }
  }

  /** A varint of ten groups: what every negative int32, int64 and enum takes. */
  lemma {:induction false} TopBitTenBytes(v: nat)
    requires 0x8000_0000_0000_0000 <= v < 0x1_0000_0000_0000_0000
    ensures |Bytes(v)| == 10
  {
    Pow2Values();
    CascadeIsLength(v);
  }

  lemma {:induction false} FixedPayload(k: Kind, v: int)
    requires InRange(k, v)
    ensures k.Fixed32? || k.SFixed32? ==> ScalarBytes(k, v) == FourBytes(v % 0x1_0000_0000)
    ensures k.Fixed64? || k.SFixed64? ==>
              var w := v % 0x1_0000_0000_0000_0000; ScalarBytes(k, v) == FourBytes(w) + FourBytes(w / 0x1_0000_0000)
  {
    hide Bytes, Pow2, LittleEndian, ZigZag, FourBytes;
    KindRange(k, v);
    match k
    case Fixed32 | SFixed32 =>
      WordMod(v, 0x1_0000_0000);
      FourLittle(v % 0x1_0000_0000);
    case Fixed64 | SFixed64 =>
      WordMod(v, 0x1_0000_0000_0000_0000);
      EightBytes(v % 0x1_0000_0000_0000_0000);
    case _ =>
  }

  lemma {:induction false} VarintPayload(k: Kind, v: int)
    requires InRange(k, v)
    ensures k.Int32? || k.Int64? || k.Enum? ==>
              && ScalarBytes(k, v) == Bytes(v % 0x1_0000_0000_0000_0000)
              && (v < 0 ==> |ScalarBytes(k, v)| == 10)
    ensures k.SInt32? || k.SInt64? ==> ScalarBytes(k, v) == Bytes(if v >= 0 then 2 * v else -2 * v - 1)
    ensures k.UInt32? || k.UInt64? || k.Bool? ==> ScalarBytes(k, v) == Bytes(v)
  {
    hide Bytes, Pow2, Xor, ZigZag;
    KindRange(k, v);
    Pow2Values();
    match k
    case Int32 | Int64 | Enum =>
      WordMod(v, 0x1_0000_0000_0000_0000);
      if v < 0 {
        TopBitTenBytes(v + 0x1_0000_0000_0000_0000);
      }
    case SInt32 =>
      ZigZagInterleaves(v, TWO_32, 32);
    case SInt64 =>
      ZigZagInterleaves(v, TWO_64, 64);
    case _ =>
  }

  /** The bytes behind the tag, kind by kind. */
  lemma {:induction false} PayloadFormat(k: Kind, v: int)
    requires InRange(k, v)
    ensures k.Fixed32? || k.SFixed32? ==> ScalarBytes(k, v) == FourBytes(v % 0x1_0000_0000)
    ensures k.Fixed64? || k.SFixed64? ==>
              var w := v % 0x1_0000_0000_0000_0000; ScalarBytes(k, v) == FourBytes(w) + FourBytes(w / 0x1_0000_0000)
    ensures k.Int32? || k.Int64? || k.Enum? ==>
              && ScalarBytes(k, v) == Bytes(v % 0x1_0000_0000_0000_0000)
              && (v < 0 ==> |ScalarBytes(k, v)| == 10)
    ensures k.SInt32? || k.SInt64? ==> ScalarBytes(k, v) == Bytes(if v >= 0 then 2 * v else -2 * v - 1)
    ensures k.UInt32? || k.UInt64? || k.Bool? ==> ScalarBytes(k, v) == Bytes(v)
  {
    hide Bytes, ScalarBytes, FourBytes, InRange;
    FixedPayload(k, v);
    VarintPayload(k, v);
  }

  lemma {:induction false} FourLittle(w: nat)
    ensures LittleEndian(w, 4) == FourBytes(w)
  {
    hide LittleEndian;
    LittleEndian4(w);
  }

  lemma {:induction false} EightBytes(w: nat)
    ensures LittleEndian(w, 8) == FourBytes(w) + FourBytes(w / 0x1_0000_0000)
  {
    hide LittleEndian;
    LittleEndian8(w);
    LittleEndian4(w);
    LittleEndian4(w / 4294967296);
  }

  /** A tagged scalar: tag 8n, 8n + 1 or 8n + 5, then the bytes above. */
  lemma {:induction false} ScalarFormat(n: nat, k: Kind, v: int)
    requires InRange(k, v)
    ensures k.Fixed32? || k.SFixed32? ==> Scalar(n, k, v) == Bytes(8 * n + 5) + FourBytes(v % 0x1_0000_0000)
    ensures k.Fixed64? || k.SFixed64? ==>
              var w := v % 0x1_0000_0000_0000_0000;
              Scalar(n, k, v) == Bytes(8 * n + 1) + (FourBytes(w) + FourBytes(w / 0x1_0000_0000))
    ensures k.Int32? || k.Int64? || k.Enum? ==>
              Scalar(n, k, v) == Bytes(8 * n) + Bytes(v % 0x1_0000_0000_0000_0000)
    ensures v < 0 && (k.Int32? || k.Int64? || k.Enum?) ==> |Bytes(v % 0x1_0000_0000_0000_0000)| == 10
    ensures k.SInt32? || k.SInt64? ==> Scalar(n, k, v) == Bytes(8 * n) + Bytes(if v >= 0 then 2 * v else -2 * v - 1)
    ensures k.UInt32? || k.UInt64? || k.Bool? ==> Scalar(n, k, v) == Bytes(8 * n) + Bytes(v)
  {
    hide Bytes, ScalarBytes, InRange, FourBytes;
    PayloadFormat(k, v);
  }

  /** What each kind makes of the word it decodes. */
  lemma {:induction false} WordMeaning(k: Kind, raw: nat)
    ensures k.Int32? || k.Enum? || k.SFixed32? ==>
              var v := FromWire(k, raw); -0x8000_0000 <= v < 0x8000_0000 && v % 0x1_0000_0000 == raw % 0x1_0000_0000
    ensures k.Int64? || k.SFixed64? ==>
              var v := FromWire(k, raw);
              && -0x8000_0000_0000_0000 <= v < 0x8000_0000_0000_0000
              && v % 0x1_0000_0000_0000_0000 == raw % 0x1_0000_0000_0000_0000
    ensures k.UInt32? || k.Fixed32? ==> FromWire(k, raw) == raw % 0x1_0000_0000
    ensures k.UInt64? || k.Fixed64? ==> FromWire(k, raw) == raw % 0x1_0000_0000_0000_0000
    ensures k.Bool? ==> FromWire(k, raw) == if raw == 0 then 0 else 1
    ensures k.SInt32? ==>
              var u := raw % 0x1_0000_0000; FromWire(k, raw) == if u % 2 == 0 then u / 2 else -(u / 2) - 1
    ensures k.SInt64? ==>
              var u := raw % 0x1_0000_0000_0000_0000; FromWire(k, raw) == if u % 2 == 0 then u / 2 else -(u / 2) - 1
  {
    hide Pow2, Xor, UnZigZag;
    Pow2Values();
    match k
    case SInt32 => UnZigZagInterleaves(raw % TWO_32, TWO_32, 32);
    case SInt64 => UnZigZagInterleaves(raw % TWO_64, TWO_64, 64);
    case Int32 | Enum | SFixed32 => WordMod(FromWire(k, raw), 0x1_0000_0000);
    case Int64 | SFixed64 => WordMod(FromWire(k, raw), 0x1_0000_0000_0000_0000);
    case _ =>
  }

  // ---------------------------------------------------------------- payloads

  /** One varint and nothing else. */
  predicate OneVarint(p: seq<byte>) {
    1 <= |p| <= 10 && p[|p| - 1] < 128 && forall i :: 0 <= i < |p| - 1 ==> p[i] >= 128
  }

  /** A complete payload of each wire type: one varint, eight bytes, a length
      and as many bytes, four bytes. */
  lemma {:induction false} PayloadShape(p: seq<byte>, wt: nat)
    ensures wt == 0 ==> (IsPayload(p, wt) <==> OneVarint(p))
    ensures wt == 1 ==> (IsPayload(p, wt) <==> |p| == 8)
    ensures wt == 2 ==>
              (IsPayload(p, wt) <==>
                exists h :: 1 <= h <= |p| && OneVarint(p[..h]) && GroupSum(p[..h]) % 0x1_0000_0000_0000_0000 == |p| - h)
    ensures wt == 5 ==> (IsPayload(p, wt) <==> |p| == 4)
    ensures wt == 3 || wt == 4 || wt >= 6 ==> !IsPayload(p, wt)
  {
    hide GroupSum, Decode, OneVarint;
    if wt == 0 {
      assert p[..|p|] == p;
      VarintShape(p, |p|);
      NoEmptyVarint();
    }
    if wt == 2 {
      PrefixedShape(p);
    }
  }

  lemma {:induction false} NoEmptyVarint()
    ensures !OneVarint([])
  {
  }

  lemma {:induction false} PrefixedShape(p: seq<byte>)
    ensures IsPayload(p, 2) <==>
              exists h :: 1 <= h <= |p| && OneVarint(p[..h]) && GroupSum(p[..h]) % 0x1_0000_0000_0000_0000 == |p| - h
  {
    hide GroupSum, Decode, OneVarint;
    if IsPayload(p, 2) {
      VarintShape(p, Decode(p, W64).consumed);
    }
    if h :| 1 <= h <= |p| && OneVarint(p[..h]) && GroupSum(p[..h]) % 0x1_0000_0000_0000_0000 == |p| - h {
      VarintShape(p, h);
    }
  }

  lemma {:induction false} VarintShape(p: seq<byte>, h: nat)
    requires h <= |p|
    ensures h >= 1 && OneVarint(p[..h]) <==> Decode(p, W64).Good? && Decode(p, W64).consumed == h
    ensures h >= 1 && OneVarint(p[..h]) ==> Decode(p, W64).value == GroupSum(p[..h]) % 0x1_0000_0000_0000_0000
  {
    hide GroupSum, Decode;
    Pow2Values();
    if h >= 1 && OneVarint(p[..h]) {
      VarintAt(p, h, W64);
    }
    if Decode(p, W64).Good? && Decode(p, W64).consumed == h {
      ShapeOfVarint(p, W64);
    }
  }

  /** One varint in front is what is decoded. */
  lemma {:induction false} VarintAt(s: seq<byte>, h: nat, w: Word)
    requires 1 <= h <= w.Limit() && h <= |s| && OneVarint(s[..h])
    ensures Decode(s, w) == Good(GroupSum(s[..h]) % w.Modulus(), h)
  {
    hide GroupSum, Decode;
    forall i | 0 <= i < h
      ensures s[i] == s[..h][i]
    {
    }
    TerminatorAt(s, h - 1);
    DecodeIs(s, w, h);
  }

  lemma {:induction false} ShapeOfVarint(s: seq<byte>, w: Word)
    requires Decode(s, w).Good?
    ensures OneVarint(s[..Decode(s, w).consumed])
    ensures Decode(s, w).value == GroupSum(s[..Decode(s, w).consumed]) % w.Modulus()
  {
    hide GroupSum;
  }

  /** Skipping outside groups reaches exactly over one complete payload. */
  lemma {:induction false} PayloadExact(s: seq<byte>, wt: nat, n: nat)
    requires wt != 3
    ensures Skip(s, wt) == Ok(n) <==> n <= |s| && IsPayload(s[..n], wt)
  {
    hide Decode;
    if wt == 0 || wt == 1 || wt == 2 || wt == 5 {
      if Skip(s, wt) == Ok(n) {
        HeadPayload(s, wt);
      }
      if n <= |s| && IsPayload(s[..n], wt) {
        assert s[..n][..n] == s[..n];
        SkipPlainLocal(s[..n], s, wt);
      }
    }
  }

  /** A record: a tag varint of at most five bytes whose low 32 bits hold a
      wire type below six and a nonzero field number, then its payload. */
  lemma {:induction false} RecordExact(s: seq<byte>, x: Rec)
    ensures ParseRec(s) == Ok(x) <==>
              && 1 <= x.head <= 5 && x.Size() <= |s| && OneVarint(s[..x.head])
              && x.tag == GroupSum(s[..x.head]) % 0x1_0000_0000
              && x.tag % 8 < 6 && x.tag / 8 > 0
              && x.body == s[x.head..x.Size()] && Skip(s[x.head..], x.tag % 8) == Ok(|x.body|)
  {
    hide GroupSum, Skip, Decode, OneVarint;
    if Decode(s, W32).Good? {
      ShapeOfVarint(s, W32);
    }
    if 1 <= x.head <= 5 && x.head <= |s| && OneVarint(s[..x.head]) {
      VarintAt(s, x.head, W32);
    }
  }

  // ------------------------------------------------------------------ errors

  /** No byte of the first `n` ends a varint. */
  predicate AllContinue(s: seq<byte>, n: nat) {
    forall i :: 0 <= i < n && i < |s| ==> s[i] >= 128
  }

  /** A varint fails as truncated when the bytes run out, and as overflow when
      its last permitted byte still asks for more. */
  lemma {:induction false} VarintErrors(s: seq<byte>, w: Word)
    ensures var limit := if w.W32? then 5 else 10;
            && (Decode(s, w) == Bad(Truncated) <==> |s| < limit && AllContinue(s, limit))
            && (Decode(s, w) == Bad(Overflow) <==> |s| >= limit && AllContinue(s, limit))
            && (Decode(s, w).Good? <==> !AllContinue(s, limit))
  {
    hide GroupSum;
    var limit := w.Limit();
    var i := Terminator(s);
    if AllContinue(s, limit) {
      assert i < |s| ==> i >= limit;
    } else {
      var k :| 0 <= k < limit && k < |s| && s[k] < 128;
      assert i <= k;
    }
  }

  /** A length prefix fails like a varint, or asks for more bytes than there are. */
  lemma {:induction false} PrefixErrors(s: seq<byte>)
    ensures DecodeBytes(s) == Err(Overflow) <==> |s| >= 10 && AllContinue(s, 10)
    ensures DecodeBytes(s) == Err(Truncated) <==>
              || (|s| < 10 && AllContinue(s, 10))
              || exists h :: 1 <= h <= |s| && OneVarint(s[..h]) && GroupSum(s[..h]) % 0x1_0000_0000_0000_0000 > |s| - h
    ensures DecodeBytes(s).Ok? || DecodeBytes(s) == Err(Overflow) || DecodeBytes(s) == Err(Truncated)
  {
    hide GroupSum, AllContinue, Decode, OneVarint;
    VarintErrors(s, W64);
    if Decode(s, W64).Good? {
      ShapeOfVarint(s, W64);
      VarintShape(s, Decode(s, W64).consumed);
    }
    if h :| 1 <= h <= |s| && OneVarint(s[..h]) && GroupSum(s[..h]) % 0x1_0000_0000_0000_0000 > |s| - h {
      VarintShape(s, h);
    }
  }

  /** A record fails with its tag's varint; then for a wire type above five;
      then for field number zero; then with its payload. */
  lemma {:induction false} RecordErrors(s: seq<byte>, h: nat)
    ensures AllContinue(s, 5) ==> ParseRec(s) == Err(if |s| >= 5 then Overflow else Truncated)
    ensures 1 <= h <= 5 && h <= |s| && OneVarint(s[..h]) ==>
              var tag := GroupSum(s[..h]) % 0x1_0000_0000;
              && (tag % 8 >= 6 ==> ParseRec(s) == Err(InvalidWireType))
              && (tag % 8 < 6 && tag / 8 == 0 ==> ParseRec(s) == Err(InvalidFieldNum))
              && (tag % 8 < 6 && tag / 8 > 0 && Skip(s[h..], tag % 8).Err? ==> ParseRec(s) == Err(Skip(s[h..], tag % 8).error))
  {
    hide GroupSum, AllContinue, Skip, OneVarint, Decode;
    VarintErrors(s, W32);
    if 1 <= h <= 5 && h <= |s| && OneVarint(s[..h]) {
      VarintAt(s, h, W32);
    }
  }

  // ---------------------------------------------------------- decoded scalars

  /** What a decoded scalar is, from the bytes it took: `g` is the sum of the
      7-bit groups, `u` the little-endian word. */
  lemma {:induction false} ReadMeaning(s: seq<byte>, k: Kind, w: Word)
    requires ReadScalar(s, k, w).Ok?
    ensures var v, n := ReadScalar(s, k, w).value.value, ReadScalar(s, k, w).value.consumed;
            var g := GroupSum(s[..n]);
            && (k.Int32? || k.Enum? ==> OneVarint(s[..n]) && -0x8000_0000 <= v < 0x8000_0000 && v % 0x1_0000_0000 == g % 0x1_0000_0000)
            && (k.Int64? && w.W64? ==>
                  && OneVarint(s[..n]) && -0x8000_0000_0000_0000 <= v < 0x8000_0000_0000_0000
                  && v % 0x1_0000_0000_0000_0000 == g % 0x1_0000_0000_0000_0000)
            && (k.UInt32? ==> OneVarint(s[..n]) && v == g % 0x1_0000_0000)
            && (k.UInt64? && w.W64? ==> OneVarint(s[..n]) && v == g % 0x1_0000_0000_0000_0000)
            && (k.SInt32? ==> OneVarint(s[..n]) && var u := g % 0x1_0000_0000; v == if u % 2 == 0 then u / 2 else -(u / 2) - 1)
            && (k.SInt64? && w.W64? ==>
                  OneVarint(s[..n]) && var u := g % 0x1_0000_0000_0000_0000; v == if u % 2 == 0 then u / 2 else -(u / 2) - 1)
            && (k.Bool? ==>
                  OneVarint(s[..n]) && v == if g % (if w.W32? then 0x1_0000_0000 else 0x1_0000_0000_0000_0000) == 0 then 0 else 1)
  {
    hide GroupSum, FromWire, Pow2;
    Pow2Values();
    if k.WireType() == 0 {
      var d := Decode(s, w);
      ShapeOfVarint(s, w);
      var g := GroupSum(s[..d.consumed]);
      WordMeaning(k, d.value);
      ModMod(g);
      SmallMod(g % TWO_32, TWO_32);
      SmallMod(g % TWO_64, TWO_64);
    }
  }

  /** The same for the fixed-width kinds. */
  lemma {:induction false} ReadFixedMeaning(s: seq<byte>, k: Kind, w: Word)
    ensures k.Fixed32? || k.SFixed32? || k.Fixed64? || k.SFixed64? ==>
              (ReadScalar(s, k, w).Err? <==> |s| < if k.Fixed32? || k.SFixed32? then 4 else 8)
    ensures (k.Fixed32? || k.SFixed32?) && |s| >= 4 ==>
              var u := FourSum(s); var v := ReadScalar(s, k, w).value.value;
              && ReadScalar(s, k, w).value.consumed == 4
              && if k.Fixed32? then v == u else -0x8000_0000 <= v < 0x8000_0000 && v % 0x1_0000_0000 == u
    ensures (k.Fixed64? || k.SFixed64?) && |s| >= 8 ==>
              var u := FourSum(s) + 0x1_0000_0000 * FourSum(s[4..]); var v := ReadScalar(s, k, w).value.value;
              && ReadScalar(s, k, w).value.consumed == 8
              && if k.Fixed64? then v == u else -0x8000_0000_0000_0000 <= v < 0x8000_0000_0000_0000 && v % 0x1_0000_0000_0000_0000 == u
  {
    hide FromWire, WordValue, Pow2;
    Pow2Values();
    if (k.Fixed32? || k.SFixed32?) && |s| >= 4 {
      Word4(s[..4]);
      SmallMod(FourSum(s), TWO_32);
      WordMeaning(k, FourSum(s));
    }
    if (k.Fixed64? || k.SFixed64?) && |s| >= 8 {
      Word8(s[..8]);
      Word4(s[..8][..4]);
      Word4(s[..8][4..]);
      var u := FourSum(s) + 0x1_0000_0000 * FourSum(s[4..]);
      SmallMod(u, TWO_64);
      WordMeaning(k, u);
    }
  }

  function FourSum(s: seq<byte>): (u: nat)
    requires |s| >= 4
    ensures u < 0x1_0000_0000
  {
    (s[0] as int) + 256 * (s[1] as int) + 65536 * (s[2] as int) + 16777216 * (s[3] as int)
  }

  // ------------------------------------------------------------------- fields

  /** The tags a field's arms take: 8n + 2 for everything with a length, the
      kind's own tag for a scalar, both for a repeated scalar. */
  lemma {:induction false} OwnTags(f: Field, tag: nat)
    ensures f.shape.Blob? || f.shape.Child? || f.shape.Blobs? || f.shape.Children? || f.shape.Table? ==>
              (Hits(f, tag) <==> tag == 8 * f.number + 2)
    ensures f.shape.Single? ==>
              match f.shape.kind
              case Fixed32 | SFixed32 => Hits(f, tag) <==> tag == 8 * f.number + 5
              case Fixed64 | SFixed64 => Hits(f, tag) <==> tag == 8 * f.number + 1
              case _ => Hits(f, tag) <==> tag == 8 * f.number
    ensures f.shape.Numbers? ==>
              match f.shape.kind
              case Fixed32 | SFixed32 => Hits(f, tag) <==> tag == 8 * f.number + 2 || tag == 8 * f.number + 5
              case Fixed64 | SFixed64 => Hits(f, tag) <==> tag == 8 * f.number + 2 || tag == 8 * f.number + 1
              case _ => Hits(f, tag) <==> tag == 8 * f.number + 2 || tag == 8 * f.number
  {
  }

  /** Parts in order. */
  function Concat(parts: seq<seq<byte>>): seq<byte> {
    if parts == [] then [] else Concat(parts[..|parts| - 1]) + parts[|parts| - 1]
  }

  /** Tag 8n + 2, the length, the payload. */
  function Block(n: nat, payload: seq<byte>): seq<byte> {
    Bytes(8 * n + 2) + (Bytes(|payload|) + payload)
  }

  /** A message is its fields in declaration order. */
  lemma {:induction false} FieldsInOrder(sch: Schema, fields: seq<Field>, vals: seq<Val<Tree>>, n: nat)
    requires n <= |fields| == |vals|
    ensures EncodeFields(sch, fields, vals, n) ==
            Concat(seq(n, i requires 0 <= i < n => EncodeField(sch, fields[i], vals[i])))
    decreases n
  {
    hide EncodeField;
    if n > 0 {
      FieldsInOrder(sch, fields, vals, n - 1);
      var parts := seq(n, i requires 0 <= i < n => EncodeField(sch, fields[i], vals[i]));
      assert parts[..n - 1] == seq(n - 1, i requires 0 <= i < n - 1 => EncodeField(sch, fields[i], vals[i]));
    }
  }

  /** Nothing is written exactly for a default, a preset, a missing child and
      an empty list or map. */
  lemma {:induction false} WrittenUnlessDefault(sch: Schema, f: Field, v: Val<Tree>)
    requires Fits(sch, f.shape, v)
    ensures EncodeField(sch, f, v) == [] <==>
              match v
              case IntV(x) => x == f.shape.default
              case BlobV(b) => b == f.shape.preset
              case ChildV(c) => c.None?
              case IntsV(xs) => xs == []
              case BlobsV(bs) => bs == []
              case ChildrenV(cs) => cs == []
              case TableV(es) => es == []
  {
    hide Bytes, ScalarBytes, Encode, EncodeExpanded, EncodeElements, EncodeEntry;
    match v
    case IntsV(xs) =>
      if xs != [] {
        assert EncodeExpanded(f.number, f.shape.kind, xs, |xs|) != [] by {
          ExpandedSome(f.number, f.shape.kind, xs, |xs|);
        }
      }
    case _ =>
  }

  lemma {:induction false} ExpandedSome(number: nat, k: Kind, xs: seq<int>, n: nat)
    requires 0 < n <= |xs|
    ensures EncodeExpanded(number, k, xs, n) != []
  {
    hide Bytes, ScalarBytes;
  }

  /** The three forms of a repeated scalar: tagged elements, one tagged element,
      or one block of elements without tags. */
  lemma {:induction false} PackingForm(n: nat, k: Kind, packing: Packing, xs: seq<int>)
    ensures xs == [] ==> EncodeNumbers(n, k, packing, xs) == []
    ensures packing.Expanded? || (packing.Auto? && |xs| == 1) ==>
              EncodeNumbers(n, k, packing, xs) == Concat(seq(|xs|, i requires 0 <= i < |xs| => Scalar(n, k, xs[i])))
    ensures xs != [] && (packing.Packed? || (packing.Auto? && |xs| >= 2)) ==>
              EncodeNumbers(n, k, packing, xs) ==
              Block(n, Concat(seq(|xs|, i requires 0 <= i < |xs| => ScalarBytes(k, xs[i]))))
  {
    hide Scalar, ScalarBytes, Bytes, Concat;
    ExpandedFlat(n, k, xs, |xs|);
    ElementsFlat(k, xs, |xs|);
    if |xs| == 1 {
      OnePart(Scalar(n, k, xs[0]));
      assert seq(|xs|, i requires 0 <= i < |xs| => Scalar(n, k, xs[i])) == [Scalar(n, k, xs[0])];
    }
  }

  lemma {:induction false} OnePart(p: seq<byte>)
    ensures Concat([p]) == p
  {
  }

  lemma {:induction false} ExpandedFlat(number: nat, k: Kind, xs: seq<int>, n: nat)
    requires n <= |xs|
    ensures EncodeExpanded(number, k, xs, n) == Concat(seq(n, i requires 0 <= i < n => Scalar(number, k, xs[i])))
  {
    hide Scalar;
    if n > 0 {
      ExpandedFlat(number, k, xs, n - 1);
      var parts := seq(n, i requires 0 <= i < n => Scalar(number, k, xs[i]));
      assert parts[..n - 1] == seq(n - 1, i requires 0 <= i < n - 1 => Scalar(number, k, xs[i]));
    }
  }

  lemma {:induction false} ElementsFlat(k: Kind, xs: seq<int>, n: nat)
    requires n <= |xs|
    ensures EncodeElements(k, xs, n) == Concat(seq(n, i requires 0 <= i < n => ScalarBytes(k, xs[i])))
  {
    hide ScalarBytes;
    if n > 0 {
      ElementsFlat(k, xs, n - 1);
      var parts := seq(n, i requires 0 <= i < n => ScalarBytes(k, xs[i]));
      assert parts[..n - 1] == seq(n - 1, i requires 0 <= i < n - 1 => ScalarBytes(k, xs[i]));
    }
  }

  /** Lists and maps: a block for every element, an empty one for a missing
      child; an entry's key under number 1, then its value under number 2. */
  lemma {:induction false} ListForm(sch: Schema, f: Field, v: Val<Tree>)
    requires Fits(sch, f.shape, v)
    ensures v.BlobsV? ==>
              EncodeField(sch, f, v) == Concat(seq(|v.blobs|, i requires 0 <= i < |v.blobs| => Block(f.number, v.blobs[i])))
    ensures v.ChildrenV? ==>
              EncodeField(sch, f, v) ==
              Concat(seq(|v.children|, i requires 0 <= i < |v.children| =>
                Block(f.number, if v.children[i].None? then [] else Encode(sch, f.shape.ty, v.children[i].value))))
    ensures v.TableV? ==>
              EncodeField(sch, f, v) ==
              Concat(seq(|v.entries|, i requires 0 <= i < |v.entries| =>
                Block(f.number, SlotForm(sch, 1, f.shape.key, v.entries[i].key) + SlotForm(sch, 2, f.shape.val, v.entries[i].val))))
  {
    hide Encode, Bytes, Concat, EncodeSlot, SlotForm;
    match v
    case BlobsV(bs) => BlobsFlat(f.number, bs, |bs|);
    case ChildrenV(cs) => ChildrenFlat(sch, f.number, f.shape.ty, cs, |cs|);
    case TableV(es) => TableFlat(sch, f, es, |es|);
    case _ =>
  }

  /** A key or value: always there, a missing message as an empty one. */
  function SlotForm(sch: Schema, n: nat, slot: Slot, v: SlotV<Tree>): seq<byte>
    requires SlotFits(sch, slot, v)
  {
    match v
    case IntS(x) => Scalar(n, slot.kind, x)
    case BlobS(b) => Block(n, b)
    case MessageS(c) => Block(n, if c.None? then [] else Encode(sch, slot.ty, c.value))
  }

  lemma {:induction false} BlobsFlat(number: nat, bs: seq<seq<byte>>, n: nat)
    requires n <= |bs|
    ensures EncodeBlobs(number, bs, n) == Concat(seq(n, i requires 0 <= i < n => Block(number, bs[i])))
  {
    hide Bytes;
    if n > 0 {
      BlobsFlat(number, bs, n - 1);
      var parts := seq(n, i requires 0 <= i < n => Block(number, bs[i]));
      assert parts[..n - 1] == seq(n - 1, i requires 0 <= i < n - 1 => Block(number, bs[i]));
    }
  }

  lemma {:induction false} ChildrenFlat(sch: Schema, number: nat, ty: nat, cs: seq<Option<Tree>>, n: nat)
    requires n <= |cs|
    ensures EncodeChildren(sch, number, ty, cs, n) ==
            Concat(seq(n, i requires 0 <= i < n => Block(number, if cs[i].None? then [] else Encode(sch, ty, cs[i].value))))
    decreases n
  {
    hide Bytes, Encode;
    if n > 0 {
      ChildrenFlat(sch, number, ty, cs, n - 1);
      var parts := seq(n, i requires 0 <= i < n => Block(number, if cs[i].None? then [] else Encode(sch, ty, cs[i].value)));
      assert parts[..n - 1] ==
             seq(n - 1, i requires 0 <= i < n - 1 => Block(number, if cs[i].None? then [] else Encode(sch, ty, cs[i].value)));
    }
  }

  lemma {:induction false} TableFlat(sch: Schema, f: Field, es: seq<Entry<Tree>>, n: nat)
    requires f.shape.Table? && n <= |es|
    requires forall i :: 0 <= i < n ==> SlotFits(sch, f.shape.key, es[i].key) && SlotFits(sch, f.shape.val, es[i].val)
    ensures EncodeTable(sch, f.number, f.shape.key, f.shape.val, es, n) ==
            Concat(seq(n, i requires 0 <= i < n =>
              Block(f.number, SlotForm(sch, 1, f.shape.key, es[i].key) + SlotForm(sch, 2, f.shape.val, es[i].val))))
    decreases n
  {
    hide Bytes, EncodeSlot, SlotForm, SlotFits;
    if n > 0 {
      TableFlat(sch, f, es, n - 1);
      SlotIsForm(sch, 1, f.shape.key, es[n - 1].key);
      SlotIsForm(sch, 2, f.shape.val, es[n - 1].val);
      var parts := seq(n, i requires 0 <= i < n =>
        Block(f.number, SlotForm(sch, 1, f.shape.key, es[i].key) + SlotForm(sch, 2, f.shape.val, es[i].val)));
      assert parts[..n - 1] == seq(n - 1, i requires 0 <= i < n - 1 =>
        Block(f.number, SlotForm(sch, 1, f.shape.key, es[i].key) + SlotForm(sch, 2, f.shape.val, es[i].val)));
    }
  }

  lemma {:induction false} SlotIsForm(sch: Schema, n: nat, slot: Slot, v: SlotV<Tree>)
    requires SlotFits(sch, slot, v)
    ensures EncodeSlot(sch, n, slot, v) == SlotForm(sch, n, slot, v)
  {
    hide Bytes, Encode, Scalar;
  }
}
