// Length-delimited payloads and field skipping, groups included.
module Wire {
  import opened Bits
  import opened Varint

  const VARINT: nat := 0
  const FIXED64: nat := 1
  const LEN: nat := 2
  const SGROUP: nat := 3
  const EGROUP: nat := 4
  const FIXED32: nat := 5

  // ------------------------------------------------------ length-delimited

  datatype Chunk = Chunk(bytes: seq<byte>, consumed: nat)

  function DecodeBytes(s: seq<byte>): (r: Result<Chunk>)
    ensures r.Ok? ==>
              && |r.value.bytes| < r.value.consumed <= |s|
              && r.value.bytes == s[r.value.consumed - |r.value.bytes|..r.value.consumed]
  {
    match Decode(s, W64)
    case Bad(e) => Err(e)
    case Good(v, n) =>
      if v > |s| - n then Err(Truncated) else Ok(Chunk(s[n..n + v], n + v))
  }

  method BytesDecode(buf: seq<byte>) returns (r: Result<Chunk>)
    ensures r == DecodeBytes(buf)
  {
    var d := VarintDecode(buf, W64);
    match d
    case Bad(e) => return Err(e);
    case Good(v, n) =>
      if v > |buf| - n {
        return Err(Truncated);
      }
      return Ok(Chunk(buf[n..n + v], n + v));
  }

  /** A payload behind its length prefix. */
  function Prefixed(b: seq<byte>): seq<byte> {
    Bytes(|b|) + b
  }

  lemma {:induction false} DecodePrefixed(b: seq<byte>, rest: seq<byte>)
    requires |b| < TWO_64
    ensures DecodeBytes(Prefixed(b) + rest) == Ok(Chunk(b, |Prefixed(b)|))
  {
    var n := |Bytes(|b|)|;
    assert Prefixed(b) + rest == Bytes(|b|) + (b + rest);
    DecodeEncoded(|b|, b + rest, W64);
    assert (Prefixed(b) + rest)[n..n + |b|] == b;
  }

  // --------------------------------------------------------------- skipping

  function Plus(k: nat, r: Result<nat>): Result<nat> {
    if r.Ok? then Ok(k + r.value) else r
  }

  /** A payload of one of the four wire types outside groups. */
  function SkipPlain(s: seq<byte>, wt: nat): (r: Result<nat>)
    ensures r.Ok? ==> r.value <= |s|
  {
    if wt == VARINT then
      match Decode(s, W64)
      case Bad(e) => Err(e)
      case Good(_, n) => Ok(n)
    else if wt == FIXED32 then
      if |s| < 4 then Err(Truncated) else Ok(4)
    else if wt == FIXED64 then
      if |s| < 8 then Err(Truncated) else Ok(8)
    else
      match DecodeBytes(s)
      case Err(e) => Err(e)
      case Ok(c) => Ok(c.consumed)
  }

  /** The rest of a group, `depth` end tags from done; the counter is a uint32. */
  function SkipGroup(s: seq<byte>, depth: nat): (r: Result<nat>)
    ensures r.Ok? ==> r.value <= |s|
    decreases |s|
  {
    if depth == 0 then Ok(0)
    else
      match Decode(s, W64)
      case Bad(e) => Err(e)
      case Good(tag, n) =>
        var wt, rest := tag % 8, s[n..];
        if wt >= 6 then Err(InvalidWireType)
        else if wt == SGROUP then Plus(n, SkipGroup(rest, (depth + 1) % TWO_32))
        else if wt == EGROUP then Plus(n, SkipGroup(rest, depth - 1))
        else
          match SkipPlain(rest, wt)
          case Err(e) => Err(e)
          case Ok(k) => Plus(n + k, SkipGroup(rest[k..], depth))
  }

  /** How far the payload of a field of wire type `wt` reaches. */
  function Skip(s: seq<byte>, wt: nat): (r: Result<nat>)
    ensures r.Ok? ==> r.value <= |s|
  {
    if wt == SGROUP then SkipGroup(s, 1)
    else if wt == EGROUP || wt >= 6 then Err(InvalidWireType)
    else SkipPlain(s, wt)
  }

  method PlainSkip(buf: seq<byte>, wt: nat) returns (r: Result<nat>)
    ensures r == SkipPlain(buf, wt)
  {
    if wt == VARINT {
      var d := VarintDecode(buf, W64);
      return if d.Bad? then Err(d.error) else Ok(d.consumed);
    }
    if wt == FIXED32 {
      return if |buf| < 4 then Err(Truncated) else Ok(4);
    }
    if wt == FIXED64 {
      return if |buf| < 8 then Err(Truncated) else Ok(8);
    }
    var d := VarintDecode(buf, W64);
    if d.Bad? {
      return Err(d.error);
    }
    return if d.value > |buf| - d.consumed then Err(Truncated) else Ok(d.consumed + d.value);
  }

  method SkipData(buf: seq<byte>, wt: nat) returns (r: Result<nat>)
    requires wt <= 5
    ensures r == Skip(buf, wt)
  {
    if wt == SGROUP {
      r := GroupSkip(buf);
    } else if wt == EGROUP {
      r := Err(InvalidWireType);
    } else {
      r := PlainSkip(buf, wt);
    }
  }

  /** The depth-counter loop over the tags inside a group. */
  method GroupSkip(buf: seq<byte>) returns (r: Result<nat>)
    ensures r == SkipGroup(buf, 1)
  {
    hide Decode, SkipPlain, SkipGroup;
    var depth, offset := 1, 0;
    assert buf[0..] == buf;
    while depth > 0
      invariant depth >= 0 && 0 <= offset <= |buf|
      invariant SkipGroup(buf, 1) == Plus(offset, SkipGroup(buf[offset..], depth))
      decreases |buf| - offset
    {
      var at := buf[offset..];
      var t := VarintDecode(at, W64);
      GroupStep(at, depth);
      if t.Bad? {
        return Err(t.error);
      }
      assert at[t.consumed..] == buf[offset + t.consumed..];
      offset := offset + t.consumed;
      var inner := t.value % 8;
      if inner == 6 || inner == 7 {
        return Err(InvalidWireType);
      }
      if inner == SGROUP {
        depth := (depth + 1) % TWO_32;
      } else if inner == EGROUP {
        depth := depth - 1;
      } else {
        var k := PlainSkip(buf[offset..], inner);
        if k.Err? {
          return k;
        }
        assert buf[offset..][k.value..] == buf[offset + k.value..];
        offset := offset + k.value;
      }
    }
    GroupDone(buf[offset..]);
    return Ok(offset);
  }

  lemma {:induction false} GroupDone(s: seq<byte>)
    ensures SkipGroup(s, 0) == Ok(0)
  {
  }

  lemma {:induction false} GroupStep(s: seq<byte>, depth: nat)
    requires depth > 0
    ensures var d := Decode(s, W64);
            if d.Bad? then SkipGroup(s, depth) == Err(d.error) else
            var wt, rest := d.value % 8, s[d.consumed..];
            SkipGroup(s, depth) ==
            if wt >= 6 then Err(InvalidWireType)
            else if wt == SGROUP then Plus(d.consumed, SkipGroup(rest, (depth + 1) % TWO_32))
            else if wt == EGROUP then Plus(d.consumed, SkipGroup(rest, depth - 1))
            else if SkipPlain(rest, wt).Err? then SkipPlain(rest, wt)
            else Plus(d.consumed + SkipPlain(rest, wt).value, SkipGroup(rest[SkipPlain(rest, wt).value..], depth))
  {
    hide Decode, SkipPlain;
  }

  // ---------------------------------------------------------- group grammar

  /** What follows a start-group tag: fields and nested groups, then an end tag. */
  datatype Body =
    | End(tag: seq<byte>)
    | Plain(tag: seq<byte>, payload: seq<byte>, rest: Body)
    | Nested(tag: seq<byte>, inner: Body, rest: Body)

  function Flat(b: Body): seq<byte> {
    match b
    case End(t) => t
    case Plain(t, p, r) => t + p + Flat(r)
    case Nested(t, i, r) => t + Flat(i) + Flat(r)
  }

  /** `t` is exactly one varint, and the tag it holds has wire type `wt`. */
  predicate IsTag(t: seq<byte>, wt: nat) {
    var d := Decode(t, W64);
    d.Good? && d.consumed == |t| && d.value % 8 == wt
  }

  /** `p` is exactly one payload of that wire type. */
  predicate IsPayload(p: seq<byte>, wt: nat) {
    (wt == VARINT || wt == FIXED64 || wt == LEN || wt == FIXED32) && SkipPlain(p, wt) == Ok(|p|)
  }

  predicate WellFormed(b: Body) {
    match b
    case End(t) => IsTag(t, EGROUP)
    case Plain(t, p, r) =>
      var d := Decode(t, W64);
      d.Good? && IsTag(t, d.value % 8) && IsPayload(p, d.value % 8) && WellFormed(r)
    case Nested(t, i, r) => IsTag(t, SGROUP) && WellFormed(i) && WellFormed(r)
  }

  lemma {:induction false} TagLocal(t: seq<byte>, rest: seq<byte>)
    requires Decode(t, W64).Good? && Decode(t, W64).consumed == |t|
    ensures Decode(t + rest, W64) == Decode(t, W64)
    ensures (t + rest)[|t|..] == rest
  {
    assert (t + rest)[..|t|] == t == t[..|t|];
    DecodeLocal(t, t + rest, W64);
  }

  /** A payload is skipped the same way whatever follows it. */
  lemma {:induction false} SkipPlainLocal(s: seq<byte>, t: seq<byte>, wt: nat)
    requires SkipPlain(s, wt).Ok?
    requires SkipPlain(s, wt).value <= |t|
    requires s[..SkipPlain(s, wt).value] == t[..SkipPlain(s, wt).value]
    ensures SkipPlain(t, wt) == SkipPlain(s, wt)
  {
    var n := SkipPlain(s, wt).value;
    if wt != FIXED32 && wt != FIXED64 {
      var m := Decode(s, W64).consumed;
      assert s[..m] == s[..n][..m] == t[..n][..m] == t[..m];
      DecodeLocal(s, t, W64);
    }
  }

  lemma {:induction false} StepEnd(t: seq<byte>, tail: seq<byte>, depth: nat)
    requires IsTag(t, EGROUP) && depth >= 1
    ensures SkipGroup(t + tail, depth) == Plus(|t|, SkipGroup(tail, depth - 1))
  {
    TagLocal(t, tail);
  }

  lemma {:induction false} StepNested(t: seq<byte>, tail: seq<byte>, depth: nat)
    requires IsTag(t, SGROUP) && 1 <= depth < TWO_32 - 1
    ensures SkipGroup(t + tail, depth) == Plus(|t|, SkipGroup(tail, depth + 1))
  {
    hide Decode, SkipPlain;
    TagLocal(t, tail);
    SmallMod(depth + 1, TWO_32);
  }

  lemma {:induction false} StepPlain(t: seq<byte>, p: seq<byte>, tail: seq<byte>, depth: nat, wt: nat)
    requires IsTag(t, wt) && IsPayload(p, wt) && depth >= 1
    ensures SkipGroup(t + (p + tail), depth) == Plus(|t| + |p|, SkipGroup(tail, depth))
  {
    hide Decode, SkipPlain, SkipGroup;
    GroupStep(t + (p + tail), depth);
    TagLocal(t, p + tail);
    assert (p + tail)[..|p|] == p == p[..|p|];
    SkipPlainLocal(p, p + tail, wt);
    assert (p + tail)[|p|..] == tail;
  }

  /** Every grammatical group is skipped to its end, whatever follows. */
  lemma {:induction false} GroupComplete(b: Body, rest: seq<byte>, depth: nat)
    requires WellFormed(b) && depth >= 1 && |Flat(b)| + depth < TWO_32
    ensures SkipGroup(Flat(b) + rest, depth) == Plus(|Flat(b)|, SkipGroup(rest, depth - 1))
    decreases b
  {
    hide Decode, SkipGroup, SkipPlain;
    match b
    case End(t) =>
      StepEnd(t, rest, depth);
    case Plain(t, p, r) =>
      var tail := Flat(r) + rest;
      assert Flat(b) + rest == t + (p + tail);
      StepPlain(t, p, tail, depth, Decode(t, W64).value % 8);
      GroupComplete(r, rest, depth);
    case Nested(t, i, r) =>
      var tail := Flat(r) + rest;
      assert Flat(b) + rest == t + (Flat(i) + tail);
      assert |t| >= 1;
      StepNested(t, Flat(i) + tail, depth);
      GroupComplete(i, tail, depth + 1);
      GroupComplete(r, rest, depth);
  }

  lemma {:induction false} HeadTag(s: seq<byte>)
    requires Decode(s, W64).Good?
    ensures var d := Decode(s, W64); IsTag(s[..d.consumed], d.value % 8) && Decode(s[..d.consumed], W64) == d
  {
    DecodeLocal(s, s[..Decode(s, W64).consumed], W64);
  }

  lemma {:induction false} HeadPayload(s: seq<byte>, wt: nat)
    requires wt < 6 && wt != SGROUP && wt != EGROUP && SkipPlain(s, wt).Ok?
    ensures IsPayload(s[..SkipPlain(s, wt).value], wt)
  {
    var p := s[..SkipPlain(s, wt).value];
    assert p[..|p|] == p;
    SkipPlainLocal(s, p, wt);
  }

  /** What is skipped is grammatical: the bytes up to the next end tag form a body. */
  lemma {:induction false} GroupSound(s: seq<byte>, depth: nat) returns (b: Body)
    requires depth >= 1 && |s| + depth < TWO_32 && SkipGroup(s, depth).Ok?
    ensures WellFormed(b) && |Flat(b)| <= |s| && Flat(b) == s[..|Flat(b)|]
    ensures SkipGroup(s[|Flat(b)|..], depth - 1).Ok?
    decreases |s|
  {
    hide Decode, SkipPlain;
    var d := Decode(s, W64);
    var n, wt := d.consumed, d.value % 8;
    var t := s[..n];
    HeadTag(s);
    hide SkipGroup;
    if wt == EGROUP {
      b := End(t);
    } else if wt == SGROUP {
      var i := GroupSound(s[n..], depth + 1);
      var r := GroupSound(s[n..][|Flat(i)|..], depth);
      b := Nested(t, i, r);
      Glue(s, t, Flat(i), Flat(r));
    } else {
      var k := SkipPlain(s[n..], wt).value;
      var p := s[n..][..k];
      HeadPayload(s[n..], wt);
      var r := GroupSound(s[n..][k..], depth);
      b := Plain(t, p, r);
      Glue(s, t, p, Flat(r));
    }
  }

  lemma {:induction false} Glue(s: seq<byte>, t: seq<byte>, p: seq<byte>, r: seq<byte>)
    requires |t| <= |s| && t == s[..|t|]
    requires |p| <= |s[|t|..]| && p == s[|t|..][..|p|]
    requires |r| <= |s[|t|..][|p|..]| && r == s[|t|..][|p|..][..|r|]
    ensures |t + p + r| <= |s| && t + p + r == s[..|t + p + r|]
    ensures s[|t + p + r|..] == s[|t|..][|p|..][|r|..]
  {
  }

  /** The first `n` bytes of `s` are a grammatical group body. */
  ghost predicate IsGroup(s: seq<byte>, n: nat) {
    n <= |s| && exists b :: WellFormed(b) && Flat(b) == s[..n]
  }

  /** On buffers where the counter cannot wrap, skipping is the grammar. */
  lemma {:induction false} GroupExact(s: seq<byte>, n: nat)
    requires |s| < TWO_32 - 1
    ensures Skip(s, SGROUP) == Ok(n) <==> IsGroup(s, n)
  {
    if Skip(s, SGROUP) == Ok(n) {
      var b := GroupSound(s, 1);
      GroupPrefix(s, b);
    }
    if IsGroup(s, n) {
      var b :| WellFormed(b) && Flat(b) == s[..n];
      GroupPrefix(s, b);
    }
  }

  lemma {:induction false} GroupPrefix(s: seq<byte>, b: Body)
    requires |s| < TWO_32 - 1 && WellFormed(b) && |Flat(b)| <= |s| && Flat(b) == s[..|Flat(b)|]
    ensures Skip(s, SGROUP) == Ok(|Flat(b)|)
  {
    hide Flat, WellFormed, SkipGroup, SkipPlain;
    var rest := s[|Flat(b)|..];
    assert s == Flat(b) + rest;
    GroupComplete(b, rest, 1);
    GroupDone(rest);
  }

  // Where the counter can wrap: nothing but start-group tags of field 1.

  predicate AllStarts(s: seq<byte>) {
    forall i :: 0 <= i < |s| ==> s[i] == 0x0B
  }

  lemma {:induction false} StartTag(s: seq<byte>)
    requires AllStarts(s) && s != []
    ensures Decode(s, W64) == Good(0x0B, 1)
  {
    OneByte(s, W64);
  }

  lemma {:induction false} CounterWraps(s: seq<byte>, depth: nat)
    requires AllStarts(s) && 1 <= depth < TWO_32 && |s| + depth >= TWO_32
    ensures SkipGroup(s, depth) == Ok(TWO_32 - depth)
    decreases TWO_32 - depth
  {
    hide Decode, SkipPlain, SkipGroup;
    StartTag(s);
    GroupStep(s, depth);
    if depth + 1 < TWO_32 {
      SmallMod(depth + 1, TWO_32);
      CounterWraps(s[1..], depth + 1);
    } else {
      GroupDone(s[1..]);
    }
  }

  lemma {:induction false} NoEndTag(b: Body)
    requires WellFormed(b)
    ensures !AllStarts(Flat(b))
    decreases b
  {
    match b
    case End(t) =>
      if AllStarts(t) {
        StartTag(t);
      }
    case Plain(t, p, r) => NoEndTag(r); NotAllStarts(t + p, Flat(r));
    case Nested(t, i, r) => NoEndTag(r); NotAllStarts(t + Flat(i), Flat(r));
  }

  lemma {:induction false} NotAllStarts(a: seq<byte>, b: seq<byte>)
    requires !AllStarts(b)
    ensures !AllStarts(a + b)
  {
    var i :| 0 <= i < |b| && b[i] != 0x0B;
    assert (a + b)[|a| + i] == b[i];
  }

  /** Skipping agrees with the grammar on every buffer of a length exactly when
      the length is too small for 2^32 - 1 start tags. */
  ghost predicate GrammarHoldsAt(len: nat) {
    forall s: seq<byte>, n: nat | |s| == len :: Skip(s, SGROUP) == Ok(n) <==> IsGroup(s, n)
  }

  lemma {:induction false} GroupLimit(len: nat)
    ensures GrammarHoldsAt(len) <==> len < TWO_32 - 1
  {
    if len < TWO_32 - 1 {
      forall s: seq<byte>, n: nat | |s| == len
        ensures Skip(s, SGROUP) == Ok(n) <==> IsGroup(s, n)
      {
        GroupExact(s, n);
      }
    } else {
      var s: seq<byte> := seq(len, _ => 0x0B);
      var n := TWO_32 - 1;
      CounterWraps(s, 1);
      assert AllStarts(s[..n]);
      if IsGroup(s, n) {
        var b :| WellFormed(b) && Flat(b) == s[..n];
        NoEndTag(b);
      }
      assert Skip(s, SGROUP) == Ok(n) && !IsGroup(s, n);
    }
  }
}
