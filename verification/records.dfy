// The flat view of a message on the wire: a run of tagged records.
module Records {
  import opened Bits
  import opened Varint
  import opened Wire

  /** A tag, the length of its encoding, and the raw payload behind it. */
  datatype Rec = Rec(tag: nat, head: nat, body: seq<byte>) {
    function Size(): nat { head + |body| }
  }

  /** The record `s` starts with: tag in five bytes, known wire type, nonzero field. */
  function ParseRec(s: seq<byte>): (r: Result<Rec>)
    ensures r.Ok? ==>
              var x := r.value;
              && 1 <= x.head && x.Size() <= |s|
              && x.body == s[x.head..x.Size()]
  {
    match Decode(s, W32)
    case Bad(e) => Err(e)
    case Good(tag, n) =>
      if tag % 8 >= 6 then Err(InvalidWireType)
      else if tag / 8 == 0 then Err(InvalidFieldNum)
      else
        match Skip(s[n..], tag % 8)
        case Err(e) => Err(e)
        case Ok(k) => Ok(Rec(tag, n, s[n..n + k]))
  }

  /** All of `s` as records, or the first error. */
  function Parse(s: seq<byte>): (r: Result<seq<Rec>>)
    decreases |s|
  {
    if s == [] then Ok([])
    else
      match ParseRec(s)
      case Err(e) => Err(e)
      case Ok(x) =>
        match Parse(s[x.Size()..])
        case Err(e) => Err(e)
        case Ok(rest) => Ok([x] + rest)
  }

  lemma {:induction false} SkipGroupLocal(s: seq<byte>, t: seq<byte>, depth: nat)
    requires SkipGroup(s, depth).Ok? && SkipGroup(s, depth).value <= |t|
    requires s[..SkipGroup(s, depth).value] == t[..SkipGroup(s, depth).value]
    ensures SkipGroup(t, depth) == SkipGroup(s, depth)
    decreases |s|
  {
    hide Decode, SkipPlain, SkipGroup;
    if depth == 0 {
      GroupDone(s);
      GroupDone(t);
    } else {
      GroupStep(s, depth);
      GroupStep(t, depth);
      var d := Decode(s, W64);
      var total := SkipGroup(s, depth).value;
      var n, wt := d.consumed, d.value % 8;
      PrefixTail(s, t, total, n);
      DecodeLocal(s, t, W64);
      if wt == SGROUP {
        SkipGroupLocal(s[n..], t[n..], (depth + 1) % TWO_32);
      } else if wt == EGROUP {
        SkipGroupLocal(s[n..], t[n..], depth - 1);
      } else {
        var k := SkipPlain(s[n..], wt).value;
        PrefixTail(s[n..], t[n..], total - n, k);
        SkipPlainLocal(s[n..], t[n..], wt);
        SkipGroupLocal(s[n..][k..], t[n..][k..], depth);
      }
    }
  }

  /** Equal first `total` bytes: equal first `n`, and equal after them. */
  lemma {:induction false} PrefixTail(s: seq<byte>, t: seq<byte>, total: nat, n: nat)
    requires n <= total <= |s| && total <= |t| && s[..total] == t[..total]
    ensures s[..n] == t[..n] && s[n..][..total - n] == t[n..][..total - n]
  {
    assert s[..n] == s[..total][..n];
    assert t[..n] == t[..total][..n];
    assert s[n..][..total - n] == s[..total][n..];
    assert t[n..][..total - n] == t[..total][n..];
  }

  lemma {:induction false} SkipLocal(s: seq<byte>, t: seq<byte>, wt: nat)
    requires Skip(s, wt).Ok? && Skip(s, wt).value <= |t|
    requires s[..Skip(s, wt).value] == t[..Skip(s, wt).value]
    ensures Skip(t, wt) == Skip(s, wt)
  {
    if wt == SGROUP {
      SkipGroupLocal(s, t, 1);
    } else {
      SkipPlainLocal(s, t, wt);
    }
  }

  /** A record is parsed the same way whatever follows it. */
  lemma {:induction false} ParseRecLocal(s: seq<byte>, t: seq<byte>)
    requires ParseRec(s).Ok? && ParseRec(s).value.Size() <= |t|
    requires s[..ParseRec(s).value.Size()] == t[..ParseRec(s).value.Size()]
    ensures ParseRec(t) == ParseRec(s)
  {
    hide Decode, Skip;
    var x := ParseRec(s).value;
    PrefixTail(s, t, x.Size(), x.head);
    DecodeLocal(s, t, W32);
    SkipLocal(s[x.head..], t[x.head..], x.tag % 8);
    assert s[x.head..x.Size()] == s[x.head..][..|x.body|];
    assert t[x.head..x.Size()] == t[x.head..][..|x.body|];
  }

  function Join(a: seq<Rec>, r: Result<seq<Rec>>): Result<seq<Rec>> {
    if r.Ok? then Ok(a + r.value) else r
  }

  /** Records are concatenated where their bytes are. */
  lemma {:induction false} ParseAppend(a: seq<byte>, b: seq<byte>)
    requires Parse(a).Ok?
    ensures Parse(a + b) == Join(Parse(a).value, Parse(b))
    decreases |a|
  {
    hide ParseRec;
    if a == [] {
      assert a + b == b;
      if Parse(b).Ok? {
        assert [] + Parse(b).value == Parse(b).value;
      }
    } else {
      var x := ParseRec(a).value;
      var n := x.Size();
      assert (a + b)[..n] == a[..n];
      ParseRecLocal(a, a + b);
      assert (a + b)[n..] == a[n..] + b;
      ParseAppend(a[n..], b);
      if Parse(b).Ok? {
        var rest, more := Parse(a[n..]).value, Parse(b).value;
        assert [x] + (rest + more) == ([x] + rest) + more;
      }
    }
  }

  lemma {:induction false} ParseShorter(s: seq<byte>, i: nat)
    requires Parse(s).Ok? && i < |Parse(s).value|
    ensures Parse(s).value[i].Size() <= |s| && Parse(s).value[i].head >= 1
    decreases |s|
  {
    hide ParseRec;
    var n := ParseRec(s).value.Size();
    if i > 0 {
      ParseShorter(s[n..], i - 1);
    }
  }

  // ------------------------------------------------------------- one record

  /** A usable tag: a field number in range and a wire type outside groups. */
  predicate GoodTag(tag: nat) {
    1 <= tag / 8 < 0x2000_0000 && (tag % 8 <= 2 || tag % 8 == 5)
  }

  /** The canonical record of a tag and a complete payload. */
  function Canonical(tag: nat, body: seq<byte>): Rec {
    Rec(tag, |Bytes(tag)|, body)
  }

  /** A tag and a payload the skipper takes whole. */
  lemma {:induction false} ParseTagged(tag: nat, body: seq<byte>)
    requires 8 <= tag < TWO_32 && tag % 8 < 6 && Skip(body, tag % 8) == Ok(|body|)
    ensures Parse(Bytes(tag) + body) == Ok([Canonical(tag, body)])
  {
    var s := Bytes(tag) + body;
    hide Decode, Bytes, Skip;
    DecodeEncoded(tag, body, W32);
    assert s[|Bytes(tag)|..] == body;
    assert s[|Bytes(tag)|..|s|] == body;
    assert ParseRec(s) == Ok(Canonical(tag, body));
    assert s[|s|..] == [];
    assert [Canonical(tag, body)] + [] == [Canonical(tag, body)];
  }

  lemma {:induction false} ParseCanonical(tag: nat, body: seq<byte>)
    requires GoodTag(tag) && IsPayload(body, tag % 8)
    ensures Parse(Bytes(tag) + body) == Ok([Canonical(tag, body)])
  {
    ParseTagged(tag, body);
  }
}
