// Where the cached offsets point: at the field's own records in the buffer.
module Layout {
  import opened Bits
  import opened Options
  import opened Varint
  import opened Wire
  import opened Scalars
  import opened Records
  import opened Schema
  import opened Cells
  import opened Scanning

  /** The bytes behind the length prefix of a length-delimited record. */
  function Payload(x: Rec): (b: seq<byte>)
    ensures |b| <= |x.body|
  {
    match DecodeBytes(x.body)
    case Ok(c) => c.bytes
    case Err(_) => []
  }

  lemma {:induction false} ParseHead(s: seq<byte>)
    requires Parse(s).Ok? && s != []
    ensures ParseRec(s).Ok?
    ensures var x := ParseRec(s).value;
            && Parse(s[x.Size()..]).Ok?
            && Parse(s).value == [x] + Parse(s[x.Size()..]).value
            && x.body == s[x.head..x.Size()]
            && Skip(x.body, x.tag % 8) == Ok(|x.body|)
  {
    hide Decode, Skip;
    var x := ParseRec(s).value;
    assert x.body == s[x.head..][..|x.body|];
    assert x.body[..|x.body|] == x.body;
    SkipLocal(s[x.head..], x.body, x.tag % 8);
  }

  lemma {:induction false} DelimitedWhole(x: Rec)
    requires x.tag % 8 == LEN && Skip(x.body, LEN) == Ok(|x.body|)
    ensures DecodeBytes(x.body).Ok? && DecodeBytes(x.body).value.consumed == |x.body|
  {
  }

  lemma {:induction false} ParseBodies(s: seq<byte>, i: nat)
    requires Parse(s).Ok? && i < |Parse(s).value|
    ensures var x := Parse(s).value[i];
            && Skip(x.body, x.tag % 8) == Ok(|x.body|)
            && (x.tag % 8 == LEN ==> DecodeBytes(x.body).Ok? && DecodeBytes(x.body).value.consumed == |x.body|)
    decreases |s|
  {
    hide Skip, DecodeBytes, ParseRec, Parse;
    if s != [] {
      ParseHead(s);
      var x := ParseRec(s).value;
      if i == 0 {
        if x.tag % 8 == LEN {
          DelimitedWhole(x);
        }
      } else {
        ParseBodies(s[x.Size()..], i - 1);
      }
    } else {
      NoRecords();
    }
  }

  lemma {:induction false} NoRecords()
    ensures Parse([]) == Ok([])
  {
  }

  // -------------------------------------------------------------- scalars

  /** What one record of a singular scalar holds, by the decoder of its field. */
  function ScalarIn(k: Kind, x: Rec): Result<Read> {
    ReadScalar(x.body, k, if k.UInt32? || k.SInt32? || k.Bool? then W32 else W64)
  }

  /** Every occurrence must decode; the last one's value is the field's. */
  lemma {:induction false} IntFold(f: Field, c: Cell, off: nat, rs: seq<Rec>)
    requires f.shape.Single? && c.IntCell?
    ensures var hits := Only(f, rs);
            && (FoldOne(f, c, off, rs).Ok? <==> forall i :: 0 <= i < |hits| ==> ScalarIn(f.shape.kind, hits[i]).Ok?)
            && (FoldOne(f, c, off, rs).Ok? ==>
                  FoldOne(f, c, off, rs).value ==
                  if hits == [] then c else IntCell(true, ScalarIn(f.shape.kind, hits[|hits| - 1]).value.value))
    decreases rs
  {
    hide Hits, FoldOne, Only, ReadScalar;
    if rs == [] {
      FoldOneEmpty(f, c, off);
      OnlyNone(f, rs);
    } else {
      var x := rs[0];
      FoldOneHead(f, c, off, rs);
      OnlyHead(f, rs);
      if Hits(f, x.tag) {
        var hits, rest := Only(f, rs), Only(f, rs[1..]);
        assert hits == [x] + rest;
        if ScalarIn(f.shape.kind, x).Ok? {
          IntFold(f, IntCell(true, ScalarIn(f.shape.kind, x).value.value), off + x.Size(), rs[1..]);
          assert forall i :: 0 <= i < |rest| ==> hits[i + 1] == rest[i];
        } else {
          assert hits[0] == x;
        }
      } else {
        IntFold(f, c, off + x.Size(), rs[1..]);
      }
    }
  }

  // ---------------------------------------------------------------- spans

  /** The cached span of a bytes or message field holds `payload`. */
  predicate SpanHolds(src: seq<byte>, c: Cell, payload: seq<byte>) {
    && c.SpanCell? && c.has && c.off + c.len <= |src|
    && src[c.off..c.off + c.len] == payload
  }

  /** The last occurrence wins. */
  lemma {:induction false} SpanFold(f: Field, c: Cell, src: seq<byte>, off: nat)
    requires (f.shape.Blob? || f.shape.Child?) && c.SpanCell? && off <= |src|
    requires Parse(src[off..]).Ok?
    ensures var rs := Parse(src[off..]).value;
            var hits := Only(f, rs);
            && FoldOne(f, c, off, rs).Ok?
            && var d := FoldOne(f, c, off, rs).value;
               if hits == [] then d == c else SpanHolds(src, d, Payload(hits[|hits| - 1]))
    decreases |src| - off
  {
    hide Skip, DecodeBytes, ParseRec, Parse, Hits, SpanHolds;
    var s := src[off..];
    if s == [] {
      NoRecords();
    } else {
      ParseHead(s);
      var x := ParseRec(s).value;
      var n := x.Size();
      assert s[n..] == src[off + n..];
      var rs := Parse(s).value;
      assert rs[1..] == Parse(src[off + n..]).value;
      if Hits(f, x.tag) {
        HitsLen(f, x.tag);
        DelimitedWhole(x);
        var arm := Arm(f, c, x.tag, off + x.head, x.head, x.body).value;
        SpanAt(src, off, x, arm.cell);
        SpanFold(f, arm.cell, src, off + n);
      } else {
        SpanFold(f, c, src, off + n);
      }
    }
  }

  lemma {:induction false} HitsLen(f: Field, tag: nat)
    requires Hits(f, tag) && !f.shape.Single? && !f.shape.Numbers?
    ensures tag % 8 == LEN
  {
  }

  lemma {:induction false} SpanAt(src: seq<byte>, off: nat, x: Rec, d: Cell)
    requires off + x.Size() <= |src| && x.body == src[off..][x.head..x.Size()]
    requires DecodeBytes(x.body).Ok?
    requires var y := DecodeBytes(x.body).value;
             d == SpanCell(true, off + x.head + y.consumed - |y.bytes|, |y.bytes|)
    ensures SpanHolds(src, d, Payload(x))
  {
    hide DecodeBytes;
    var y := DecodeBytes(x.body).value;
    var lo, hi := y.consumed - |y.bytes|, y.consumed;
    var base := off + x.head;
    assert x.body == src[base..off + x.Size()];
    assert y.bytes == x.body[lo..hi];
    SliceOfSlice(src, base, off + x.Size(), lo, hi);
  }

  // ----------------------------------------------------------------- lists

  /** At offset `at`, behind its tag, lies the first of `hits`; the rest of
      the buffer parses, and the other hits are what is left of the field. */
  predicate ListAt(f: Field, src: seq<byte>, at: nat, hits: seq<Rec>) {
    && hits != [] && at + |hits[0].body| <= |src|
    && src[at..at + |hits[0].body|] == hits[0].body
    && var rest := Parse(src[at + |hits[0].body|..]);
       rest.Ok? && Only(f, rest.value) == hits[1..]
  }

  lemma {:induction false} ListFoldCounted(f: Field, c: Cell, off: nat, rs: seq<Rec>)
    requires (f.shape.Blobs? || f.shape.Children? || f.shape.Table?) && c.ListCell? && c.count > 0
    requires forall i :: 0 <= i < |rs| ==> (rs[i].tag % 8 == LEN ==> DecodeBytes(rs[i].body).Ok?)
    ensures FoldOne(f, c, off, rs) == Ok(ListCell(c.has || Only(f, rs) != [], c.count + |Only(f, rs)|, c.first))
    decreases rs
  {
    hide DecodeBytes, Hits;
    if rs != [] {
      var x := rs[0];
      if Hits(f, x.tag) {
        HitsLen(f, x.tag);
        var d := Arm(f, c, x.tag, off + x.head, x.head, x.body).value.cell;
        ListFoldCounted(f, d, off + x.Size(), rs[1..]);
      } else {
        ListFoldCounted(f, c, off + x.Size(), rs[1..]);
      }
    }
  }

  lemma {:induction false} BodiesDecode(s: seq<byte>)
    requires Parse(s).Ok?
    ensures var rs := Parse(s).value;
            forall i :: 0 <= i < |rs| ==> (rs[i].tag % 8 == LEN ==> DecodeBytes(rs[i].body).Ok?)
  {
    hide *;
    var rs := Parse(s).value;
    forall i | 0 <= i < |rs| && rs[i].tag % 8 == LEN
      ensures DecodeBytes(rs[i].body).Ok?
    {
      ParseBodies(s, i);
    }
  }

  /** The record at the front of the buffer, and what is behind it. */
  lemma {:induction false} FrontRecord(src: seq<byte>, off: nat) returns (x: Rec)
    requires off < |src| && Parse(src[off..]).Ok?
    ensures 1 <= x.head && off + x.Size() <= |src| && x.body == src[off..][x.head..x.Size()]
    ensures Skip(x.body, x.tag % 8) == Ok(|x.body|)
    ensures Parse(src[off + x.Size()..]).Ok?
    ensures var rs := Parse(src[off..]).value;
            rs != [] && rs[0] == x && rs[1..] == Parse(src[off + x.Size()..]).value
  {
    hide Skip, ParseRec, Parse;
    var s := src[off..];
    ParseHead(s);
    x := ParseRec(s).value;
    assert s[x.Size()..] == src[off + x.Size()..];
  }

  /** A list's cell counts its records and points behind the first one's tag. */
  lemma {:induction false} ListFold(f: Field, src: seq<byte>, off: nat, c: Cell)
    requires f.shape.Blobs? || f.shape.Children? || f.shape.Table?
    requires off <= |src| && Parse(src[off..]).Ok? && c.ListCell? && c.count == 0
    ensures var rs := Parse(src[off..]).value;
            var hits := Only(f, rs);
            && FoldOne(f, c, off, rs).Ok?
            && var d := FoldOne(f, c, off, rs).value;
               d.ListCell? && d.count == |hits| && (hits != [] ==> ListAt(f, src, d.first, hits))
    decreases |src| - off
  {
    hide Skip, DecodeBytes, ParseRec, Parse, Hits, ListAt, FoldOne, Only, Arm;
    if off == |src| {
      assert src[off..] == [];
      NoRecords();
      OnlyNone(f, []);
      FoldOneEmpty(f, c, off);
    } else {
      var x := FrontRecord(src, off);
      var rs := Parse(src[off..]).value;
      FoldOneHead(f, c, off, rs);
      OnlyHead(f, rs);
      if Hits(f, x.tag) {
        HitsLen(f, x.tag);
        DelimitedWhole(x);
        ListArm(f, c, x, off + x.head);
        BodiesDecode(src[off + x.Size()..]);
        ListFoldCounted(f, ListCell(true, 1, off + x.head), off + x.Size(), rs[1..]);
        FirstOfList(f, src, off, x, Only(f, rs));
      } else {
        ListFold(f, src, off + x.Size(), c);
      }
    }
  }

  lemma {:induction false} ListArm(f: Field, c: Cell, x: Rec, at: nat)
    requires f.shape.Blobs? || f.shape.Children? || f.shape.Table?
    requires c.ListCell? && c.count == 0 && Hits(f, x.tag) && x.head <= at
    requires DecodeBytes(x.body).Ok? && DecodeBytes(x.body).value.consumed == |x.body|
    ensures Arm(f, c, x.tag, at, x.head, x.body) == Ok(Hit(ListCell(true, 1, at), |x.body|))
  {
    hide DecodeBytes;
  }

  lemma {:induction false} FirstOfList(f: Field, src: seq<byte>, off: nat, x: Rec, hits: seq<Rec>)
    requires off + x.Size() <= |src| && x.body == src[off..][x.head..x.Size()]
    requires Parse(src[off + x.Size()..]).Ok?
    requires hits == [x] + Only(f, Parse(src[off + x.Size()..]).value)
    ensures ListAt(f, src, off + x.head, hits)
  {
    hide Parse, Only;
    assert src[off + x.head..off + x.Size()] == x.body;
    assert hits[1..] == Only(f, Parse(src[off + x.Size()..]).value);
  }

  // --------------------------------------------------------------- numbers

  /** How many elements one occurrence of a repeated scalar adds. */
  function Weight(f: Field, x: Rec): nat
    requires f.shape.Numbers?
  {
    if x.tag == Tag(f.number, LEN) then BlockCount(f.shape.kind, Payload(x)) else 1
  }

  /** From the first occurrence that adds elements on. */
  function Heavy(f: Field, hits: seq<Rec>): (h: seq<Rec>)
    requires f.shape.Numbers?
    ensures |h| <= |hits| && h == hits[|hits| - |h|..]
    ensures h != [] ==> Weight(f, h[0]) > 0
  {
    if hits == [] || Weight(f, hits[0]) > 0 then hits else Heavy(f, hits[1..])
  }

  lemma {:induction false} PackArm(f: Field, c: Cell, x: Rec, at: nat)
    requires f.shape.Numbers? && c.PackCell? && Hits(f, x.tag) && x.head <= at
    requires Skip(x.body, x.tag % 8) == Ok(|x.body|)
    ensures var packed := x.tag == Tag(f.number, LEN);
            Arm(f, c, x.tag, at, x.head, x.body) ==
            if c.count > 0 && c.packed != packed then Err(InvalidWireType)
            else Ok(Hit(PackCell(true, c.count + Weight(f, x),
                                 if c.count == 0 then at - x.head else c.first,
                                 c.packed || (c.count == 0 && packed)),
                        |x.body|))
  {
    hide Decode, BlockCount;
    if x.tag == Tag(f.number, LEN) {
      DelimitedWhole(x);
    }
  }

  lemma {:induction false} PackFoldCounted(f: Field, c: Cell, off: nat, rs: seq<Rec>)
    requires f.shape.Numbers? && c.PackCell? && c.count > 0
    requires FoldOne(f, c, off, rs).Ok?
    requires forall i :: 0 <= i < |rs| ==> Skip(rs[i].body, rs[i].tag % 8) == Ok(|rs[i].body|)
    ensures var d := FoldOne(f, c, off, rs).value;
            d.count >= c.count && d.first == c.first && d.packed == c.packed
    decreases rs
  {
    hide Arm, Hits, Skip;
    if rs != [] {
      var x := rs[0];
      if Hits(f, x.tag) {
        PackArm(f, c, x, off + x.head);
        var d := Arm(f, c, x.tag, off + x.head, x.head, x.body).value.cell;
        PackFoldCounted(f, d, off + x.Size(), rs[1..]);
      } else {
        PackFoldCounted(f, c, off + x.Size(), rs[1..]);
      }
    }
  }

  lemma {:induction false} BodiesSkip(s: seq<byte>)
    requires Parse(s).Ok?
    ensures var rs := Parse(s).value;
            forall i :: 0 <= i < |rs| ==> Skip(rs[i].body, rs[i].tag % 8) == Ok(|rs[i].body|)
  {
    hide *;
    var rs := Parse(s).value;
    forall i | 0 <= i < |rs|
      ensures Skip(rs[i].body, rs[i].tag % 8) == Ok(|rs[i].body|)
    {
      ParseBodies(s, i);
    }
  }

  /** Records from `at` on, of which the field's own are `hits`. */
  predicate RecordsAt(f: Field, src: seq<byte>, at: nat, hits: seq<Rec>) {
    && at <= |src| && Parse(src[at..]).Ok?
    && Only(f, Parse(src[at..]).value) == hits
  }

  /** A repeated scalar's offset is where its elements start: weightless
      occurrences in front of them are passed over. */
  lemma {:induction false} PackFold(f: Field, src: seq<byte>, off: nat, c: Cell)
    requires f.shape.Numbers? && c.PackCell? && c.count == 0
    requires off <= |src| && Parse(src[off..]).Ok? && FoldOne(f, c, off, Parse(src[off..]).value).Ok?
    ensures var rs := Parse(src[off..]).value;
            var d := FoldOne(f, c, off, rs).value;
            && (d.count > 0 <==> Heavy(f, Only(f, rs)) != [])
            && (d.count > 0 ==> RecordsAt(f, src, d.first, Heavy(f, Only(f, rs))))
    decreases |src| - off
  {
    hide Skip, ParseRec, Parse, Hits, RecordsAt, Arm, Weight, FoldOne, Only;
    if off == |src| {
      assert src[off..] == [];
      NoRecords();
      OnlyNone(f, []);
      FoldOneEmpty(f, c, off);
    } else {
      var x := FrontRecord(src, off);
      var rs := Parse(src[off..]).value;
      FoldOneHead(f, c, off, rs);
      OnlyHead(f, rs);
      if Hits(f, x.tag) {
        PackArm(f, c, x, off + x.head);
        var d := Arm(f, c, x.tag, off + x.head, x.head, x.body).value.cell;
        if d.count > 0 {
          BodiesSkip(src[off + x.Size()..]);
          PackFoldCounted(f, d, off + x.Size(), rs[1..]);
          AllFrom(f, src, off);
        } else {
          PackFold(f, src, off + x.Size(), d);
        }
      } else {
        PackFold(f, src, off + x.Size(), c);
      }
    }
  }

  lemma {:induction false} AllFrom(f: Field, src: seq<byte>, off: nat)
    requires off <= |src| && Parse(src[off..]).Ok?
    ensures RecordsAt(f, src, off, Only(f, Parse(src[off..]).value))
  {
  }
}
