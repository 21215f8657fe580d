// Reading back what was encoded gives the message, for every schema.
module RoundTrip {
  import opened Bits
  import opened Options
  import opened Varint
  import opened Wire
  import opened Scalars
  import opened Records
  import opened Schema
  import opened Cells
  import opened Scanning
  import opened Layout
  import opened Eager
  import opened Bridge
  import opened Iterators

  // ----------------------------------------------------- what comes back

  /** The message every field of which is absent. */
  function Blank(sch: Schema, ty: nat): Tree
    requires ty < |sch|
  {
    Tree(seq(|sch[ty]|, i requires 0 <= i < |sch[ty]| => Absent(sch[ty][i].shape)))
  }

  function Absent(shape: Shape): Val<Tree> {
    match shape
    case Single(_, d) => IntV(d)
    case Blob(d) => BlobV(d)
    case Child(_) => ChildV(None)
    case Numbers(_, _) => IntsV([])
    case Blobs => BlobsV([])
    case Children(_) => ChildrenV([])
    case Table(_, _) => TableV([])
  }

  /** The message itself, but for missing list and map children: they come
      back as blank messages, having kept their place on the wire. */
  function Normal(sch: Schema, ty: nat, t: Tree): Tree
    requires SchemaOk(sch) && Typed(sch, ty, t)
    decreases t
  {
    Tree(seq(|t.vals|, i requires 0 <= i < |t.vals| => NormalVal(sch, sch[ty][i].shape, t.vals[i])))
  }

  predicate ShapeOk(sch: Schema, shape: Shape) {
    FieldOk(sch, Field(1, shape))
  }

  function NormalVal(sch: Schema, shape: Shape, v: Val<Tree>): Val<Tree>
    requires SchemaOk(sch) && ShapeOk(sch, shape) && Fits(sch, shape, v)
    decreases v
  {
    match v
    case ChildV(c) => if c.Some? then ChildV(Some(Normal(sch, shape.ty, c.value))) else v
    case ChildrenV(cs) =>
      ChildrenV(seq(|cs|, i requires 0 <= i < |cs| => Some(NormalOrBlank(sch, shape.ty, cs[i]))))
    case TableV(es) =>
      TableV(seq(|es|, i requires 0 <= i < |es| =>
        Entry(es[i].key, NormalSlot(sch, shape.val, es[i].val))))
    case _ => v
  }

  function NormalOrBlank(sch: Schema, ty: nat, c: Option<Tree>): Tree
    requires SchemaOk(sch) && ty < |sch| && (c.Some? ==> Typed(sch, ty, c.value))
    decreases c
  {
    if c.Some? then Normal(sch, ty, c.value) else Blank(sch, ty)
  }

  function NormalSlot(sch: Schema, slot: Slot, v: SlotV<Tree>): SlotV<Tree>
    requires SchemaOk(sch) && SlotOk(sch, slot) && SlotFits(sch, slot, v)
    decreases v
  {
    if slot.MessageSlot? then MessageS(Some(NormalOrBlank(sch, slot.ty, v.msg))) else v
  }

  // ---------------------------------------------------------- one payload

  lemma {:induction false} TagIsGood(number: nat, wt: nat)
    requires 1 <= number < 0x2000_0000 && (wt <= 2 || wt == 5)
    ensures GoodTag(Tag(number, wt)) && Tag(number, wt) % 8 == wt && Tag(number, wt) / 8 == number
  {
  }

  lemma {:induction false} PrefixedIsPayload(b: seq<byte>)
    requires |b| < TWO_64
    ensures IsPayload(Prefixed(b), LEN)
    ensures DecodeBytes(Prefixed(b)) == Ok(Chunk(b, |Prefixed(b)|))
  {
    hide Bytes, Decode;
    DecodePrefixed(b, []);
    assert Prefixed(b) + [] == Prefixed(b);
  }

  /** The bytes of a scalar decode to it, whatever follows. */
  lemma {:induction false} ScalarRoundTrip(k: Kind, v: int, rest: seq<byte>, w: Word)
    requires InRange(k, v) && (w.W32? ==> k.Narrow())
    ensures ReadScalar(ScalarBytes(k, v) + rest, k, w) == Ok(Read(v, |ScalarBytes(k, v)|))
    ensures ScalarBytes(k, v) != []
  {
    hide Bytes, Decode, ToWire, FromWire, LittleEndian, DecodeWord, InRange;
    WireRoundTrip(k, v);
    var raw, b := ToWire(k, v), ScalarBytes(k, v);
    if k.WireType() == VARINT {
      DecodeEncoded(raw, rest, w);
    } else {
      WordReads(raw, if k.WireType() == FIXED32 then 4 else 8, rest);
    }
  }

  lemma {:induction false} WordReads(raw: nat, n: nat, rest: seq<byte>)
    requires (n == 4 && raw < TWO_32) || (n == 8 && raw < TWO_64)
    ensures DecodeWord(LittleEndian(raw, n) + rest, n) == Ok(raw) && |LittleEndian(raw, n)| == n
  {
    hide LittleEndian, WordValue, Pow2;
    Pow2Values();
    WordRoundTrip(raw, n);
    assert (LittleEndian(raw, n) + rest)[..n] == LittleEndian(raw, n);
  }

  lemma {:induction false} ScalarIsPayload(k: Kind, v: int)
    requires InRange(k, v)
    ensures IsPayload(ScalarBytes(k, v), k.WireType())
    ensures ReadScalar(ScalarBytes(k, v), k, FieldWord(k)) == Ok(Read(v, |ScalarBytes(k, v)|))
    ensures ReadScalar(ScalarBytes(k, v), k, W64) == Ok(Read(v, |ScalarBytes(k, v)|))
  {
    hide ReadScalar, SkipPlain, ScalarBytes, InRange;
    var b := ScalarBytes(k, v);
    assert b + [] == b;
    ScalarRoundTrip(k, v, [], FieldWord(k));
    ScalarRoundTrip(k, v, [], W64);
    ReadScalarSkips(b, k, W64);
  }

  function ScalarRec(number: nat, k: Kind, v: int): Rec {
    Canonical(Tag(number, k.WireType()), ScalarBytes(k, v))
  }

  function BlobRec(number: nat, b: seq<byte>): Rec {
    Canonical(Tag(number, LEN), Prefixed(b))
  }

  lemma {:induction false} ParseScalar(number: nat, k: Kind, v: int)
    requires 1 <= number < 0x2000_0000 && InRange(k, v)
    ensures Parse(Scalar(number, k, v)) == Ok([ScalarRec(number, k, v)])
  {
    hide Parse, ScalarBytes, SkipPlain, InRange;
    TagIsGood(number, k.WireType());
    ScalarIsPayload(k, v);
    ParseCanonical(Tag(number, k.WireType()), ScalarBytes(k, v));
  }

  lemma {:induction false} ParseBlob(number: nat, b: seq<byte>)
    requires 1 <= number < 0x2000_0000 && |b| < TWO_64
    ensures Parse(Delimited(number, b)) == Ok([BlobRec(number, b)])
    ensures Payload(BlobRec(number, b)) == b
  {
    hide Parse, Prefixed, SkipPlain, DecodeBytes;
    TagIsGood(number, LEN);
    PrefixedIsPayload(b);
    ParseCanonical(Tag(number, LEN), Prefixed(b));
  }

  // ---------------------------------------------------------------- lists

  function BlobRecs(number: nat, bs: seq<seq<byte>>, n: nat): (rs: seq<Rec>)
    requires n <= |bs|
    ensures |rs| == n
    ensures forall i :: 0 <= i < n ==> rs[i] == BlobRec(number, bs[i])
  {
    if n == 0 then [] else BlobRecs(number, bs, n - 1) + [BlobRec(number, bs[n - 1])]
  }

  predicate Bounded(bs: seq<seq<byte>>) {
    forall i :: 0 <= i < |bs| ==> |bs[i]| < TWO_64
  }

  lemma {:induction false} ParseBlobs(number: nat, bs: seq<seq<byte>>, n: nat)
    requires 1 <= number < 0x2000_0000 && Bounded(bs) && n <= |bs|
    ensures Parse(EncodeBlobs(number, bs, n)) == Ok(BlobRecs(number, bs, n))
  {
    hide Parse, Delimited, BlobRec;
    if n == 0 {
      NoRecords();
    } else {
      ParseBlobs(number, bs, n - 1);
      ParseBlob(number, bs[n - 1]);
      ParseAppend(EncodeBlobs(number, bs, n - 1), Delimited(number, bs[n - 1]));
    }
  }

  lemma {:induction false} BlobsLength(number: nat, bs: seq<seq<byte>>, n: nat, i: nat)
    requires i < n <= |bs|
    ensures |bs[i]| < |EncodeBlobs(number, bs, n)|
    decreases n
  {
    hide Bytes;
    if i < n - 1 {
      BlobsLength(number, bs, n - 1, i);
    }
  }

  /** The payloads of repeated messages and of map entries. */
  function ChildBytes(sch: Schema, ty: nat, cs: seq<Option<Tree>>): (bs: seq<seq<byte>>)
    ensures |bs| == |cs|
    ensures forall i :: 0 <= i < |cs| ==> bs[i] == EncodeOrEmpty(sch, ty, cs[i])
  {
    seq(|cs|, i requires 0 <= i < |cs| => EncodeOrEmpty(sch, ty, cs[i]))
  }

  function EntryBytes(sch: Schema, key: Slot, val: Slot, es: seq<Entry<Tree>>): (bs: seq<seq<byte>>)
    ensures |bs| == |es|
    ensures forall i :: 0 <= i < |es| ==> bs[i] == EncodeEntry(sch, key, val, es[i])
  {
    seq(|es|, i requires 0 <= i < |es| => EncodeEntry(sch, key, val, es[i]))
  }

  lemma {:induction false} ChildrenAreBlobs(sch: Schema, number: nat, ty: nat, cs: seq<Option<Tree>>, n: nat)
    requires n <= |cs|
    ensures EncodeChildren(sch, number, ty, cs, n) == EncodeBlobs(number, ChildBytes(sch, ty, cs), n)
  {
    hide Delimited, EncodeOrEmpty;
    if n > 0 {
      ChildrenAreBlobs(sch, number, ty, cs, n - 1);
    }
  }

  lemma {:induction false} TableIsBlobs(sch: Schema, number: nat, key: Slot, val: Slot, es: seq<Entry<Tree>>, n: nat)
    requires n <= |es|
    ensures EncodeTable(sch, number, key, val, es, n) == EncodeBlobs(number, EntryBytes(sch, key, val, es), n)
  {
    hide Delimited, EncodeEntry;
    if n > 0 {
      TableIsBlobs(sch, number, key, val, es, n - 1);
    }
  }

  lemma {:induction false} BoundedBlobs(number: nat, bs: seq<seq<byte>>)
    requires |EncodeBlobs(number, bs, |bs|)| < TWO_64
    ensures Bounded(bs)
  {
    forall i | 0 <= i < |bs|
      ensures |bs[i]| < TWO_64
    {
      BlobsLength(number, bs, |bs|, i);
    }
  }

  /** The records of one list field: all its own, accepted, with their payloads. */
  lemma {:induction false} ListRecords(f: Field, bs: seq<seq<byte>>)
    requires IsList(f) && 1 <= f.number < 0x2000_0000
    requires |EncodeBlobs(f.number, bs, |bs|)| < TWO_64
    ensures var s := EncodeBlobs(f.number, bs, |bs|);
            && Parse(s).Ok? && Only(f, Parse(s).value) == Parse(s).value
            && Summary(f, Parse(s).value).Ok? && Payloads(Parse(s).value) == bs
  {
    hide Parse, FoldOne, Only, EncodeBlobs, SameContent, ListAt;
    var s := EncodeBlobs(f.number, bs, |bs|);
    BoundedBlobs(f.number, bs);
    ParseBlobs(f.number, bs, |bs|);
    var rs := BlobRecs(f.number, bs, |bs|);
    assert forall i :: 0 <= i < |rs| ==> Hits(f, rs[i].tag);
    OnlyAll(f, rs);
    assert s[0..] == s;
    ListFold(f, s, 0, Fresh(f.shape));
    CellSummary(f, s);
    forall i | 0 <= i < |bs|
      ensures Payload(rs[i]) == bs[i]
    {
      ParseBlob(f.number, bs[i]);
    }
  }

  // --------------------------------------------------------------- numbers

  function ScalarRecs(number: nat, k: Kind, xs: seq<int>, n: nat): (rs: seq<Rec>)
    requires n <= |xs|
    ensures |rs| == n
    ensures forall i :: 0 <= i < n ==> rs[i] == ScalarRec(number, k, xs[i])
  {
    if n == 0 then [] else ScalarRecs(number, k, xs, n - 1) + [ScalarRec(number, k, xs[n - 1])]
  }

  predicate AllInRange(k: Kind, xs: seq<int>) {
    forall i :: 0 <= i < |xs| ==> InRange(k, xs[i])
  }

  lemma {:induction false} ParseExpanded(number: nat, k: Kind, xs: seq<int>, n: nat)
    requires 1 <= number < 0x2000_0000 && AllInRange(k, xs) && n <= |xs|
    ensures Parse(EncodeExpanded(number, k, xs, n)) == Ok(ScalarRecs(number, k, xs, n))
  {
    hide Parse, Scalar, ScalarRec, InRange;
    if n == 0 {
      NoRecords();
    } else {
      ParseExpanded(number, k, xs, n - 1);
      ParseScalar(number, k, xs[n - 1]);
      ParseAppend(EncodeExpanded(number, k, xs, n - 1), Scalar(number, k, xs[n - 1]));
    }
  }

  /** Expanded occurrences are counted one by one, and never marked packed. */
  lemma {:induction false} ExpandedFold(f: Field, c: Cell, off: nat, hits: seq<Rec>)
    requires f.shape.Numbers? && c.PackCell? && !c.packed && AllExpanded(f, hits)
    requires forall i :: 0 <= i < |hits| ==> Skip(hits[i].body, hits[i].tag % 8) == Ok(|hits[i].body|)
    ensures FoldOne(f, c, off, hits).Ok?
    ensures var d := FoldOne(f, c, off, hits).value; d.PackCell? && d.count == c.count + |hits| && !d.packed
    decreases hits
  {
    hide Arm, Skip, FoldOne;
    if hits == [] {
      FoldOneEmpty(f, c, off);
    } else {
      var x := hits[0];
      FoldOneHead(f, c, off, hits);
      PackArm(f, c, x, off + x.head);
      ExpandedFold(f, Arm(f, c, x.tag, off + x.head, x.head, x.body).value.cell, off + x.Size(), hits[1..]);
    }
  }

  lemma {:induction false} ReadExpandedBack(f: Field, xs: seq<int>)
    requires f.shape.Numbers? && AllInRange(f.shape.kind, xs)
    ensures var rs := ScalarRecs(f.number, f.shape.kind, xs, |xs|);
            && (forall i :: 0 <= i < |rs| ==> Hits(f, rs[i].tag))
            && ReadNumbers(f, rs) == Some(xs) && Summary(f, rs).Ok?
  {
    hide FoldOne, ScalarBytes, SkipPlain, ReadScalar, InRange, ScalarRecs;
    var k := f.shape.kind;
    var rs := ScalarRecs(f.number, k, xs, |xs|);
    forall i | 0 <= i < |rs|
      ensures Skip(rs[i].body, rs[i].tag % 8) == Ok(|rs[i].body|) && Element(k, rs[i]) == xs[i]
      ensures rs[i].tag == Tag(f.number, k.WireType())
    {
      ScalarIsPayload(k, xs[i]);
    }
    ExpandedFold(f, Fresh(f.shape), 0, rs);
    assert Elements(k, rs) == xs;
  }

  lemma {:induction false} TerminatorsAppend(a: seq<byte>, b: seq<byte>)
    ensures Terminators(a + b) == Terminators(a) + Terminators(b)
    decreases |b|
  {
    if b == [] {
      assert a + b == a;
    } else {
      var n := |b| - 1;
      assert (a + b)[..|a + b| - 1] == a + b[..n];
      TerminatorsAppend(a, b[..n]);
    }
  }

  lemma {:induction false} OneTerminator(v: nat)
    ensures Terminators(Bytes(v)) == 1
  {
    if v < 128 {
      assert Bytes(v)[..0] == [];
    } else {
      OneTerminator(v / 128);
      TerminatorsAppend([128 + v % 128], Bytes(v / 128));
      assert [128 + v % 128][..0] == [];
    }
  }

  lemma {:induction false} CountElements(k: Kind, xs: seq<int>, n: nat)
    requires n <= |xs| && AllInRange(k, xs)
    ensures BlockCount(k, EncodeElements(k, xs, n)) == n
    ensures k.WireType() == FIXED32 ==> |EncodeElements(k, xs, n)| == 4 * n
    ensures k.WireType() == FIXED64 ==> |EncodeElements(k, xs, n)| == 8 * n
  {
    hide InRange, ToWire, Bytes, LittleEndian;
    if n > 0 {
      CountElements(k, xs, n - 1);
      if k.WireType() == VARINT {
        OneTerminator(ToWire(k, xs[n - 1]));
        TerminatorsAppend(EncodeElements(k, xs, n - 1), ScalarBytes(k, xs[n - 1]));
      }
    }
  }

  lemma {:induction false} ElementsFront(k: Kind, xs: seq<int>, n: nat)
    requires 1 <= n <= |xs|
    ensures EncodeElements(k, xs, n) == ScalarBytes(k, xs[0]) + EncodeElements(k, xs[1..], n - 1)
  {
    hide ScalarBytes;
    var e0 := ScalarBytes(k, xs[0]);
    if n == 1 {
      assert [] + e0 == e0 + [];
    } else {
      ElementsFront(k, xs, n - 1);
      var mid, last := EncodeElements(k, xs[1..], n - 2), ScalarBytes(k, xs[n - 1]);
      assert (e0 + mid) + last == e0 + (mid + last);
    }
  }

  lemma {:induction false} ReadElementsBack(k: Kind, xs: seq<int>)
    requires AllInRange(k, xs)
    ensures ReadBlocks(k, EncodeElements(k, xs, |xs|), [], |xs|) == Some(xs)
  {
    hide ScalarBytes, ReadScalar, InRange, ReadBlocks;
    var s := EncodeElements(k, xs, |xs|);
    if xs == [] {
      ReadBlocksDone(k, s, []);
    } else {
      var rest := EncodeElements(k, xs[1..], |xs| - 1);
      ElementsFront(k, xs, |xs|);
      ScalarRoundTrip(k, xs[0], rest, W64);
      ReadBlocksStep(k, s, [], |xs|);
      assert s[|ScalarBytes(k, xs[0])|..] == rest;
      ReadElementsBack(k, xs[1..]);
      assert [xs[0]] + xs[1..] == xs;
    }
  }

  /** One packed record of whole elements: its cell and its payload. */
  lemma {:induction false} PackedSummary(f: Field, xs: seq<int>)
    requires f.shape.Numbers? && AllInRange(f.shape.kind, xs) && 1 <= f.number < 0x2000_0000
    requires |EncodeElements(f.shape.kind, xs, |xs|)| < TWO_64
    ensures var x := BlobRec(f.number, EncodeElements(f.shape.kind, xs, |xs|));
            && Hits(f, x.tag) && x.tag == Tag(f.number, LEN)
            && Summary(f, [x]) == Ok(PackCell(true, |xs|, 0, true))
            && Payload(x) == EncodeElements(f.shape.kind, xs, |xs|) && Weight(f, x) == |xs|
  {
    hide FoldOne, SkipPlain, EncodeElements, BlockCount, InRange, Arm;
    var k := f.shape.kind;
    var block := EncodeElements(k, xs, |xs|);
    var x := BlobRec(f.number, block);
    PackedHits(f);
    TagIsGood(f.number, LEN);
    PrefixedIsPayload(block);
    CountElements(k, xs, |xs|);
    PackArm(f, Fresh(f.shape), x, x.head);
    FoldOneHead(f, Fresh(f.shape), 0, [x]);
    FoldOneEmpty(f, PackCell(true, |xs|, 0, true), x.Size());
    assert [x][1..] == [];
  }

  lemma {:induction false} ReadPackedBack(f: Field, xs: seq<int>)
    requires f.shape.Numbers? && AllInRange(f.shape.kind, xs) && xs != [] && 1 <= f.number < 0x2000_0000
    requires |EncodeElements(f.shape.kind, xs, |xs|)| < TWO_64
    ensures var rs := [BlobRec(f.number, EncodeElements(f.shape.kind, xs, |xs|))];
            && Hits(f, rs[0].tag) && ReadNumbers(f, rs) == Some(xs) && Summary(f, rs).Ok?
  {
    hide Summary, ReadBlocks, EncodeElements, InRange, Payload, Weight, Hits, BlobRec;
    var k := f.shape.kind;
    var block := EncodeElements(k, xs, |xs|);
    var x := BlobRec(f.number, block);
    PackedSummary(f, xs);
    assert Heavy(f, [x]) == [x] && [x][1..] == [];
    assert Blocks(f, [x]) == [block];
    ReadBlocksNext(k, block, [], |xs|);
    ReadElementsBack(k, xs);
    assert [block] + [] == [block];
  }

  /** A repeated scalar's records, in whichever of the three forms it went out. */
  lemma {:induction false} NumbersRecords(f: Field, xs: seq<int>)
    requires f.shape.Numbers? && AllInRange(f.shape.kind, xs) && 1 <= f.number < 0x2000_0000
    requires |EncodeNumbers(f.number, f.shape.kind, f.shape.packing, xs)| < TWO_64
    ensures var s := EncodeNumbers(f.number, f.shape.kind, f.shape.packing, xs);
            && Parse(s).Ok? && (forall i :: 0 <= i < |Parse(s).value| ==> Hits(f, Parse(s).value[i].tag))
            && ReadNumbers(f, Parse(s).value) == Some(xs) && Summary(f, Parse(s).value).Ok?
  {
    hide Parse, FoldOne, ReadNumbers, EncodeElements, EncodeExpanded, Scalar, InRange, ScalarRecs, Summary, Hits;
    var k := f.shape.kind;
    if xs == [] {
      NoRecords();
      NoNumbers(f);
    } else if f.shape.packing == Expanded {
      ParseExpanded(f.number, k, xs, |xs|);
      ReadExpandedBack(f, xs);
    } else if f.shape.packing == Auto && |xs| == 1 {
      ParseScalar(f.number, k, xs[0]);
      ReadExpandedBack(f, xs);
      assert ScalarRecs(f.number, k, xs, |xs|) == [ScalarRec(f.number, k, xs[0])];
    } else {
      var block := EncodeElements(k, xs, |xs|);
      ParseBlob(f.number, block);
      ReadPackedBack(f, xs);
    }
  }

  lemma {:induction false} NoNumbers(f: Field)
    requires f.shape.Numbers?
    ensures ReadNumbers(f, []) == Some([]) && Summary(f, []).Ok?
  {
  }

  // ------------------------------------------------------------ map entries

  /** A slot as an entry's bytes carry it. */
  function RawSlot(sch: Schema, slot: Slot, v: SlotV<Tree>): SlotV<seq<byte>> {
    match v
    case IntS(x) => IntS(x)
    case BlobS(b) => BlobS(b)
    case MessageS(c) => MessageS(Some(if slot.MessageSlot? then EncodeOrEmpty(sch, slot.ty, c) else []))
  }

  function SlotBody(sch: Schema, slot: Slot, v: SlotV<Tree>): seq<byte> {
    match v
    case IntS(x) => if slot.ScalarSlot? then ScalarBytes(slot.kind, x) else []
    case BlobS(b) => Prefixed(b)
    case MessageS(c) => if slot.MessageSlot? then Prefixed(EncodeOrEmpty(sch, slot.ty, c)) else []
  }

  lemma {:induction false} SlotOnWire(sch: Schema, number: nat, slot: Slot, v: SlotV<Tree>, rest: seq<byte>)
    requires SlotFits(sch, slot, v) && |EncodeSlot(sch, number, slot, v)| < TWO_64
    ensures EncodeSlot(sch, number, slot, v) == Bytes(SlotTag(number, slot)) + SlotBody(sch, slot, v)
    ensures ReadSlot(slot, SlotBody(sch, slot, v) + rest) ==
              Ok(SlotRead(RawSlot(sch, slot, v), |SlotBody(sch, slot, v)|))
  {
    hide Bytes, Decode, ScalarBytes, ReadScalar, DecodeBytes, EncodeOrEmpty, InRange, Typed;
    match v
    case IntS(x) =>
      ScalarRoundTrip(slot.kind, x, rest, W64);
    case BlobS(b) =>
      DecodePrefixed(b, rest);
    case MessageS(c) =>
      DecodePrefixed(EncodeOrEmpty(sch, slot.ty, c), rest);
  }

  lemma {:induction false} SlotStep(sch: Schema, number: nat, slot: Slot, v: SlotV<Tree>, rest: seq<byte>)
    requires SlotFits(sch, slot, v) && |EncodeSlot(sch, number, slot, v)| < TWO_64 && 1 <= number <= 2
    ensures var s := EncodeSlot(sch, number, slot, v) + rest;
            && s != [] && Decode(s, W32).Good? && Decode(s, W32).value == SlotTag(number, slot)
            && var after := s[Decode(s, W32).consumed..];
               && ReadSlot(slot, after).Ok?
               && ReadSlot(slot, after).value.v == RawSlot(sch, slot, v)
               && after[ReadSlot(slot, after).value.consumed..] == rest
  {
    hide Bytes, Decode, EncodeSlot, ReadSlot, SlotBody, RawSlot, SlotFits;
    SlotOnWire(sch, number, slot, v, rest);
    var tag, body := Bytes(SlotTag(number, slot)), SlotBody(sch, slot, v);
    var s := EncodeSlot(sch, number, slot, v) + rest;
    assert s == tag + (body + rest);
    DecodeEncoded(SlotTag(number, slot), body + rest, W32);
    assert s[|tag|..] == body + rest;
    assert (body + rest)[|body|..] == rest;
  }

  lemma {:induction false} EntryOnWire(sch: Schema, key: Slot, val: Slot, e: Entry<Tree>)
    requires SlotOk(sch, val) && SlotFits(sch, key, e.key) && SlotFits(sch, val, e.val)
    requires |EncodeEntry(sch, key, val, e)| < TWO_64
    ensures ScanEntry(sch, key, val, EncodeEntry(sch, key, val, e), BlankEntry(key, val)) ==
              Ok(Entry(RawSlot(sch, key, e.key), RawSlot(sch, val, e.val)))
  {
    hide Decode, Skip, ReadSlot, EncodeSlot, ScanEntry, RawSlot, SlotFits, Init;
    var k, v := EncodeSlot(sch, 1, key, e.key), EncodeSlot(sch, 2, val, e.val);
    var blank := BlankEntry(key, val);
    SlotStep(sch, 1, key, e.key, v);
    ScanEntryStep(sch, key, val, k + v, blank);
    SlotStep(sch, 2, val, e.val, []);
    assert v + [] == v;
    var mid := blank.(key := RawSlot(sch, key, e.key));
    ScanEntryStep(sch, key, val, v, mid);
    TagsDiffer(key, val);
    ScanEntryDone(sch, key, val, mid.(val := RawSlot(sch, val, e.val)));
  }

  lemma {:induction false} TagsDiffer(key: Slot, val: Slot)
    ensures SlotTag(2, val) != SlotTag(1, key)
  {
  }

  // -------------------------------------------------------------- messages

  lemma {:induction false} ReadBlank(sch: Schema, ty: nat)
    requires SchemaOk(sch) && ty < |sch|
    ensures ReadTree(sch, ty, []) == Some(Blank(sch, ty))
  {
    hide ReadField, ReadFields;
    NoRecords();
    var vals := Blank(sch, ty).vals;
    forall j | 0 <= j < |sch[ty]|
      ensures ReadField(sch, sch[ty][j], Only(sch[ty][j], []), 0) == Some(vals[j])
    {
      ReadAbsent(sch, sch[ty][j]);
    }
    Assemble(sch, ty, [], 0, vals, |vals|);
    assert vals[..|vals|] == vals;
  }

  lemma {:induction false} ReadAbsent(sch: Schema, f: Field)
    requires SchemaOk(sch) && FieldOk(sch, f)
    ensures ReadField(sch, f, [], 0) == Some(Absent(f.shape))
  {
    FoldOneEmpty(f, Fresh(f.shape), 0);
  }

  lemma {:induction false} Assemble(sch: Schema, ty: nat, rs: seq<Rec>, size: nat, vals: seq<Val<Tree>>, n: nat)
    requires SchemaOk(sch) && ty < |sch| && n <= |sch[ty]| == |vals| && Smaller(rs, size)
    requires forall j :: 0 <= j < n ==> ReadField(sch, sch[ty][j], Only(sch[ty][j], rs), size) == Some(vals[j])
    ensures ReadFields(sch, ty, rs, size, n) == Some(vals[..n])
  {
    hide ReadField, Only;
    if n > 0 {
      Assemble(sch, ty, rs, size, vals, n - 1);
      assert vals[..n] == vals[..n - 1] + [vals[n - 1]];
    }
  }

  /** A field's bytes are records of that field only, and read back to its value. */
  ghost predicate FieldReads(sch: Schema, f: Field, v: Val<Tree>)
    requires SchemaOk(sch) && FieldOk(sch, f) && Fits(sch, f.shape, v)
  {
    var s := EncodeField(sch, f, v);
    && Parse(s).Ok?
    && (forall i :: 0 <= i < |Parse(s).value| ==> Hits(f, Parse(s).value[i].tag))
    && (forall size: nat :: Smaller(Parse(s).value, size) ==>
          ReadField(sch, f, Parse(s).value, size) == Some(NormalVal(sch, f.shape, v)))
  }

  lemma {:induction false} AbsentReads(sch: Schema, f: Field, v: Val<Tree>)
    requires SchemaOk(sch) && FieldOk(sch, f) && Fits(sch, f.shape, v)
    requires EncodeField(sch, f, v) == [] && NormalVal(sch, f.shape, v) == Absent(f.shape)
    ensures FieldReads(sch, f, v)
  {
    hide EncodeField, NormalVal, Fits;
    NoRecords();
    FoldOneEmpty(f, Fresh(f.shape), 0);
    forall size: nat
      ensures ReadField(sch, f, [], size) == Some(Absent(f.shape))
    {
      AbsentAnySize(sch, f, size);
    }
  }

  lemma {:induction false} AbsentAnySize(sch: Schema, f: Field, size: nat)
    requires SchemaOk(sch) && FieldOk(sch, f)
    ensures ReadField(sch, f, [], size) == Some(Absent(f.shape))
  {
    FoldOneEmpty(f, Fresh(f.shape), 0);
  }

  lemma {:induction false} SingleReads(sch: Schema, f: Field, v: Val<Tree>)
    requires SchemaOk(sch) && FieldOk(sch, f) && Fits(sch, f.shape, v) && f.shape.Single?
    ensures FieldReads(sch, f, v)
  {
    var k, d := f.shape.kind, f.shape.default;
    if v.num == d {
      AbsentReads(sch, f, v);
    } else {
      hide Parse, ScalarBytes, ReadScalar, InRange, FoldOne, SkipPlain, SchemaOk;
      ParseScalar(f.number, k, v.num);
      ScalarIsPayload(k, v.num);
      var x := ScalarRec(f.number, k, v.num);
      FoldOneHead(f, Fresh(f.shape), 0, [x]);
      FoldOneEmpty(f, IntCell(true, v.num), x.Size());
      assert [x][1..] == [];
    }
  }

  /** A singular length-delimited field that is present. */
  lemma {:induction false} SpanRecord(f: Field, b: seq<byte>)
    requires (f.shape.Blob? || f.shape.Child?) && 1 <= f.number < 0x2000_0000 && |b| < TWO_64
    ensures Parse(Delimited(f.number, b)) == Ok([BlobRec(f.number, b)])
    ensures Hits(f, BlobRec(f.number, b).tag) && Summary(f, [BlobRec(f.number, b)]).Ok?
    ensures Payload(BlobRec(f.number, b)) == b
  {
    hide Parse, FoldOne, Delimited, BlobRec, Payload, SpanHolds, SameContent, Only;
    var s := Delimited(f.number, b);
    ParseBlob(f.number, b);
    assert s[0..] == s;
    SpanFold(f, Fresh(f.shape), s, 0);
    CellSummary(f, s);
    BlobHits(f, b);
    OnlyAll(f, [BlobRec(f.number, b)]);
  }

  lemma {:induction false} BlobHits(f: Field, b: seq<byte>)
    requires !f.shape.Single? && !f.shape.Numbers?
    ensures Hits(f, BlobRec(f.number, b).tag)
  {
  }

  lemma {:induction false} OneBlob(sch: Schema, f: Field, x: Rec, size: nat)
    requires SchemaOk(sch) && FieldOk(sch, f) && f.shape.Blob? && Smaller([x], size) && Summary(f, [x]).Ok?
    ensures ReadField(sch, f, [x], size) == Some(BlobV(Payload(x)))
  {
    hide Summary, Payload, SchemaOk;
  }

  lemma {:induction false} PresentBlobReads(sch: Schema, f: Field, b: seq<byte>)
    requires SchemaOk(sch) && FieldOk(sch, f) && f.shape.Blob? && b != f.shape.preset && |b| < TWO_64
    ensures FieldReads(sch, f, BlobV(b))
  {
    hide Parse, Summary, BlobRec, Payload, SchemaOk, Hits, ReadField, Delimited, Smaller;
    SpanRecord(f, b);
    var x := BlobRec(f.number, b);
    forall size: nat | Smaller([x], size)
      ensures ReadField(sch, f, [x], size) == Some(BlobV(b))
    {
      OneBlob(sch, f, x, size);
    }
  }

  lemma {:induction false} BlobReads(sch: Schema, f: Field, v: Val<Tree>)
    requires SchemaOk(sch) && FieldOk(sch, f) && Fits(sch, f.shape, v) && f.shape.Blob?
    requires |EncodeField(sch, f, v)| < TWO_64
    ensures FieldReads(sch, f, v)
  {
    hide SchemaOk, FieldReads, FieldOk, Delimited;
    if v.blob == f.shape.preset {
      AbsentReads(sch, f, v);
    } else {
      PayloadShorter(f.number, v.blob);
      PresentBlobReads(sch, f, v.blob);
    }
  }

  lemma {:induction false} PayloadShorter(number: nat, b: seq<byte>)
    ensures |b| < |Delimited(number, b)|
  {
    hide Bytes;
  }

  lemma {:induction false} NumbersReads(sch: Schema, f: Field, v: Val<Tree>)
    requires SchemaOk(sch) && FieldOk(sch, f) && Fits(sch, f.shape, v) && f.shape.Numbers?
    requires |EncodeField(sch, f, v)| < TWO_64
    ensures FieldReads(sch, f, v)
  {
    hide Parse, Summary, ReadNumbers, SchemaOk, EncodeNumbers, InRange;
    NumbersRecords(f, v.ints);
  }

  lemma {:induction false} BlobsReads(sch: Schema, f: Field, v: Val<Tree>)
    requires SchemaOk(sch) && FieldOk(sch, f) && Fits(sch, f.shape, v) && f.shape.Blobs?
    requires |EncodeField(sch, f, v)| < TWO_64
    ensures FieldReads(sch, f, v)
  {
    hide Parse, Summary, Payload, SchemaOk, EncodeBlobs, Hits;
    ListRecords(f, v.blobs);
  }

  lemma {:induction false} OrEmptyReads(sch: Schema, ty: nat, c: Option<Tree>)
    requires SchemaOk(sch) && ty < |sch| && (c.Some? ==> Typed(sch, ty, c.value))
    requires |EncodeOrEmpty(sch, ty, c)| < TWO_64
    ensures ReadTree(sch, ty, EncodeOrEmpty(sch, ty, c)) == Some(NormalOrBlank(sch, ty, c))
    decreases c
  {
    hide ReadTree, SchemaOk, Encode, Normal, Typed;
    if c.Some? {
      TreeReads(sch, ty, c.value);
    } else {
      ReadBlank(sch, ty);
    }
  }

  lemma {:induction false} ChildrenBack(sch: Schema, ty: nat, cs: seq<Option<Tree>>, hits: seq<Rec>, size: nat, n: nat)
    requires SchemaOk(sch) && ty < |sch| && n <= |cs| == |hits| && Smaller(hits, size)
    requires forall i :: 0 <= i < |cs| && cs[i].Some? ==> Typed(sch, ty, cs[i].value)
    requires Payloads(hits) == ChildBytes(sch, ty, cs) && Bounded(ChildBytes(sch, ty, cs))
    ensures ReadChildren(sch, ty, hits, size, n) ==
              Some(seq(n, i requires 0 <= i < n => Some(NormalOrBlank(sch, ty, cs[i]))))
    decreases cs, n
  {
    hide ReadTree, SchemaOk, EncodeOrEmpty, NormalOrBlank, Typed, Payload;
    if n > 0 {
      ChildrenBack(sch, ty, cs, hits, size, n - 1);
      OrEmptyReads(sch, ty, cs[n - 1]);
      assert Payload(hits[n - 1]) == Payloads(hits)[n - 1];
      assert seq(n, i requires 0 <= i < n => Some(NormalOrBlank(sch, ty, cs[i]))) ==
             seq(n - 1, i requires 0 <= i < n - 1 => Some(NormalOrBlank(sch, ty, cs[i]))) + [Some(NormalOrBlank(sch, ty, cs[n - 1]))];
    }
  }

  lemma {:induction false} ChildrenReads(sch: Schema, f: Field, v: Val<Tree>)
    requires SchemaOk(sch) && FieldOk(sch, f) && Fits(sch, f.shape, v) && f.shape.Children?
    requires |EncodeField(sch, f, v)| < TWO_64
    ensures FieldReads(sch, f, v)
    decreases v, 0
  {
    hide Parse, Summary, Payload, SchemaOk, EncodeBlobs, Hits, ReadChildren, EncodeChildren, NormalOrBlank, Typed, EncodeOrEmpty;
    var ty, cs := f.shape.ty, v.children;
    var bs := ChildBytes(sch, ty, cs);
    ChildrenAreBlobs(sch, f.number, ty, cs, |cs|);
    ListRecords(f, bs);
    BoundedBlobs(f.number, bs);
    var hits := Parse(EncodeField(sch, f, v)).value;
    forall size: nat | Smaller(hits, size)
      ensures ReadField(sch, f, hits, size) == Some(NormalVal(sch, f.shape, v))
    {
      ChildrenBack(sch, ty, cs, hits, size, |cs|);
    }
  }

  lemma {:induction false} EntryReads(sch: Schema, key: Slot, val: Slot, e: Entry<Tree>)
    requires SchemaOk(sch) && !key.MessageSlot? && SlotOk(sch, val)
    requires SlotFits(sch, key, e.key) && SlotFits(sch, val, e.val)
    requires |EncodeEntry(sch, key, val, e)| < TWO_64
    ensures ReadEntry(sch, key, val, EncodeEntry(sch, key, val, e)) == Some(Entry(e.key, NormalSlot(sch, val, e.val)))
    decreases e
  {
    hide ScanEntry, ReadTree, SchemaOk, EncodeOrEmpty, NormalOrBlank, Typed, InRange, Bytes, Scalar;
    var s := EncodeEntry(sch, key, val, e);
    EntryOnWire(sch, key, val, e);
    ScanEntrySmall(sch, key, val, s, BlankEntry(key, val), |s|);
    if val.MessageSlot? {
      OrEmptyReads(sch, val.ty, e.val.msg);
    }
  }

  lemma {:induction false} TableBack(sch: Schema, key: Slot, val: Slot, es: seq<Entry<Tree>>, hits: seq<Rec>, size: nat, n: nat)
    requires SchemaOk(sch) && !key.MessageSlot? && SlotOk(sch, val) && n <= |es| == |hits| && Smaller(hits, size)
    requires forall i :: 0 <= i < |es| ==> SlotFits(sch, key, es[i].key) && SlotFits(sch, val, es[i].val)
    requires Payloads(hits) == EntryBytes(sch, key, val, es) && Bounded(EntryBytes(sch, key, val, es))
    ensures ReadTable(sch, key, val, hits, size, n) ==
              Some(seq(n, i requires 0 <= i < n => Entry(es[i].key, NormalSlot(sch, val, es[i].val))))
    decreases es, n
  {
    hide ReadEntry, SchemaOk, EncodeEntry, NormalSlot, SlotFits, Payload;
    if n > 0 {
      TableBack(sch, key, val, es, hits, size, n - 1);
      EntryReads(sch, key, val, es[n - 1]);
      assert Payload(hits[n - 1]) == Payloads(hits)[n - 1];
      assert seq(n, i requires 0 <= i < n => Entry(es[i].key, NormalSlot(sch, val, es[i].val))) ==
             seq(n - 1, i requires 0 <= i < n - 1 => Entry(es[i].key, NormalSlot(sch, val, es[i].val))) +
             [Entry(es[n - 1].key, NormalSlot(sch, val, es[n - 1].val))];
    }
  }

  lemma {:induction false} TableReads(sch: Schema, f: Field, v: Val<Tree>)
    requires SchemaOk(sch) && FieldOk(sch, f) && Fits(sch, f.shape, v) && f.shape.Table?
    requires |EncodeField(sch, f, v)| < TWO_64
    ensures FieldReads(sch, f, v)
    decreases v, 0
  {
    hide Parse, Summary, Payload, SchemaOk, EncodeBlobs, Hits, ReadTable, EncodeTable, NormalSlot, SlotFits, EncodeEntry;
    var key, val, es := f.shape.key, f.shape.val, v.entries;
    var bs := EntryBytes(sch, key, val, es);
    TableIsBlobs(sch, f.number, key, val, es, |es|);
    ListRecords(f, bs);
    BoundedBlobs(f.number, bs);
    var hits := Parse(EncodeField(sch, f, v)).value;
    forall size: nat | Smaller(hits, size)
      ensures ReadField(sch, f, hits, size) == Some(NormalVal(sch, f.shape, v))
    {
      TableBack(sch, key, val, es, hits, size, |es|);
    }
  }

  lemma {:induction false} ChildReads(sch: Schema, f: Field, v: Val<Tree>)
    requires SchemaOk(sch) && FieldOk(sch, f) && Fits(sch, f.shape, v) && f.shape.Child?
    requires |EncodeField(sch, f, v)| < TWO_64
    ensures FieldReads(sch, f, v)
    decreases v, 0
  {
    if v.child.None? {
      AbsentReads(sch, f, v);
    } else {
      hide SchemaOk, Encode, Typed, Normal, ReadTree, Bytes, FieldReads;
      TreeReads(sch, f.shape.ty, v.child.value);
      PresentChildReads(sch, f, v);
    }
  }

  lemma {:induction false} PresentChildReads(sch: Schema, f: Field, v: Val<Tree>)
    requires SchemaOk(sch) && FieldOk(sch, f) && Fits(sch, f.shape, v) && f.shape.Child? && v.child.Some?
    requires |Encode(sch, f.shape.ty, v.child.value)| < TWO_64
    requires ReadTree(sch, f.shape.ty, Encode(sch, f.shape.ty, v.child.value)) == Some(Normal(sch, f.shape.ty, v.child.value))
    ensures FieldReads(sch, f, v)
  {
    hide Parse, Summary, BlobRec, Payload, SchemaOk, Hits, Encode, Typed, Normal, ReadTree, Delimited;
    SpanRecord(f, Encode(sch, f.shape.ty, v.child.value));
  }

  lemma {:induction false} EveryFieldReads(sch: Schema, f: Field, v: Val<Tree>)
    requires SchemaOk(sch) && FieldOk(sch, f) && Fits(sch, f.shape, v)
    requires |EncodeField(sch, f, v)| < TWO_64
    ensures FieldReads(sch, f, v)
    decreases v, 1
  {
    hide *;
    match f.shape
    case Single(_, _) => SingleReads(sch, f, v);
    case Blob(_) => BlobReads(sch, f, v);
    case Child(_) => ChildReads(sch, f, v);
    case Numbers(_, _) => NumbersReads(sch, f, v);
    case Blobs => BlobsReads(sch, f, v);
    case Children(_) => ChildrenReads(sch, f, v);
    case Table(_, _) => TableReads(sch, f, v);
  }

  /** The records of a message are those of its fields, each field's own apart. */
  lemma {:induction false} MessageRecords(sch: Schema, ty: nat, vals: seq<Val<Tree>>, n: nat)
    requires SchemaOk(sch) && ty < |sch| && n <= |sch[ty]| == |vals|
    requires forall i :: 0 <= i < |vals| ==> Fits(sch, sch[ty][i].shape, vals[i]) && FieldReads(sch, sch[ty][i], vals[i])
    ensures forall j :: 0 <= j < |vals| ==> Parse(EncodeField(sch, sch[ty][j], vals[j])).Ok?
    ensures Parse(EncodeFields(sch, sch[ty], vals, n)).Ok?
    ensures forall j :: 0 <= j < |vals| ==>
              Only(sch[ty][j], Parse(EncodeFields(sch, sch[ty], vals, n)).value) ==
              if j < n then Parse(EncodeField(sch, sch[ty][j], vals[j])).value else []
  {
    hide Parse, Only, EncodeField, ReadField, NormalVal, Fits, Hits;
    if n == 0 {
      NoRecords();
      forall j | 0 <= j < |vals|
        ensures Only(sch[ty][j], []) == []
      {
        OnlyNone(sch[ty][j], []);
      }
    } else {
      MessageRecords(sch, ty, vals, n - 1);
      var a, b := EncodeFields(sch, sch[ty], vals, n - 1), EncodeField(sch, sch[ty][n - 1], vals[n - 1]);
      ParseAppend(a, b);
      var as_, bs := Parse(a).value, Parse(b).value;
      forall j | 0 <= j < |vals|
        ensures Only(sch[ty][j], as_ + bs) ==
                if j < n then Parse(EncodeField(sch, sch[ty][j], vals[j])).value else []
      {
        OnlyAppend(sch[ty][j], as_, bs);
        if j == n - 1 {
          OnlyAll(sch[ty][j], bs);
          assert [] + bs == bs;
        } else {
          OthersMiss(sch, ty, j, n - 1, bs);
          assert Only(sch[ty][j], as_) + [] == Only(sch[ty][j], as_);
        }
      }
    }
  }

  lemma {:induction false} OthersMiss(sch: Schema, ty: nat, j: nat, k: nat, rs: seq<Rec>)
    requires SchemaOk(sch) && ty < |sch| && j < |sch[ty]| && k < |sch[ty]| && j != k
    requires forall i :: 0 <= i < |rs| ==> Hits(sch[ty][k], rs[i].tag)
    ensures Only(sch[ty][j], rs) == []
  {
    hide Hits;
    var f, g := sch[ty][j], sch[ty][k];
    assert f.number != g.number;
    forall i | 0 <= i < |rs|
      ensures !Hits(f, rs[i].tag)
    {
      NotBoth(f, g, rs[i].tag);
    }
    OnlyNone(f, rs);
  }

  lemma {:induction false} NotBoth(f: Field, g: Field, tag: nat)
    requires f.number != g.number
    ensures !(Hits(f, tag) && Hits(g, tag))
  {
  }

  lemma {:induction false} FieldLength(sch: Schema, fields: seq<Field>, vals: seq<Val<Tree>>, n: nat, i: nat)
    requires i < n <= |fields| == |vals|
    ensures |EncodeField(sch, fields[i], vals[i])| <= |EncodeFields(sch, fields, vals, n)|
    decreases n
  {
    hide EncodeField;
    if i < n - 1 {
      FieldLength(sch, fields, vals, n - 1, i);
    }
  }

  /** Encoding then reading back gives the message, at every nesting depth. */
  lemma {:induction false} TreeReads(sch: Schema, ty: nat, t: Tree)
    requires SchemaOk(sch) && Typed(sch, ty, t) && |Encode(sch, ty, t)| < TWO_64
    ensures ReadTree(sch, ty, Encode(sch, ty, t)) == Some(Normal(sch, ty, t))
    decreases t
  {
    hide Parse, Only, EncodeField, ReadField, ReadFields, NormalVal, Fits, EncodeFields, FieldReads;
    var vals := t.vals;
    forall i | 0 <= i < |vals|
      ensures FieldReads(sch, sch[ty][i], vals[i])
    {
      FieldLength(sch, sch[ty], vals, |vals|, i);
      EveryFieldReads(sch, sch[ty][i], vals[i]);
    }
    MessageRecords(sch, ty, vals, |vals|);
    var s := Encode(sch, ty, t);
    var rs := Parse(s).value;
    ParsedSmaller(s);
    var back := Normal(sch, ty, t).vals;
    forall j | 0 <= j < |vals|
      ensures ReadField(sch, sch[ty][j], Only(sch[ty][j], rs), |s|) == Some(back[j])
    {
      FieldBack(sch, sch[ty][j], vals[j], rs, |s|);
    }
    Assemble(sch, ty, rs, |s|, back, |back|);
    assert back[..|back|] == back;
  }

  lemma {:induction false} FieldBack(sch: Schema, f: Field, v: Val<Tree>, rs: seq<Rec>, size: nat)
    requires SchemaOk(sch) && FieldOk(sch, f) && Fits(sch, f.shape, v) && FieldReads(sch, f, v)
    requires Smaller(rs, size) && Only(f, rs) == Parse(EncodeField(sch, f, v)).value
    ensures Smaller(Only(f, rs), size) && ReadField(sch, f, Only(f, rs), size) == Some(NormalVal(sch, f.shape, v))
  {
    hide Parse, EncodeField, ReadField, NormalVal, Fits, Hits;
  }
}
