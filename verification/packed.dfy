// Which occurrences of a repeated scalar read back, and to which elements.
module PackedBlocks {
  import opened Bits
  import opened Options
  import opened Varint
  import opened Wire
  import opened Scalars
  import opened Records
  import opened Schema
  import opened Cells
  import opened Scanning
  import opened Layout
  import opened Eager
  import opened RoundTrip
  import opened Bridge
  import opened Iterators

  // ------------------------------------------------------------- one block

  /** The elements the reader counts in a block, or nothing if one of them
      does not decode. */
  function Leading(k: Kind, b: seq<byte>): (xs: Option<seq<int>>)
    decreases |b|
  {
    if BlockCount(k, b) == 0 then Some([])
    else
      match ReadScalar(b, k, W64)
      case Err(_) => None
      case Ok(x) => Prepend(x.value, Leading(k, b[x.consumed..]))
  }

  /** The block is made of whole elements, nothing left over. */
  predicate Whole(k: Kind, b: seq<byte>)
    decreases |b|
  {
    b == [] || (ReadScalar(b, k, W64).Ok? && Whole(k, b[ReadScalar(b, k, W64).value.consumed..]))
  }

  /** The elements counted in all blocks together. */
  function Total(k: Kind, blocks: seq<seq<byte>>): nat {
    if blocks == [] then 0 else BlockCount(k, blocks[0]) + Total(k, blocks[1..])
  }

  /** Every counted element decodes, and a block with elements after it has no
      bytes left over. */
  predicate Tidy(k: Kind, blocks: seq<seq<byte>>) {
    blocks == [] ||
    (&& Leading(k, blocks[0]).Some?
     && (Total(k, blocks[1..]) > 0 ==> Whole(k, blocks[0]))
     && Tidy(k, blocks[1..]))
  }

  function Gathered(k: Kind, blocks: seq<seq<byte>>): seq<int> {
    if blocks == [] then []
    else (if Leading(k, blocks[0]).Some? then Leading(k, blocks[0]).value else []) + Gathered(k, blocks[1..])
  }

  lemma {:induction false} TidyHead(k: Kind, b: seq<byte>, blocks: seq<seq<byte>>)
    ensures Tidy(k, [b] + blocks) <==>
              Leading(k, b).Some? && (Total(k, blocks) > 0 ==> Whole(k, b)) && Tidy(k, blocks)
    ensures Total(k, [b] + blocks) == BlockCount(k, b) + Total(k, blocks)
    ensures Gathered(k, [b] + blocks) == (if Leading(k, b).Some? then Leading(k, b).value else []) + Gathered(k, blocks)
  {
    hide Leading, Whole, BlockCount;
    var all := [b] + blocks;
    assert all[1..] == blocks;
  }

  lemma {:induction false} NoTerminators(s: seq<byte>)
    requires forall i :: 0 <= i < |s| ==> s[i] >= 128
    ensures Terminators(s) == 0
    decreases |s|
  {
    if s != [] {
      NoTerminators(s[..|s| - 1]);
    }
  }

  /** Decoding one element uses up one counted element. */
  lemma {:induction false} ElementCounts(k: Kind, b: seq<byte>)
    requires ReadScalar(b, k, W64).Ok?
    ensures BlockCount(k, b) == 1 + BlockCount(k, b[ReadScalar(b, k, W64).value.consumed..])
  {
    hide FromWire, GroupSum;
    var n := ReadScalar(b, k, W64).value.consumed;
    if k.WireType() == VARINT {
      assert n == Terminator(b) + 1;
      NoTerminators(b[..n - 1]);
      assert b[..n] == b[..n - 1] + [b[n - 1]];
      TerminatorsAppend(b[..n - 1], [b[n - 1]]);
      assert Terminators([b[n - 1]]) == 1 by {
        assert [b[n - 1]][..0] == [];
      }
      assert b == b[..n] + b[n..];
      TerminatorsAppend(b[..n], b[n..]);
    }
  }

  lemma {:induction false} WholeIsLeading(k: Kind, b: seq<byte>)
    requires Whole(k, b)
    ensures Leading(k, b).Some? && |Leading(k, b).value| == BlockCount(k, b)
    decreases |b|
  {
    hide BlockCount, ReadScalar;
    if b == [] {
      NothingCounted(k);
    } else {
      ElementCounts(k, b);
      WholeIsLeading(k, b[ReadScalar(b, k, W64).value.consumed..]);
    }
  }

  lemma {:induction false} NothingCounted(k: Kind)
    ensures BlockCount(k, []) == 0 && Leading(k, []) == Some([]) && Whole(k, [])
  {
  }

  lemma {:induction false} ElementStep(k: Kind, b: seq<byte>)
    requires b != [] && BlockCount(k, b) > 0
    ensures ReadScalar(b, k, W64).Err? ==> Leading(k, b).None? && !Whole(k, b)
    ensures ReadScalar(b, k, W64).Ok? ==>
              var x := ReadScalar(b, k, W64).value;
              && Leading(k, b) == Prepend(x.value, Leading(k, b[x.consumed..]))
              && (Whole(k, b) <==> Whole(k, b[x.consumed..]))
  {
    hide BlockCount, ReadScalar;
  }

  lemma {:induction false} Unreadable(k: Kind, b: seq<byte>)
    requires b != [] && ReadScalar(b, k, W64).Err?
    ensures !Whole(k, b) && (BlockCount(k, b) > 0 ==> Leading(k, b).None?)
  {
    hide BlockCount, ReadScalar;
  }

  // ------------------------------------------------------- across blocks

  lemma {:induction false} NothingToRead(k: Kind, blocks: seq<seq<byte>>)
    requires Total(k, blocks) == 0
    ensures Tidy(k, blocks) && Gathered(k, blocks) == []
    decreases |blocks|
  {
    hide BlockCount, Whole, Tidy;
    if blocks == [] {
      NoBlocksTidy(k);
    } else {
      NothingToRead(k, blocks[1..]);
      TidyHead(k, blocks[0], blocks[1..]);
      assert [blocks[0]] + blocks[1..] == blocks;
    }
  }

  lemma {:induction false} NoBlocksTidy(k: Kind)
    ensures Tidy(k, []) && Gathered(k, []) == []
  {
  }

  lemma {:induction false} BlocksRunOut(k: Kind, n: nat)
    requires n > 0
    ensures ReadBlocks(k, [], [], n).None?
  {
  }

  /** The block iterator, asked for all counted elements, delivers exactly when
      the blocks are tidy. */
  lemma {:induction false} BlocksExact(k: Kind, cur: seq<byte>, blocks: seq<seq<byte>>, n: nat)
    requires n == Total(k, [cur] + blocks)
    ensures ReadBlocks(k, cur, blocks, n).Some? <==> Tidy(k, [cur] + blocks)
    ensures ReadBlocks(k, cur, blocks, n).Some? ==> ReadBlocks(k, cur, blocks, n).value == Gathered(k, [cur] + blocks)
    decreases n, |blocks|
  {
    hide BlockCount, Tidy, ReadScalar, Gathered, Total, Leading, Whole, ReadBlocks;
    TidyHead(k, cur, blocks);
    if n == 0 {
      ReadBlocksDone(k, cur, blocks);
      NothingToRead(k, [cur] + blocks);
    } else if cur == [] {
      NothingCounted(k);
      if blocks == [] {
        NoTotal(k);
        BlocksRunOut(k, n);
      } else {
        ReadBlocksNext(k, blocks[0], blocks[1..], n);
        assert [blocks[0]] + blocks[1..] == blocks;
        BlocksExact(k, blocks[0], blocks[1..], n);
      }
    } else {
      if ReadScalar(cur, k, W64).Ok? {
        ElementCounts(k, cur);
        TidyHead(k, cur[ReadScalar(cur, k, W64).value.consumed..], blocks);
        BlocksExact(k, cur[ReadScalar(cur, k, W64).value.consumed..], blocks, n - 1);
      }
      BlocksElement(k, cur, blocks, n);
    }
  }

  lemma {:induction false} BlocksElement(k: Kind, cur: seq<byte>, blocks: seq<seq<byte>>, n: nat)
    requires n == Total(k, [cur] + blocks) > 0 && cur != []
    requires ReadScalar(cur, k, W64).Ok? ==>
               var rest := cur[ReadScalar(cur, k, W64).value.consumed..];
               var r := ReadBlocks(k, rest, blocks, n - 1);
               (r.Some? <==> Tidy(k, [rest] + blocks)) && (r.Some? ==> r.value == Gathered(k, [rest] + blocks))
    ensures ReadBlocks(k, cur, blocks, n).Some? <==> Tidy(k, [cur] + blocks)
    ensures ReadBlocks(k, cur, blocks, n).Some? ==> ReadBlocks(k, cur, blocks, n).value == Gathered(k, [cur] + blocks)
  {
    hide BlockCount, Tidy, ReadScalar, Gathered, Total, Leading, Whole, ReadBlocks;
    TidyHead(k, cur, blocks);
    ReadBlocksStep(k, cur, blocks, n);
    if ReadScalar(cur, k, W64).Ok? {
      var x := ReadScalar(cur, k, W64).value;
      var rest := cur[x.consumed..];
      ElementCounts(k, cur);
      ElementStep(k, cur);
      TidyHead(k, rest, blocks);
      if Leading(k, rest).Some? {
        assert [x.value] + (Leading(k, rest).value + Gathered(k, blocks)) ==
               ([x.value] + Leading(k, rest).value) + Gathered(k, blocks);
      }
    } else {
      Unreadable(k, cur);
    }
  }

  lemma {:induction false} NoTotal(k: Kind)
    ensures Total(k, []) == 0
  {
  }

  /** Asked for more than is counted, the iterator fails. */
  lemma {:induction false} TooMany(k: Kind, cur: seq<byte>, blocks: seq<seq<byte>>, n: nat)
    requires n > BlockCount(k, cur) + Total(k, blocks)
    ensures ReadBlocks(k, cur, blocks, n).None?
    decreases n, |blocks|
  {
    hide BlockCount, ReadScalar;
    if cur == [] {
      if blocks != [] {
        TooMany(k, blocks[0], blocks[1..], n);
      }
    } else if ReadScalar(cur, k, W64).Ok? {
      ElementCounts(k, cur);
      TooMany(k, cur[ReadScalar(cur, k, W64).value.consumed..], blocks, n - 1);
    }
  }

  // ------------------------------------------------------- all occurrences

  predicate AllPacked(f: Field, hits: seq<Rec>) {
    forall i :: 0 <= i < |hits| ==> hits[i].tag == Tag(f.number, LEN)
  }

  /** Records of the field's own, as parsing delivers them. */
  predicate OwnRecords(f: Field, hits: seq<Rec>) {
    forall i :: 0 <= i < |hits| ==> Hits(f, hits[i].tag) && Skip(hits[i].body, hits[i].tag % 8) == Ok(|hits[i].body|)
  }

  /** The elements all occurrences add up to. */
  function Sum(f: Field, hits: seq<Rec>): nat
    requires f.shape.Numbers?
  {
    if hits == [] then 0 else Weight(f, hits[0]) + Sum(f, hits[1..])
  }

  /** Once elements were counted, every further occurrence must have the form of the flag. */
  lemma {:induction false} CountedExact(f: Field, c: Cell, off: nat, hits: seq<Rec>)
    requires f.shape.Numbers? && c.PackCell? && c.count > 0 && OwnRecords(f, hits)
    ensures FoldOne(f, c, off, hits).Ok? <==> if c.packed then AllPacked(f, hits) else AllExpanded(f, hits)
    ensures FoldOne(f, c, off, hits).Ok? ==>
              var d := FoldOne(f, c, off, hits).value;
              d.count == c.count + Sum(f, hits) && d.packed == c.packed
    decreases hits
  {
    hide Arm, Skip, FoldOne, Weight;
    if hits == [] {
      FoldOneEmpty(f, c, off);
    } else {
      var x, rest := hits[0], hits[1..];
      TwoForms(f, x.tag);
      FoldOneHead(f, c, off, hits);
      PackArm(f, c, x, off + x.head);
      FormsHead(f, hits);
      var arm := Arm(f, c, x.tag, off + x.head, x.head, x.body);
      if arm.Ok? {
        CountedExact(f, arm.value.cell, off + x.Size(), rest);
      }
    }
  }

  lemma {:induction false} FormsHead(f: Field, hits: seq<Rec>)
    requires f.shape.Numbers? && hits != []
    ensures AllPacked(f, hits) <==> hits[0].tag == Tag(f.number, LEN) && AllPacked(f, hits[1..])
    ensures AllExpanded(f, hits) <==> hits[0].tag == Tag(f.number, f.shape.kind.WireType()) && AllExpanded(f, hits[1..])
  {
    assert hits == [hits[0]] + hits[1..];
  }

  lemma {:induction false} TwoForms(f: Field, tag: nat)
    requires f.shape.Numbers? && Hits(f, tag)
    ensures tag == Tag(f.number, LEN) <==> tag != Tag(f.number, f.shape.kind.WireType())
  {
  }

  /** What initialization makes of the occurrences `hits`, `flag` being the
      packed flag so far: weightless blocks set it and are passed over, and the
      first occurrence with elements need not agree with it. */
  predicate Accepted(f: Field, flag: bool, hits: seq<Rec>)
    requires f.shape.Numbers?
  {
    var h := Heavy(f, hits);
    h == [] ||
    if Flag(f, flag, hits) then AllPacked(f, h[1..]) else AllExpanded(f, h[1..])
  }

  /** The flag when the first element is counted, and from then on. */
  predicate Flag(f: Field, flag: bool, hits: seq<Rec>)
    requires f.shape.Numbers?
  {
    var h := Heavy(f, hits);
    flag || |h| < |hits| || (h != [] && h[0].tag == Tag(f.number, LEN))
  }

  lemma {:induction false} UncountedExact(f: Field, c: Cell, off: nat, hits: seq<Rec>)
    requires f.shape.Numbers? && c.PackCell? && c.count == 0 && OwnRecords(f, hits)
    ensures FoldOne(f, c, off, hits).Ok? <==> Accepted(f, c.packed, hits)
    ensures FoldOne(f, c, off, hits).Ok? ==>
              var d := FoldOne(f, c, off, hits).value;
              d.count == Sum(f, Heavy(f, hits)) && d.packed == Flag(f, c.packed, hits)
    decreases hits
  {
    hide Arm, Skip, FoldOne, Weight, AllPacked, AllExpanded, Hits;
    if hits == [] {
      FoldOneEmpty(f, c, off);
    } else {
      var x, rest := hits[0], hits[1..];
      TwoForms(f, x.tag);
      FoldOneHead(f, c, off, hits);
      PackArm(f, c, x, off + x.head);
      var d := Arm(f, c, x.tag, off + x.head, x.head, x.body).value.cell;
      if Weight(f, x) > 0 {
        CountedExact(f, d, off + x.Size(), rest);
      } else {
        WeightlessIsPacked(f, x);
        UncountedExact(f, d, off + x.Size(), rest);
      }
    }
  }

  lemma {:induction false} WeightlessIsPacked(f: Field, x: Rec)
    requires f.shape.Numbers? && Weight(f, x) == 0
    ensures x.tag == Tag(f.number, LEN)
  {
  }

  // ----------------------------------------------------------- the theorem

  lemma {:induction false} OnlyPackedBlocks(f: Field, hits: seq<Rec>)
    requires f.shape.Numbers? && AllPacked(f, hits)
    ensures Sum(f, hits) == Total(f.shape.kind, Blocks(f, hits))
    decreases hits
  {
    hide BlockCount, Payload;
    if hits != [] {
      FormsHead(f, hits);
      OnlyPackedBlocks(f, hits[1..]);
      var b := Payload(hits[0]);
      assert Blocks(f, hits)[1..] == Blocks(f, hits[1..]);
    }
  }

  lemma {:induction false} BlocksHead(f: Field, hits: seq<Rec>)
    requires hits != []
    ensures Blocks(f, hits) ==
              (if hits[0].tag == Tag(f.number, LEN) then [Payload(hits[0])] else []) + Blocks(f, hits[1..])
  {
  }

  /** Which occurrences of a repeated scalar read back: expanded ones in any
      number, or packed ones from the first element on in tidy blocks. */
  predicate ReadsBack(f: Field, hits: seq<Rec>)
    requires f.shape.Numbers?
  {
    || AllExpanded(f, hits)
    || (AllPacked(f, Heavy(f, hits)) && Tidy(f.shape.kind, Blocks(f, Heavy(f, hits))))
  }

  /** An expanded first element behind weightless blocks: counted, but never delivered. */
  lemma {:induction false} StrayElement(f: Field, hits: seq<Rec>)
    requires f.shape.Numbers? && OwnRecords(f, hits)
    requires var h := Heavy(f, hits); h != [] && h[0].tag != Tag(f.number, LEN) && AllPacked(f, h[1..])
    ensures var h := Heavy(f, hits);
            ReadBlocks(f.shape.kind, [], Blocks(f, h), Sum(f, h)).None?
  {
    hide Payload, ReadBlocks, Hits, Skip;
    var k, h := f.shape.kind, Heavy(f, hits);
    BlocksHead(f, h);
    assert Blocks(f, h) == Blocks(f, h[1..]);
    OnlyPackedBlocks(f, h[1..]);
    NothingCounted(k);
    assert Sum(f, h) == 1 + Sum(f, h[1..]);
    TooMany(k, [], Blocks(f, h), Sum(f, h));
  }

  lemma {:induction false} PackedExact(f: Field, h: seq<Rec>)
    requires f.shape.Numbers? && AllPacked(f, h)
    ensures var k, r := f.shape.kind, ReadBlocks(f.shape.kind, [], Blocks(f, h), Sum(f, h));
            && (r.Some? <==> Tidy(k, Blocks(f, h)))
            && (r.Some? ==> r.value == Gathered(k, Blocks(f, h)))
  {
    hide ReadBlocks, Tidy, Blocks, Gathered, AllPacked, Leading, Whole, Total, BlockCount;
    var k, bs := f.shape.kind, Blocks(f, h);
    OnlyPackedBlocks(f, h);
    TidyHead(k, [], bs);
    NothingCounted(k);
    BlocksExact(k, [], bs, Sum(f, h));
  }

  lemma {:induction false} NumbersExact(f: Field, hits: seq<Rec>)
    requires f.shape.Numbers? && OwnRecords(f, hits)
    ensures ReadNumbers(f, hits).Some? <==> ReadsBack(f, hits)
    ensures ReadNumbers(f, hits).Some? ==>
              ReadNumbers(f, hits).value ==
              if AllExpanded(f, hits) then Elements(f.shape.kind, hits)
              else Gathered(f.shape.kind, Blocks(f, Heavy(f, hits)))
  {
    hide FoldOne, Skip, Hits, Weight, ReadBlocks, Tidy, Blocks, Gathered, AllExpanded, AllPacked;
    var k, h := f.shape.kind, Heavy(f, hits);
    UncountedExact(f, Fresh(f.shape), 0, hits);
    FewForms(f, hits);
    if Accepted(f, false, hits) && h != [] && Flag(f, false, hits) {
      if h[0].tag == Tag(f.number, LEN) {
        PackedExact(f, h);
      } else {
        StrayElement(f, hits);
      }
    }
  }

  /** The forms of all occurrences against those from the first element on. */
  lemma {:induction false} FewForms(f: Field, hits: seq<Rec>)
    requires f.shape.Numbers? && OwnRecords(f, hits)
    ensures var h := Heavy(f, hits);
            && (AllExpanded(f, hits) ==> h == hits)
            && (h == hits && h != [] ==>
                 (AllExpanded(f, hits) <==> h[0].tag != Tag(f.number, LEN) && AllExpanded(f, h[1..])))
            && (h != [] ==> (AllPacked(f, h) <==> h[0].tag == Tag(f.number, LEN) && AllPacked(f, h[1..])))
            && (h == [] ==> AllPacked(f, h) && Tidy(f.shape.kind, Blocks(f, h)) && Gathered(f.shape.kind, Blocks(f, h)) == [])
  {
    hide Skip, Weight, Tidy, Gathered;
    var h := Heavy(f, hits);
    if AllExpanded(f, hits) {
      HeavyExpanded(f, hits);
    }
    if h != [] {
      FormsHead(f, h);
      HeavyOwn(f, hits);
      TwoForms(f, h[0].tag);
    } else {
      NoBlocksTidy(f.shape.kind);
    }
  }

  lemma {:induction false} HeavyOwn(f: Field, hits: seq<Rec>)
    requires f.shape.Numbers? && OwnRecords(f, hits) && Heavy(f, hits) != []
    ensures Hits(f, Heavy(f, hits)[0].tag)
  {
    hide Hits, Skip;
    var h := Heavy(f, hits);
    assert h[0] == hits[|hits| - |h|];
  }

  // ------------------------------------------------------- whole blocks only

  predicate AllWhole(f: Field, hits: seq<Rec>)
    requires f.shape.Numbers?
  {
    AllPacked(f, hits) && forall i :: 0 <= i < |hits| ==> Whole(f.shape.kind, Payload(hits[i]))
  }

  lemma {:induction false} WholeBlocksTidy(f: Field, hits: seq<Rec>)
    requires f.shape.Numbers? && AllWhole(f, hits)
    ensures var k, bs := f.shape.kind, Blocks(f, hits);
            && Tidy(k, bs) && |Gathered(k, bs)| == Sum(f, hits)
            && AllPacked(f, Heavy(f, hits))
            && Tidy(k, Blocks(f, Heavy(f, hits))) && Gathered(k, Blocks(f, Heavy(f, hits))) == Gathered(k, bs)
            && Sum(f, Heavy(f, hits)) == Sum(f, hits)
    decreases hits
  {
    hide Payload, Whole, BlockCount, Leading;
    var k := f.shape.kind;
    if hits != [] {
      var x, b := hits[0], Payload(hits[0]);
      assert Whole(k, b);
      WholeIsLeading(k, b);
      assert AllWhole(f, hits[1..]);
      WholeBlocksTidy(f, hits[1..]);
      TidyHead(k, b, Blocks(f, hits[1..]));
    }
  }

  /** Whole packed blocks, empty ones included, read back as the elements of
      all of them in order, and the cached count is their number. */
  lemma {:induction false} WholeBlocksRead(f: Field, hits: seq<Rec>)
    requires f.shape.Numbers? && OwnRecords(f, hits) && AllWhole(f, hits)
    ensures Summary(f, hits).Ok?
    ensures ReadNumbers(f, hits) == Some(Gathered(f.shape.kind, Blocks(f, hits)))
    ensures Summary(f, hits).value.count == |Gathered(f.shape.kind, Blocks(f, hits))|
  {
    hide ReadNumbers, FoldOne, Blocks, Gathered, Tidy, Hits, Skip, Whole, Payload, Heavy;
    WholeBlocksTidy(f, hits);
    NumbersExact(f, hits);
    UncountedExact(f, Fresh(f.shape), 0, hits);
    OneForm(f, hits);
    PackedAccepted(f, hits);
  }

  lemma {:induction false} OneForm(f: Field, hits: seq<Rec>)
    requires f.shape.Numbers? && OwnRecords(f, hits) && AllPacked(f, hits)
    ensures AllExpanded(f, hits) ==>
              hits == [] && Elements(f.shape.kind, hits) == [] == Gathered(f.shape.kind, Blocks(f, hits))
  {
    hide Skip, Payload;
    if hits != [] {
      TwoForms(f, hits[0].tag);
      assert hits[0].tag == Tag(f.number, LEN);
    }
  }

  lemma {:induction false} PackedAccepted(f: Field, hits: seq<Rec>)
    requires f.shape.Numbers? && AllPacked(f, Heavy(f, hits))
    ensures Accepted(f, false, hits)
  {
    hide Heavy;
    if Heavy(f, hits) != [] {
      FormsHead(f, Heavy(f, hits));
    }
  }

  // ------------------------------------------------------ the form it misses

  /** `repeated int32` number 1, and a message of it: an empty packed block,
      then an expanded 5. */
  const LIST := Field(1, Numbers(Int32, Auto))
  const STRAY: seq<byte> := [0x0A, 0x00, 0x08, 0x05]

  lemma {:induction false} ParseOne(s: seq<byte>, x: Rec, rest: seq<Rec>)
    requires s != [] && ParseRec(s) == Ok(x) && Parse(s[x.Size()..]) == Ok(rest)
    ensures Parse(s) == Ok([x] + rest)
  {
    hide ParseRec;
  }

  lemma {:induction false} StrayParses(x: Rec, y: Rec)
    requires x == Rec(0x0A, 1, [0x00]) && y == Rec(0x08, 1, [0x05])
    ensures Parse(STRAY) == Ok([x, y])
    ensures Skip(x.body, LEN) == Ok(1) && Payload(x) == [] && Skip(y.body, VARINT) == Ok(1)
  {
    hide Decode, Parse;
    var tail: seq<byte> := [0x08, 0x05];
    OneByte(STRAY, W32);
    OneByte(STRAY[1..], W64);
    OneByte([0x00], W64);
    OneByte(tail, W32);
    OneByte([0x05], W64);
    assert STRAY[1..2] == [0x00] && STRAY[2..] == tail && tail[1..2] == [0x05] == tail[1..] && tail[2..] == [];
    NoRecords();
    assert ParseRec(tail) == Ok(y);
    ParseOne(tail, y, []);
    assert [y] + [] == [y];
    assert ParseRec(STRAY) == Ok(x) && x.Size() == 2;
    ParseOne(STRAY, x, [y]);
    assert [x] + [y] == [x, y];
  }

  lemma {:induction false} WeightOf(f: Field, x: Rec)
    requires f.shape.Numbers?
    ensures x.tag != Tag(f.number, LEN) ==> Weight(f, x) == 1
    ensures x.tag == Tag(f.number, LEN) && Payload(x) == [] ==> Weight(f, x) == 0
  {
    hide Payload;
    NothingCounted(f.shape.kind);
  }

  lemma {:induction false} StrayHeavy(f: Field, x: Rec, y: Rec)
    requires f.shape.Numbers?
    requires x.tag == Tag(f.number, LEN) && y.tag != Tag(f.number, LEN) && Payload(x) == []
    ensures Heavy(f, [x, y]) == [y] && Sum(f, [y]) == 1
  {
    hide Weight;
    WeightOf(f, x);
    WeightOf(f, y);
    assert [x, y][1..] == [y];
    assert Heavy(f, [y]) == [y];
    assert Sum(f, []) == 0 && [y][1..] == [];
  }

  /** Initialization takes the bytes and counts one element, but the iterator
      looks for it in packed blocks and fails. */
  lemma {:induction false} StrayExample()
    ensures Parse(STRAY).Ok? && OwnRecords(LIST, Parse(STRAY).value)
    ensures Summary(LIST, Parse(STRAY).value).Ok? && Summary(LIST, Parse(STRAY).value).value.count == 1
    ensures ReadNumbers(LIST, Parse(STRAY).value).None?
  {
    hide Decode, FoldOne, ReadNumbers, Skip, Parse, Heavy, Payload, Sum, Tidy, Blocks, Gathered;
    var x, y := Rec(0x0A, 1, [0x00]), Rec(0x08, 1, [0x05]);
    var hits := [x, y];
    StrayParses(x, y);
    StrayHeavy(LIST, x, y);
    assert hits[0] == x && hits[1] == y && [y][0] == y;
    UncountedExact(LIST, Fresh(LIST.shape), 0, hits);
    NumbersExact(LIST, hits);
  }
}
