// The lazy iterators over repeated fields and maps. Each keeps an offset into
// the whole buffer and a count, and finds its next element by scanning.
module Iterators {
  import opened Bits
  import opened Options
  import opened Varint
  import opened Wire
  import opened Scalars
  import opened Records
  import opened Schema
  import opened Cells
  import opened Scanning
  import opened Layout
  import opened Eager
  import opened Bridge
  import opened Reader

  predicate IsList(f: Field) {
    f.shape.Blobs? || f.shape.Children? || f.shape.Table?
  }

  predicate Whole(hits: seq<Rec>) {
    forall i :: 0 <= i < |hits| ==>
      DecodeBytes(hits[i].body).Ok? && DecodeBytes(hits[i].body).value.consumed == |hits[i].body|
  }

  /** `src[at..]` starts with the first hit's payload: decoding there reads it. */
  lemma {:induction false} DecodeAt(f: Field, src: seq<byte>, at: nat, hits: seq<Rec>)
    requires ListAt(f, src, at, hits) && Whole(hits)
    ensures at <= |src| && DecodeBytes(src[at..]).Ok?
    ensures var d := DecodeBytes(src[at..]).value;
            d.bytes == Payload(hits[0]) && d.consumed == |hits[0].body|
  {
    var body := hits[0].body;
    assert src[at..][..|body|] == body == body[..|body|];
    DecodeBytesLocal(body, src[at..]);
  }

  /** One step over the record at `off`: its tag, and what the rest of the buffer holds. */
  lemma {:induction false} Step(f: Field, src: seq<byte>, off: nat) returns (x: Rec)
    requires off < |src| && Parse(src[off..]).Ok?
    ensures Decode(src[off..], W32) == Good(x.tag, x.head)
    ensures off + x.Size() <= |src| && Skip(src[off + x.head..], x.tag % 8) == Ok(|x.body|)
    ensures x.tag % 8 < 6 && x.body == src[off + x.head..off + x.Size()]
    ensures Skip(x.body, x.tag % 8) == Ok(|x.body|)
    ensures Parse(src[off + x.Size()..]).Ok?
    ensures var rs, rest := Parse(src[off..]).value, Parse(src[off + x.Size()..]).value;
            Only(f, rs) == (if Hits(f, x.tag) then [x] else []) + Only(f, rest)
  {
    hide Decode, Skip, Hits, Only;
    var s := src[off..];
    ParseHead(s);
    x := ParseRec(s).value;
    assert s[x.head..] == src[off + x.head..];
    assert s[x.Size()..] == src[off + x.Size()..];
    assert s[x.head..x.Size()] == src[off + x.head..off + x.Size()];
    var rs := Parse(s).value;
    assert rs[1..] == Parse(src[off + x.Size()..]).value;
    OnlyHead(f, rs);
  }

  // ----------------------------------------------------------------- lists

  class ListIterator {
    const tag: nat
    var src: seq<byte>
    var offset: nat
    var remaining: nat

    constructor (tag: nat)
      ensures this.tag == tag && src == [] && offset == 0 && remaining == 0
    {
      this.tag := tag;
      src, offset, remaining := [], 0, 0;
    }

    /** The iterator still has to yield `hits`. */
    ghost predicate At(f: Field, hits: seq<Rec>)
      reads this
    {
      && IsList(f) && tag == Tag(f.number, LEN)
      && offset <= |src| && remaining == |hits| && Whole(hits)
      && (hits != [] ==> ListAt(f, src, offset, hits))
    }

    /** `T_f_begin`, given the cell of field `f`. */
    method Begin(r: MessageReader, i: nat, ghost f: Field, ghost hits: seq<Rec>)
      requires IsList(f) && tag == Tag(f.number, LEN) && src == [] && offset == 0 && remaining == 0
      requires i < |r.cells| && r.cells[i].ListCell? && r.cells[i].count == |hits| && Whole(hits)
      requires hits != [] ==> ListAt(f, r.src, r.cells[i].first, hits)
      modifies this
      ensures At(f, hits)
    {
      if r.cells[i].count == 0 {
        return;
      }
      src := r.src;
      offset := r.cells[i].first;
      remaining := r.cells[i].count;
    }

    /** Scans forward to the next occurrence of the tag while elements remain. */
    method Advance(ghost f: Field, ghost hits: seq<Rec>) returns (e: Option<Error>)
      requires IsList(f) && tag == Tag(f.number, LEN)
      requires offset <= |src| && remaining == |hits| && Whole(hits)
      requires RecordsAt(f, src, offset, hits)
      modifies this`offset
      ensures e == None && At(f, hits)
    {
      hide Decode, Skip, Parse, Only, Whole;
      while remaining > 0 && offset < |src|
        invariant offset <= |src| && RecordsAt(f, src, offset, hits)
        decreases |src| - offset
      {
        ghost var x := Step(f, src, offset);
        var t := VarintDecode(src[offset..], W32);
        if t.Bad? {
          return BadVarint(t);
        }
        ghost var start := offset;
        offset := offset + t.consumed;
        if t.value == tag {
          Found(f, src, start, x, hits);
          return None;
        }
        var wt := t.value % 8;
        if wt == 6 || wt == 7 {
          return Some(InvalidWireType);
        }
        var sk := SkipData(src[offset..], wt);
        if sk.Err? {
          return Fault(sk);
        }
        offset := offset + sk.value;
      }
      if remaining > 0 {
        assert src[offset..] == [];
        NoRecords();
        OnlyNone(f, []);
      }
      return None;
    }

    /** The iterator's next span; reading ends where the scan found the next tag. */
    method NextBlob(ghost f: Field, ghost hits: seq<Rec>) returns (e: Option<Error>, out: seq<byte>)
      requires At(f, hits)
      modifies this`offset, this`remaining
      ensures e == None
      ensures hits == [] ==> out == [] && At(f, [])
      ensures hits != [] ==> out == Payload(hits[0]) && At(f, hits[1..])
    {
      hide DecodeBytes, Parse, Only;
      if remaining == 0 {
        return None, [];
      }
      DecodeAt(f, src, offset, hits);
      var d := BytesDecode(src[offset..]);
      if d.Err? {
        return Fault(d), [];
      }
      out := d.value.bytes;
      offset := offset + d.value.consumed;
      remaining := remaining - 1;
      e := Advance(f, hits[1..]);
    }

    /** As NextBlob, then initializes `out` on the span. */
    method NextChild(out: MessageReader, ghost f: Field, ghost hits: seq<Rec>) returns (e: Option<Error>)
      requires At(f, hits) && out.ty < |out.sch|
      modifies this`offset, this`remaining, out
      ensures var s := if hits == [] then [] else Payload(hits[0]);
              && out.src == s
              && e == Fault(Init(out.sch, out.ty, s))
              && (e.None? ==> Init(out.sch, out.ty, s) == Ok(out.cells))
      ensures At(f, if hits == [] then [] else hits[1..])
    {
      hide DecodeBytes, Parse, Only, Init;
      if remaining == 0 {
        e := out.InitFrom([]);
        return;
      }
      DecodeAt(f, src, offset, hits);
      var d := BytesDecode(src[offset..]);
      if d.Err? {
        e := Fault(d);
        return;
      }
      offset := offset + d.value.consumed;
      remaining := remaining - 1;
      e := Advance(f, hits[1..]);
      if e.Some? {
        return;
      }
      e := out.InitFrom(d.value.bytes);
    }

    /** Decodes an entry's key and value; a message value initializes `child`. */
    method NextEntry(sch: Schema, key: Slot, val: Slot, child: MessageReader?, ghost f: Field, ghost hits: seq<Rec>)
      returns (e: Option<Error>, k: SlotV<seq<byte>>, v: SlotV<seq<byte>>)
      requires At(f, hits) && hits != []
      requires SlotOk(sch, val) && !key.MessageSlot?
      requires val.MessageSlot? ==> child != null && child.sch == sch && child.ty == val.ty
      modifies this`offset, this`remaining, child
      ensures match ScanEntry(sch, key, val, Payload(hits[0]), BlankEntry(key, val))
              case Err(x) => e == Some(x)
              case Ok(raw) =>
                if Replaced(sch, val, raw.val).Some? then e == Replaced(sch, val, raw.val)
                else
                  && e == None && k == raw.key && v == raw.val && At(f, hits[1..])
                  && (val.MessageSlot? && v.MessageS? && v.msg.Some? ==>
                        child.src == v.msg.value && Init(sch, val.ty, v.msg.value) == Ok(child.cells))
    {
      hide DecodeBytes, Parse, Only, Init, ScanEntry;
      k, v := SlotDefault(key), SlotDefault(val);
      if val.MessageSlot? {
        e := child.InitFrom([]);
        EmptyInit(sch, val.ty);
      }
      DecodeAt(f, src, offset, hits);
      var d := BytesDecode(src[offset..]);
      if d.Err? {
        e := Fault(d);
        return;
      }
      offset := offset + d.value.consumed;
      remaining := remaining - 1;
      e, k, v := WalkEntry(sch, key, val, child, d.value.bytes);
      if e.Some? {
        return;
      }
      if val.MessageSlot? && v.MessageS? && v.msg.Some? {
        e := child.InitFrom(v.msg.value);
        EmptyInit(sch, val.ty);
        if e.Some? {
          return;
        }
      }
      e := Advance(f, hits[1..]);
    }
  }

  lemma {:induction false} EmptyInit(sch: Schema, ty: nat)
    requires ty < |sch|
    ensures Init(sch, ty, []) == Ok(FreshCells(sch[ty]))
  {
  }

  lemma {:induction false} Found(f: Field, src: seq<byte>, off: nat, x: Rec, hits: seq<Rec>)
    requires IsList(f) && x.tag == Tag(f.number, LEN)
    requires off + x.Size() <= |src| && x.body == src[off + x.head..off + x.Size()]
    requires Parse(src[off + x.Size()..]).Ok?
    requires hits == [x] + Only(f, Parse(src[off + x.Size()..]).value)
    ensures ListAt(f, src, off + x.head, hits)
  {
    hide Parse, Only;
  }

  /** The loop over an entry's inner tags. */
  method WalkEntry(sch: Schema, key: Slot, val: Slot, child: MessageReader?, ebuf: seq<byte>)
    returns (e: Option<Error>, k: SlotV<seq<byte>>, v: SlotV<seq<byte>>)
    requires SlotOk(sch, val) && !key.MessageSlot?
    requires val.MessageSlot? ==> child != null && child.sch == sch && child.ty == val.ty
    modifies child
    ensures match ScanEntry(sch, key, val, ebuf, BlankEntry(key, val))
            case Err(x) => e == Some(x)
            case Ok(raw) => e == None && k == raw.key && v == raw.val
  {
    hide Decode, Skip, ReadSlot, Replaced, ScanEntry, SlotTag;
    k, v := SlotDefault(key), SlotDefault(val);
    var eoff := 0;
    assert ebuf[0..] == ebuf;
    while eoff < |ebuf|
      invariant eoff <= |ebuf|
      invariant ScanEntry(sch, key, val, ebuf, BlankEntry(key, val)) == ScanEntry(sch, key, val, ebuf[eoff..], Entry(k, v))
      decreases |ebuf| - eoff
    {
      var at := ebuf[eoff..];
      ScanEntryStep(sch, key, val, at, Entry(k, v));
      var t := VarintDecode(at, W32);
      if t.Bad? {
        e := BadVarint(t);
        return;
      }
      assert at[t.consumed..] == ebuf[eoff + t.consumed..];
      eoff := eoff + t.consumed;
      if t.value == SlotTag(1, key) {
        var r := SlotDecode(key, ebuf[eoff..]);
        if r.Err? {
          e := Fault(r);
          return;
        }
        assert ebuf[eoff..][r.value.consumed..] == ebuf[eoff + r.value.consumed..];
        eoff := eoff + r.value.consumed;
        k := r.value.v;
        continue;
      }
      if t.value == SlotTag(2, val) {
        var r := SlotDecode(val, ebuf[eoff..]);
        if r.Err? {
          e := Fault(r);
          return;
        }
        assert ebuf[eoff..][r.value.consumed..] == ebuf[eoff + r.value.consumed..];
        eoff := eoff + r.value.consumed;
        e := CheckReplaced(sch, val, child, v);
        if e.Some? {
          return;
        }
        v := r.value.v;
        continue;
      }
      var wt := t.value % 8;
      if wt == 6 || wt == 7 {
        e := Some(InvalidWireType);
        return;
      }
      var sk := SkipData(ebuf[eoff..], wt);
      if sk.Err? {
        e := Fault(sk);
        return;
      }
      assert ebuf[eoff..][sk.value..] == ebuf[eoff + sk.value..];
      eoff := eoff + sk.value;
    }
    assert ebuf[eoff..] == [];
    ScanEntryDone(sch, key, val, Entry(k, v));
    e := None;
  }

  lemma {:induction false} ScanEntryDone(sch: Schema, key: Slot, val: Slot, e: RawEntry)
    requires SlotOk(sch, val)
    ensures ScanEntry(sch, key, val, [], e) == Ok(e)
  {
  }

  lemma {:induction false} ScanEntryStep(sch: Schema, key: Slot, val: Slot, s: seq<byte>, e: RawEntry)
    requires SlotOk(sch, val) && s != []
    ensures var d := Decode(s, W32);
            ScanEntry(sch, key, val, s, e) ==
            if d.Bad? then Err(d.error)
            else
              var rest := s[d.consumed..];
              if d.value == SlotTag(1, key) then
                match ReadSlot(key, rest)
                case Err(err) => Err(err)
                case Ok(r) => ScanEntry(sch, key, val, rest[r.consumed..], e.(key := r.v))
              else if d.value == SlotTag(2, val) then
                match ReadSlot(val, rest)
                case Err(err) => Err(err)
                case Ok(r) =>
                  if Replaced(sch, val, e.val).Some? then Err(Replaced(sch, val, e.val).value)
                  else ScanEntry(sch, key, val, rest[r.consumed..], e.(val := r.v))
              else if d.value % 8 >= 6 then Err(InvalidWireType)
              else
                match Skip(rest, d.value % 8)
                case Err(err) => Err(err)
                case Ok(k) => ScanEntry(sch, key, val, rest[k..], e)
  {
    hide Decode, Skip, ReadSlot, Replaced, SlotTag;
  }

  method SlotDecode(slot: Slot, buf: seq<byte>) returns (r: Result<SlotRead>)
    ensures r == ReadSlot(slot, buf)
  {
    if slot.ScalarSlot? {
      var d := ScalarDecode(buf, slot.kind, W64);
      return if d.Err? then Err(d.error) else Ok(SlotRead(IntS(d.value.value), d.value.consumed));
    }
    var d := BytesDecode(buf);
    return if d.Err? then Err(d.error)
           else Ok(SlotRead(if slot.BlobSlot? then BlobS(d.value.bytes) else MessageS(Some(d.value.bytes)),
                            d.value.consumed));
  }

  method CheckReplaced(sch: Schema, val: Slot, child: MessageReader?, v: SlotV<seq<byte>>) returns (e: Option<Error>)
    requires SlotOk(sch, val)
    requires val.MessageSlot? ==> child != null && child.sch == sch && child.ty == val.ty
    modifies child
    ensures e == Replaced(sch, val, v)
  {
    e := None;
    if val.MessageSlot? && v.MessageS? && v.msg.Some? && |v.msg.value| > 0 {
      e := child.InitFrom(v.msg.value);
    }
  }

  // --------------------------------------------------------------- numbers

  class NumberIterator {
    const number: nat
    const kind: Kind
    var src: seq<byte>
    var offset: nat
    var blockEnd: nat
    var remaining: nat
    var packed: bool

    constructor (number: nat, kind: Kind)
      ensures this.number == number && this.kind == kind
      ensures src == [] && offset == 0 && blockEnd == 0 && remaining == 0 && !packed
    {
      this.number, this.kind := number, kind;
      src, offset, blockEnd, remaining, packed := [], 0, 0, 0, false;
    }

    /** Where the current block ends and whole records begin again. */
    ghost function Base(): nat
      reads this
    {
      if blockEnd > offset then blockEnd else offset
    }

    ghost predicate Valid(f: Field)
      reads this
    {
      && f.shape.Numbers? && f.number == number && f.shape.kind == kind
      && offset <= |src| && blockEnd <= |src|
      && (remaining > 0 ==> Parse(src[Base()..]).Ok?)
      && (remaining > 0 && !packed ==>
            && blockEnd == 0
            && AllExpanded(f, Only(f, Parse(src[Base()..]).value))
            && |Only(f, Parse(src[Base()..]).value)| == remaining)
    }

    /** The elements still to come, or nothing if some call will fail. */
    ghost function Left(f: Field): Option<seq<int>>
      requires Valid(f)
      reads this
    {
      if remaining == 0 then Some([])
      else
        var hits := Only(f, Parse(src[Base()..]).value);
        if packed then ReadBlocks(kind, src[offset..Base()], Blocks(f, hits), remaining)
        else Some(Elements(kind, hits))
    }

    /** `T_f_begin` */
    method Begin(r: MessageReader, i: nat, ghost f: Field, ghost hits: seq<Rec>)
      requires f.shape.Numbers? && f.number == number && f.shape.kind == kind
      requires src == [] && offset == 0 && blockEnd == 0 && remaining == 0 && !packed
      requires i < |r.cells| && r.cells[i].PackCell?
      requires var c := r.cells[i];
               c.count > 0 ==>
                 && RecordsAt(f, r.src, c.first, hits)
                 && (!c.packed ==> AllExpanded(f, hits) && |hits| == c.count)
      modifies this
      ensures Valid(f) && remaining == r.cells[i].count
      ensures var c := r.cells[i];
              Left(f) == if c.count == 0 then Some([])
                         else if c.packed then ReadBlocks(kind, [], Blocks(f, hits), c.count)
                         else Some(Elements(kind, hits))
    {
      hide Parse, Only, ReadBlocks, Blocks;
      if r.cells[i].count == 0 {
        return;
      }
      src := r.src;
      offset := r.cells[i].first;
      remaining := r.cells[i].count;
      packed := r.cells[i].packed;
      assert src[offset..Base()] == [];
    }

    /** Finds the next packed block that holds any bytes. */
    method EnterBlock(ghost f: Field) returns (e: Option<Error>)
      requires Valid(f) && remaining > 0 && packed && blockEnd <= offset
      modifies this`offset, this`blockEnd
      ensures e.None? ==> Valid(f) && blockEnd > offset && Left(f) == old(Left(f))
      ensures e.Some? ==> old(Left(f)) == None
    {
      hide Decode, Skip, Parse, Only, ReadBlocks, Blocks, BlocksFrom;
      ghost var want := Left(f);
      BlocksAtRest(f, src, offset, kind, remaining);
      while offset < |src|
        invariant offset <= |src| && blockEnd <= offset
        invariant BlocksFrom(f, src, offset, kind, remaining, want)
        decreases |src| - offset
      {
        ghost var start := offset;
        ghost var x := OverRecord(f, src, start, kind, remaining, want);
        var t := VarintDecode(src[offset..], W32);
        if t.Bad? {
          return BadVarint(t);
        }
        offset := offset + t.consumed;
        if t.value == Tag(number, LEN) {
          BlockHere(f, src, start, x);
          var l := VarintDecode(src[offset..], W64);
          if l.Bad? {
            return BadVarint(l);
          }
          offset := offset + l.consumed;
          if l.value > |src| - offset {
            return Some(Truncated);
          }
          blockEnd := offset + l.value;
          if blockEnd > offset {
            break;
          }
          continue;
        }
        var wt := t.value % 8;
        if wt == 6 || wt == 7 {
          return Some(InvalidWireType);
        }
        var sk := SkipData(src[offset..], wt);
        if sk.Err? {
          return Fault(sk);
        }
        offset := offset + sk.value;
      }
      if blockEnd <= offset {
        NoBlocksLeft(f, src, offset, kind, remaining, want);
        return Some(Truncated);
      }
      return None;
    }

    /** The next element of the block the iterator is in. */
    method NextInBlock(ghost f: Field) returns (e: Option<Error>, out: int)
      requires Valid(f) && remaining > 0 && packed && blockEnd > offset
      modifies this`offset, this`blockEnd, this`remaining
      ensures e.None? ==> Valid(f) && remaining == old(remaining) - 1 && old(Left(f)) == Prepend(out, Left(f))
      ensures e.Some? ==> old(Left(f)) == None
    {
      hide Parse, Only, Blocks, ReadScalar, ReadBlocks;
      ghost var cur, blocks := src[offset..blockEnd], Blocks(f, Only(f, Parse(src[blockEnd..]).value));
      ReadBlocksStep(kind, cur, blocks, remaining);
      ReadBlocksDone(kind, [], blocks);
      var d := ScalarDecode(src[offset..blockEnd], kind, W64);
      if d.Err? {
        return Fault(d), 0;
      }
      assert cur[d.value.consumed..] == src[offset + d.value.consumed..blockEnd];
      out := d.value.value;
      offset := offset + d.value.consumed;
      remaining := remaining - 1;
      ghost var end := blockEnd;
      if offset >= blockEnd {
        blockEnd := 0;
      }
      assert Base() == end;
      return None, out;
    }

    method Next(ghost f: Field) returns (e: Option<Error>, out: int)
      requires Valid(f)
      modifies this`offset, this`blockEnd, this`remaining
      ensures old(remaining) == 0 ==> e == None && out == 0 && Valid(f) && Left(f) == Some([]) && remaining == 0
      ensures old(remaining) > 0 && e.None? ==>
                Valid(f) && remaining == old(remaining) - 1 && old(Left(f)) == Prepend(out, Left(f))
      ensures old(remaining) > 0 && e.Some? ==> old(Left(f)) == None
    {
      hide Parse, Only, Blocks, ReadBlocks, Elements;
      out := 0;
      if remaining == 0 {
        return None, 0;
      }
      if packed {
        if blockEnd <= offset {
          e := EnterBlock(f);
          if e.Some? {
            return;
          }
        }
        e, out := NextInBlock(f);
      } else {
        e, out := NextExpanded(f);
      }
    }

    method NextExpanded(ghost f: Field) returns (e: Option<Error>, out: int)
      requires Valid(f) && remaining > 0 && !packed
      modifies this`offset, this`remaining
      ensures e == None && Valid(f) && remaining == old(remaining) - 1 && old(Left(f)) == Prepend(out, Left(f))
    {
      hide Decode, Skip, Parse, Only, Blocks, ReadScalar, ReadBlocks, Elements;
      out := 0;
      while offset < |src|
        invariant Valid(f) && remaining == old(remaining) && Left(f) == old(Left(f))
        decreases |src| - offset
      {
        ghost var x := Step(f, src, offset);
        ghost var start := offset;
        var t := VarintDecode(src[offset..], W32);
        if t.Bad? {
          return BadVarint(t), 0;
        }
        offset := offset + t.consumed;
        if t.value == Tag(number, kind.WireType()) {
          ElementHere(f, src, start, x);
          ElementsFirst(kind, x, Only(f, Parse(src[start + x.Size()..]).value));
          TailExpanded(f, x, Only(f, Parse(src[start + x.Size()..]).value));
          var d := ScalarDecode(src[offset..], kind, W64);
          if d.Err? {
            return Fault(d), 0;
          }
          out := d.value.value;
          offset := offset + d.value.consumed;
          remaining := remaining - 1;
          return None, out;
        }
        var wt := t.value % 8;
        if wt == 6 || wt == 7 {
          return Some(InvalidWireType), 0;
        }
        var sk := SkipData(src[offset..], wt);
        if sk.Err? {
          return Fault(sk), 0;
        }
        offset := offset + sk.value;
        NotExpanded(f, x, Only(f, Parse(src[offset..]).value));
      }
      assert src[offset..] == [];
      NoRecords();
      OnlyNone(f, []);
      return Some(Truncated), 0;
    }
  }

  /** Reading on from offset `off`, between blocks, gives `want`. */
  predicate BlocksFrom(f: Field, src: seq<byte>, off: nat, k: Kind, count: nat, want: Option<seq<int>>) {
    && off <= |src| && Parse(src[off..]).Ok?
    && ReadBlocks(k, [], Blocks(f, Only(f, Parse(src[off..]).value)), count) == want
  }

  lemma {:induction false} BlocksAtRest(f: Field, src: seq<byte>, off: nat, k: Kind, count: nat)
    requires off <= |src| && Parse(src[off..]).Ok?
    ensures src[off..off] == []
    ensures BlocksFrom(f, src, off, k, count, ReadBlocks(k, [], Blocks(f, Only(f, Parse(src[off..]).value)), count))
  {
  }

  /** Past a record: other fields and empty blocks change nothing, and a block
      with bytes is where reading continues. */
  lemma {:induction false} OverRecord(f: Field, src: seq<byte>, off: nat, k: Kind, count: nat, want: Option<seq<int>>) returns (x: Rec)
    requires f.shape.Numbers? && off < |src| && count > 0 && BlocksFrom(f, src, off, k, count, want)
    ensures Decode(src[off..], W32) == Good(x.tag, x.head)
    ensures off + x.Size() <= |src| && Skip(src[off + x.head..], x.tag % 8) == Ok(|x.body|)
    ensures x.tag % 8 < 6 && x.body == src[off + x.head..off + x.Size()] && Skip(x.body, x.tag % 8) == Ok(|x.body|)
    ensures x.tag != Tag(f.number, LEN) || Payload(x) == [] ==> BlocksFrom(f, src, off + x.Size(), k, count, want)
    ensures Parse(src[off + x.Size()..]).Ok?
    ensures x.tag == Tag(f.number, LEN) ==>
              ReadBlocks(k, Payload(x), Blocks(f, Only(f, Parse(src[off + x.Size()..]).value)), count) == want
  {
    hide Decode, Skip, Parse, Only, ReadBlocks, Blocks, Hits;
    x := Step(f, src, off);
    var rest := Only(f, Parse(src[off + x.Size()..]).value);
    if x.tag == Tag(f.number, LEN) {
      PackedHits(f);
      BlocksFirst(f, x, rest);
      ReadBlocksNext(k, Payload(x), Blocks(f, rest), count);
    } else {
      OtherRecord(f, x, rest);
    }
  }

  lemma {:induction false} PackedHits(f: Field)
    ensures f.shape.Numbers? ==> Hits(f, Tag(f.number, LEN))
  {
  }

  lemma {:induction false} ReadBlocksNext(k: Kind, block: seq<byte>, blocks: seq<seq<byte>>, count: nat)
    requires count > 0
    ensures ReadBlocks(k, [], [block] + blocks, count) == ReadBlocks(k, block, blocks, count)
  {
    assert ([block] + blocks)[1..] == blocks;
  }

  lemma {:induction false} ReadBlocksStep(k: Kind, cur: seq<byte>, blocks: seq<seq<byte>>, count: nat)
    requires count > 0 && cur != []
    ensures ReadBlocks(k, cur, blocks, count) ==
            match ReadScalar(cur, k, W64)
            case Err(_) => None
            case Ok(x) => Prepend(x.value, ReadBlocks(k, cur[x.consumed..], blocks, count - 1))
  {
    hide ReadScalar;
  }

  lemma {:induction false} ReadBlocksDone(k: Kind, cur: seq<byte>, blocks: seq<seq<byte>>)
    ensures forall c :: ReadBlocks(k, c, blocks, 0) == Some([])
  {
  }

  /** A packed record's payload, as the iterator's own length decoding finds it. */
  lemma {:induction false} BlockHere(f: Field, src: seq<byte>, off: nat, x: Rec)
    requires x.tag == Tag(f.number, LEN) && off + x.Size() <= |src|
    requires x.body == src[off + x.head..off + x.Size()] && Skip(x.body, LEN) == Ok(|x.body|)
    ensures var d := Decode(src[off + x.head..], W64);
            && d.Good? && off + x.head + d.consumed + d.value == off + x.Size()
            && Payload(x) == src[off + x.head + d.consumed..off + x.Size()]
  {
    hide Decode;
    DelimitedWhole(x);
    var body := x.body;
    assert src[off + x.head..][..|body|] == body == body[..|body|];
    DecodeBytesLocal(body, src[off + x.head..]);
  }

  lemma {:induction false} BlocksFirst(f: Field, x: Rec, rest: seq<Rec>)
    ensures Blocks(f, [x] + rest) == (if x.tag == Tag(f.number, LEN) then [Payload(x)] else []) + Blocks(f, rest)
  {
    assert ([x] + rest)[1..] == rest;
  }

  lemma {:induction false} OtherRecord(f: Field, x: Rec, rest: seq<Rec>)
    requires x.tag != Tag(f.number, LEN)
    ensures Blocks(f, (if Hits(f, x.tag) then [x] else []) + rest) == Blocks(f, rest)
  {
    if Hits(f, x.tag) {
      BlocksFirst(f, x, rest);
      assert [] + Blocks(f, rest) == Blocks(f, rest);
    } else {
      assert [] + rest == rest;
    }
  }

  lemma {:induction false} NoBlocksLeft(f: Field, src: seq<byte>, off: nat, k: Kind, count: nat, want: Option<seq<int>>)
    requires off == |src| && count > 0 && BlocksFrom(f, src, off, k, count, want)
    ensures want == None
  {
    assert src[off..] == [];
  }

  lemma {:induction false} ElementHere(f: Field, src: seq<byte>, off: nat, x: Rec)
    requires f.shape.Numbers? && x.tag == Tag(f.number, f.shape.kind.WireType()) && off + x.Size() <= |src|
    requires x.body == src[off + x.head..off + x.Size()] && Skip(x.body, x.tag % 8) == Ok(|x.body|)
    ensures ReadScalar(src[off + x.head..], f.shape.kind, W64) == Ok(Read(Element(f.shape.kind, x), |x.body|))
    ensures Hits(f, x.tag)
  {
    hide Decode, FromWire;
    var k, body := f.shape.kind, x.body;
    assert src[off + x.head..][..|body|] == body == body[..|body|];
    WholeScalar(k, body);
    ReadScalarLocal(body, src[off + x.head..], k, W64);
  }

  /** A complete payload of the kind's wire type is one scalar. */
  lemma {:induction false} WholeScalar(k: Kind, body: seq<byte>)
    requires SkipPlain(body, k.WireType()) == Ok(|body|)
    ensures ReadScalar(body, k, W64).Ok? && ReadScalar(body, k, W64).value.consumed == |body|
  {
  }

  lemma {:induction false} ElementsFirst(k: Kind, x: Rec, rest: seq<Rec>)
    ensures Elements(k, [x] + rest) == [Element(k, x)] + Elements(k, rest)
  {
  }

  lemma {:induction false} TailExpanded(f: Field, x: Rec, rest: seq<Rec>)
    requires f.shape.Numbers? && AllExpanded(f, [x] + rest)
    ensures AllExpanded(f, rest)
  {
    forall i | 0 <= i < |rest|
      ensures rest[i].tag == Tag(f.number, f.shape.kind.WireType())
    {
      assert rest[i] == ([x] + rest)[i + 1];
    }
  }

  lemma {:induction false} HeadExpanded(f: Field, x: Rec, rest: seq<Rec>)
    requires f.shape.Numbers? && AllExpanded(f, [x] + rest)
    ensures x.tag == Tag(f.number, f.shape.kind.WireType())
  {
    assert ([x] + rest)[0] == x;
  }

  lemma {:induction false} NotExpanded(f: Field, x: Rec, rest: seq<Rec>)
    requires f.shape.Numbers? && x.tag != Tag(f.number, f.shape.kind.WireType())
    requires AllExpanded(f, (if Hits(f, x.tag) then [x] else []) + rest)
    ensures !Hits(f, x.tag) && [] + rest == rest
  {
    if Hits(f, x.tag) {
      HeadExpanded(f, x, rest);
    }
  }
}
