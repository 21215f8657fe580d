// A caller that initializes a reader, calls every getter and drains every
// iterator, on any bytes: it gets what the reference reader gets.
module ReadBack {
  import opened Bits
  import opened Options
  import opened Varint
  import opened Wire
  import opened Scalars
  import opened Records
  import opened Schema
  import opened Cells
  import opened Scanning
  import opened Layout
  import opened Eager
  import opened Bridge
  import opened Reader
  import opened Iterators

  /** What an initialized reader's cell says about its field's records. */
  predicate CellTells(f: Field, src: seq<byte>, c: Cell, hits: seq<Rec>) {
    && CellFits(f.shape, c) && Summary(f, hits).Ok? && SameContent(c, Summary(f, hits).value)
    && (c.has <==> hits != [])
    && (c.SpanCell? && hits != [] ==> SpanHolds(src, c, Payload(hits[|hits| - 1])))
    && (c.SpanCell? && hits == [] ==> c.off == 0 && c.len == 0)
    && (c.ListCell? ==> c.count == |hits| && Whole(hits) && (hits != [] ==> ListAt(f, src, c.first, hits)))
    && (c.PackCell? && c.count > 0 ==>
          && RecordsAt(f, src, c.first, Heavy(f, hits))
          && (!c.packed ==> AllExpanded(f, hits) && Heavy(f, hits) == hits && c.count == |hits|))
  }

  /** The reader `r` was initialized on its bytes. */
  ghost predicate Ready(r: MessageReader)
    reads r
  {
    SchemaOk(r.sch) && r.ty < |r.sch| && Init(r.sch, r.ty, r.src) == Ok(r.cells)
  }

  lemma {:induction false} CellsTell(sch: Schema, ty: nat, src: seq<byte>, i: nat)
    requires SchemaOk(sch) && ty < |sch| && Init(sch, ty, src).Ok? && i < |sch[ty]|
    ensures Parse(src).Ok?
    ensures CellTells(sch[ty][i], src, Init(sch, ty, src).value[i], Only(sch[ty][i], Parse(src).value))
  {
    hide Init, Parse, FoldOne, Only, SpanHolds, ListAt, SameContent, RecordsAt;
    InitExact(sch, ty, src);
    var f, c := sch[ty][i], Init(sch, ty, src).value[i];
    var rs := Parse(src).value;
    var hits := Only(f, rs);
    assert src[0..] == src;
    CellSummary(f, src);
    if c.SpanCell? {
      SpanFold(f, Fresh(f.shape), src, 0);
    } else if c.ListCell? {
      ListFold(f, src, 0, Fresh(f.shape));
      HitsWhole(f, src);
    } else if c.PackCell? {
      PackFold(f, src, 0, Fresh(f.shape));
      if c.count > 0 && !c.packed {
        HitsSkip(f, src);
        UnpackedSummary(f, c, hits);
      }
    }
  }

  lemma {:induction false} UnpackedSummary(f: Field, c: Cell, hits: seq<Rec>)
    requires f.shape.Numbers? && c.PackCell? && !c.packed
    requires Summary(f, hits).Ok? && SameContent(c, Summary(f, hits).value)
    requires forall i :: 0 <= i < |hits| ==> Hits(f, hits[i].tag) && Skip(hits[i].body, hits[i].tag % 8) == Ok(|hits[i].body|)
    ensures AllExpanded(f, hits) && Heavy(f, hits) == hits && c.count == |hits|
  {
    hide FoldOne, Hits, Skip, Heavy, AllExpanded;
    UnpackedMeansExpanded(f, Fresh(f.shape), 0, hits);
    HeavyExpanded(f, hits);
  }

  lemma {:induction false} HitsWhole(f: Field, src: seq<byte>)
    requires Parse(src).Ok? && IsList(f)
    ensures Whole(Only(f, Parse(src).value))
  {
    hide Parse, DecodeBytes, Hits;
    var rs := Parse(src).value;
    var hits := Only(f, rs);
    forall i | 0 <= i < |hits|
      ensures DecodeBytes(hits[i].body).Ok? && DecodeBytes(hits[i].body).value.consumed == |hits[i].body|
    {
      var j :| 0 <= j < |rs| && rs[j] == hits[i];
      ParseBodies(src, j);
      HitsLen(f, hits[i].tag);
    }
  }

  lemma {:induction false} HitsSkip(f: Field, src: seq<byte>)
    requires Parse(src).Ok?
    ensures var hits := Only(f, Parse(src).value);
            forall i :: 0 <= i < |hits| ==> Hits(f, hits[i].tag) && Skip(hits[i].body, hits[i].tag % 8) == Ok(|hits[i].body|)
  {
    hide Parse, Skip, Hits;
    var rs := Parse(src).value;
    var hits := Only(f, rs);
    forall i | 0 <= i < |hits|
      ensures Skip(hits[i].body, hits[i].tag % 8) == Ok(|hits[i].body|)
    {
      var j :| 0 <= j < |rs| && rs[j] == hits[i];
      ParseBodies(src, j);
    }
  }

  lemma {:induction false} HitsSmaller(f: Field, src: seq<byte>)
    requires Parse(src).Ok?
    ensures Smaller(Parse(src).value, |src|)
    ensures Smaller(Only(f, Parse(src).value), |src|)
  {
    hide Parse, Hits;
    ParsedSmaller(src);
  }

  // ------------------------------------------------------------ the caller

  /** Reads back the message of type `ty` in `buf`. */
  method ReadMessage(sch: Schema, ty: nat, buf: seq<byte>) returns (t: Option<Tree>)
    requires SchemaOk(sch) && ty < |sch|
    ensures t == ReadTree(sch, ty, buf)
    decreases |buf|, 5
  {
    hide ReadTree, Init;
    var r := new MessageReader(sch, ty);
    var e := r.InitFrom(buf);
    if e.Some? {
      Unreadable(sch, ty, buf);
      return None;
    }
    t := ReadOut(r);
  }

  lemma {:induction false} Unreadable(sch: Schema, ty: nat, s: seq<byte>)
    requires SchemaOk(sch) && ty < |sch| && Init(sch, ty, s).Err?
    ensures ReadTree(sch, ty, s) == None
  {
    hide ReadTree, Init;
    if ReadTree(sch, ty, s).Some? {
      ReadNeedsInit(sch, ty, s);
    }
  }

  /** Reads an initialized reader out, field by field. */
  method ReadOut(r: MessageReader) returns (t: Option<Tree>)
    requires Ready(r)
    ensures t == ReadTree(r.sch, r.ty, r.src)
    decreases |r.src|, 4
  {
    hide Parse, ReadFields, Only, ReadField, Init;
    var sch, ty := r.sch, r.ty;
    InitExact(sch, ty, r.src);
    ghost var rs := Parse(r.src).value;
    ParsedSmaller(r.src);
    var vals: seq<Val<Tree>> := [];
    NoFields(sch, ty, rs, |r.src|);
    for i := 0 to |sch[ty]|
      invariant ReadFields(sch, ty, rs, |r.src|, i) == Some(vals)
    {
      var v := ReadOne(r, i);
      OneField(sch, ty, rs, |r.src|, i);
      if v.None? {
        FieldsFail(sch, ty, rs, |r.src|, |sch[ty]|, i);
        return None;
      }
      vals := vals + [v.value];
    }
    return Some(Tree(vals));
  }

  lemma {:induction false} NoFields(sch: Schema, ty: nat, rs: seq<Rec>, size: nat)
    requires SchemaOk(sch) && ty < |sch| && Smaller(rs, size)
    ensures ReadFields(sch, ty, rs, size, 0) == Some([])
  {
  }

  lemma {:induction false} OneField(sch: Schema, ty: nat, rs: seq<Rec>, size: nat, i: nat)
    requires SchemaOk(sch) && ty < |sch| && i < |sch[ty]| && Smaller(rs, size)
    ensures Smaller(Only(sch[ty][i], rs), size)
    ensures var vals := ReadFields(sch, ty, rs, size, i);
            var v := ReadField(sch, sch[ty][i], Only(sch[ty][i], rs), size);
            ReadFields(sch, ty, rs, size, i + 1) ==
            if vals.Some? && v.Some? then Some(vals.value + [v.value]) else None
  {
    hide ReadField, Hits;
  }

  lemma {:induction false} FieldsFail(sch: Schema, ty: nat, rs: seq<Rec>, size: nat, n: nat, i: nat)
    requires SchemaOk(sch) && ty < |sch| && i < n <= |sch[ty]| && Smaller(rs, size)
    requires ReadFields(sch, ty, rs, size, i + 1) == None
    ensures ReadFields(sch, ty, rs, size, n) == None
    decreases n
  {
    hide ReadField, Only;
    if n > i + 1 {
      FieldsFail(sch, ty, rs, size, n - 1, i);
    }
  }

  /** ReadField, family by family, for records its arm accepts. */
  lemma {:induction false} FieldUnfolds(sch: Schema, f: Field, hits: seq<Rec>, size: nat)
    requires SchemaOk(sch) && FieldOk(sch, f) && Smaller(hits, size) && Summary(f, hits).Ok?
    ensures var v := ReadField(sch, f, hits, size);
            match f.shape
            case Single(_, d) => v == Some(IntV(if hits == [] then d else Summary(f, hits).value.value))
            case Blob(d) => v == Some(BlobV(if hits == [] then d else Payload(hits[|hits| - 1])))
            case Child(ty) =>
              if hits == [] then v == Some(ChildV(None))
              else
                var t := ReadTree(sch, ty, Payload(hits[|hits| - 1]));
                v == if t.None? then None else Some(ChildV(t))
            case Numbers(_, _) => var xs := ReadNumbers(f, hits); v == if xs.None? then None else Some(IntsV(xs.value))
            case Blobs => v == Some(BlobsV(Payloads(hits)))
            case Children(ty) =>
              var cs := ReadChildren(sch, ty, hits, size, |hits|);
              v == if cs.None? then None else Some(ChildrenV(cs.value))
            case Table(key, val) =>
              var es := ReadTable(sch, key, val, hits, size, |hits|);
              v == if es.None? then None else Some(TableV(es.value))
  {
    hide Summary, Payload, Payloads, ReadTree, ReadNumbers, ReadChildren, ReadTable, Smaller, SchemaOk;
  }

  method ReadOne(r: MessageReader, i: nat) returns (v: Option<Val<Tree>>)
    requires Ready(r) && i < |r.sch[r.ty]|
    ensures var f := r.sch[r.ty][i];
            && Parse(r.src).Ok? && Smaller(Only(f, Parse(r.src).value), |r.src|)
            && v == ReadField(r.sch, f, Only(f, Parse(r.src).value), |r.src|)
    decreases |r.src|, 3
  {
    hide Parse, Only, Init, ReadTree, ReadNumbers, ReadChildren, ReadTable, FoldOne, ListAt, RecordsAt, Blocks, ReadBlocks,
         ReadField, Payload, Payloads, Summary, Heavy, AllExpanded, Smaller, Whole;
    var f := r.sch[r.ty][i];
    CellsTell(r.sch, r.ty, r.src, i);
    HitsSmaller(f, r.src);
    ghost var hits := Only(f, Parse(r.src).value);
    FieldUnfolds(r.sch, f, hits, |r.src|);
    match f.shape
    case Single(_, d) =>
      var x := GetInt(r, i, d);
      v := Some(IntV(x));
    case Blob(d) =>
      var b := GetBlob(r, i, d);
      v := Some(BlobV(b));
    case Child(ty) =>
      if !r.cells[i].has {
        return Some(ChildV(None));
      }
      var c := ReadSpan(r, i, ty, hits);
      v := if c.Some? then Some(ChildV(c)) else None;
    case Numbers(_, _) =>
      var xs := DrainNumbers(r, i, hits);
      v := if xs.Some? then Some(IntsV(xs.value)) else None;
    case Blobs =>
      var bs := DrainBlobs(r, i, hits);
      v := Some(BlobsV(bs));
    case Children(ty) =>
      var cs := DrainChildren(r, i, ty, hits);
      v := if cs.Some? then Some(ChildrenV(cs.value)) else None;
    case Table(key, val) =>
      var es := DrainTable(r, i, key, val, hits);
      v := if es.Some? then Some(TableV(es.value)) else None;
  }

  method ReadSpan(r: MessageReader, i: nat, ty: nat, ghost hits: seq<Rec>) returns (c: Option<Tree>)
    requires Ready(r) && ty < |r.sch| && i < |r.cells| && r.cells[i].SpanCell? && r.cells[i].has
    requires hits != [] && Smaller(hits, |r.src|) && SpanHolds(r.src, r.cells[i], Payload(hits[|hits| - 1]))
    ensures c == ReadTree(r.sch, ty, Payload(hits[|hits| - 1]))
    decreases |r.src|, 0
  {
    hide Init, ReadTree, Payload;
    var child := new MessageReader(r.sch, ty);
    var e := GetChild(r, i, child);
    if e.Some? {
      Unreadable(r.sch, ty, child.src);
      return None;
    }
    c := ReadOut(child);
  }

  method DrainNumbers(r: MessageReader, i: nat, ghost hits: seq<Rec>) returns (xs: Option<seq<int>>)
    requires r.ty < |r.sch| && i < |r.sch[r.ty]| && i < |r.cells|
    requires var f := r.sch[r.ty][i]; f.shape.Numbers? && CellTells(f, r.src, r.cells[i], hits)
    ensures xs == ReadNumbers(r.sch[r.ty][i], hits)
  {
    hide Summary, RecordsAt, ReadBlocks, Blocks, Elements, Heavy, AllExpanded, Parse, Only;
    var f := r.sch[r.ty][i];
    var it := new NumberIterator(f.number, f.shape.kind);
    it.Begin(r, i, f, Heavy(f, hits));
    var n := GetCount(r, i);
    xs := CallNext(it, n, f);
  }

  /** Calls `next` once for each element the reader counted. */
  method CallNext(it: NumberIterator, n: nat, ghost f: Field) returns (xs: Option<seq<int>>)
    requires it.Valid(f) && it.remaining == n
    modifies it`offset, it`blockEnd, it`remaining
    ensures xs == old(it.Left(f))
  {
    hide ReadBlocks, Blocks, Elements, AllExpanded, Parse, Only;
    ghost var all := it.Left(f);
    var got: seq<int> := [];
    assert all.Some? ==> [] + all.value == all.value;
    for j := 0 to n
      invariant it.Valid(f) && it.remaining == n - j && |got| == j
      invariant all == After(got, it.Left(f))
    {
      var e, x := it.Next(f);
      if e.Some? {
        return None;
      }
      AfterOne(got, x, it.Left(f));
      got := got + [x];
    }
    assert got + [] == got;
    return Some(got);
  }

  /** What was already read, in front of what is left. */
  function After(got: seq<int>, left: Option<seq<int>>): Option<seq<int>> {
    if left.Some? then Some(got + left.value) else None
  }

  lemma {:induction false} AfterOne(got: seq<int>, x: int, left: Option<seq<int>>)
    ensures After(got, Prepend(x, left)) == After(got + [x], left)
  {
    if left.Some? {
      assert got + ([x] + left.value) == got + [x] + left.value;
    }
  }

  method DrainBlobs(r: MessageReader, i: nat, ghost hits: seq<Rec>) returns (bs: seq<seq<byte>>)
    requires r.ty < |r.sch| && i < |r.sch[r.ty]| && i < |r.cells|
    requires var f := r.sch[r.ty][i]; f.shape.Blobs? && CellTells(f, r.src, r.cells[i], hits)
    ensures bs == Payloads(hits)
  {
    hide ListAt, Whole, Payload, Summary;
    var f := r.sch[r.ty][i];
    var it := new ListIterator(Tag(f.number, LEN));
    it.Begin(r, i, f, hits);
    var n := GetCount(r, i);
    bs := [];
    for j := 0 to n
      invariant it.At(f, hits[j..]) && bs == Payloads(hits[..j])
    {
      assert hits[j..][1..] == hits[j + 1..];
      var e, b := it.NextBlob(f, hits[j..]);
      if e.Some? {
        return;
      }
      bs := bs + [b];
    }
    assert hits[..n] == hits;
  }

  method DrainChildren(r: MessageReader, i: nat, ty: nat, ghost hits: seq<Rec>) returns (cs: Option<seq<Option<Tree>>>)
    requires Ready(r) && i < |r.sch[r.ty]| && i < |r.cells|
    requires var f := r.sch[r.ty][i]; f.shape == Children(ty) && CellTells(f, r.src, r.cells[i], hits)
    requires Smaller(hits, |r.src|) && ty < |r.sch|
    ensures cs == ReadChildren(r.sch, ty, hits, |r.src|, |hits|)
    decreases |r.src|, 2
  {
    hide ListAt, Whole, Payload, Summary, Init, ReadTree;
    var f := r.sch[r.ty][i];
    var it := new ListIterator(Tag(f.number, LEN));
    it.Begin(r, i, f, hits);
    var n := GetCount(r, i);
    var got: seq<Option<Tree>> := [];
    for j := 0 to n
      invariant it.At(f, hits[j..])
      invariant ReadChildren(r.sch, ty, hits, |r.src|, j) == Some(got)
    {
      assert hits[j..][1..] == hits[j + 1..];
      var child := new MessageReader(r.sch, ty);
      var e := it.NextChild(child, f, hits[j..]);
      if e.Some? {
        Unreadable(r.sch, ty, Payload(hits[j]));
        ChildrenFail(r.sch, ty, hits, |r.src|, n, j);
        return None;
      }
      var t := ReadOut(child);
      if t.None? {
        ChildrenFail(r.sch, ty, hits, |r.src|, n, j);
        return None;
      }
      got := got + [t];
    }
    return Some(got);
  }

  lemma {:induction false} ChildrenFail(sch: Schema, ty: nat, hits: seq<Rec>, size: nat, n: nat, j: nat)
    requires SchemaOk(sch) && ty < |sch| && j < n <= |hits| && Smaller(hits, size)
    requires ReadTree(sch, ty, Payload(hits[j])) == None
    ensures ReadChildren(sch, ty, hits, size, n) == None
    decreases n
  {
    hide ReadTree, Payload;
    if n > j + 1 {
      ChildrenFail(sch, ty, hits, size, n - 1, j);
    }
  }

  method DrainTable(r: MessageReader, i: nat, key: Slot, val: Slot, ghost hits: seq<Rec>)
    returns (es: Option<seq<Entry<Tree>>>)
    requires Ready(r) && i < |r.sch[r.ty]| && i < |r.cells|
    requires var f := r.sch[r.ty][i]; f.shape == Table(key, val) && CellTells(f, r.src, r.cells[i], hits)
    requires Smaller(hits, |r.src|) && !key.MessageSlot? && SlotOk(r.sch, val)
    ensures unchanged(r) && es == ReadTable(r.sch, key, val, hits, |r.src|, |hits|)
    decreases |r.src|, 2
  {
    hide ListAt, Whole, Payload, Summary, Init, ReadTree, ReadEntry;
    var f := r.sch[r.ty][i];
    var it := new ListIterator(Tag(f.number, LEN));
    it.Begin(r, i, f, hits);
    var n := GetCount(r, i);
    var got: seq<Entry<Tree>> := [];
    for j := 0 to n
      invariant it.At(f, hits[j..])
      invariant ReadTable(r.sch, key, val, hits, |r.src|, j) == Some(got)
    {
      assert hits[j..][1..] == hits[j + 1..];
      var t := DrainEntry(r, it, key, val, f, hits[j..]);
      if t.None? {
        TableFail(r.sch, key, val, hits, |r.src|, n, j);
        return None;
      }
      got := got + [t.value];
    }
    return Some(got);
  }

  method DrainEntry(r: MessageReader, it: ListIterator, key: Slot, val: Slot, ghost f: Field, ghost hits: seq<Rec>)
    returns (t: Option<Entry<Tree>>)
    requires SchemaOk(r.sch) && !key.MessageSlot? && SlotOk(r.sch, val)
    requires it.At(f, hits) && hits != [] && Smaller(hits, |r.src|)
    modifies it`offset, it`remaining
    ensures t == ReadEntry(r.sch, key, val, Payload(hits[0]))
    ensures t.Some? ==> it.At(f, hits[1..])
    decreases |r.src|, 1
  {
    hide ListAt, Whole, Payload, Init, ReadTree, ScanEntry;
    var child: MessageReader? := null;
    if val.MessageSlot? {
      child := new MessageReader(r.sch, val.ty);
    }
    ghost var s := Payload(hits[0]);
    var e, k, v := it.NextEntry(r.sch, key, val, child, f, hits);
    if ScanEntry(r.sch, key, val, s, BlankEntry(key, val)).Ok? {
      ScanEntrySmall(r.sch, key, val, s, BlankEntry(key, val), |s|);
      ScanEntryKind(r.sch, key, val, s, BlankEntry(key, val));
    }
    if e.Some? {
      EntryFails(r.sch, key, val, s);
      return None;
    }
    if val.MessageSlot? {
      var m := ReadOut(child);
      return if m.Some? then Some(Entry(FinishKey(k), MessageS(m))) else None;
    }
    return Some(Entry(FinishKey(k), FinishKey(v)));
  }

  /** The value slot keeps the form of its type. */
  predicate SlotForm(slot: Slot, v: SlotV<seq<byte>>) {
    match slot
    case ScalarSlot(_) => v.IntS?
    case BlobSlot => v.BlobS?
    case MessageSlot(_) => v.MessageS? && v.msg.Some?
  }

  lemma {:induction false} ScanEntryKind(sch: Schema, key: Slot, val: Slot, s: seq<byte>, e: RawEntry)
    requires SlotOk(sch, val) && SlotForm(val, e.val) && ScanEntry(sch, key, val, s, e).Ok?
    ensures SlotForm(val, ScanEntry(sch, key, val, s, e).value.val)
    decreases |s|
  {
    hide Decode, Skip, Replaced, SlotTag, ScanEntry, ReadScalar, DecodeBytes;
    if s == [] {
      ScanEntryDone(sch, key, val, e);
    } else {
      ScanEntryStep(sch, key, val, s, e);
      var tag, n := Decode(s, W32).value, Decode(s, W32).consumed;
      var rest := s[n..];
      if tag == SlotTag(1, key) {
        var r := ReadSlot(key, rest).value;
        ScanEntryKind(sch, key, val, rest[r.consumed..], e.(key := r.v));
      } else if tag == SlotTag(2, val) {
        var r := ReadSlot(val, rest).value;
        ScanEntryKind(sch, key, val, rest[r.consumed..], e.(val := r.v));
      } else {
        ScanEntryKind(sch, key, val, rest[Skip(rest, tag % 8).value..], e);
      }
    }
  }

  lemma {:induction false} EntryFails(sch: Schema, key: Slot, val: Slot, s: seq<byte>)
    requires SchemaOk(sch) && !key.MessageSlot? && SlotOk(sch, val)
    requires match ScanEntry(sch, key, val, s, BlankEntry(key, val))
             case Err(_) => true
             case Ok(raw) => Replaced(sch, val, raw.val).Some?
    ensures ReadEntry(sch, key, val, s) == None
  {
    hide ScanEntry, Init, ReadTree;
    var scan := ScanEntry(sch, key, val, s, BlankEntry(key, val));
    if scan.Ok? {
      Unreadable(sch, val.ty, scan.value.val.msg.value);
    }
  }

  lemma {:induction false} TableFail(sch: Schema, key: Slot, val: Slot, hits: seq<Rec>, size: nat, n: nat, j: nat)
    requires SchemaOk(sch) && !key.MessageSlot? && SlotOk(sch, val) && j < n <= |hits| && Smaller(hits, size)
    requires ReadEntry(sch, key, val, Payload(hits[j])) == None
    ensures ReadTable(sch, key, val, hits, size, n) == None
    decreases n
  {
    hide ReadEntry, Payload;
    if n > j + 1 {
      TableFail(sch, key, val, hits, size, n - 1, j);
    }
  }
}
