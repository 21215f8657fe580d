// The reference reader: parse everything into records first, then read each
// field off its own records. No offsets, counters or rescans.
module Eager {
  import opened Bits
  import opened Options
  import opened Varint
  import opened Wire
  import opened Scalars
  import opened Records
  import opened Schema
  import opened Cells
  import opened Scanning
  import opened Layout

  /** The field's cell, as its records alone determine it. */
  function Summary(f: Field, hits: seq<Rec>): (r: Result<Cell>)
    ensures r.Ok? ==> CellFits(f.shape, r.value)
  {
    FoldOne(f, Fresh(f.shape), 0, hits)
  }

  /** Initializing a reader of type `ty` on `s`. */
  function Init(sch: Schema, ty: nat, s: seq<byte>): (r: Result<seq<Cell>>)
    requires ty < |sch|
    ensures r.Ok? ==> CellsFit(sch[ty], r.value)
  {
    Scan(sch[ty], FreshCells(sch[ty]), s, 0)
  }

  // ----------------------------------------------------- repeated scalars

  function Prepend(x: int, r: Option<seq<int>>): Option<seq<int>> {
    if r.Some? then Some([x] + r.value) else None
  }

  /** Up to `count` elements from block `cur`, then from the blocks after it;
      nothing when the blocks run out or an element does not decode. */
  function ReadBlocks(k: Kind, cur: seq<byte>, blocks: seq<seq<byte>>, count: nat): (r: Option<seq<int>>)
    ensures r.Some? ==> |r.value| == count
    decreases count, |blocks|
  {
    if count == 0 then Some([])
    else if cur == [] then
      if blocks == [] then None else ReadBlocks(k, blocks[0], blocks[1..], count)
    else
      match ReadScalar(cur, k, W64)
      case Err(_) => None
      case Ok(x) => Prepend(x.value, ReadBlocks(k, cur[x.consumed..], blocks, count - 1))
  }

  /** The payloads of the packed occurrences. */
  function Blocks(f: Field, hits: seq<Rec>): seq<seq<byte>> {
    if hits == [] then []
    else (if hits[0].tag == Tag(f.number, LEN) then [Payload(hits[0])] else []) + Blocks(f, hits[1..])
  }

  /** The one element of an expanded occurrence. */
  function Element(k: Kind, x: Rec): int {
    match ReadScalar(x.body, k, W64)
    case Ok(r) => r.value
    case Err(_) => 0
  }

  function Elements(k: Kind, hits: seq<Rec>): (xs: seq<int>)
    ensures |xs| == |hits|
  {
    seq(|hits|, i requires 0 <= i < |hits| => Element(k, hits[i]))
  }

  function ReadNumbers(f: Field, hits: seq<Rec>): Option<seq<int>>
    requires f.shape.Numbers?
  {
    match Summary(f, hits)
    case Err(_) => None
    case Ok(c) =>
      if c.count == 0 then Some([])
      else if c.packed then ReadBlocks(f.shape.kind, [], Blocks(f, Heavy(f, hits)), c.count)
      else Some(Elements(f.shape.kind, hits))
  }

  // ------------------------------------------------------------ map entries

  /** A map entry whose message value is still bytes. */
  type RawEntry = Entry<seq<byte>>

  datatype SlotRead = SlotRead(v: SlotV<seq<byte>>, consumed: nat)

  function SlotTag(number: nat, slot: Slot): nat {
    Tag(number, if slot.ScalarSlot? then slot.kind.WireType() else LEN)
  }

  function SlotDefault(slot: Slot): SlotV<seq<byte>> {
    match slot
    case ScalarSlot(_) => IntS(0)
    case BlobSlot => BlobS([])
    case MessageSlot(_) => MessageS(Some([]))
  }

  /** Every varint in an entry goes through the ten-byte decoder. */
  function ReadSlot(slot: Slot, s: seq<byte>): (r: Result<SlotRead>)
    ensures r.Ok? ==> 1 <= r.value.consumed <= |s|
  {
    if slot.ScalarSlot? then
      match ReadScalar(s, slot.kind, W64)
      case Err(e) => Err(e)
      case Ok(x) => Ok(SlotRead(IntS(x.value), x.consumed))
    else
      match DecodeBytes(s)
      case Err(e) => Err(e)
      case Ok(c) => Ok(SlotRead(if slot.BlobSlot? then BlobS(c.bytes) else MessageS(Some(c.bytes)), c.consumed))
  }

  /** A nonempty message value that a later one replaces must still initialize. */
  function Replaced(sch: Schema, val: Slot, v: SlotV<seq<byte>>): (e: Option<Error>)
    requires SlotOk(sch, val)
  {
    if val.MessageSlot? && v.MessageS? && v.msg.Some? && v.msg.value != [] then
      match Init(sch, val.ty, v.msg.value)
      case Ok(_) => None
      case Err(e) => Some(e)
    else None
  }

  /** Walks the tags of an entry; `e` holds what was read so far. */
  function ScanEntry(sch: Schema, key: Slot, val: Slot, s: seq<byte>, e: RawEntry): (r: Result<RawEntry>)
    requires SlotOk(sch, val)
    decreases |s|
  {
    if s == [] then Ok(e)
    else
      match Decode(s, W32)
      case Bad(err) => Err(err)
      case Good(tag, n) =>
        var rest := s[n..];
        if tag == SlotTag(1, key) then
          match ReadSlot(key, rest)
          case Err(err) => Err(err)
          case Ok(r) => ScanEntry(sch, key, val, rest[r.consumed..], e.(key := r.v))
        else if tag == SlotTag(2, val) then
          match ReadSlot(val, rest)
          case Err(err) => Err(err)
          case Ok(r) =>
            if Replaced(sch, val, e.val).Some? then Err(Replaced(sch, val, e.val).value)
            else ScanEntry(sch, key, val, rest[r.consumed..], e.(val := r.v))
        else if tag % 8 >= 6 then Err(InvalidWireType)
        else
          match Skip(rest, tag % 8)
          case Err(err) => Err(err)
          case Ok(k) => ScanEntry(sch, key, val, rest[k..], e)
  }

  function BlankEntry(key: Slot, val: Slot): RawEntry {
    Entry(SlotDefault(key), SlotDefault(val))
  }

  lemma {:induction false} ScanEntrySmall(sch: Schema, key: Slot, val: Slot, s: seq<byte>, e: RawEntry, size: nat)
    requires SlotOk(sch, val) && |s| <= size
    requires SlotSmall(e.val, size) && ScanEntry(sch, key, val, s, e).Ok?
    ensures SlotSmall(ScanEntry(sch, key, val, s, e).value.val, size)
    decreases |s|
  {
    hide Decode, Skip, Replaced, SlotTag;
    if s != [] {
      var tag, n := Decode(s, W32).value, Decode(s, W32).consumed;
      var rest := s[n..];
      if tag == SlotTag(1, key) {
        var r := ReadSlot(key, rest).value;
        ScanEntrySmall(sch, key, val, rest[r.consumed..], e.(key := r.v), size);
      } else if tag == SlotTag(2, val) {
        var r := ReadSlot(val, rest).value;
        ReadSlotSmall(val, rest);
        ScanEntrySmall(sch, key, val, rest[r.consumed..], e.(val := r.v), size);
      } else {
        ScanEntrySmall(sch, key, val, rest[Skip(rest, tag % 8).value..], e, size);
      }
    }
  }

  predicate SlotSmall(v: SlotV<seq<byte>>, size: nat) {
    v.MessageS? && v.msg.Some? ==> |v.msg.value| <= size
  }

  lemma {:induction false} ReadSlotSmall(slot: Slot, s: seq<byte>)
    requires ReadSlot(slot, s).Ok?
    ensures SlotSmall(ReadSlot(slot, s).value.v, |s|)
  {
  }

  // ------------------------------------------------------------- messages

  predicate Smaller(rs: seq<Rec>, size: nat) {
    forall i :: 0 <= i < |rs| ==> |rs[i].body| < size
  }

  lemma {:induction false} ParsedSmaller(s: seq<byte>)
    requires Parse(s).Ok?
    ensures Smaller(Parse(s).value, |s|)
  {
    hide Parse;
    var rs := Parse(s).value;
    forall i | 0 <= i < |rs|
      ensures |rs[i].body| < |s|
    {
      ParseShorter(s, i);
    }
  }

  /** The message of type `ty` encoded by `s`, or nothing if some part of it
      does not read. */
  function ReadTree(sch: Schema, ty: nat, s: seq<byte>): Option<Tree>
    requires SchemaOk(sch) && ty < |sch|
    decreases |s|, 3, 0
  {
    match Parse(s)
    case Err(_) => None
    case Ok(rs) =>
      ParsedSmaller(s);
      match ReadFields(sch, ty, rs, |s|, |sch[ty]|)
      case None => None
      case Some(vals) => Some(Tree(vals))
  }

  function ReadFields(sch: Schema, ty: nat, rs: seq<Rec>, size: nat, n: nat): (r: Option<seq<Val<Tree>>>)
    requires SchemaOk(sch) && ty < |sch| && n <= |sch[ty]| && Smaller(rs, size)
    ensures r.Some? ==> |r.value| == n
    decreases size, 2, n
  {
    if n == 0 then Some([])
    else
      var f := sch[ty][n - 1];
      match ReadFields(sch, ty, rs, size, n - 1)
      case None => None
      case Some(vals) =>
        match ReadField(sch, f, Only(f, rs), size)
        case None => None
        case Some(v) => Some(vals + [v])
  }

  /** A field read off its own records `hits`. */
  function ReadField(sch: Schema, f: Field, hits: seq<Rec>, size: nat): Option<Val<Tree>>
    requires SchemaOk(sch) && FieldOk(sch, f) && Smaller(hits, size)
    decreases size, 1, 0
  {
    if Summary(f, hits).Err? then None
    else
      match f.shape
      case Single(k, d) =>
        Some(IntV(if hits == [] then d else Summary(f, hits).value.value))
      case Blob(d) =>
        Some(BlobV(if hits == [] then d else Payload(hits[|hits| - 1])))
      case Child(ty) =>
        if hits == [] then Some(ChildV(None))
        else
          (match ReadTree(sch, ty, Payload(hits[|hits| - 1]))
           case None => None
           case Some(t) => Some(ChildV(Some(t))))
      case Numbers(_, _) =>
        (match ReadNumbers(f, hits)
         case None => None
         case Some(xs) => Some(IntsV(xs)))
      case Blobs =>
        Some(BlobsV(Payloads(hits)))
      case Children(ty) =>
        (match ReadChildren(sch, ty, hits, size, |hits|)
         case None => None
         case Some(cs) => Some(ChildrenV(cs)))
      case Table(key, val) =>
        (match ReadTable(sch, key, val, hits, size, |hits|)
         case None => None
         case Some(es) => Some(TableV(es)))
  }

  function Payloads(hits: seq<Rec>): (bs: seq<seq<byte>>)
    ensures |bs| == |hits|
  {
    seq(|hits|, i requires 0 <= i < |hits| => Payload(hits[i]))
  }

  function ReadChildren(sch: Schema, ty: nat, hits: seq<Rec>, size: nat, n: nat): (r: Option<seq<Option<Tree>>>)
    requires SchemaOk(sch) && ty < |sch| && n <= |hits| && Smaller(hits, size)
    ensures r.Some? ==> |r.value| == n
    decreases size, 0, n
  {
    if n == 0 then Some([])
    else
      match ReadChildren(sch, ty, hits, size, n - 1)
      case None => None
      case Some(cs) =>
        match ReadTree(sch, ty, Payload(hits[n - 1]))
        case None => None
        case Some(t) => Some(cs + [Some(t)])
  }

  function ReadTable(sch: Schema, key: Slot, val: Slot, hits: seq<Rec>, size: nat, n: nat): (r: Option<seq<Entry<Tree>>>)
    requires SchemaOk(sch) && !key.MessageSlot? && SlotOk(sch, val) && n <= |hits| && Smaller(hits, size)
    ensures r.Some? ==> |r.value| == n
    decreases size, 0, n
  {
    if n == 0 then Some([])
    else
      match ReadTable(sch, key, val, hits, size, n - 1)
      case None => None
      case Some(es) =>
        match ReadEntry(sch, key, val, Payload(hits[n - 1]))
        case None => None
        case Some(e) => Some(es + [e])
  }

  function ReadEntry(sch: Schema, key: Slot, val: Slot, s: seq<byte>): Option<Entry<Tree>>
    requires SchemaOk(sch) && !key.MessageSlot? && SlotOk(sch, val)
    decreases |s|, 5, 0
  {
    match ScanEntry(sch, key, val, s, BlankEntry(key, val))
    case Err(_) => None
    case Ok(e) =>
      ScanEntrySmall(sch, key, val, s, BlankEntry(key, val), |s|);
      match FinishSlot(sch, val, e.val, |s|)
      case None => None
      case Some(v) => Some(Entry(FinishKey(e.key), v))
  }

  function FinishKey(k: SlotV<seq<byte>>): SlotV<Tree> {
    match k
    case IntS(x) => IntS(x)
    case BlobS(b) => BlobS(b)
    case MessageS(_) => MessageS(None)
  }

  function FinishSlot(sch: Schema, val: Slot, v: SlotV<seq<byte>>, size: nat): Option<SlotV<Tree>>
    requires SchemaOk(sch) && SlotOk(sch, val) && SlotSmall(v, size)
    decreases size, 4, 0
  {
    match v
    case IntS(x) => Some(IntS(x))
    case BlobS(b) => Some(BlobS(b))
    case MessageS(m) =>
      if val.MessageSlot? && m.Some? then
        match ReadTree(sch, val.ty, m.value)
        case None => None
        case Some(t) => Some(MessageS(Some(t)))
      else None
  }
}
