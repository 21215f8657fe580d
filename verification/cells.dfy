// What a reader caches per field, and how scanning the bytes fills it in.
module Cells {
  import opened Bits
  import opened Options
  import opened Varint
  import opened Wire
  import opened Scalars
  import opened Records
  import opened Schema

  // ------------------------------------------------------------ one scalar

  datatype Read = Read(value: int, consumed: nat)

  /** Decodes a scalar of kind `k`; varints through the decoder of word `w`. */
  function ReadScalar(s: seq<byte>, k: Kind, w: Word): (r: Result<Read>)
    ensures r.Ok? ==> 1 <= r.value.consumed <= |s|
  {
    if k.WireType() == VARINT then
      match Decode(s, w)
      case Bad(e) => Err(e)
      case Good(raw, n) => Ok(Read(FromWire(k, raw), n))
    else
      var n := if k.WireType() == FIXED32 then 4 else 8;
      match DecodeWord(s, n)
      case Err(e) => Err(e)
      case Ok(raw) => Ok(Read(FromWire(k, raw), n))
  }

  /** Singular uint32, sint32 and bool fields use the five-byte decoder. */
  function FieldWord(k: Kind): Word {
    if k.Narrow() then W32 else W64
  }

  /** Bytes without the continuation bit. */
  function Terminators(s: seq<byte>): (n: nat)
    ensures n <= |s|
  {
    if s == [] then 0
    else Terminators(s[..|s| - 1]) + if s[|s| - 1] < 128 then 1 else 0
  }

  /** How many elements the reader believes a packed block holds. */
  function BlockCount(k: Kind, block: seq<byte>): nat {
    if k.WireType() == FIXED32 then |block| / 4
    else if k.WireType() == FIXED64 then |block| / 8
    else Terminators(block)
  }

  // --------------------------------------------------------------- the arms

  /** The members a reader struct has for one field. */
  datatype Cell =
    | IntCell(has: bool, value: int)
    | SpanCell(has: bool, off: nat, len: nat)
    | ListCell(has: bool, count: nat, first: nat)
    | PackCell(has: bool, count: nat, first: nat, packed: bool)

  function Fresh(shape: Shape): Cell {
    match shape
    case Single(_, _) => IntCell(false, 0)
    case Blob(_) => SpanCell(false, 0, 0)
    case Child(_) => SpanCell(false, 0, 0)
    case Numbers(_, _) => PackCell(false, 0, 0, false)
    case _ => ListCell(false, 0, 0)
  }

  predicate CellFits(shape: Shape, c: Cell) {
    match shape
    case Single(_, _) => c.IntCell?
    case Blob(_) => c.SpanCell?
    case Child(_) => c.SpanCell?
    case Numbers(_, _) => c.PackCell?
    case _ => c.ListCell?
  }

  /** The tags whose arm belongs to field `f`. */
  predicate Hits(f: Field, tag: nat) {
    match f.shape
    case Single(k, _) => tag == Tag(f.number, k.WireType())
    case Numbers(k, _) => tag == Tag(f.number, LEN) || tag == Tag(f.number, k.WireType())
    case _ => tag == Tag(f.number, LEN)
  }

  datatype Hit = Hit(cell: Cell, consumed: nat)

  /** The arm of `f` on payload `s`, which starts at offset `at` behind a tag of `head` bytes. */
  function Arm(f: Field, c: Cell, tag: nat, at: nat, head: nat, s: seq<byte>): (r: Result<Hit>)
    requires CellFits(f.shape, c) && Hits(f, tag) && head <= at
    ensures r.Ok? ==> CellFits(f.shape, r.value.cell) && 1 <= r.value.consumed <= |s|
  {
    match f.shape
    case Single(k, _) =>
      (match ReadScalar(s, k, FieldWord(k))
       case Err(e) => Err(e)
       case Ok(x) => Ok(Hit(IntCell(true, x.value), x.consumed)))
    case Numbers(k, _) =>
      if tag == Tag(f.number, LEN) then PackedArm(k, c, at - head, s) else ExpandedArm(k, c, at - head, s)
    case _ => DelimitedArm(c, at, s)
  }

  function DelimitedArm(c: Cell, at: nat, s: seq<byte>): (r: Result<Hit>)
    requires c.SpanCell? || c.ListCell?
    ensures r.Ok? ==> 1 <= r.value.consumed <= |s|
    ensures r.Ok? ==> r.value.cell.SpanCell? == c.SpanCell? && r.value.cell.ListCell? == c.ListCell?
  {
    match DecodeBytes(s)
    case Err(e) => Err(e)
    case Ok(x) =>
      Ok(Hit(if c.SpanCell? then SpanCell(true, at + x.consumed - |x.bytes|, |x.bytes|)
             else ListCell(true, c.count + 1, if c.count == 0 then at else c.first),
             x.consumed))
  }

  function PackedArm(k: Kind, c: Cell, start: nat, s: seq<byte>): (r: Result<Hit>)
    requires c.PackCell?
  {
    if c.count > 0 && !c.packed then Err(InvalidWireType)
    else
      match DecodeBytes(s)
      case Err(e) => Err(e)
      case Ok(x) =>
        var n := c.count + BlockCount(k, x.bytes);
        Ok(Hit(if c.count == 0 then PackCell(true, n, start, true) else PackCell(true, n, c.first, c.packed),
               x.consumed))
  }

  function ExpandedArm(k: Kind, c: Cell, start: nat, s: seq<byte>): (r: Result<Hit>)
    requires c.PackCell?
  {
    if c.count > 0 && c.packed then Err(InvalidWireType)
    else
      match SkipPlain(s, k.WireType())
      case Err(e) => Err(e)
      case Ok(n) =>
        Ok(Hit(PackCell(true, c.count + 1, if c.count == 0 then start else c.first, c.packed), n))
  }

  // ------------------------------------------------------------ the scan

  predicate CellsFit(fields: seq<Field>, cells: seq<Cell>) {
    |cells| == |fields| && forall i :: 0 <= i < |fields| ==> CellFits(fields[i].shape, cells[i])
  }

  function FreshCells(fields: seq<Field>): (cells: seq<Cell>)
    ensures CellsFit(fields, cells)
  {
    seq(|fields|, i requires 0 <= i < |fields| => Fresh(fields[i].shape))
  }

  /** The first field, in declaration order, with an arm for `tag`; |fields| if none. */
  function FindArm(fields: seq<Field>, tag: nat): (i: nat)
    ensures i <= |fields|
    ensures i < |fields| ==> Hits(fields[i], tag)
    ensures forall j :: 0 <= j < i ==> !Hits(fields[j], tag)
  {
    if fields == [] || Hits(fields[0], tag) then 0 else 1 + FindArm(fields[1..], tag)
  }

  /** The reader's loop from offset `off` on. */
  function Scan(fields: seq<Field>, cells: seq<Cell>, src: seq<byte>, off: nat): (r: Result<seq<Cell>>)
    requires CellsFit(fields, cells) && off <= |src|
    ensures r.Ok? ==> CellsFit(fields, r.value)
    decreases |src| - off
  {
    if off == |src| then Ok(cells)
    else
      match Decode(src[off..], W32)
      case Bad(e) => Err(e)
      case Good(tag, n) =>
        var at, i := off + n, FindArm(fields, tag);
        if i < |fields| then
          match Arm(fields[i], cells[i], tag, at, n, src[at..])
          case Err(e) => Err(e)
          case Ok(h) => Scan(fields, cells[i := h.cell], src, at + h.consumed)
        else if tag % 8 >= 6 then Err(InvalidWireType)
        else if tag / 8 == 0 then Err(InvalidFieldNum)
        else
          match Skip(src[at..], tag % 8)
          case Err(e) => Err(e)
          case Ok(k) => Scan(fields, cells, src, at + k)
  }

  // ---------------------------------------------- the same, record by record

  /** What the records of `rs`, starting at offset `off`, do to all cells. */
  function Fold(fields: seq<Field>, cells: seq<Cell>, off: nat, rs: seq<Rec>): (r: Result<seq<Cell>>)
    requires CellsFit(fields, cells)
    ensures r.Ok? ==> CellsFit(fields, r.value)
    decreases rs
  {
    if rs == [] then Ok(cells)
    else
      var x, i := rs[0], FindArm(fields, rs[0].tag);
      if i == |fields| then Fold(fields, cells, off + x.Size(), rs[1..])
      else
        match Arm(fields[i], cells[i], x.tag, off + x.head, x.head, x.body)
        case Err(e) => Err(e)
        case Ok(h) => Fold(fields, cells[i := h.cell], off + x.Size(), rs[1..])
  }

  /** What they do to the cell of one field, which sees only its own records. */
  function FoldOne(f: Field, c: Cell, off: nat, rs: seq<Rec>): (r: Result<Cell>)
    requires CellFits(f.shape, c)
    ensures r.Ok? ==> CellFits(f.shape, r.value)
    decreases rs
  {
    if rs == [] then Ok(c)
    else
      var x := rs[0];
      if !Hits(f, x.tag) then FoldOne(f, c, off + x.Size(), rs[1..])
      else
        match Arm(f, c, x.tag, off + x.head, x.head, x.body)
        case Err(e) => Err(e)
        case Ok(h) => FoldOne(f, h.cell, off + x.Size(), rs[1..])
  }

  /** Distinct numbers give the fields disjoint arms. */
  predicate Distinct(fields: seq<Field>) {
    forall i, j :: 0 <= i < j < |fields| ==> fields[i].number != fields[j].number
  }

  /** Arms only read tags of usable numbers. */
  predicate Numbered(fields: seq<Field>) {
    forall i :: 0 <= i < |fields| ==> 1 <= fields[i].number < 0x2000_0000
  }

  lemma {:induction false} HitsNumber(f: Field, tag: nat)
    requires Hits(f, tag)
    ensures tag / 8 == f.number && (tag % 8 <= 2 || tag % 8 == 5)
    ensures 1 <= f.number < 0x2000_0000 ==> GoodTag(tag)
  {
  }

  lemma {:induction false} ReadScalarSkips(s: seq<byte>, k: Kind, w: Word)
    requires ReadScalar(s, k, w).Ok?
    ensures SkipPlain(s, k.WireType()) == Ok(ReadScalar(s, k, w).value.consumed)
  {
    if k.WireType() == VARINT && w == W32 {
      NarrowAgreesWithWide(s);
    }
  }

  lemma {:induction false} ReadScalarLocal(s: seq<byte>, t: seq<byte>, k: Kind, w: Word)
    requires ReadScalar(s, k, w).Ok? && ReadScalar(s, k, w).value.consumed <= |t|
    requires s[..ReadScalar(s, k, w).value.consumed] == t[..ReadScalar(s, k, w).value.consumed]
    ensures ReadScalar(t, k, w) == ReadScalar(s, k, w)
  {
    if k.WireType() == VARINT {
      DecodeLocal(s, t, w);
    }
  }

  lemma {:induction false} DecodeBytesLocal(s: seq<byte>, t: seq<byte>)
    requires DecodeBytes(s).Ok? && DecodeBytes(s).value.consumed <= |t|
    requires s[..DecodeBytes(s).value.consumed] == t[..DecodeBytes(s).value.consumed]
    ensures DecodeBytes(t) == DecodeBytes(s)
  {
    var x := DecodeBytes(s).value;
    var n := x.consumed - |x.bytes|;
    PrefixTail(s, t, x.consumed, n);
    DecodeLocal(s, t, W64);
    assert t[n..x.consumed] == t[..x.consumed][n..] == s[..x.consumed][n..] == s[n..x.consumed];
  }

  /** An accepting arm consumes exactly the payload a skipper would, and reads no further. */
  lemma {:induction false} ArmLocal(f: Field, c: Cell, tag: nat, at: nat, head: nat, s: seq<byte>, t: seq<byte>)
    requires CellFits(f.shape, c) && Hits(f, tag) && head <= at
    requires Arm(f, c, tag, at, head, s).Ok? && Arm(f, c, tag, at, head, s).value.consumed <= |t|
    requires s[..Arm(f, c, tag, at, head, s).value.consumed] == t[..Arm(f, c, tag, at, head, s).value.consumed]
    ensures Arm(f, c, tag, at, head, t) == Arm(f, c, tag, at, head, s)
    ensures Skip(s, tag % 8) == Ok(Arm(f, c, tag, at, head, s).value.consumed)
  {
    hide Decode, FromWire, BlockCount;
    HitsNumber(f, tag);
    if f.shape.Single? {
      var k := f.shape.kind;
      ReadScalarSkips(s, k, FieldWord(k));
      ReadScalarLocal(s, t, k, FieldWord(k));
    } else if f.shape.Numbers? && tag != Tag(f.number, LEN) {
      SkipPlainLocal(s, t, f.shape.kind.WireType());
    } else {
      DecodeBytesLocal(s, t);
    }
  }
}
