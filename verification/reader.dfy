// The generated readers: an index of offsets and counts built in one pass over
// the bytes, and iterators that scan the bytes again.
module Reader {
  import opened Bits
  import opened Options
  import opened Varint
  import opened Wire
  import opened Scalars
  import opened Records
  import opened Schema
  import opened Cells
  import opened Scanning
  import opened Layout
  import opened Eager

  method ScalarDecode(buf: seq<byte>, k: Kind, w: Word) returns (r: Result<Read>)
    ensures r == ReadScalar(buf, k, w)
  {
    if k.WireType() == VARINT {
      var d := VarintDecode(buf, w);
      return if d.Bad? then Err(d.error) else Ok(Read(FromWire(k, d.value), d.consumed));
    }
    if k.WireType() == FIXED32 {
      var d := Fixed32Decode(buf);
      return if d.Err? then Err(d.error) else Ok(Read(FromWire(k, d.value), 4));
    }
    var d := Fixed64Decode(buf);
    return if d.Err? then Err(d.error) else Ok(Read(FromWire(k, d.value), 8));
  }

  /** `_bcnt`: the elements of a packed block. */
  method CountBlock(k: Kind, block: seq<byte>) returns (n: nat)
    ensures n == BlockCount(k, block)
  {
    if k.WireType() == FIXED32 {
      return |block| / 4;
    }
    if k.WireType() == FIXED64 {
      return |block| / 8;
    }
    n := 0;
    for i := 0 to |block|
      invariant n == Terminators(block[..i])
    {
      assert block[..i + 1][..i] == block[..i];
      if block[i] < 128 {
        n := n + 1;
      }
    }
    assert block[..|block|] == block;
  }

  class MessageReader {
    const sch: Schema
    const ty: nat
    var src: seq<byte>
    var cells: seq<Cell>

    constructor (sch: Schema, ty: nat)
      requires ty < |sch|
      ensures this.sch == sch && this.ty == ty
    {
      this.sch, this.ty := sch, ty;
      src, cells := [], [];
    }

    /** `T_reader_init`: returns the error, if any. */
    method InitFrom(buf: seq<byte>) returns (e: Option<Error>)
      requires ty < |sch|
      modifies this
      ensures src == buf
      ensures e == Fault(Init(sch, ty, buf))
      ensures e.None? ==> Init(sch, ty, buf) == Ok(cells)
    {
      hide Decode, Skip, Arm, FindArm;
      src, cells := buf, FreshCells(sch[ty]);
      var offset := 0;
      while offset < |src|
        invariant src == buf && offset <= |src| && CellsFit(sch[ty], cells)
        invariant Init(sch, ty, buf) == Scan(sch[ty], cells, src, offset)
        decreases |src| - offset
      {
        var t := VarintDecode(src[offset..], W32);
        if t.Bad? {
          return Some(t.error);
        }
        offset := offset + t.consumed;
        var i := ArmFor(t.value);
        if i < |sch[ty]| {
          var n: nat;
          e, n := RunArm(i, t.value, offset, t.consumed);
          if e.Some? {
            return;
          }
          offset := offset + n;
          continue;
        }
        var wt := t.value % 8;
        if wt == 6 || wt == 7 {
          return Some(InvalidWireType);
        }
        if t.value / 8 == 0 {
          return Some(InvalidFieldNum);
        }
        var sk := SkipData(src[offset..], wt);
        if sk.Err? {
          return Some(sk.error);
        }
        offset := offset + sk.value;
      }
      return None;
    }

    /** The first `if (t.value == ...)` that matches. */
    method ArmFor(tag: nat) returns (i: nat)
      requires ty < |sch|
      ensures i == FindArm(sch[ty], tag)
    {
      i := 0;
      var fields := sch[ty];
      assert fields[0..] == fields;
      while i < |fields| && !Hits(fields[i], tag)
        invariant i <= |fields| && FindArm(fields, tag) == i + FindArm(fields[i..], tag)
      {
        assert fields[i..][1..] == fields[i + 1..];
        i := i + 1;
      }
    }

    /** The arm of field `i` on the payload at `at`. */
    method RunArm(i: nat, tag: nat, at: nat, head: nat) returns (e: Option<Error>, consumed: nat)
      requires ty < |sch| && CellsFit(sch[ty], cells)
      requires i < |sch[ty]| && Hits(sch[ty][i], tag) && head <= at <= |src|
      modifies this`cells
      ensures var arm := Arm(sch[ty][i], old(cells[i]), tag, at, head, src[at..]);
              match arm
              case Err(x) => e == Some(x)
              case Ok(h) => e == None && consumed == h.consumed && cells == old(cells)[i := h.cell]
    {
      hide Decode, DecodeBytes, SkipPlain, BlockCount;
      consumed := 0;
      e := None;
      var f, c := sch[ty][i], cells[i];
      match f.shape
      case Single(k, _) =>
        var d := ScalarDecode(src[at..], k, FieldWord(k));
        if d.Err? {
          return Some(d.error), 0;
        }
        cells := cells[i := IntCell(true, d.value.value)];
        consumed := d.value.consumed;
      case Blob(_) =>
        e, consumed := SpanArm(i, at);
      case Child(_) =>
        e, consumed := SpanArm(i, at);
      case Numbers(k, _) =>
        if tag == Tag(f.number, LEN) {
          e, consumed := PackedOccurrence(i, k, at, head);
        } else {
          e, consumed := ExpandedOccurrence(i, k, at, head);
        }
      case Blobs =>
        e, consumed := ListArm(i, at);
      case Children(_) =>
        e, consumed := ListArm(i, at);
      case Table(_, _) =>
        e, consumed := ListArm(i, at);
    }

    method SpanArm(i: nat, at: nat) returns (e: Option<Error>, consumed: nat)
      requires i < |cells| && cells[i].SpanCell? && at <= |src|
      modifies this`cells
      ensures match DelimitedArm(old(cells[i]), at, src[at..])
              case Err(x) => e == Some(x)
              case Ok(h) => e == None && consumed == h.consumed && cells == old(cells)[i := h.cell]
    {
      hide DecodeBytes;
      var d := BytesDecode(src[at..]);
      if d.Err? {
        return Some(d.error), 0;
      }
      consumed := d.value.consumed;
      cells := cells[i := SpanCell(true, at + consumed - |d.value.bytes|, |d.value.bytes|)];
      e := None;
    }

    method ListArm(i: nat, at: nat) returns (e: Option<Error>, consumed: nat)
      requires i < |cells| && cells[i].ListCell? && at <= |src|
      modifies this`cells
      ensures match DelimitedArm(old(cells[i]), at, src[at..])
              case Err(x) => e == Some(x)
              case Ok(h) => e == None && consumed == h.consumed && cells == old(cells)[i := h.cell]
    {
      hide DecodeBytes;
      var c := cells[i];
      var first := if c.count == 0 then at else c.first;
      cells := cells[i := ListCell(true, c.count + 1, first)];
      var d := BytesDecode(src[at..]);
      if d.Err? {
        return Some(d.error), 0;
      }
      consumed := d.value.consumed;
      e := None;
    }

    method PackedOccurrence(i: nat, k: Kind, at: nat, head: nat) returns (e: Option<Error>, consumed: nat)
      requires i < |cells| && cells[i].PackCell? && head <= at <= |src|
      modifies this`cells
      ensures match PackedArm(k, old(cells[i]), at - head, src[at..])
              case Err(x) => e == Some(x)
              case Ok(h) => e == None && consumed == h.consumed && cells == old(cells)[i := h.cell]
    {
      hide DecodeBytes, BlockCount;
      var c := cells[i];
      if c.count > 0 && !c.packed {
        return Some(InvalidWireType), 0;
      }
      var d := BytesDecode(src[at..]);
      if d.Err? {
        return Some(d.error), 0;
      }
      var n := CountBlock(k, d.value.bytes);
      var first, packed := c.first, c.packed;
      if c.count == 0 {
        first, packed := at - head, true;
      }
      cells := cells[i := PackCell(true, c.count + n, first, packed)];
      consumed := d.value.consumed;
      e := None;
    }

    method ExpandedOccurrence(i: nat, k: Kind, at: nat, head: nat) returns (e: Option<Error>, consumed: nat)
      requires i < |cells| && cells[i].PackCell? && head <= at <= |src|
      requires k.WireType() != LEN
      modifies this`cells
      ensures match ExpandedArm(k, old(cells[i]), at - head, src[at..])
              case Err(x) => e == Some(x)
              case Ok(h) => e == None && consumed == h.consumed && cells == old(cells)[i := h.cell]
    {
      hide Decode;
      var c := cells[i];
      if c.count > 0 && c.packed {
        return Some(InvalidWireType), 0;
      }
      var d := PlainSkip(src[at..], k.WireType());
      if d.Err? {
        return Some(d.error), 0;
      }
      var first := if c.count == 0 then at - head else c.first;
      cells := cells[i := PackCell(true, c.count + 1, first, c.packed)];
      consumed := d.value;
      e := None;
    }
  }

  // -------------------------------------------------------------- getters
  // A missing reader and a field that was not on the wire read alike.

  method GetInt(r: MessageReader?, i: nat, default: int) returns (x: int)
    requires r != null ==> i < |r.cells| && r.cells[i].IntCell?
    ensures x == if r == null || !r.cells[i].has then default else r.cells[i].value
  {
    if r == null || !r.cells[i].has {
      return default;
    }
    return r.cells[i].value;
  }

  method GetBlob(r: MessageReader?, i: nat, preset: seq<byte>) returns (b: seq<byte>)
    requires r != null ==> i < |r.cells| && r.cells[i].SpanCell? && r.cells[i].off + r.cells[i].len <= |r.src|
    ensures b == if r == null || !r.cells[i].has then preset
                 else r.src[r.cells[i].off..r.cells[i].off + r.cells[i].len]
  {
    if r == null || !r.cells[i].has {
      return preset;
    }
    return r.src[r.cells[i].off..r.cells[i].off + r.cells[i].len];
  }

  /** Initializes `out` on the child's span, or on nothing. */
  method GetChild(r: MessageReader?, i: nat, out: MessageReader) returns (e: Option<Error>)
    requires r != null ==> i < |r.cells| && r.cells[i].SpanCell? && r.cells[i].off + r.cells[i].len <= |r.src|
    requires r != out && out.ty < |out.sch|
    modifies out
    ensures var s := if r == null || !r.cells[i].has then []
                     else r.src[r.cells[i].off..r.cells[i].off + r.cells[i].len];
            && out.src == s && e == Fault(Init(out.sch, out.ty, s))
            && (e.None? ==> Init(out.sch, out.ty, s) == Ok(out.cells))
  {
    if r == null || !r.cells[i].has {
      e := out.InitFrom([]);
    } else {
      e := out.InitFrom(r.src[r.cells[i].off..r.cells[i].off + r.cells[i].len]);
    }
  }

  method GetCount(r: MessageReader?, i: nat) returns (n: nat)
    requires r != null ==> i < |r.cells| && (r.cells[i].ListCell? || r.cells[i].PackCell?)
    ensures n == if r == null then 0 else r.cells[i].count
  {
    if r == null {
      return 0;
    }
    return r.cells[i].count;
  }
}
