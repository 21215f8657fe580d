// The generated `_size` and `_encode_at`: one pass fills the size caches, the
// next writes the bytes and reads the caches for length prefixes.
module Encoder {
  import opened Bits
  import opened Options
  import opened Varint
  import opened Wire
  import opened Scalars
  import opened Schema
  import opened RoundTrip
  import opened Objects

  // ------------------------------------------------------------- sizes

  method VarintSize(v: nat) returns (n: nat)
    requires v < TWO_64
    ensures n == |Bytes(v)|
  {
    ClzIsCascade(v);
    CascadeIsLength(v);
    return SizeClz(v);
  }

  method Varint32Size(v: nat) returns (n: nat)
    requires v < TWO_32
    ensures n == |Bytes(v)|
  {
    CascadeIsLength(v);
    return SizeCascade32(v);
  }

  method ScalarSize(k: Kind, v: int) returns (n: nat)
    requires InRange(k, v)
    ensures n == |ScalarBytes(k, v)|
  {
    hide InRange, Bytes, ToWire;
    WireRoundTrip(k, v);
    if k.WireType() == FIXED32 {
      return 4;
    }
    if k.WireType() == FIXED64 {
      return 8;
    }
    if k.Bool? {
      BoolIsOneByte(v);
      return 1;
    }
    if k.Narrow() {
      n := Varint32Size(ToWire(k, v));
    } else {
      n := VarintSize(ToWire(k, v));
    }
  }

  lemma {:induction false} BoolIsOneByte(v: int)
    requires InRange(Bool, v)
    ensures |Bytes(ToWire(Bool, v))| == 1
  {
  }

  /** A length-delimited field of `len` payload bytes. */
  method DelimitedSize(number: nat, len: nat) returns (n: nat)
    requires 1 <= number < 0x2000_0000 && len < TWO_64
    ensures forall b: seq<byte> :: |b| == len ==> n == |Delimited(number, b)|
  {
    hide Bytes;
    var t := VarintSize(Tag(number, LEN));
    var p := VarintSize(len);
    return t + p + len;
  }

  /** `_payload`: the elements' bytes without their tags. */
  method PayloadSize(k: Kind, xs: seq<int>) returns (n: nat)
    requires AllInRange(k, xs)
    ensures n == |EncodeElements(k, xs, |xs|)|
  {
    hide InRange, ScalarBytes;
    if k.WireType() == FIXED32 || k.WireType() == FIXED64 {
      CountElements(k, xs, |xs|);
      return |xs| * (if k.WireType() == FIXED32 then 4 else 8);
    }
    n := 0;
    for i := 0 to |xs|
      invariant n == |EncodeElements(k, xs, i)|
    {
      var e := ScalarSize(k, xs[i]);
      n := n + e;
    }
  }

  lemma {:induction false} ExpandedLength(number: nat, k: Kind, xs: seq<int>, n: nat)
    requires n <= |xs|
    ensures |EncodeExpanded(number, k, xs, n)| == n * |Bytes(Tag(number, k.WireType()))| + |EncodeElements(k, xs, n)|
  {
    hide ScalarBytes, Bytes;
    if n > 0 {
      var t := |Bytes(Tag(number, k.WireType()))|;
      ExpandedLength(number, k, xs, n - 1);
      assert (n - 1) * t + t == n * t;
    }
  }

  lemma {:induction false} PayloadFits(number: nat, k: Kind, packing: Packing, xs: seq<int>)
    requires xs != []
    ensures packing != Expanded && !(packing == Auto && |xs| == 1) ==>
              |EncodeElements(k, xs, |xs|)| < |EncodeNumbers(number, k, packing, xs)|
  {
    hide EncodeElements, Bytes;
  }

  method SizeNumbers(number: nat, k: Kind, packing: Packing, xs: seq<int>) returns (n: nat)
    requires 1 <= number < 0x2000_0000 && AllInRange(k, xs)
    requires |EncodeNumbers(number, k, packing, xs)| < TWO_64
    ensures n == |EncodeNumbers(number, k, packing, xs)|
  {
    hide InRange, ScalarBytes, Bytes, EncodeElements, EncodeExpanded, Delimited;
    if |xs| == 0 {
      return 0;
    }
    if packing == Auto && |xs| == 1 {
      var t := VarintSize(Tag(number, k.WireType()));
      var e := ScalarSize(k, xs[0]);
      return t + e;
    }
    PayloadFits(number, k, packing, xs);
    var payload := PayloadSize(k, xs);
    if packing == Expanded {
      ExpandedLength(number, k, xs, |xs|);
      var t := VarintSize(Tag(number, k.WireType()));
      return |xs| * t + payload;
    }
    n := DelimitedSize(number, payload);
  }

  method SizeBlobs(number: nat, bs: seq<seq<byte>>) returns (n: nat)
    requires 1 <= number < 0x2000_0000 && |EncodeBlobs(number, bs, |bs|)| < TWO_64
    ensures n == |EncodeBlobs(number, bs, |bs|)|
  {
    hide Delimited;
    BoundedBlobs(number, bs);
    n := 0;
    for i := 0 to |bs|
      invariant n == |EncodeBlobs(number, bs, i)|
    {
      var d := DelimitedSize(number, |bs[i]|);
      n := n + d;
    }
  }

  // ------------------------------------------------------------- stores

  method StoreBytes(buf: array<byte>, off: nat, b: seq<byte>) returns (end: nat)
    requires off + |b| <= buf.Length
    modifies buf
    ensures end == off + |b| && Wrote(old(buf[..]), buf[..], off, b)
  {
    ghost var before := buf[..];
    for i := 0 to |b|
      invariant buf[..] == before[..off] + b[..i] + before[off + i..]
    {
      buf[off + i] := b[i];
    }
    assert b[..|b|] == b;
    return off + |b|;
  }

  method StoreScalar(buf: array<byte>, off: nat, k: Kind, v: int) returns (end: nat)
    requires InRange(k, v) && off + |ScalarBytes(k, v)| <= buf.Length
    modifies buf
    ensures end == off + |ScalarBytes(k, v)| && Wrote(old(buf[..]), buf[..], off, ScalarBytes(k, v))
  {
    hide InRange, Bytes, ToWire, LittleEndian, Wrote;
    if k.WireType() == FIXED32 {
      end := Fixed32EncodeAt(buf, off, ToWire(k, v));
    } else if k.WireType() == FIXED64 {
      end := Fixed64EncodeAt(buf, off, ToWire(k, v));
    } else {
      end := EncodeAt(buf, off, ToWire(k, v));
    }
  }

  /** A tag and the scalar behind it. */
  method StoreField(buf: array<byte>, off: nat, number: nat, k: Kind, v: int) returns (end: nat)
    requires InRange(k, v) && off + |Scalar(number, k, v)| <= buf.Length
    modifies buf
    ensures end == off + |Scalar(number, k, v)| && Wrote(old(buf[..]), buf[..], off, Scalar(number, k, v))
  {
    hide InRange, Bytes, ScalarBytes, Wrote;
    ghost var before := buf[..];
    end := EncodeAt(buf, off, Tag(number, k.WireType()));
    ghost var mid := buf[..];
    end := StoreScalar(buf, end, k, v);
    WroteMore(before, mid, buf[..], off, Bytes(Tag(number, k.WireType())), ScalarBytes(k, v));
  }

  /** A tag and a length prefix; the payload goes where it ends. */
  method StoreHeader(buf: array<byte>, off: nat, number: nat, len: nat) returns (end: nat)
    requires off + |Header(number, len)| <= buf.Length
    modifies buf
    ensures end == off + |Header(number, len)| && Wrote(old(buf[..]), buf[..], off, Header(number, len))
  {
    hide Bytes, Wrote;
    ghost var before := buf[..];
    end := EncodeAt(buf, off, Tag(number, LEN));
    ghost var mid := buf[..];
    end := EncodeAt(buf, end, len);
    WroteMore(before, mid, buf[..], off, Bytes(Tag(number, LEN)), Bytes(len));
  }

  function Header(number: nat, len: nat): seq<byte> {
    Bytes(Tag(number, LEN)) + Bytes(len)
  }

  lemma {:induction false} HeaderThenPayload(number: nat, b: seq<byte>)
    ensures Delimited(number, b) == Header(number, |b|) + b
  {
    hide Bytes;
  }

  method StoreBlob(buf: array<byte>, off: nat, number: nat, b: seq<byte>) returns (end: nat)
    requires off + |Delimited(number, b)| <= buf.Length
    modifies buf
    ensures end == off + |Delimited(number, b)| && Wrote(old(buf[..]), buf[..], off, Delimited(number, b))
  {
    hide Header, Wrote, Delimited;
    HeaderThenPayload(number, b);
    ghost var before := buf[..];
    end := StoreHeader(buf, off, number, |b|);
    ghost var mid := buf[..];
    end := StoreBytes(buf, end, b);
    WroteMore(before, mid, buf[..], off, Header(number, |b|), b);
  }

  method StoreExpanded(buf: array<byte>, off: nat, number: nat, k: Kind, xs: seq<int>) returns (end: nat)
    requires AllInRange(k, xs) && off + |EncodeExpanded(number, k, xs, |xs|)| <= buf.Length
    modifies buf
    ensures end == off + |EncodeExpanded(number, k, xs, |xs|)|
    ensures Wrote(old(buf[..]), buf[..], off, EncodeExpanded(number, k, xs, |xs|))
  {
    hide InRange, Scalar, Wrote;
    ghost var before := buf[..];
    WroteNothing(before, off);
    end := off;
    for i := 0 to |xs|
      invariant end == off + |EncodeExpanded(number, k, xs, i)|
      invariant Wrote(before, buf[..], off, EncodeExpanded(number, k, xs, i))
    {
      ghost var mid := buf[..];
      ExpandedPrefix(number, k, xs, i + 1);
      end := StoreField(buf, end, number, k, xs[i]);
      WroteMore(before, mid, buf[..], off, EncodeExpanded(number, k, xs, i), Scalar(number, k, xs[i]));
    }
  }

  lemma {:induction false} ExpandedPrefix(number: nat, k: Kind, xs: seq<int>, n: nat)
    requires n <= |xs|
    ensures |EncodeExpanded(number, k, xs, n)| <= |EncodeExpanded(number, k, xs, |xs|)|
    decreases |xs| - n
  {
    hide Scalar;
    if n < |xs| {
      ExpandedPrefix(number, k, xs, n + 1);
    }
  }

  method StoreElements(buf: array<byte>, off: nat, k: Kind, xs: seq<int>) returns (end: nat)
    requires AllInRange(k, xs) && off + |EncodeElements(k, xs, |xs|)| <= buf.Length
    modifies buf
    ensures end == off + |EncodeElements(k, xs, |xs|)|
    ensures Wrote(old(buf[..]), buf[..], off, EncodeElements(k, xs, |xs|))
  {
    hide InRange, ScalarBytes, Wrote;
    ghost var before := buf[..];
    WroteNothing(before, off);
    end := off;
    for i := 0 to |xs|
      invariant end == off + |EncodeElements(k, xs, i)|
      invariant Wrote(before, buf[..], off, EncodeElements(k, xs, i))
    {
      ghost var mid := buf[..];
      ElementsPrefix(k, xs, i + 1);
      end := StoreScalar(buf, end, k, xs[i]);
      WroteMore(before, mid, buf[..], off, EncodeElements(k, xs, i), ScalarBytes(k, xs[i]));
    }
  }

  lemma {:induction false} ElementsPrefix(k: Kind, xs: seq<int>, n: nat)
    requires n <= |xs|
    ensures |EncodeElements(k, xs, n)| <= |EncodeElements(k, xs, |xs|)|
    decreases |xs| - n
  {
    hide ScalarBytes;
    if n < |xs| {
      ElementsPrefix(k, xs, n + 1);
    }
  }

  method StoreNumbers(buf: array<byte>, off: nat, number: nat, k: Kind, packing: Packing, xs: seq<int>) returns (end: nat)
    requires 1 <= number < 0x2000_0000 && AllInRange(k, xs)
    requires off + |EncodeNumbers(number, k, packing, xs)| <= buf.Length
    modifies buf
    ensures end == off + |EncodeNumbers(number, k, packing, xs)|
    ensures Wrote(old(buf[..]), buf[..], off, EncodeNumbers(number, k, packing, xs))
  {
    hide InRange, Scalar, Wrote, EncodeExpanded, EncodeElements, Delimited, Header;
    ghost var before := buf[..];
    WroteNothing(before, off);
    if |xs| == 0 {
      return off;
    }
    if packing == Expanded {
      end := StoreExpanded(buf, off, number, k, xs);
      return;
    }
    if packing == Auto && |xs| == 1 {
      end := StoreField(buf, off, number, k, xs[0]);
      return;
    }
    ghost var block := EncodeElements(k, xs, |xs|);
    HeaderThenPayload(number, block);
    var payload := PayloadSize(k, xs);
    end := StoreHeader(buf, off, number, payload);
    ghost var mid := buf[..];
    end := StoreElements(buf, end, k, xs);
    WroteMore(before, mid, buf[..], off, Header(number, payload), block);
  }

  method StoreBlobs(buf: array<byte>, off: nat, number: nat, bs: seq<seq<byte>>) returns (end: nat)
    requires off + |EncodeBlobs(number, bs, |bs|)| <= buf.Length
    modifies buf
    ensures end == off + |EncodeBlobs(number, bs, |bs|)|
    ensures Wrote(old(buf[..]), buf[..], off, EncodeBlobs(number, bs, |bs|))
  {
    hide Delimited, Wrote;
    ghost var before := buf[..];
    WroteNothing(before, off);
    end := off;
    for i := 0 to |bs|
      invariant end == off + |EncodeBlobs(number, bs, i)|
      invariant Wrote(before, buf[..], off, EncodeBlobs(number, bs, i))
    {
      ghost var mid := buf[..];
      BlobsPrefix(number, bs, i + 1);
      end := StoreBlob(buf, end, number, bs[i]);
      WroteMore(before, mid, buf[..], off, EncodeBlobs(number, bs, i), Delimited(number, bs[i]));
    }
  }

  lemma {:induction false} BlobsPrefix(number: nat, bs: seq<seq<byte>>, n: nat)
    requires n <= |bs|
    ensures |EncodeBlobs(number, bs, n)| <= |EncodeBlobs(number, bs, |bs|)|
    decreases |bs| - n
  {
    hide Delimited;
    if n < |bs| {
      BlobsPrefix(number, bs, n + 1);
    }
  }

  // ------------------------------------------------------ the size pass

  lemma {:induction false} ImageIsFields(w: World, m: Message)
    requires Closed(w) && m in w.objs
    ensures var ts := TreeOf(w, m).vals;
            && |ts| == |w.sch[m.ty]| == |w.vals[m]|
            && Image(w, m) == EncodeFields(w.sch, w.sch[m.ty], ts, |ts|)
  {
    hide ValTrees, EncodeFields;
  }

  /** Field `i` of `m`: its value, its well-formedness, its share of the image. */
  lemma {:induction false} FieldAt(w: World, m: Message, i: nat)
    requires Closed(w) && m in w.objs && i < |w.vals[m]|
    ensures m.ty < |w.sch| && |w.vals[m]| == |w.sch[m.ty]| && m in w.rank
    ensures var f := w.sch[m.ty][i];
            && FieldOk(w.sch, f) && ValBelow(w, f.shape, w.vals[m][i], w.rank[m])
            && TreeOf(w, m).vals[i] == ValTree(w, f.shape, w.vals[m][i], w.rank[m])
            && |EncodeField(w.sch, f, TreeOf(w, m).vals[i])| <= |Image(w, m)|
    ensures var ts := TreeOf(w, m).vals;
            EncodeFields(w.sch, w.sch[m.ty], ts, i + 1) ==
            EncodeFields(w.sch, w.sch[m.ty], ts, i) + EncodeField(w.sch, w.sch[m.ty][i], ts[i])
    ensures var ts := TreeOf(w, m).vals;
            |EncodeFields(w.sch, w.sch[m.ty], ts, i + 1)| <= |Image(w, m)|
  {
    hide ValBelow, ValTree, EncodeField, FieldOk, EncodeFields;
    var ts := TreeOf(w, m).vals;
    ValTreesAt(w, w.sch[m.ty], w.vals[m], |w.vals[m]|, w.rank[m], i);
    FieldLength(w.sch, w.sch[m.ty], ts, |ts|, i);
    FieldsPrefix(w.sch, w.sch[m.ty], ts, i + 1);
    FieldsStep(w.sch, w.sch[m.ty], ts, i);
    ImageIsFields(w, m);
  }

  lemma {:induction false} FieldsStep(sch: Schema, fields: seq<Field>, vals: seq<Val<Tree>>, i: nat)
    requires i < |fields| == |vals|
    ensures EncodeFields(sch, fields, vals, i + 1) ==
              EncodeFields(sch, fields, vals, i) + EncodeField(sch, fields[i], vals[i])
  {
  }

  lemma {:induction false} FieldsPrefix(sch: Schema, fields: seq<Field>, vals: seq<Val<Tree>>, n: nat)
    requires n <= |fields| == |vals|
    ensures |EncodeFields(sch, fields, vals, n)| <= |EncodeFields(sch, fields, vals, |vals|)|
    decreases |vals| - n
  {
    hide EncodeField;
    if n < |vals| {
      FieldsPrefix(sch, fields, vals, n + 1);
    }
  }

  /** `T_size`: fills the caches of everything below `m` and of `m`. */
  method SizeOf(sch: Schema, m: Message, ghost w: World) returns (s: nat)
    requires sch == w.sch && Closed(w) && Current(w) && m in w.objs
    requires |Image(w, m)| < TWO_64
    modifies w.objs`size
    ensures s == m.size == |Image(w, m)|
    ensures Current(w) && Sized(w, m) && Kept(w)
    decreases w.rank[m], 6
  {
    hide Closed, Cached, Sized, EncodeFields, TreeOf, Image;
    s := 0;
    ghost var ts := TreeOf(w, m).vals;
    ImageIsFields(w, m);
    NoBytes(w, m);
    for i := 0 to |m.vals|
      invariant Current(w) && Kept(w)
      invariant s == |EncodeFields(sch, sch[m.ty], ts, i)|
      invariant forall c, j :: c in w.objs && 0 <= j < i && Refers(w.vals[m][j], c) ==> Sized(w, c)
    {
      FieldAt(w, m, i);
      var n := SizeField(sch, m, i, w);
      s := s + n;
    }
    WriteCache(m, s, w);
    KidsSized(w, m);
  }

  /** `m->_size = s`: every right cache stays right. */
  method WriteCache(m: Message, s: nat, ghost w: World)
    requires Closed(w) && Current(w) && m in w.objs && s == |Image(w, m)|
    modifies m`size
    ensures m.size == s && Current(w) && Cached(w, m) && Kept(w)
  {
    hide Closed, Image, Reaches;
    m.size := s;
  }

  lemma {:induction false} NoBytes(w: World, m: Message)
    requires Closed(w) && m in w.objs
    ensures m.ty < |w.sch| && |w.sch[m.ty]| == |TreeOf(w, m).vals|
    ensures EncodeFields(w.sch, w.sch[m.ty], TreeOf(w, m).vals, 0) == []
  {
  }

  lemma {:induction false} KidsSized(w: World, m: Message)
    requires Closed(w) && m in w.objs && Cached(w, m)
    requires forall c, j :: c in w.objs && 0 <= j < |w.vals[m]| && Refers(w.vals[m][j], c) ==> Sized(w, c)
    ensures Sized(w, m)
  {
    hide Closed, Cached, Sized, Refers;
    SizedFromChildren(w, m);
  }

  /** One field's contribution to `s`. */
  method SizeField(sch: Schema, m: Message, i: nat, ghost w: World) returns (n: nat)
    requires sch == w.sch && Closed(w) && Current(w) && m in w.objs && i < |w.vals[m]|
    requires |Image(w, m)| < TWO_64
    modifies w.objs`size
    ensures n == |EncodeField(sch, sch[m.ty][i], TreeOf(w, m).vals[i])|
    ensures Current(w) && Kept(w)
    ensures forall c :: c in w.objs && Refers(w.vals[m][i], c) ==> Sized(w, c)
    decreases w.rank[m], 5
  {
    hide Closed, Cached, Sized, TreeOf, Image, Scalar, Delimited, EncodeBlobs, EncodeNumbers, EncodeChildren, EncodeTable,
         Encode, InRange, Below, SlotBelow, OptTrees, EntryTrees;
    FieldAt(w, m, i);
    var f, v := sch[m.ty][i], m.vals[i];
    ghost var r := w.rank[m];
    n := 0;
    match f.shape
    case Single(k, d) =>
      if v.num != d {
        var t := VarintSize(Tag(f.number, k.WireType()));
        var e := ScalarSize(k, v.num);
        ScalarLength(f.number, k, v.num);
        n := t + e;
      }
    case Blob(d) =>
      if v.blob != d {
        PayloadShorter(f.number, v.blob);
        n := DelimitedSize(f.number, |v.blob|);
      }
    case Child(ty) =>
      if v.child.Some? {
        n := SizeChild(sch, f.number, ty, v.child, w, r);
      }
    case Numbers(k, p) =>
      n := SizeNumbers(f.number, k, p, v.ints);
    case Blobs =>
      n := SizeBlobs(f.number, v.blobs);
    case Children(ty) =>
      n := SizeChildren(sch, f.number, ty, v.children, w, r);
    case Table(key, val) =>
      n := SizeTable(sch, f.number, key, val, v.entries, w, r);
  }

  lemma {:induction false} ScalarLength(number: nat, k: Kind, v: int)
    ensures |Scalar(number, k, v)| == |Bytes(Tag(number, k.WireType()))| + |ScalarBytes(k, v)|
  {
  }

  /** A child slot: sizes the child, or counts an empty message. */
  method SizeChild(sch: Schema, number: nat, ty: nat, c: Option<Message>, ghost w: World, ghost r: nat) returns (n: nat)
    requires sch == w.sch && Closed(w) && Current(w) && Below(w, ty, c, r)
    requires 1 <= number < 0x2000_0000
    requires |Delimited(number, EncodeOrEmpty(sch, ty, OptTree(w, ty, c, r)))| < TWO_64
    modifies w.objs`size
    ensures n == |Delimited(number, EncodeOrEmpty(sch, ty, OptTree(w, ty, c, r)))|
    ensures Current(w) && Kept(w) && (c.Some? ==> Sized(w, c.value))
    decreases r, 0
  {
    hide Closed, Cached, Sized, TreeOf, Encode, Delimited;
    PayloadShorter(number, EncodeOrEmpty(sch, ty, OptTree(w, ty, c, r)));
    if c.Some? {
      var s := SizeOf(sch, c.value, w);
      n := DelimitedSize(number, s);
    } else {
      n := DelimitedSize(number, 0);
    }
  }

  lemma {:induction false} ChildrenStep(sch: Schema, number: nat, ty: nat, cs: seq<Option<Tree>>, i: nat)
    requires i < |cs|
    ensures EncodeChildren(sch, number, ty, cs, i + 1) ==
              EncodeChildren(sch, number, ty, cs, i) + Delimited(number, EncodeOrEmpty(sch, ty, cs[i]))
    ensures |EncodeChildren(sch, number, ty, cs, i + 1)| <= |EncodeChildren(sch, number, ty, cs, |cs|)|
  {
    hide Delimited, EncodeOrEmpty;
    var bs := ChildBytes(sch, ty, cs);
    ChildrenAreBlobs(sch, number, ty, cs, i + 1);
    ChildrenAreBlobs(sch, number, ty, cs, |cs|);
    BlobsPrefix(number, bs, i + 1);
  }

  method SizeChildren(sch: Schema, number: nat, ty: nat, cs: seq<Option<Message>>, ghost w: World, ghost r: nat) returns (n: nat)
    requires sch == w.sch && Closed(w) && Current(w) && 1 <= number < 0x2000_0000
    requires forall i :: 0 <= i < |cs| ==> Below(w, ty, cs[i], r)
    requires |EncodeChildren(sch, number, ty, OptTrees(w, ty, cs, |cs|, r), |cs|)| < TWO_64
    modifies w.objs`size
    ensures n == |EncodeChildren(sch, number, ty, OptTrees(w, ty, cs, |cs|, r), |cs|)|
    ensures Current(w) && Kept(w)
    ensures forall c :: c in w.objs && Some(c) in cs ==> Sized(w, c)
    decreases r, 1
  {
    hide Closed, Cached, Sized, TreeOf, Delimited, EncodeOrEmpty, OptTree, OptTrees, Below;
    ghost var ts := OptTrees(w, ty, cs, |cs|, r);
    n := 0;
    for i := 0 to |cs|
      invariant Current(w) && Kept(w)
      invariant n == |EncodeChildren(sch, number, ty, ts, i)|
      invariant forall c, j :: c in w.objs && 0 <= j < i && cs[j] == Some(c) ==> Sized(w, c)
    {
      OptTreesAt(w, ty, cs, |cs|, r, i);
      ChildrenStep(sch, number, ty, ts, i);
      var d := SizeChild(sch, number, ty, cs[i], w, r);
      n := n + d;
    }
  }

  lemma {:induction false} TableStep(sch: Schema, number: nat, key: Slot, val: Slot, es: seq<Entry<Tree>>, i: nat)
    requires i < |es|
    ensures EncodeTable(sch, number, key, val, es, i + 1) ==
              EncodeTable(sch, number, key, val, es, i) + Delimited(number, EncodeEntry(sch, key, val, es[i]))
    ensures |EncodeTable(sch, number, key, val, es, i + 1)| <= |EncodeTable(sch, number, key, val, es, |es|)|
  {
    hide Delimited, EncodeEntry;
    TableIsBlobs(sch, number, key, val, es, i + 1);
    TableIsBlobs(sch, number, key, val, es, |es|);
    BlobsPrefix(number, EntryBytes(sch, key, val, es), i + 1);
  }

  /** A key's or value's share of `_inner`; a message value is sized twice, as written. */
  method SizeSlot(sch: Schema, number: nat, slot: Slot, v: SlotV<Message>, ghost w: World, ghost r: nat) returns (n: nat)
    requires sch == w.sch && Closed(w) && Current(w) && 1 <= number <= 2 && SlotBelow(w, slot, v, r)
    requires |EncodeSlot(sch, number, slot, SlotTree(w, slot, v, r))| < TWO_64
    modifies w.objs`size
    ensures n == |EncodeSlot(sch, number, slot, SlotTree(w, slot, v, r))|
    ensures Current(w) && Kept(w)
    ensures forall c :: c in w.objs && v == MessageS(Some(c)) ==> Sized(w, c)
    decreases r, 0
  {
    hide Closed, Cached, Sized, TreeOf, Scalar, Delimited, Encode, InRange;
    match slot
    case ScalarSlot(k) =>
      var t := VarintSize(Tag(number, k.WireType()));
      var e := ScalarSize(k, v.num);
      ScalarLength(number, k, v.num);
      n := t + e;
    case BlobSlot =>
      PayloadShorter(number, v.blob);
      n := DelimitedSize(number, |v.blob|);
    case MessageSlot(ty) =>
      PayloadShorter(number, EncodeOrEmpty(sch, ty, OptTree(w, ty, v.msg, r)));
      var s1, s2 := 0, 0;
      if v.msg.Some? {
        s1 := SizeOf(sch, v.msg.value, w);
        s2 := SizeOf(sch, v.msg.value, w);
      }
      var t := VarintSize(Tag(number, LEN));
      var p := VarintSize(s1);
      DelimitedLength(number, EncodeOrEmpty(sch, ty, OptTree(w, ty, v.msg, r)));
      n := t + p + s2;
  }

  lemma {:induction false} DelimitedLength(number: nat, b: seq<byte>)
    ensures |Delimited(number, b)| == |Bytes(Tag(number, LEN))| + |Bytes(|b|)| + |b|
  {
    hide Bytes;
  }

  /** `_inner`: the payload of one entry. */
  method SizeEntry(sch: Schema, key: Slot, val: Slot, e: Entry<Message>, ghost w: World, ghost r: nat) returns (n: nat)
    requires sch == w.sch && Closed(w) && Current(w)
    requires SlotBelow(w, key, e.key, r) && SlotBelow(w, val, e.val, r)
    requires |EncodeEntry(sch, key, val, Entry(SlotTree(w, key, e.key, r), SlotTree(w, val, e.val, r)))| < TWO_64
    modifies w.objs`size
    ensures n == |EncodeEntry(sch, key, val, Entry(SlotTree(w, key, e.key, r), SlotTree(w, val, e.val, r)))|
    ensures Current(w) && Kept(w)
    ensures forall c :: c in w.objs && (e.key == MessageS(Some(c)) || e.val == MessageS(Some(c))) ==> Sized(w, c)
    decreases r, 1
  {
    hide Closed, Cached, Sized, EncodeSlot, SlotTree, SlotBelow;
    var k := SizeSlot(sch, 1, key, e.key, w, r);
    var v := SizeSlot(sch, 2, val, e.val, w, r);
    return k + v;
  }

  method SizeTable(sch: Schema, number: nat, key: Slot, val: Slot, es: seq<Entry<Message>>, ghost w: World, ghost r: nat) returns (n: nat)
    requires sch == w.sch && Closed(w) && Current(w) && 1 <= number < 0x2000_0000
    requires forall i :: 0 <= i < |es| ==> SlotBelow(w, key, es[i].key, r) && SlotBelow(w, val, es[i].val, r)
    requires |EncodeTable(sch, number, key, val, EntryTrees(w, key, val, es, |es|, r), |es|)| < TWO_64
    modifies w.objs`size
    ensures n == |EncodeTable(sch, number, key, val, EntryTrees(w, key, val, es, |es|, r), |es|)|
    ensures Current(w) && Kept(w)
    ensures forall c, i :: c in w.objs && 0 <= i < |es| && es[i].val == MessageS(Some(c)) ==> Sized(w, c)
    decreases r, 2
  {
    hide Closed, Cached, Sized, Delimited, EncodeEntry, SlotTree, EntryTrees, SlotBelow;
    ghost var ts := EntryTrees(w, key, val, es, |es|, r);
    n := 0;
    for i := 0 to |es|
      invariant Current(w) && Kept(w)
      invariant n == |EncodeTable(sch, number, key, val, ts, i)|
      invariant forall c, j :: c in w.objs && 0 <= j < i && es[j].val == MessageS(Some(c)) ==> Sized(w, c)
    {
      EntryTreesAt(w, key, val, es, |es|, r, i);
      TableStep(sch, number, key, val, ts, i);
      PayloadShorter(number, EncodeEntry(sch, key, val, ts[i]));
      var inner := SizeEntry(sch, key, val, es[i], w, r);
      var d := DelimitedSize(number, inner);
      n := n + d;
    }
  }

  // ---------------------------------------------------- the encode pass

  /** The child of a slot of `m` is below it, and so was sized with it. */
  lemma {:induction false} ReferredSized(w: World, m: Message, i: nat, c: Message)
    requires Closed(w) && m in w.objs && i < |w.vals[m]| && Refers(w.vals[m][i], c) && Sized(w, m)
    requires c in w.objs && w.rank[c] < w.rank[m]
    ensures Sized(w, c) && Cached(w, c)
  {
    hide Closed, Refers;
    SizedChild(w, m, c);
  }

  /** `T_encode_at` */
  method WriteMessage(sch: Schema, m: Message, buf: array<byte>, off: nat, ghost w: World) returns (end: nat)
    requires sch == w.sch && Closed(w) && Current(w) && m in w.objs && Sized(w, m)
    requires |Image(w, m)| < TWO_64 && off + |Image(w, m)| <= buf.Length
    modifies buf, w.objs`size
    ensures end == off + |Image(w, m)| && Wrote(old(buf[..]), buf[..], off, Image(w, m))
    ensures Current(w) && Kept(w)
    decreases w.rank[m], 6
  {
    hide Closed, Cached, Sized, EncodeFields, EncodeField, TreeOf, Image, Wrote;
    ghost var ts := TreeOf(w, m).vals;
    ghost var before := buf[..];
    ImageIsFields(w, m);
    NoBytes(w, m);
    WroteNothing(before, off);
    end := off;
    for i := 0 to |m.vals|
      invariant Current(w) && Kept(w) && Sized(w, m)
      invariant end == off + |EncodeFields(sch, sch[m.ty], ts, i)|
      invariant Wrote(before, buf[..], off, EncodeFields(sch, sch[m.ty], ts, i))
    {
      FieldAt(w, m, i);
      ghost var mid := buf[..];
      end := WriteField(sch, m, i, buf, end, w);
      WroteMore(before, mid, buf[..], off, EncodeFields(sch, sch[m.ty], ts, i), EncodeField(sch, sch[m.ty][i], ts[i]));
    }
  }

  method WriteField(sch: Schema, m: Message, i: nat, buf: array<byte>, off: nat, ghost w: World) returns (end: nat)
    requires sch == w.sch && Closed(w) && Current(w) && m in w.objs && i < |w.vals[m]| && Sized(w, m)
    requires |Image(w, m)| < TWO_64
    requires off + |EncodeField(sch, sch[m.ty][i], TreeOf(w, m).vals[i])| <= buf.Length
    modifies buf, w.objs`size
    ensures var bytes := EncodeField(sch, sch[m.ty][i], TreeOf(w, m).vals[i]);
            end == off + |bytes| && Wrote(old(buf[..]), buf[..], off, bytes)
    ensures Current(w) && Kept(w)
    decreases w.rank[m], 5
  {
    hide Closed, Cached, Sized, TreeOf, Image, Scalar, Delimited, EncodeBlobs, EncodeNumbers, EncodeChildren, EncodeTable,
         Encode, InRange, SlotBelow, OptTrees, EntryTrees, Wrote;
    FieldAt(w, m, i);
    var f, v := sch[m.ty][i], m.vals[i];
    ghost var r := w.rank[m];
    WroteNothing(buf[..], off);
    end := off;
    match f.shape
    case Single(k, d) =>
      if v.num != d {
        end := StoreField(buf, off, f.number, k, v.num);
      }
    case Blob(d) =>
      if v.blob != d {
        end := StoreBlob(buf, off, f.number, v.blob);
      }
    case Child(ty) =>
      if v.child.Some? {
        ReferredSized(w, m, i, v.child.value);
        end := WriteChild(sch, f.number, ty, v.child, buf, off, w, r);
      }
    case Numbers(k, p) =>
      end := StoreNumbers(buf, off, f.number, k, p, v.ints);
    case Blobs =>
      end := StoreBlobs(buf, off, f.number, v.blobs);
    case Children(ty) =>
      ChildrenSized(w, m, i, ty);
      end := WriteChildren(sch, f.number, ty, v.children, buf, off, w, r);
    case Table(key, val) =>
      EntriesSized(w, m, i, key, val);
      end := WriteTable(sch, f.number, key, val, v.entries, buf, off, w, r);
  }

  lemma {:induction false} ChildrenSized(w: World, m: Message, i: nat, ty: nat)
    requires Closed(w) && m in w.objs && i < |w.vals[m]| && Sized(w, m)
    requires ValBelow(w, Children(ty), w.vals[m][i], w.rank[m])
    ensures forall j :: 0 <= j < |w.vals[m][i].children| ==>
              var c := w.vals[m][i].children[j]; c.Some? ==> c.value in w.objs && Sized(w, c.value)
  {
    hide Sized, Cached;
    var cs := w.vals[m][i].children;
    forall j | 0 <= j < |cs| && cs[j].Some?
      ensures cs[j].value in w.objs && Sized(w, cs[j].value)
    {
      assert Below(w, ty, cs[j], w.rank[m]);
      ReferredSized(w, m, i, cs[j].value);
    }
  }

  lemma {:induction false} EntriesSized(w: World, m: Message, i: nat, key: Slot, val: Slot)
    requires Closed(w) && m in w.objs && i < |w.vals[m]| && Sized(w, m)
    requires ValBelow(w, Table(key, val), w.vals[m][i], w.rank[m])
    ensures forall j :: 0 <= j < |w.vals[m][i].entries| ==> SlotSized(w, w.vals[m][i].entries[j].val)
  {
    hide Sized, Cached, InRange;
    var es := w.vals[m][i].entries;
    forall j | 0 <= j < |es|
      ensures SlotSized(w, es[j].val)
    {
      if es[j].val.MessageS? && es[j].val.msg.Some? {
        assert SlotBelow(w, val, es[j].val, w.rank[m]);
        ReferredSized(w, m, i, es[j].val.msg.value);
      }
    }
  }

  /** A message value was sized before. */
  ghost predicate SlotSized(w: World, v: SlotV<Message>)
    requires Closed(w)
    reads w.objs`size
  {
    v.MessageS? && v.msg.Some? ==> v.msg.value in w.objs && Sized(w, v.msg.value)
  }

  /** Tag, cached length, and the child's own bytes; an empty payload for null. */
  method WriteChild(sch: Schema, number: nat, ty: nat, c: Option<Message>, buf: array<byte>, off: nat, ghost w: World, ghost r: nat)
    returns (end: nat)
    requires sch == w.sch && Closed(w) && Current(w) && Below(w, ty, c, r)
    requires c.Some? ==> Sized(w, c.value)
    requires var bytes := Delimited(number, EncodeOrEmpty(sch, ty, OptTree(w, ty, c, r)));
             |bytes| < TWO_64 && off + |bytes| <= buf.Length
    modifies buf, w.objs`size
    ensures var bytes := Delimited(number, EncodeOrEmpty(sch, ty, OptTree(w, ty, c, r)));
            end == off + |bytes| && Wrote(old(buf[..]), buf[..], off, bytes)
    ensures Current(w) && Kept(w)
    decreases r, 0
  {
    hide Closed, TreeOf, Encode, Delimited, Header, Wrote, Reaches;
    ghost var body := EncodeOrEmpty(sch, ty, OptTree(w, ty, c, r));
    HeaderThenPayload(number, body);
    PayloadShorter(number, body);
    ghost var before := buf[..];
    if c.Some? {
      SelfCached(w, c.value);
      end := StoreHeader(buf, off, number, c.value.size);
      ghost var mid := buf[..];
      end := WriteMessage(sch, c.value, buf, end, w);
      WroteMore(before, mid, buf[..], off, Header(number, |body|), body);
    } else {
      end := StoreHeader(buf, off, number, 0);
      assert Header(number, 0) + body == Header(number, 0);
    }
  }

  lemma {:induction false} SelfCached(w: World, m: Message)
    requires Closed(w) && m in w.objs && Sized(w, m)
    ensures Cached(w, m)
  {
    hide Closed, Cached;
    assert Reaches(w, m, m);
  }

  method WriteChildren(sch: Schema, number: nat, ty: nat, cs: seq<Option<Message>>, buf: array<byte>, off: nat, ghost w: World, ghost r: nat)
    returns (end: nat)
    requires sch == w.sch && Closed(w) && Current(w)
    requires forall i :: 0 <= i < |cs| ==> Below(w, ty, cs[i], r)
    requires forall i :: 0 <= i < |cs| && cs[i].Some? ==> cs[i].value in w.objs && Sized(w, cs[i].value)
    requires var bytes := EncodeChildren(sch, number, ty, OptTrees(w, ty, cs, |cs|, r), |cs|);
             |bytes| < TWO_64 && off + |bytes| <= buf.Length
    modifies buf, w.objs`size
    ensures var bytes := EncodeChildren(sch, number, ty, OptTrees(w, ty, cs, |cs|, r), |cs|);
            end == off + |bytes| && Wrote(old(buf[..]), buf[..], off, bytes)
    ensures Current(w) && Kept(w)
    decreases r, 1
  {
    hide Closed, Cached, Sized, TreeOf, Delimited, EncodeOrEmpty, OptTree, OptTrees, Wrote;
    ghost var ts := OptTrees(w, ty, cs, |cs|, r);
    ghost var before := buf[..];
    WroteNothing(before, off);
    end := off;
    for i := 0 to |cs|
      invariant Current(w) && Kept(w)
      invariant end == off + |EncodeChildren(sch, number, ty, ts, i)|
      invariant Wrote(before, buf[..], off, EncodeChildren(sch, number, ty, ts, i))
    {
      OptTreesAt(w, ty, cs, |cs|, r, i);
      ChildrenStep(sch, number, ty, ts, i);
      ghost var mid := buf[..];
      end := WriteChild(sch, number, ty, cs[i], buf, end, w, r);
      WroteMore(before, mid, buf[..], off, EncodeChildren(sch, number, ty, ts, i),
                Delimited(number, EncodeOrEmpty(sch, ty, ts[i])));
    }
  }

  method WriteSlot(sch: Schema, number: nat, slot: Slot, v: SlotV<Message>, buf: array<byte>, off: nat, ghost w: World, ghost r: nat)
    returns (end: nat)
    requires sch == w.sch && Closed(w) && Current(w) && SlotBelow(w, slot, v, r)
    requires SlotSized(w, v)
    requires var bytes := EncodeSlot(sch, number, slot, SlotTree(w, slot, v, r));
             |bytes| < TWO_64 && off + |bytes| <= buf.Length
    modifies buf, w.objs`size
    ensures var bytes := EncodeSlot(sch, number, slot, SlotTree(w, slot, v, r));
            end == off + |bytes| && Wrote(old(buf[..]), buf[..], off, bytes)
    ensures Current(w) && Kept(w)
    decreases r, 1
  {
    hide Closed, Cached, Sized, TreeOf, Scalar, Delimited, Encode, InRange, Wrote;
    match slot
    case ScalarSlot(k) =>
      end := StoreField(buf, off, number, k, v.num);
    case BlobSlot =>
      end := StoreBlob(buf, off, number, v.blob);
    case MessageSlot(ty) =>
      end := WriteChild(sch, number, ty, v.msg, buf, off, w, r);
  }

  /** The key, then the value. */
  method WriteEntryBody(sch: Schema, key: Slot, val: Slot, e: Entry<Message>, buf: array<byte>, off: nat, ghost w: World, ghost r: nat)
    returns (end: nat)
    requires sch == w.sch && Closed(w) && Current(w) && !key.MessageSlot?
    requires SlotBelow(w, key, e.key, r) && SlotBelow(w, val, e.val, r) && SlotSized(w, e.val)
    requires var bytes := EncodeEntry(sch, key, val, Entry(SlotTree(w, key, e.key, r), SlotTree(w, val, e.val, r)));
             |bytes| < TWO_64 && off + |bytes| <= buf.Length
    modifies buf, w.objs`size
    ensures var bytes := EncodeEntry(sch, key, val, Entry(SlotTree(w, key, e.key, r), SlotTree(w, val, e.val, r)));
            end == off + |bytes| && Wrote(old(buf[..]), buf[..], off, bytes)
    ensures Current(w) && Kept(w)
    decreases r, 2
  {
    hide Closed, Cached, Sized, EncodeSlot, SlotTree, Wrote, InRange, Below;
    ghost var kb := EncodeSlot(sch, 1, key, SlotTree(w, key, e.key, r));
    ghost var before := buf[..];
    end := WriteSlot(sch, 1, key, e.key, buf, off, w, r);
    ghost var mid := buf[..];
    end := WriteSlot(sch, 2, val, e.val, buf, end, w, r);
    WroteMore(before, mid, buf[..], off, kb, EncodeSlot(sch, 2, val, SlotTree(w, val, e.val, r)));
  }

  /** One entry: `_inner` is computed afresh, which sizes message values again. */
  method WriteEntry(sch: Schema, number: nat, key: Slot, val: Slot, e: Entry<Message>, buf: array<byte>, off: nat, ghost w: World, ghost r: nat)
    returns (end: nat)
    requires sch == w.sch && Closed(w) && Current(w) && 1 <= number < 0x2000_0000 && !key.MessageSlot?
    requires SlotBelow(w, key, e.key, r) && SlotBelow(w, val, e.val, r) && SlotSized(w, e.val)
    requires var t := Entry(SlotTree(w, key, e.key, r), SlotTree(w, val, e.val, r));
             |Delimited(number, EncodeEntry(sch, key, val, t))| < TWO_64 &&
             off + |Delimited(number, EncodeEntry(sch, key, val, t))| <= buf.Length
    modifies buf, w.objs`size
    ensures var t := Entry(SlotTree(w, key, e.key, r), SlotTree(w, val, e.val, r));
            end == off + |Delimited(number, EncodeEntry(sch, key, val, t))| &&
            Wrote(old(buf[..]), buf[..], off, Delimited(number, EncodeEntry(sch, key, val, t)))
    ensures Current(w) && Kept(w)
    decreases r, 3
  {
    hide Closed, Cached, Sized, EncodeEntry, SlotTree, SlotBelow, Delimited, Header, Wrote;
    ghost var body := EncodeEntry(sch, key, val, Entry(SlotTree(w, key, e.key, r), SlotTree(w, val, e.val, r)));
    HeaderThenPayload(number, body);
    PayloadShorter(number, body);
    ghost var before := buf[..];
    var inner := SizeEntry(sch, key, val, e, w, r);
    end := StoreHeader(buf, off, number, inner);
    ghost var mid := buf[..];
    end := WriteEntryBody(sch, key, val, e, buf, end, w, r);
    WroteMore(before, mid, buf[..], off, Header(number, inner), body);
  }

  method WriteTable(sch: Schema, number: nat, key: Slot, val: Slot, es: seq<Entry<Message>>, buf: array<byte>, off: nat, ghost w: World, ghost r: nat)
    returns (end: nat)
    requires sch == w.sch && Closed(w) && Current(w) && 1 <= number < 0x2000_0000 && !key.MessageSlot?
    requires forall i :: 0 <= i < |es| ==> SlotBelow(w, key, es[i].key, r) && SlotBelow(w, val, es[i].val, r)
    requires forall i :: 0 <= i < |es| ==> SlotSized(w, es[i].val)
    requires var bytes := EncodeTable(sch, number, key, val, EntryTrees(w, key, val, es, |es|, r), |es|);
             |bytes| < TWO_64 && off + |bytes| <= buf.Length
    modifies buf, w.objs`size
    ensures var bytes := EncodeTable(sch, number, key, val, EntryTrees(w, key, val, es, |es|, r), |es|);
            end == off + |bytes| && Wrote(old(buf[..]), buf[..], off, bytes)
    ensures Current(w) && Kept(w)
    decreases r, 4
  {
    hide Closed, Cached, Sized, Delimited, EncodeEntry, SlotTree, EntryTrees, SlotBelow, Wrote;
    ghost var ts := EntryTrees(w, key, val, es, |es|, r);
    ghost var before := buf[..];
    WroteNothing(before, off);
    end := off;
    for i := 0 to |es|
      invariant Current(w) && Kept(w)
      invariant end == off + |EncodeTable(sch, number, key, val, ts, i)|
      invariant Wrote(before, buf[..], off, EncodeTable(sch, number, key, val, ts, i))
    {
      EntryTreesAt(w, key, val, es, |es|, r, i);
      TableStep(sch, number, key, val, ts, i);
      ghost var mid := buf[..];
      end := WriteEntry(sch, number, key, val, es[i], buf, end, w, r);
      WroteMore(before, mid, buf[..], off, EncodeTable(sch, number, key, val, ts, i),
                Delimited(number, EncodeEntry(sch, key, val, ts[i])));
    }
  }
}
