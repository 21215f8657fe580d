// Message types, the values of their fields, and the bytes they encode to.
module Schema {
  import opened Bits
  import opened Options
  import opened Varint
  import opened Wire
  import opened Scalars

  /** The error of a failed decoding step. */
  function Fault<T>(r: Result<T>): Option<Error> {
    match r
    case Ok(_) => None
    case Err(e) => Some(e)
  }

  function BadVarint(d: Decoded): Option<Error> {
    match d
    case Good(_, _) => None
    case Bad(e) => Some(e)
  }

  /** How a repeated scalar goes out; Auto packs from two elements. */
  datatype Packing = Auto | Packed | Expanded

  /** The key or the value of a map. */
  datatype Slot = ScalarSlot(kind: Kind) | BlobSlot | MessageSlot(ty: nat)

  /** The family of emitted code a field belongs to. */
  datatype Shape =
    | Single(kind: Kind, default: int)
    | Blob(preset: seq<byte>)
    | Child(ty: nat)
    | Numbers(kind: Kind, packing: Packing)
    | Blobs
    | Children(ty: nat)
    | Table(key: Slot, val: Slot)

  datatype Field = Field(number: nat, shape: Shape)

  /** Message types refer to each other by index, recursively if they like. */
  type Schema = seq<seq<Field>>

  // A field's value in a message; `M` stands for a reference to a message.
  datatype Val<+M> =
    | IntV(num: int)
    | BlobV(blob: seq<byte>)
    | ChildV(child: Option<M>)
    | IntsV(ints: seq<int>)
    | BlobsV(blobs: seq<seq<byte>>)
    | ChildrenV(children: seq<Option<M>>)
    | TableV(entries: seq<Entry<M>>)

  datatype SlotV<+M> = IntS(num: int) | BlobS(blob: seq<byte>) | MessageS(msg: Option<M>)

  datatype Entry<+M> = Entry(key: SlotV<M>, val: SlotV<M>)

  /** A message as a pure value. */
  datatype Tree = Tree(vals: seq<Val<Tree>>)

  // ---------------------------------------------------------- well-formedness

  predicate SlotOk(sch: Schema, s: Slot) {
    s.MessageSlot? ==> s.ty < |sch|
  }

  predicate FieldOk(sch: Schema, f: Field) {
    && 1 <= f.number < 0x2000_0000
    && match f.shape
       case Single(k, d) => InRange(k, d)
       case Child(ty) => ty < |sch|
       case Children(ty) => ty < |sch|
       case Table(k, v) => !k.MessageSlot? && SlotOk(sch, v)
       case _ => true
  }

  predicate SchemaOk(sch: Schema) {
    forall ty :: 0 <= ty < |sch| ==>
      && (forall i :: 0 <= i < |sch[ty]| ==> FieldOk(sch, sch[ty][i]))
      && (forall i, j :: 0 <= i < j < |sch[ty]| ==> sch[ty][i].number != sch[ty][j].number)
  }

  /** The values of the C struct of message type `ty`. */
  predicate Typed(sch: Schema, ty: nat, t: Tree)
    decreases t
  {
    && ty < |sch| && |t.vals| == |sch[ty]|
    && forall i :: 0 <= i < |t.vals| ==> Fits(sch, sch[ty][i].shape, t.vals[i])
  }

  predicate Fits(sch: Schema, shape: Shape, v: Val<Tree>)
    decreases v
  {
    match shape
    case Single(k, _) => v.IntV? && InRange(k, v.num)
    case Blob(_) => v.BlobV?
    case Child(ty) => v.ChildV? && (v.child.Some? ==> Typed(sch, ty, v.child.value))
    case Numbers(k, _) => v.IntsV? && forall i :: 0 <= i < |v.ints| ==> InRange(k, v.ints[i])
    case Blobs => v.BlobsV?
    case Children(ty) =>
      && v.ChildrenV?
      && forall i :: 0 <= i < |v.children| && v.children[i].Some? ==> Typed(sch, ty, v.children[i].value)
    case Table(k, w) =>
      && v.TableV?
      && forall i :: 0 <= i < |v.entries| ==>
           SlotFits(sch, k, v.entries[i].key) && SlotFits(sch, w, v.entries[i].val)
  }

  predicate SlotFits(sch: Schema, slot: Slot, v: SlotV<Tree>)
    decreases v
  {
    match slot
    case ScalarSlot(k) => v.IntS? && InRange(k, v.num)
    case BlobSlot => v.BlobS?
    case MessageSlot(ty) => v.MessageS? && (v.msg.Some? ==> Typed(sch, ty, v.msg.value))
  }

  // -------------------------------------------------------------- encoding

  function Tag(number: nat, wt: nat): nat {
    8 * number + wt
  }

  function ScalarBytes(k: Kind, v: int): seq<byte> {
    if !InRange(k, v) then []
    else if k.WireType() == 0 then Bytes(ToWire(k, v))
    else LittleEndian(ToWire(k, v), if k.WireType() == 5 then 4 else 8)
  }

  /** A tagged scalar, and a tagged length-delimited payload. */
  function Scalar(number: nat, k: Kind, v: int): seq<byte> {
    Bytes(Tag(number, k.WireType())) + ScalarBytes(k, v)
  }

  function Delimited(number: nat, payload: seq<byte>): seq<byte> {
    Bytes(Tag(number, LEN)) + Prefixed(payload)
  }

  function Encode(sch: Schema, ty: nat, t: Tree): seq<byte>
    decreases t
  {
    if ty < |sch| && |t.vals| == |sch[ty]| then EncodeFields(sch, sch[ty], t.vals, |t.vals|) else []
  }

  /** The first `n` fields, in order. */
  function EncodeFields(sch: Schema, fields: seq<Field>, vals: seq<Val<Tree>>, n: nat): seq<byte>
    requires n <= |fields| == |vals|
    decreases vals, n
  {
    if n == 0 then []
    else EncodeFields(sch, fields, vals, n - 1) + EncodeField(sch, fields[n - 1], vals[n - 1])
  }

  function EncodeField(sch: Schema, f: Field, v: Val<Tree>): seq<byte>
    decreases v
  {
    match v
    case IntV(x) =>
      if f.shape.Single? && x != f.shape.default then Scalar(f.number, f.shape.kind, x) else []
    case BlobV(b) =>
      if f.shape.Blob? && b != f.shape.preset then Delimited(f.number, b) else []
    case ChildV(c) =>
      if f.shape.Child? && c.Some? then Delimited(f.number, Encode(sch, f.shape.ty, c.value)) else []
    case IntsV(xs) =>
      if f.shape.Numbers? then EncodeNumbers(f.number, f.shape.kind, f.shape.packing, xs) else []
    case BlobsV(bs) =>
      if f.shape.Blobs? then EncodeBlobs(f.number, bs, |bs|) else []
    case ChildrenV(cs) =>
      if f.shape.Children? then EncodeChildren(sch, f.number, f.shape.ty, cs, |cs|) else []
    case TableV(es) =>
      if f.shape.Table? then EncodeTable(sch, f.number, f.shape.key, f.shape.val, es, |es|) else []
  }

  function EncodeNumbers(number: nat, k: Kind, packing: Packing, xs: seq<int>): seq<byte> {
    if xs == [] then []
    else if packing == Expanded then EncodeExpanded(number, k, xs, |xs|)
    else if packing == Auto && |xs| == 1 then Scalar(number, k, xs[0])
    else Delimited(number, EncodeElements(k, xs, |xs|))
  }

  function EncodeExpanded(number: nat, k: Kind, xs: seq<int>, n: nat): seq<byte>
    requires n <= |xs|
  {
    if n == 0 then [] else EncodeExpanded(number, k, xs, n - 1) + Scalar(number, k, xs[n - 1])
  }

  /** A packed payload: the elements without their tags. */
  function EncodeElements(k: Kind, xs: seq<int>, n: nat): seq<byte>
    requires n <= |xs|
  {
    if n == 0 then [] else EncodeElements(k, xs, n - 1) + ScalarBytes(k, xs[n - 1])
  }

  function EncodeBlobs(number: nat, bs: seq<seq<byte>>, n: nat): seq<byte>
    requires n <= |bs|
  {
    if n == 0 then [] else EncodeBlobs(number, bs, n - 1) + Delimited(number, bs[n - 1])
  }

  /** A missing message is written as an empty one where its place must be kept. */
  function EncodeOrEmpty(sch: Schema, ty: nat, c: Option<Tree>): seq<byte>
    decreases c
  {
    if c.Some? then Encode(sch, ty, c.value) else []
  }

  function EncodeChildren(sch: Schema, number: nat, ty: nat, cs: seq<Option<Tree>>, n: nat): seq<byte>
    requires n <= |cs|
    decreases cs, n
  {
    if n == 0 then []
    else EncodeChildren(sch, number, ty, cs, n - 1) + Delimited(number, EncodeOrEmpty(sch, ty, cs[n - 1]))
  }

  /** A map's key (field 1) or value (field 2), always written. */
  function EncodeSlot(sch: Schema, number: nat, slot: Slot, v: SlotV<Tree>): seq<byte>
    decreases v
  {
    match v
    case IntS(x) => if slot.ScalarSlot? then Scalar(number, slot.kind, x) else []
    case BlobS(b) => Delimited(number, b)
    case MessageS(c) => if slot.MessageSlot? then Delimited(number, EncodeOrEmpty(sch, slot.ty, c)) else []
  }

  function EncodeEntry(sch: Schema, key: Slot, val: Slot, e: Entry<Tree>): seq<byte>
    decreases e
  {
    EncodeSlot(sch, 1, key, e.key) + EncodeSlot(sch, 2, val, e.val)
  }

  function EncodeTable(sch: Schema, number: nat, key: Slot, val: Slot, es: seq<Entry<Tree>>, n: nat): seq<byte>
    requires n <= |es|
    decreases es, n
  {
    if n == 0 then []
    else EncodeTable(sch, number, key, val, es, n - 1) + Delimited(number, EncodeEntry(sch, key, val, es[n - 1]))
  }
}
