// What comes back encodes to the very bytes it was read from.
module Reencode {
  import opened Bits
  import opened Options
  import opened Varint
  import opened Scalars
  import opened Schema
  import opened Eager
  import opened RoundTrip

  /** No list or map of the message, at any depth, lacks a child. */
  predicate Complete(sch: Schema, ty: nat, t: Tree)
    requires SchemaOk(sch) && Typed(sch, ty, t)
    decreases t
  {
    forall i :: 0 <= i < |t.vals| ==> CompleteVal(sch, sch[ty][i].shape, t.vals[i])
  }

  predicate CompleteVal(sch: Schema, shape: Shape, v: Val<Tree>)
    requires SchemaOk(sch) && ShapeOk(sch, shape) && Fits(sch, shape, v)
    decreases v
  {
    match v
    case ChildV(c) => c.Some? ==> Complete(sch, shape.ty, c.value)
    case ChildrenV(cs) => forall i :: 0 <= i < |cs| ==> cs[i].Some? && Complete(sch, shape.ty, cs[i].value)
    case TableV(es) =>
      shape.val.MessageSlot? ==>
        forall i :: 0 <= i < |es| ==> FullSlot(sch, shape.val, es[i].val)
    case _ => true
  }

  predicate FullSlot(sch: Schema, slot: Slot, v: SlotV<Tree>)
    requires SchemaOk(sch) && SlotOk(sch, slot) && SlotFits(sch, slot, v)
    decreases v
  {
    v.MessageS? ==> v.msg.Some? && Complete(sch, slot.ty, v.msg.value)
  }

  /** Only missing list and map children come back changed. */
  lemma {:induction false} NormalIsSame(sch: Schema, ty: nat, t: Tree)
    requires SchemaOk(sch) && Typed(sch, ty, t)
    ensures Normal(sch, ty, t) == t <==> Complete(sch, ty, t)
    decreases t
  {
    hide NormalVal, CompleteVal, Fits;
    var n := Normal(sch, ty, t);
    forall i | 0 <= i < |t.vals|
      ensures n.vals[i] == t.vals[i] <==> CompleteVal(sch, sch[ty][i].shape, t.vals[i])
    {
      ValIsSame(sch, sch[ty][i].shape, t.vals[i]);
    }
    assert n == t <==> n.vals == t.vals;
  }

  lemma {:induction false} ValIsSame(sch: Schema, shape: Shape, v: Val<Tree>)
    requires SchemaOk(sch) && ShapeOk(sch, shape) && Fits(sch, shape, v)
    ensures NormalVal(sch, shape, v) == v <==> CompleteVal(sch, shape, v)
    decreases v
  {
    hide Normal, Complete, Typed, InRange, SlotFits;
    match v
    case ChildV(c) =>
      if c.Some? {
        NormalIsSame(sch, shape.ty, c.value);
      }
    case ChildrenV(cs) =>
      var back := NormalVal(sch, shape, v).children;
      forall i | 0 <= i < |cs|
        ensures back[i] == cs[i] <==> cs[i].Some? && Complete(sch, shape.ty, cs[i].value)
      {
        assert back[i] == Some(NormalOrBlank(sch, shape.ty, cs[i]));
        if cs[i].Some? {
          NormalIsSame(sch, shape.ty, cs[i].value);
          assert cs[i] == Some(cs[i].value);
        }
      }
      assert NormalVal(sch, shape, v) == v <==> back == cs;
    case TableV(es) =>
      var back := NormalVal(sch, shape, v).entries;
      forall i | 0 <= i < |es|
        ensures back[i] == es[i] <==> (shape.val.MessageSlot? ==> FullSlot(sch, shape.val, es[i].val))
      {
        SlotIsSame(sch, shape.val, es[i].val);
      }
      assert NormalVal(sch, shape, v) == v <==> back == es;
    case _ =>
  }

  lemma {:induction false} SlotIsSame(sch: Schema, slot: Slot, v: SlotV<Tree>)
    requires SchemaOk(sch) && SlotOk(sch, slot) && SlotFits(sch, slot, v)
    ensures NormalSlot(sch, slot, v) == v <==> (slot.MessageSlot? ==> FullSlot(sch, slot, v))
    decreases v
  {
    hide Normal, Complete, Typed, InRange;
    if slot.MessageSlot? && v.msg.Some? {
      NormalIsSame(sch, slot.ty, v.msg.value);
    }
  }

  // ---------------------------------------------------------- same bytes

  lemma {:induction false} NormalEncodes(sch: Schema, ty: nat, t: Tree)
    requires SchemaOk(sch) && Typed(sch, ty, t)
    ensures Encode(sch, ty, Normal(sch, ty, t)) == Encode(sch, ty, t)
    decreases t
  {
    hide NormalVal, EncodeField, Fits, EncodeFields;
    var n := Normal(sch, ty, t);
    forall i | 0 <= i < |t.vals|
      ensures EncodeField(sch, sch[ty][i], n.vals[i]) == EncodeField(sch, sch[ty][i], t.vals[i])
    {
      ValEncodes(sch, sch[ty][i], t.vals[i]);
    }
    FieldsAgree(sch, sch[ty], n.vals, t.vals, |t.vals|);
  }

  lemma {:induction false} FieldsAgree(sch: Schema, fields: seq<Field>, a: seq<Val<Tree>>, b: seq<Val<Tree>>, n: nat)
    requires n <= |fields| == |a| == |b|
    requires forall i :: 0 <= i < n ==> EncodeField(sch, fields[i], a[i]) == EncodeField(sch, fields[i], b[i])
    ensures EncodeFields(sch, fields, a, n) == EncodeFields(sch, fields, b, n)
    decreases n
  {
    hide EncodeField;
    if n > 0 {
      FieldsAgree(sch, fields, a, b, n - 1);
    }
  }

  lemma {:induction false} BlankIsEmpty(sch: Schema, ty: nat)
    requires ty < |sch|
    ensures Encode(sch, ty, Blank(sch, ty)) == []
  {
    BlankFields(sch, ty, |sch[ty]|);
  }

  lemma {:induction false} BlankFields(sch: Schema, ty: nat, n: nat)
    requires ty < |sch| && n <= |sch[ty]|
    ensures EncodeFields(sch, sch[ty], Blank(sch, ty).vals, n) == []
    decreases n
  {
    if n > 0 {
      BlankFields(sch, ty, n - 1);
      AbsentIsEmpty(sch, sch[ty][n - 1]);
    }
  }

  lemma {:induction false} AbsentIsEmpty(sch: Schema, f: Field)
    ensures EncodeField(sch, f, Absent(f.shape)) == []
  {
  }

  lemma {:induction false} OptEncodes(sch: Schema, ty: nat, c: Option<Tree>)
    requires SchemaOk(sch) && ty < |sch| && (c.Some? ==> Typed(sch, ty, c.value))
    ensures EncodeOrEmpty(sch, ty, Some(NormalOrBlank(sch, ty, c))) == EncodeOrEmpty(sch, ty, c)
    decreases c
  {
    hide Normal, Encode, Typed, Blank;
    if c.Some? {
      NormalEncodes(sch, ty, c.value);
    } else {
      BlankIsEmpty(sch, ty);
    }
  }

  lemma {:induction false} SlotEncodes(sch: Schema, number: nat, slot: Slot, v: SlotV<Tree>)
    requires SchemaOk(sch) && SlotOk(sch, slot) && SlotFits(sch, slot, v)
    ensures EncodeSlot(sch, number, slot, NormalSlot(sch, slot, v)) == EncodeSlot(sch, number, slot, v)
    decreases v
  {
    hide NormalOrBlank, EncodeOrEmpty, Typed, Delimited, Scalar, InRange;
    if slot.MessageSlot? {
      OptEncodes(sch, slot.ty, v.msg);
    }
  }

  lemma {:induction false} ValEncodes(sch: Schema, f: Field, v: Val<Tree>)
    requires SchemaOk(sch) && ShapeOk(sch, f.shape) && Fits(sch, f.shape, v)
    ensures EncodeField(sch, f, NormalVal(sch, f.shape, v)) == EncodeField(sch, f, v)
    decreases v
  {
    hide NormalOrBlank, EncodeOrEmpty, Typed, Delimited, Scalar, InRange, Normal, Encode, EncodeChildren, EncodeTable,
         EncodeNumbers, EncodeBlobs, SlotFits, NormalSlot;
    match v
    case ChildV(c) =>
      if c.Some? {
        NormalEncodes(sch, f.shape.ty, c.value);
      }
    case ChildrenV(cs) =>
      var ty, back := f.shape.ty, NormalVal(sch, f.shape, v).children;
      forall i | 0 <= i < |cs|
        ensures EncodeOrEmpty(sch, ty, back[i]) == EncodeOrEmpty(sch, ty, cs[i])
      {
        OptEncodes(sch, ty, cs[i]);
      }
      ChildrenAreBlobs(sch, f.number, ty, cs, |cs|);
      ChildrenAreBlobs(sch, f.number, ty, back, |cs|);
      assert ChildBytes(sch, ty, back) == ChildBytes(sch, ty, cs);
    case TableV(es) =>
      var key, val, back := f.shape.key, f.shape.val, NormalVal(sch, f.shape, v).entries;
      forall i | 0 <= i < |es|
        ensures EncodeEntry(sch, key, val, back[i]) == EncodeEntry(sch, key, val, es[i])
      {
        SlotEncodes(sch, 2, val, es[i].val);
      }
      TableIsBlobs(sch, f.number, key, val, es, |es|);
      TableIsBlobs(sch, f.number, key, val, back, |es|);
      assert EntryBytes(sch, key, val, back) == EntryBytes(sch, key, val, es);
    case _ =>
  }

  /** Encoding, decoding and encoding again gives the same bytes. */
  lemma {:induction false} ReadReencodes(sch: Schema, ty: nat, t: Tree)
    requires SchemaOk(sch) && Typed(sch, ty, t) && |Encode(sch, ty, t)| < TWO_64
    ensures ReadTree(sch, ty, Encode(sch, ty, t)).Some?
    ensures Encode(sch, ty, ReadTree(sch, ty, Encode(sch, ty, t)).value) == Encode(sch, ty, t)
  {
    hide Encode, ReadTree, Normal, Typed;
    TreeReads(sch, ty, t);
    NormalEncodes(sch, ty, t);
  }
}
