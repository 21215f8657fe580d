// Unknown fields do not matter: inserting records no field of the type owns
// changes no getter and no iterator sequence, though stored offsets move.
module Unknown {
  import opened Bits
  import opened Options
  import opened Varint
  import opened Wire
  import opened Records
  import opened Schema
  import opened Cells
  import opened Scanning
  import opened Layout
  import opened Eager
  import opened Bridge

  /** Well-formed records, nested groups included, that no field of `ty` reads. */
  predicate Foreign(sch: Schema, ty: nat, u: seq<byte>)
    requires ty < |sch|
  {
    && Parse(u).Ok?
    && forall i, j :: 0 <= i < |sch[ty]| && 0 <= j < |Parse(u).value| ==> !Hits(sch[ty][i], Parse(u).value[j].tag)
  }

  /** A field number the type lacks makes a foreign record with any payload the
      skipper takes whole: varint, fixed, bytes or a group. */
  lemma {:induction false} UnknownNumber(sch: Schema, ty: nat, number: nat, wt: nat, payload: seq<byte>)
    requires ty < |sch| && 1 <= number < 0x2000_0000 && wt < 6
    requires forall i :: 0 <= i < |sch[ty]| ==> sch[ty][i].number != number
    requires Skip(payload, wt) == Ok(|payload|)
    ensures Foreign(sch, ty, Bytes(Tag(number, wt)) + payload)
  {
    hide Parse, Skip, Bytes, Hits;
    var tag := Tag(number, wt);
    ParseTagged(tag, payload);
    forall i | 0 <= i < |sch[ty]|
      ensures !Hits(sch[ty][i], tag)
    {
      if Hits(sch[ty][i], tag) {
        HitsNumber(sch[ty][i], tag);
      }
    }
  }

  lemma {:induction false} ParseInserted(a: seq<byte>, u: seq<byte>, b: seq<byte>)
    requires Parse(a).Ok? && Parse(u).Ok?
    ensures Parse(a + u + b) == Join(Parse(a).value + Parse(u).value, Parse(b))
    ensures Parse(a + b) == Join(Parse(a).value, Parse(b))
  {
    hide Parse;
    assert a + u + b == a + (u + b);
    ParseAppend(a, u + b);
    ParseAppend(u, b);
    ParseAppend(a, b);
    if Parse(b).Ok? {
      assert Parse(a).value + (Parse(u).value + Parse(b).value) == Parse(a).value + Parse(u).value + Parse(b).value;
    }
  }

  lemma {:induction false} OnlyInserted(f: Field, a: seq<Rec>, u: seq<Rec>, b: seq<Rec>)
    requires forall j :: 0 <= j < |u| ==> !Hits(f, u[j].tag)
    ensures Only(f, a + u + b) == Only(f, a + b)
  {
    hide Hits, Only;
    OnlyAppend(f, a + u, b);
    OnlyAppend(f, a, u);
    OnlyNone(f, u);
    OnlyAppend(f, a, b);
    assert Only(f, a) + [] == Only(f, a);
  }

  /** Both byte strings parse or neither does, and every field finds the same
      records in both. */
  lemma {:induction false} SameRecords(sch: Schema, ty: nat, a: seq<byte>, u: seq<byte>, b: seq<byte>)
    requires ty < |sch| && Parse(a).Ok? && Foreign(sch, ty, u)
    ensures Parse(a + u + b).Ok? <==> Parse(a + b).Ok?
    ensures Parse(a + b).Ok? ==>
              forall i :: 0 <= i < |sch[ty]| ==>
                Only(sch[ty][i], Parse(a + u + b).value) == Only(sch[ty][i], Parse(a + b).value)
  {
    hide Parse, Hits, Only;
    ParseInserted(a, u, b);
    if Parse(b).Ok? {
      forall i | 0 <= i < |sch[ty]|
        ensures Only(sch[ty][i], Parse(a + u + b).value) == Only(sch[ty][i], Parse(a + b).value)
      {
        OnlyInserted(sch[ty][i], Parse(a).value, Parse(u).value, Parse(b).value);
      }
    }
  }

  /** The readers accept alike and cache alike, up to offsets. */
  lemma {:induction false} InitUnmoved(sch: Schema, ty: nat, a: seq<byte>, u: seq<byte>, b: seq<byte>)
    requires SchemaOk(sch) && ty < |sch| && Parse(a).Ok? && Foreign(sch, ty, u)
    ensures Init(sch, ty, a + u + b).Ok? <==> Init(sch, ty, a + b).Ok?
    ensures Init(sch, ty, a + b).Ok? ==>
              forall i :: 0 <= i < |sch[ty]| ==>
                SameContent(Init(sch, ty, a + u + b).value[i], Init(sch, ty, a + b).value[i])
  {
    hide Parse, Only, Init, FoldOne, Foreign, SameContent, Hits;
    SameRecords(sch, ty, a, u, b);
    InitExact(sch, ty, a + u + b);
    InitExact(sch, ty, a + b);
    if Init(sch, ty, a + b).Ok? {
      forall i | 0 <= i < |sch[ty]|
        ensures SameContent(Init(sch, ty, a + u + b).value[i], Init(sch, ty, a + b).value[i])
      {
        CellSummary(sch[ty][i], a + u + b);
        CellSummary(sch[ty][i], a + b);
        SameBoth(Init(sch, ty, a + u + b).value[i], Init(sch, ty, a + b).value[i],
                 Summary(sch[ty][i], Only(sch[ty][i], Parse(a + b).value)).value);
      }
    }
  }

  lemma {:induction false} SameBoth(c: Cell, d: Cell, e: Cell)
    requires SameContent(c, e) && SameContent(d, e)
    ensures SameContent(c, d)
  {
  }

  // ------------------------------------------------------------ whole reads

  lemma {:induction false} ChildrenAnySize(sch: Schema, ty: nat, hits: seq<Rec>, p: nat, q: nat, n: nat)
    requires SchemaOk(sch) && ty < |sch| && n <= |hits| && Smaller(hits, p) && Smaller(hits, q)
    ensures ReadChildren(sch, ty, hits, p, n) == ReadChildren(sch, ty, hits, q, n)
    decreases n
  {
    hide ReadTree, Payload;
    if n > 0 {
      ChildrenAnySize(sch, ty, hits, p, q, n - 1);
    }
  }

  lemma {:induction false} TableAnySize(sch: Schema, key: Slot, val: Slot, hits: seq<Rec>, p: nat, q: nat, n: nat)
    requires SchemaOk(sch) && !key.MessageSlot? && SlotOk(sch, val) && n <= |hits| && Smaller(hits, p) && Smaller(hits, q)
    ensures ReadTable(sch, key, val, hits, p, n) == ReadTable(sch, key, val, hits, q, n)
    decreases n
  {
    hide ReadEntry, Payload;
    if n > 0 {
      TableAnySize(sch, key, val, hits, p, q, n - 1);
    }
  }

  lemma {:induction false} FieldAnySize(sch: Schema, f: Field, hits: seq<Rec>, p: nat, q: nat)
    requires SchemaOk(sch) && FieldOk(sch, f) && Smaller(hits, p) && Smaller(hits, q)
    ensures ReadField(sch, f, hits, p) == ReadField(sch, f, hits, q)
  {
    hide ReadTree, ReadChildren, ReadTable, ReadNumbers, Summary, Payload, Payloads;
    match f.shape
    case Children(ty) => ChildrenAnySize(sch, ty, hits, p, q, |hits|);
    case Table(key, val) => TableAnySize(sch, key, val, hits, p, q, |hits|);
    case _ =>
  }

  lemma {:induction false} FieldsFromOwn(sch: Schema, ty: nat, rs: seq<Rec>, p: nat, qs: seq<Rec>, q: nat, n: nat)
    requires SchemaOk(sch) && ty < |sch| && n <= |sch[ty]| && Smaller(rs, p) && Smaller(qs, q)
    requires forall i :: 0 <= i < |sch[ty]| ==> Only(sch[ty][i], rs) == Only(sch[ty][i], qs)
    ensures ReadFields(sch, ty, rs, p, n) == ReadFields(sch, ty, qs, q, n)
    decreases n
  {
    hide ReadField, Only;
    if n > 0 {
      FieldsFromOwn(sch, ty, rs, p, qs, q, n - 1);
      FieldAnySize(sch, sch[ty][n - 1], Only(sch[ty][n - 1], rs), p, q);
    }
  }

  /** The message read is the same, field by field and element by element. */
  lemma {:induction false} ReadUnmoved(sch: Schema, ty: nat, a: seq<byte>, u: seq<byte>, b: seq<byte>)
    requires SchemaOk(sch) && ty < |sch| && Parse(a).Ok? && Foreign(sch, ty, u)
    ensures ReadTree(sch, ty, a + u + b) == ReadTree(sch, ty, a + b)
  {
    hide Parse, Only, ReadFields, Foreign, Hits, SchemaOk;
    SameRecords(sch, ty, a, u, b);
    if Parse(a + b).Ok? {
      ParsedSmaller(a + b);
      ParsedSmaller(a + u + b);
      FieldsFromOwn(sch, ty, Parse(a + u + b).value, |a + u + b|, Parse(a + b).value, |a + b|, |sch[ty]|);
    }
  }
}
