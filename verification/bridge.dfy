// From the cells a reader holds to the records they stand for.
module Bridge {
  import opened Bits
  import opened Options
  import opened Varint
  import opened Wire
  import opened Scalars
  import opened Records
  import opened Schema
  import opened Cells
  import opened Scanning
  import opened Layout
  import opened Eager

  /** Initialization succeeds exactly when the bytes parse and every field
      accepts its own records. */
  lemma {:induction false} InitExact(sch: Schema, ty: nat, s: seq<byte>)
    requires SchemaOk(sch) && ty < |sch|
    ensures Init(sch, ty, s).Ok? <==>
              Parse(s).Ok? && forall i :: 0 <= i < |sch[ty]| ==> Summary(sch[ty][i], Only(sch[ty][i], Parse(s).value)).Ok?
    ensures Init(sch, ty, s).Ok? ==>
              forall i :: 0 <= i < |sch[ty]| ==>
                FoldOne(sch[ty][i], Fresh(sch[ty][i].shape), 0, Parse(s).value) == Ok(Init(sch, ty, s).value[i])
  {
    hide Scan, Parse, Fold, FoldOne, Only;
    var fields := sch[ty];
    var cells := FreshCells(fields);
    assert s[0..] == s;
    ScanIsFold(fields, cells, s, 0);
    if Parse(s).Ok? {
      var rs := Parse(s).value;
      FoldIsFields(fields, cells, 0, rs);
      forall i | 0 <= i < |fields|
        ensures Summary(fields[i], Only(fields[i], rs)).Ok? <==> FoldOne(fields[i], cells[i], 0, rs).Ok?
      {
        FoldContent(fields[i], cells[i], cells[i], 0, 0, rs);
      }
    }
  }

  lemma {:induction false} HasMeansHit(f: Field, c: Cell, off: nat, rs: seq<Rec>)
    requires CellFits(f.shape, c) && FoldOne(f, c, off, rs).Ok?
    ensures FoldOne(f, c, off, rs).value.has <==> c.has || Only(f, rs) != []
    decreases rs
  {
    hide Arm, Hits, FoldOne, Only;
    if rs == [] {
      FoldOneEmpty(f, c, off);
      OnlyNone(f, rs);
    } else {
      var x := rs[0];
      FoldOneHead(f, c, off, rs);
      OnlyHead(f, rs);
      if Hits(f, x.tag) {
        ArmHas(f, c, x.tag, off + x.head, x.head, x.body);
        var arm := Arm(f, c, x.tag, off + x.head, x.head, x.body);
        HasMeansHit(f, arm.value.cell, off + x.Size(), rs[1..]);
      } else {
        HasMeansHit(f, c, off + x.Size(), rs[1..]);
      }
    }
  }

  lemma {:induction false} ArmHas(f: Field, c: Cell, tag: nat, at: nat, head: nat, s: seq<byte>)
    requires CellFits(f.shape, c) && Hits(f, tag) && head <= at && Arm(f, c, tag, at, head, s).Ok?
    ensures Arm(f, c, tag, at, head, s).value.cell.has
  {
  }

  /** A cell of an initialized reader: its content is the summary of its records. */
  lemma {:induction false} CellSummary(f: Field, src: seq<byte>)
    requires Parse(src).Ok? && FoldOne(f, Fresh(f.shape), 0, Parse(src).value).Ok?
    ensures var rs := Parse(src).value;
            var c := FoldOne(f, Fresh(f.shape), 0, rs).value;
            && Summary(f, Only(f, rs)).Ok?
            && SameContent(c, Summary(f, Only(f, rs)).value)
            && (c.has <==> Only(f, rs) != [])
  {
    hide FoldOne, Only, Parse, SameContent;
    var rs := Parse(src).value;
    FreshSelf(f.shape);
    FoldContent(f, Fresh(f.shape), Fresh(f.shape), 0, 0, rs);
    HasMeansHit(f, Fresh(f.shape), 0, rs);
  }

  lemma {:induction false} FreshSelf(shape: Shape)
    ensures SameContent(Fresh(shape), Fresh(shape)) && !Fresh(shape).has
  {
  }

  // ------------------------------------------------ expanded occurrences

  predicate AllExpanded(f: Field, hits: seq<Rec>)
    requires f.shape.Numbers?
  {
    forall i :: 0 <= i < |hits| ==> hits[i].tag == Tag(f.number, f.shape.kind.WireType())
  }

  /** A reader that saw elements but not the packed form saw expanded ones only. */
  lemma {:induction false} UnpackedMeansExpanded(f: Field, c: Cell, off: nat, hits: seq<Rec>)
    requires f.shape.Numbers? && c.PackCell? && !c.packed && FoldOne(f, c, off, hits).Ok?
    requires forall i :: 0 <= i < |hits| ==> Hits(f, hits[i].tag) && Skip(hits[i].body, hits[i].tag % 8) == Ok(|hits[i].body|)
    requires !FoldOne(f, c, off, hits).value.packed
    ensures AllExpanded(f, hits) && FoldOne(f, c, off, hits).value.count == c.count + |hits|
    decreases hits
  {
    hide Arm, Skip, FoldOne;
    if hits == [] {
      FoldOneEmpty(f, c, off);
    } else {
      var x := hits[0];
      FoldOneHead(f, c, off, hits);
      PackArm(f, c, x, off + x.head);
      var arm := Arm(f, c, x.tag, off + x.head, x.head, x.body);
      var d := arm.value.cell;
      if x.tag == Tag(f.number, LEN) {
        assert c.count == 0 && d.packed;
        PackedStays(f, d, off + x.Size(), hits[1..]);
      } else {
        UnpackedMeansExpanded(f, d, off + x.Size(), hits[1..]);
      }
    }
  }

  lemma {:induction false} PackedStays(f: Field, c: Cell, off: nat, hits: seq<Rec>)
    requires f.shape.Numbers? && c.PackCell? && c.packed && FoldOne(f, c, off, hits).Ok?
    requires forall i :: 0 <= i < |hits| ==> Hits(f, hits[i].tag) && Skip(hits[i].body, hits[i].tag % 8) == Ok(|hits[i].body|)
    ensures FoldOne(f, c, off, hits).value.packed
    decreases hits
  {
    hide Arm, Skip, FoldOne;
    if hits == [] {
      FoldOneEmpty(f, c, off);
    } else {
      var x := hits[0];
      FoldOneHead(f, c, off, hits);
      PackArm(f, c, x, off + x.head);
      PackedStays(f, Arm(f, c, x.tag, off + x.head, x.head, x.body).value.cell, off + x.Size(), hits[1..]);
    }
  }

  /** Expanded occurrences all weigh one. */
  lemma {:induction false} HeavyExpanded(f: Field, hits: seq<Rec>)
    requires f.shape.Numbers? && AllExpanded(f, hits)
    ensures Heavy(f, hits) == hits
  {
    hide Weight, Hits;
    if hits != [] {
      assert hits[0].tag == Tag(f.number, f.shape.kind.WireType());
      ExpandedWeight(f, hits[0]);
    }
  }

  lemma {:induction false} ExpandedWeight(f: Field, x: Rec)
    requires f.shape.Numbers? && x.tag == Tag(f.number, f.shape.kind.WireType())
    ensures Weight(f, x) == 1
  {
    hide BlockCount, Payload;
  }

  // ------------------------------------------------------------ whole reads

  lemma {:induction false} ReadFieldsNeeds(sch: Schema, ty: nat, rs: seq<Rec>, size: nat, n: nat, i: nat)
    requires SchemaOk(sch) && ty < |sch| && i < n <= |sch[ty]| && Smaller(rs, size)
    requires ReadFields(sch, ty, rs, size, n).Some?
    ensures ReadField(sch, sch[ty][i], Only(sch[ty][i], rs), size) == Some(ReadFields(sch, ty, rs, size, n).value[i])
    decreases n
  {
    hide ReadField, Only;
    if i < n - 1 {
      ReadFieldsNeeds(sch, ty, rs, size, n - 1, i);
    }
  }

  /** A message that reads at all initializes. */
  lemma {:induction false} ReadNeedsInit(sch: Schema, ty: nat, s: seq<byte>)
    requires SchemaOk(sch) && ty < |sch| && ReadTree(sch, ty, s).Some?
    ensures Init(sch, ty, s).Ok?
  {
    hide ReadFields, Only, Init, Summary, Parse;
    var rs := Parse(s).value;
    ParsedSmaller(s);
    forall i | 0 <= i < |sch[ty]|
      ensures Summary(sch[ty][i], Only(sch[ty][i], rs)).Ok?
    {
      ReadFieldsNeeds(sch, ty, rs, |s|, |sch[ty]|, i);
    }
    InitExact(sch, ty, s);
  }

  // --------------------------------------- what a message read off its bytes holds

  /** The last record with a tag of field `f`. */
  predicate OwnLast(f: Field, rs: seq<Rec>, j: nat) {
    && j < |rs| && Hits(f, rs[j].tag)
    && forall m :: j < m < |rs| ==> !Hits(f, rs[m].tag)
  }

  lemma {:induction false} OnlyLast(f: Field, rs: seq<Rec>, j: nat)
    requires OwnLast(f, rs, j)
    ensures j < |rs| && |Payload(rs[j])| <= |rs[j].body|
    ensures var hits := Only(f, rs); hits != [] && hits[|hits| - 1] == rs[j]
  {
    hide Hits, Only;
    var front, back := rs[..j + 1], rs[j + 1..];
    assert front + back == rs;
    assert front == rs[..j] + [rs[j]];
    OnlyAppend(f, front, back);
    OnlyAppend(f, rs[..j], [rs[j]]);
    OnlyNone(f, back);
    OnlyAll(f, [rs[j]]);
  }

  /** A singular scalar read off its own records. */
  lemma {:induction false} SingularRead(sch: Schema, f: Field, hits: seq<Rec>, size: nat)
    requires SchemaOk(sch) && FieldOk(sch, f) && Smaller(hits, size) && f.shape.Single?
    requires forall i :: 0 <= i < |hits| ==> Hits(f, hits[i].tag)
    ensures var k, r := f.shape.kind, ReadField(sch, f, hits, size);
            && (r.Some? <==> forall i :: 0 <= i < |hits| ==> ScalarIn(k, hits[i]).Ok?)
            && (r.Some? ==> r.value == IntV(if hits == [] then f.shape.default else ScalarIn(k, hits[|hits| - 1]).value.value))
  {
    hide Hits, FoldOne, Only, ScalarIn;
    IntFold(f, Fresh(f.shape), 0, hits);
    OnlyAll(f, hits);
  }

  /** Of several occurrences of a singular field the last one counts. */
  lemma {:induction false} LastWins(sch: Schema, ty: nat, s: seq<byte>, i: nat, j: nat)
    requires SchemaOk(sch) && ty < |sch| && i < |sch[ty]| && ReadTree(sch, ty, s).Some?
    requires OwnLast(sch[ty][i], Parse(s).value, j)
    ensures var f, v, x := sch[ty][i], ReadTree(sch, ty, s).value.vals[i], Parse(s).value[j];
            && (f.shape.Single? ==> ScalarIn(f.shape.kind, x).Ok? && v == IntV(ScalarIn(f.shape.kind, x).value.value))
            && (f.shape.Blob? ==> v == BlobV(Payload(x)))
            && (f.shape.Child? ==> |Payload(x)| < |s| && v == ChildV(ReadTree(sch, f.shape.ty, Payload(x))) && v.child.Some?)
  {
    hide Hits, Only, Parse, ScalarIn, ReadFields, Summary, OwnLast, Payload;
    var f, rs := sch[ty][i], Parse(s).value;
    var hits := Only(f, rs);
    ParsedSmaller(s);
    OnlyLast(f, rs, j);
    ReadFieldsNeeds(sch, ty, rs, |s|, |sch[ty]|, i);
    assert hits[|hits| - 1] in hits;
    if f.shape.Single? {
      SingularRead(sch, f, hits, |s|);
    }
  }

  /** A field no record belongs to reads as absent. */
  lemma {:induction false} NeverSent(sch: Schema, ty: nat, s: seq<byte>, i: nat)
    requires SchemaOk(sch) && ty < |sch| && i < |sch[ty]| && ReadTree(sch, ty, s).Some?
    requires forall j :: 0 <= j < |Parse(s).value| ==> !Hits(sch[ty][i], Parse(s).value[j].tag)
    ensures ReadTree(sch, ty, s).value.vals[i] ==
            match sch[ty][i].shape
            case Single(_, d) => IntV(d)
            case Blob(d) => BlobV(d)
            case Child(_) => ChildV(None)
            case Numbers(_, _) => IntsV([])
            case Blobs => BlobsV([])
            case Children(_) => ChildrenV([])
            case Table(_, _) => TableV([])
  {
    hide Hits, Parse, ReadFields, ReadTree;
    ReadTreeFields(sch, ty, s);
    var f, rs := sch[ty][i], Parse(s).value;
    OnlyNone(f, rs);
    ReadFieldsNeeds(sch, ty, rs, |s|, |sch[ty]|, i);
  }

  lemma {:induction false} ReadTreeFields(sch: Schema, ty: nat, s: seq<byte>)
    requires SchemaOk(sch) && ty < |sch| && ReadTree(sch, ty, s).Some?
    ensures Parse(s).Ok? && Smaller(Parse(s).value, |s|)
    ensures ReadFields(sch, ty, Parse(s).value, |s|, |sch[ty]|) == Some(ReadTree(sch, ty, s).value.vals)
  {
    hide ReadFields, Parse;
    ParsedSmaller(s);
  }
}
