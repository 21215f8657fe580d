// Scanning is folding over records, and every cell depends on its own records only.
module Scanning {
  import opened Bits
  import opened Options
  import opened Varint
  import opened Wire
  import opened Scalars
  import opened Records
  import opened Schema
  import opened Cells

  // --------------------------------------------------- bytes to records

  /** An arm accepts the rest of the buffer exactly when it accepts its own record. */
  lemma {:induction false} ArmOnRecord(f: Field, c: Cell, tag: nat, at: nat, head: nat, s: seq<byte>)
    requires CellFits(f.shape, c) && Hits(f, tag) && head <= at
    ensures var k := Skip(s, tag % 8);
            Arm(f, c, tag, at, head, s).Ok? <==> k.Ok? && Arm(f, c, tag, at, head, s[..k.value]).Ok?
    ensures Arm(f, c, tag, at, head, s).Ok? ==>
              var k := Skip(s, tag % 8).value;
              && Arm(f, c, tag, at, head, s).value.consumed == k
              && Arm(f, c, tag, at, head, s[..k]) == Arm(f, c, tag, at, head, s)
  {
    hide Arm, Skip;
    var long := Arm(f, c, tag, at, head, s);
    if long.Ok? {
      var k := long.value.consumed;
      ArmLocal(f, c, tag, at, head, s, s[..k]);
    } else if Skip(s, tag % 8).Ok? {
      var body := s[..Skip(s, tag % 8).value];
      var short := Arm(f, c, tag, at, head, body);
      if short.Ok? {
        assert body[..short.value.consumed] == s[..short.value.consumed];
        ArmLocal(f, c, tag, at, head, body, s);
      }
    }
  }

  lemma {:induction false} ParseFirst(s: seq<byte>, tag: nat, n: nat)
    requires Decode(s, W32) == Good(tag, n)
    ensures tag % 8 >= 6 || tag / 8 == 0 ==> Parse(s).Err?
    ensures tag % 8 < 6 && tag / 8 > 0 ==>
              var k := Skip(s[n..], tag % 8);
              if k.Err? then Parse(s).Err?
              else Parse(s) == Join([Rec(tag, n, s[n..][..k.value])], Parse(s[n + k.value..]))
  {
    hide Decode, Skip;
    if tag % 8 < 6 && tag / 8 > 0 {
      var k := Skip(s[n..], tag % 8);
      if k.Ok? {
        assert s[n..n + k.value] == s[n..][..k.value];
      }
    }
  }

  /** A reader accepts exactly the byte strings that parse into records its
      arms accept, and then caches what folding over the records gives. */
  lemma {:induction false} ScanIsFold(fields: seq<Field>, cells: seq<Cell>, src: seq<byte>, off: nat)
    requires CellsFit(fields, cells) && Numbered(fields) && off <= |src|
    ensures Agrees(fields, cells, off, Scan(fields, cells, src, off), Parse(src[off..]))
    decreases |src| - off
  {
    hide Arm, Skip, Decode, ParseRec, Hits, Agrees, Fold, Parse;
    var s := src[off..];
    if off == |src| {
      assert s == [];
      NothingLeft(fields, cells, off);
    } else {
      var d := Decode(s, W32);
      if d.Bad? {
        BadTag(s);
        Rejected(fields, cells, off, Scan(fields, cells, src, off), Parse(s));
      } else {
        var tag, n := d.value, d.consumed;
        var at, i := off + n, FindArm(fields, tag);
        assert s[n..] == src[at..];
        ParseFirst(s, tag, n);
        var skip := Skip(src[at..], tag % 8);
        if i < |fields| {
          HitsNumber(fields[i], tag);
          ArmOnRecord(fields[i], cells[i], tag, at, n, src[at..]);
        }
        if tag % 8 >= 6 || tag / 8 == 0 || skip.Err? {
          Rejected(fields, cells, off, Scan(fields, cells, src, off), Parse(s));
        } else {
          var k := skip.value;
          var x := Rec(tag, n, src[at..][..k]);
          assert s[n + k..] == src[at + k..];
          if i == |fields| {
            ScanIsFold(fields, cells, src, at + k);
          } else {
            var arm := Arm(fields[i], cells[i], tag, at, n, src[at..]);
            if arm.Ok? {
              ScanIsFold(fields, cells[i := arm.value.cell], src, at + k);
            }
          }
          OneMore(fields, cells, off, x, Scan(fields, cells, src, off), Parse(src[at + k..]));
        }
      }
    }
  }

  /** A scan result against the records from the same offset. */
  predicate Agrees(fields: seq<Field>, cells: seq<Cell>, off: nat, scan: Result<seq<Cell>>, parsed: Result<seq<Rec>>)
    requires CellsFit(fields, cells)
  {
    && (scan.Ok? <==> parsed.Ok? && Fold(fields, cells, off, parsed.value).Ok?)
    && (scan.Ok? ==> scan == Fold(fields, cells, off, parsed.value))
  }

  lemma {:induction false} NothingLeft(fields: seq<Field>, cells: seq<Cell>, off: nat)
    requires CellsFit(fields, cells)
    ensures Agrees(fields, cells, off, Ok(cells), Parse([]))
  {
  }

  lemma {:induction false} Rejected(fields: seq<Field>, cells: seq<Cell>, off: nat, scan: Result<seq<Cell>>, parsed: Result<seq<Rec>>)
    requires CellsFit(fields, cells) && scan.Err? && parsed.Err?
    ensures Agrees(fields, cells, off, scan, parsed)
  {
  }

  lemma {:induction false} OneMore(fields: seq<Field>, cells: seq<Cell>, off: nat, x: Rec, scan: Result<seq<Cell>>, rest: Result<seq<Rec>>)
    requires CellsFit(fields, cells)
    requires var i := FindArm(fields, x.tag);
             if i == |fields| then Agrees(fields, cells, off + x.Size(), scan, rest)
             else
               var arm := Arm(fields[i], cells[i], x.tag, off + x.head, x.head, x.body);
               if arm.Err? then scan.Err?
               else Agrees(fields, cells[i := arm.value.cell], off + x.Size(), scan, rest)
    ensures Agrees(fields, cells, off, scan, Join([x], rest))
  {
    hide Arm, FindArm, Hits, Fold;
    if rest.Ok? {
      FoldFirst(fields, cells, off, x, rest.value);
    }
  }

  lemma {:induction false} BadTag(s: seq<byte>)
    requires s != [] && Decode(s, W32).Bad?
    ensures Parse(s).Err?
  {
  }

  lemma {:induction false} FoldFirst(fields: seq<Field>, cells: seq<Cell>, off: nat, x: Rec, rest: seq<Rec>)
    requires CellsFit(fields, cells)
    ensures var i := FindArm(fields, x.tag);
            Fold(fields, cells, off, [x] + rest) ==
            if i == |fields| then Fold(fields, cells, off + x.Size(), rest)
            else
              match Arm(fields[i], cells[i], x.tag, off + x.head, x.head, x.body)
              case Err(e) => Err(e)
              case Ok(h) => Fold(fields, cells[i := h.cell], off + x.Size(), rest)
  {
    hide Arm, FindArm, Hits;
    assert ([x] + rest)[1..] == rest;
  }

  // ------------------------------------------------- all fields to one field

  lemma {:induction false} FindDistinct(fields: seq<Field>, tag: nat, j: nat)
    requires Distinct(fields) && j < |fields|
    ensures Hits(fields[j], tag) <==> FindArm(fields, tag) == j
  {
    var i := FindArm(fields, tag);
    if Hits(fields[j], tag) && i != j {
      HitsNumber(fields[i], tag);
      HitsNumber(fields[j], tag);
    }
  }

  /** The fields do not disturb each other: each cell is folded on its own. */
  lemma {:induction false} FoldIsFields(fields: seq<Field>, cells: seq<Cell>, off: nat, rs: seq<Rec>)
    requires CellsFit(fields, cells) && Distinct(fields)
    ensures Fold(fields, cells, off, rs).Ok? <==>
              forall j :: 0 <= j < |fields| ==> FoldOne(fields[j], cells[j], off, rs).Ok?
    ensures Fold(fields, cells, off, rs).Ok? ==>
              forall j :: 0 <= j < |fields| ==>
                Ok(Fold(fields, cells, off, rs).value[j]) == FoldOne(fields[j], cells[j], off, rs)
    decreases rs
  {
    hide Arm, Hits, FindArm;
    if rs != [] {
      var x := rs[0];
      var i := FindArm(fields, x.tag);
      forall j | 0 <= j < |fields|
        ensures Hits(fields[j], x.tag) <==> i == j
      {
        FindDistinct(fields, x.tag, j);
      }
      if i == |fields| {
        FoldIsFields(fields, cells, off + x.Size(), rs[1..]);
      } else {
        var arm := Arm(fields[i], cells[i], x.tag, off + x.head, x.head, x.body);
        if arm.Ok? {
          FoldIsFields(fields, cells[i := arm.value.cell], off + x.Size(), rs[1..]);
        } else {
          assert FoldOne(fields[i], cells[i], off, rs).Err?;
        }
      }
    }
  }

  // ---------------------------------------------------- one field's records

  /** The records that belong to field `f`, in wire order. */
  function Only(f: Field, rs: seq<Rec>): (hits: seq<Rec>)
    ensures |hits| <= |rs|
    ensures forall i :: 0 <= i < |hits| ==> Hits(f, hits[i].tag) && hits[i] in rs
  {
    if rs == [] then []
    else (if Hits(f, rs[0].tag) then [rs[0]] else []) + Only(f, rs[1..])
  }

  lemma {:induction false} OnlyAppend(f: Field, a: seq<Rec>, b: seq<Rec>)
    ensures Only(f, a + b) == Only(f, a) + Only(f, b)
  {
    hide Hits;
    if a == [] {
      assert a + b == b;
    } else {
      assert (a + b)[1..] == a[1..] + b;
      OnlyAppend(f, a[1..], b);
      var first := if Hits(f, a[0].tag) then [a[0]] else [];
      assert first + (Only(f, a[1..]) + Only(f, b)) == (first + Only(f, a[1..])) + Only(f, b);
    }
  }

  lemma {:induction false} OnlyNone(f: Field, rs: seq<Rec>)
    requires forall i :: 0 <= i < |rs| ==> !Hits(f, rs[i].tag)
    ensures Only(f, rs) == []
  {
    if rs != [] {
      OnlyNone(f, rs[1..]);
    }
  }

  lemma {:induction false} OnlyAll(f: Field, rs: seq<Rec>)
    requires forall i :: 0 <= i < |rs| ==> Hits(f, rs[i].tag)
    ensures Only(f, rs) == rs
  {
    if rs != [] {
      OnlyAll(f, rs[1..]);
    }
  }

  /** Equal but for where in the buffer things lie. */
  predicate SameContent(c: Cell, d: Cell) {
    match c
    case IntCell(has, value) => d == c
    case SpanCell(has, off, len) => d.SpanCell? && d.has == has && d.len == len
    case ListCell(has, count, first) => d.ListCell? && d.has == has && d.count == count
    case PackCell(has, count, first, packed) =>
      d.PackCell? && d.has == has && d.count == count && d.packed == packed
  }

  lemma {:induction false} ArmContent(f: Field, c: Cell, d: Cell, tag: nat, at: nat, at': nat, head: nat, s: seq<byte>)
    requires CellFits(f.shape, c) && CellFits(f.shape, d) && Hits(f, tag) && head <= at && head <= at'
    requires SameContent(c, d)
    ensures Arm(f, c, tag, at, head, s).Ok? <==> Arm(f, d, tag, at', head, s).Ok?
    ensures Arm(f, c, tag, at, head, s).Ok? ==>
              SameContent(Arm(f, c, tag, at, head, s).value.cell, Arm(f, d, tag, at', head, s).value.cell)
  {
    hide DecodeBytes, ReadScalar, SkipPlain, BlockCount;
  }

  /** Only the field's own records decide what is accepted and cached, and
      their position in the buffer decides offsets alone. */
  lemma {:induction false} FoldContent(f: Field, c: Cell, d: Cell, off: nat, off': nat, rs: seq<Rec>)
    requires CellFits(f.shape, c) && CellFits(f.shape, d) && SameContent(c, d)
    ensures SameOutcome(FoldOne(f, c, off, rs), FoldOne(f, d, off', Only(f, rs)))
    decreases rs
  {
    hide Arm, Hits, SameContent, FoldOne, Only;
    if rs == [] {
      FoldOneEmpty(f, c, off);
      FoldOneEmpty(f, d, off');
      OnlyNone(f, rs);
    } else {
      var x := rs[0];
      FoldOneHead(f, c, off, rs);
      OnlyHead(f, rs);
      if !Hits(f, x.tag) {
        FoldContent(f, c, d, off + x.Size(), off', rs[1..]);
      } else {
        FoldOneHead(f, d, off', Only(f, rs));
        ArmContent(f, c, d, x.tag, off + x.head, off' + x.head, x.head, x.body);
        var arm := Arm(f, c, x.tag, off + x.head, x.head, x.body);
        if arm.Ok? {
          var darm := Arm(f, d, x.tag, off' + x.head, x.head, x.body);
          FoldContent(f, arm.value.cell, darm.value.cell, off + x.Size(), off' + x.Size(), rs[1..]);
        }
      }
    }
  }

  predicate SameOutcome(a: Result<Cell>, b: Result<Cell>) {
    (a.Ok? <==> b.Ok?) && (a.Ok? ==> SameContent(a.value, b.value))
  }

  lemma {:induction false} FoldOneEmpty(f: Field, c: Cell, off: nat)
    requires CellFits(f.shape, c)
    ensures FoldOne(f, c, off, []) == Ok(c)
  {
  }

  lemma {:induction false} FoldOneHead(f: Field, c: Cell, off: nat, rs: seq<Rec>)
    requires CellFits(f.shape, c) && rs != []
    ensures var x := rs[0];
            FoldOne(f, c, off, rs) ==
            if !Hits(f, x.tag) then FoldOne(f, c, off + x.Size(), rs[1..])
            else
              var arm := Arm(f, c, x.tag, off + x.head, x.head, x.body);
              if arm.Err? then Err(arm.error) else FoldOne(f, arm.value.cell, off + x.Size(), rs[1..])
  {
    hide Arm, Hits;
  }

  lemma {:induction false} OnlyHead(f: Field, rs: seq<Rec>)
    requires rs != []
    ensures Hits(f, rs[0].tag) ==>
              Only(f, rs) == [rs[0]] + Only(f, rs[1..]) && Only(f, rs)[0] == rs[0] && Only(f, rs)[1..] == Only(f, rs[1..])
    ensures !Hits(f, rs[0].tag) ==> Only(f, rs) == Only(f, rs[1..])
  {
    hide Hits;
  }
}
