// Map entries, record by record: which are accepted, and which key and value
// an accepted one holds.
module Entries {
  import opened Bits
  import opened Options
  import opened Varint
  import opened Wire
  import opened Scalars
  import opened Records
  import opened Schema
  import opened Cells
  import opened Layout
  import opened Eager

  /** The tags of an entry's key and value. */
  lemma {:induction false} EntryTags(number: nat, slot: Slot)
    ensures !slot.ScalarSlot? ==> SlotTag(number, slot) == 8 * number + 2
    ensures slot.ScalarSlot? ==>
              match slot.kind
              case Fixed32 | SFixed32 => SlotTag(number, slot) == 8 * number + 5
              case Fixed64 | SFixed64 => SlotTag(number, slot) == 8 * number + 1
              case _ => SlotTag(number, slot) == 8 * number
  {
  }

  /** The last record with tag `tag`. */
  predicate LastTagged(rs: seq<Rec>, tag: nat, j: nat) {
    j < |rs| && rs[j].tag == tag && forall m :: j < m < |rs| ==> rs[m].tag != tag
  }

  predicate Untagged(rs: seq<Rec>, tag: nat) {
    forall j :: 0 <= j < |rs| ==> rs[j].tag != tag
  }

  /** `v` is what the record `x` of a key or value holds. */
  predicate SlotHolds(slot: Slot, x: Rec, v: SlotV<seq<byte>>) {
    match slot
    case ScalarSlot(k) => ReadScalar(x.body, k, W64).Ok? && v == IntS(ReadScalar(x.body, k, W64).value.value)
    case BlobSlot => DecodeBytes(x.body).Ok? && v == BlobS(DecodeBytes(x.body).value.bytes)
    case MessageSlot(_) => DecodeBytes(x.body).Ok? && v == MessageS(Some(DecodeBytes(x.body).value.bytes))
  }

  /** `v` comes from the last record with the slot's tag, or is `start` if there is none. */
  predicate SlotFrom(slot: Slot, tag: nat, rs: seq<Rec>, start: SlotV<seq<byte>>, v: SlotV<seq<byte>>) {
    && (Untagged(rs, tag) ==> v == start)
    && (forall j :: 0 <= j < |rs| && LastTagged(rs, tag, j) ==> SlotHolds(slot, rs[j], v))
  }

  lemma {:induction false} SlotOnRecord(number: nat, slot: Slot, s: seq<byte>)
    requires ReadSlot(slot, s).Ok?
    ensures var r := ReadSlot(slot, s).value;
            Skip(s, SlotTag(number, slot) % 8) == Ok(r.consumed)
    ensures var r := ReadSlot(slot, s).value;
            forall tag: nat, head: nat :: SlotHolds(slot, Rec(tag, head, s[..r.consumed]), r.v)
  {
    hide Decode, FromWire;
    var n := ReadSlot(slot, s).value.consumed;
    assert s[..n][..n] == s[..n];
    if slot.ScalarSlot? {
      ReadScalarSkips(s, slot.kind, W64);
      ReadScalarLocal(s, s[..n], slot.kind, W64);
    } else {
      DecodeBytesLocal(s, s[..n]);
    }
  }

  lemma {:induction false} SlotFromNew(slot: Slot, tag: nat, x: Rec, rest: seq<Rec>, start: SlotV<seq<byte>>,
                                       first: SlotV<seq<byte>>, v: SlotV<seq<byte>>)
    requires SlotFrom(slot, tag, rest, first, v)
    requires x.tag == tag ==> SlotHolds(slot, x, first)
    requires x.tag != tag ==> first == start
    ensures SlotFrom(slot, tag, [x] + rest, start, v)
  {
    hide SlotHolds;
    var rs := [x] + rest;
    forall j | 0 <= j < |rs| && LastTagged(rs, tag, j)
      ensures SlotHolds(slot, rs[j], v)
    {
      if j == 0 {
        assert Untagged(rest, tag) by {
          assert forall i :: 0 <= i < |rest| ==> rest[i] == rs[i + 1];
        }
      } else {
        assert LastTagged(rest, tag, j - 1) by {
          assert forall i :: 0 <= i < |rest| ==> rest[i] == rs[i + 1];
        }
      }
    }
    if Untagged(rs, tag) {
      assert rs[0] == x;
      assert Untagged(rest, tag) by {
        assert forall i :: 0 <= i < |rest| ==> rest[i] == rs[i + 1];
      }
    }
  }

  /** One step of the entry scan on a nonempty entry that parses. */
  lemma {:induction false} EntryStep(sch: Schema, key: Slot, val: Slot, s: seq<byte>, e: RawEntry)
    returns (x: Rec, rest: seq<byte>, next: RawEntry)
    requires SlotOk(sch, val) && s != [] && Parse(s).Ok? && ScanEntry(sch, key, val, s, e).Ok?
    ensures Parse(rest).Ok? && Parse(s).value == [x] + Parse(rest).value && |rest| < |s|
    ensures ScanEntry(sch, key, val, rest, next) == ScanEntry(sch, key, val, s, e)
    ensures if x.tag == SlotTag(1, key) then SlotHolds(key, x, next.key) else next.key == e.key
    ensures if x.tag == SlotTag(2, val) && x.tag != SlotTag(1, key) then SlotHolds(val, x, next.val) else next.val == e.val
  {
    hide Decode, Skip, Replaced, SlotTag, SlotHolds, Parse, ReadSlot;
    ParseHead(s);
    x := ParseRec(s).value;
    rest := s[x.Size()..];
    var after := s[x.head..];
    assert after[|x.body|..] == rest;
    if x.tag == SlotTag(1, key) {
      SlotOnRecord(1, key, after);
      next := e.(key := ReadSlot(key, after).value.v);
    } else if x.tag == SlotTag(2, val) {
      SlotOnRecord(2, val, after);
      next := e.(val := ReadSlot(val, after).value.v);
    } else {
      next := e;
    }
    assert x.body == after[..|x.body|];
  }

  /** In an entry the last key and the last value count, whatever stands
      between them; one that is missing stays as it was. */
  lemma {:induction false} EntryLastWins(sch: Schema, key: Slot, val: Slot, s: seq<byte>, e: RawEntry)
    requires SlotOk(sch, val) && Parse(s).Ok? && ScanEntry(sch, key, val, s, e).Ok?
    ensures var rs, r := Parse(s).value, ScanEntry(sch, key, val, s, e).value;
            && SlotFrom(key, SlotTag(1, key), rs, e.key, r.key)
            && SlotFrom(val, SlotTag(2, val), rs, e.val, r.val)
    decreases |s|
  {
    hide ScanEntry, SlotTag, SlotHolds, Parse, SlotFrom;
    TagsApart(key, val);
    if s == [] {
      NoRecords();
      EntryEnd(sch, key, val, e);
    } else {
      var x, rest, next := EntryStep(sch, key, val, s, e);
      EntryLastWins(sch, key, val, rest, next);
      var r := ScanEntry(sch, key, val, s, e).value;
      SlotFromNew(key, SlotTag(1, key), x, Parse(rest).value, e.key, next.key, r.key);
      SlotFromNew(val, SlotTag(2, val), x, Parse(rest).value, e.val, next.val, r.val);
    }
  }

  lemma {:induction false} TagsApart(key: Slot, val: Slot)
    ensures SlotTag(1, key) != SlotTag(2, val)
  {
  }

  lemma {:induction false} EntryEnd(sch: Schema, key: Slot, val: Slot, e: RawEntry)
    requires SlotOk(sch, val)
    ensures ScanEntry(sch, key, val, [], e) == Ok(e)
    ensures forall slot: Slot, tag: nat, v: SlotV<seq<byte>> :: SlotFrom(slot, tag, [], v, v)
  {
  }

  /** An entry without a key has key zero or no bytes; one without a value
      has zero, no bytes or the message that no bytes encode. */
  lemma {:induction false} EntryDefaults(sch: Schema, key: Slot, val: Slot, s: seq<byte>)
    requires SchemaOk(sch) && !key.MessageSlot? && SlotOk(sch, val) && Parse(s).Ok? && ReadEntry(sch, key, val, s).Some?
    ensures var rs, r := Parse(s).value, ReadEntry(sch, key, val, s).value;
            && (Untagged(rs, SlotTag(1, key)) ==> r.key == if key.ScalarSlot? then IntS(0) else BlobS([]))
            && (Untagged(rs, SlotTag(2, val)) ==>
                  match val
                  case ScalarSlot(_) => r.val == IntS(0)
                  case BlobSlot => r.val == BlobS([])
                  case MessageSlot(ty) => r.val == MessageS(ReadTree(sch, ty, [])) && r.val.msg.Some?)
  {
    hide ScanEntry, ReadTree, Untagged, SlotTag, Parse;
    EntryLastWins(sch, key, val, s, BlankEntry(key, val));
  }

  /** The record can be read as the slot's value. */
  predicate SlotReads(slot: Slot, x: Rec) {
    if slot.ScalarSlot? then ReadScalar(x.body, slot.kind, W64).Ok? else DecodeBytes(x.body).Ok?
  }

  /** Bytes a later value may replace: none, or a message that initializes. */
  predicate MayBeReplaced(sch: Schema, val: Slot, bytes: seq<byte>)
    requires SlotOk(sch, val)
  {
    val.MessageSlot? && bytes != [] ==> Init(sch, val.ty, bytes).Ok?
  }

  /** Keys and values all decode, and every value but the last may be replaced. */
  predicate EntryFine(sch: Schema, key: Slot, val: Slot, rs: seq<Rec>)
    requires SlotOk(sch, val)
  {
    AllRead(key, SlotTag(1, key), rs) && AllRead(val, SlotTag(2, val), rs) && EarlierFine(sch, val, SlotTag(2, val), rs)
  }

  predicate EarlierFine(sch: Schema, val: Slot, tag: nat, rs: seq<Rec>)
    requires SlotOk(sch, val)
  {
    forall i, j :: 0 <= i < j < |rs| && rs[i].tag == tag && rs[j].tag == tag ==> MayBeReplaced(sch, val, Payload(rs[i]))
  }

  predicate AllRead(slot: Slot, tag: nat, rs: seq<Rec>) {
    forall j :: 0 <= j < |rs| && rs[j].tag == tag ==> SlotReads(slot, rs[j])
  }

  /** The value `v` an entry begins with may be replaced if a value follows. */
  predicate StartFine(sch: Schema, val: Slot, v: SlotV<seq<byte>>, rs: seq<Rec>)
    requires SlotOk(sch, val)
  {
    Replaced(sch, val, v).None? || Untagged(rs, SlotTag(2, val))
  }

  /** Which entries are accepted: a message value that a later one replaces
      must be empty or initialize, although nothing of it is kept. */
  lemma {:induction false} EntryExact(sch: Schema, key: Slot, val: Slot, s: seq<byte>)
    requires SlotOk(sch, val) && Parse(s).Ok?
    ensures ScanEntry(sch, key, val, s, BlankEntry(key, val)).Ok? <==> EntryFine(sch, key, val, Parse(s).value)
  {
    hide ScanEntry, Parse, EntryFine, Init;
    EntryAccepts(sch, key, val, s, BlankEntry(key, val));
  }

  lemma {:induction false} EntryAccepts(sch: Schema, key: Slot, val: Slot, s: seq<byte>, e: RawEntry)
    requires SlotOk(sch, val) && Parse(s).Ok?
    ensures ScanEntry(sch, key, val, s, e).Ok? <==>
              EntryFine(sch, key, val, Parse(s).value) && StartFine(sch, val, e.val, Parse(s).value)
    decreases |s|
  {
    hide ScanEntry, SlotTag, Parse, EntryFine, StartFine, SlotReads, Replaced;
    if s == [] {
      NoRecords();
      NothingFine(sch, key, val, e);
    } else {
      var x, rest, next := EntryTry(sch, key, val, s, e);
      FineHead(sch, key, val, x, Parse(rest).value, e.val, next.val);
      EntryAccepts(sch, key, val, rest, next);
    }
  }

  lemma {:induction false} NothingFine(sch: Schema, key: Slot, val: Slot, e: RawEntry)
    requires SlotOk(sch, val)
    ensures ScanEntry(sch, key, val, [], e).Ok? && EntryFine(sch, key, val, []) && StartFine(sch, val, e.val, [])
  {
  }

  /** The record in front of an entry stops the scan. */
  predicate Stops(sch: Schema, key: Slot, val: Slot, x: Rec, v: SlotV<seq<byte>>)
    requires SlotOk(sch, val)
  {
    || (x.tag == SlotTag(1, key) && !SlotReads(key, x))
    || (x.tag == SlotTag(2, val) && (!SlotReads(val, x) || Replaced(sch, val, v).Some?))
  }

  lemma {:induction false} EntryTry(sch: Schema, key: Slot, val: Slot, s: seq<byte>, e: RawEntry)
    returns (x: Rec, rest: seq<byte>, next: RawEntry)
    requires SlotOk(sch, val) && s != [] && Parse(s).Ok?
    ensures Parse(rest).Ok? && Parse(s).value == [x] + Parse(rest).value && |rest| < |s|
    ensures Stops(sch, key, val, x, e.val) ==> ScanEntry(sch, key, val, s, e).Err?
    ensures !Stops(sch, key, val, x, e.val) ==> ScanEntry(sch, key, val, s, e) == ScanEntry(sch, key, val, rest, next)
    ensures x.tag != SlotTag(2, val) ==> next.val == e.val
    ensures x.tag == SlotTag(2, val) && SlotReads(val, x) ==>
              (Replaced(sch, val, next.val).None? <==> MayBeReplaced(sch, val, Payload(x)))
  {
    hide Decode, Skip, Replaced, SlotTag, Parse, ReadSlot, SlotReads, Payload, MayBeReplaced;
    TagsApart(key, val);
    ParseHead(s);
    x := ParseRec(s).value;
    rest := s[x.Size()..];
    var after := s[x.head..];
    assert after[|x.body|..] == rest && x.body == after[..|x.body|];
    next := e;
    if x.tag == SlotTag(1, key) {
      SlotOrNot(1, key, x, after);
      if SlotReads(key, x) {
        next := e.(key := ReadSlot(key, after).value.v);
      }
    } else if x.tag == SlotTag(2, val) {
      SlotOrNot(2, val, x, after);
      if SlotReads(val, x) {
        next := e.(val := ReadSlot(val, after).value.v);
        PayloadReplaced(sch, val, x, after);
      }
    }
  }

  /** The bytes after a tag read as a slot exactly when its record does. */
  lemma {:induction false} SlotOrNot(number: nat, slot: Slot, x: Rec, after: seq<byte>)
    requires x.tag == SlotTag(number, slot) && |x.body| <= |after| && x.body == after[..|x.body|]
    requires Skip(x.body, x.tag % 8) == Ok(|x.body|)
    ensures ReadSlot(slot, after).Ok? <==> SlotReads(slot, x)
    ensures ReadSlot(slot, after).Ok? ==> ReadSlot(slot, after).value.consumed == |x.body|
  {
    hide Decode, FromWire, Skip;
    assert x.body[..|x.body|] == x.body;
    SkipLocal(x.body, after, x.tag % 8);
    if ReadSlot(slot, after).Ok? {
      SlotOnRecord(number, slot, after);
      assert ReadSlot(slot, after).value.consumed == |x.body|;
      assert SlotHolds(slot, Rec(x.tag, 0, x.body), ReadSlot(slot, after).value.v);
    }
    if SlotReads(slot, x) {
      if slot.ScalarSlot? {
        var n := ReadScalar(x.body, slot.kind, W64).value.consumed;
        assert x.body[..n] == after[..n];
        ReadScalarLocal(x.body, after, slot.kind, W64);
      } else {
        var n := DecodeBytes(x.body).value.consumed;
        assert x.body[..n] == after[..n];
        DecodeBytesLocal(x.body, after);
      }
    }
  }

  lemma {:induction false} PayloadReplaced(sch: Schema, val: Slot, x: Rec, after: seq<byte>)
    requires SlotOk(sch, val) && |x.body| <= |after| && x.body == after[..|x.body|] && SlotReads(val, x)
    requires ReadSlot(val, after).Ok? && ReadSlot(val, after).value.consumed == |x.body|
    ensures Replaced(sch, val, ReadSlot(val, after).value.v).None? <==> MayBeReplaced(sch, val, Payload(x))
  {
    hide Decode, FromWire, Init;
    if !val.ScalarSlot? {
      DecodeBytesLocal(after, x.body);
    }
  }

  lemma {:induction false} FineHead(sch: Schema, key: Slot, val: Slot, x: Rec, rest: seq<Rec>, v: SlotV<seq<byte>>, next: SlotV<seq<byte>>)
    requires SlotOk(sch, val)
    requires x.tag != SlotTag(2, val) ==> next == v
    requires x.tag == SlotTag(2, val) && SlotReads(val, x) ==>
               (Replaced(sch, val, next).None? <==> MayBeReplaced(sch, val, Payload(x)))
    ensures EntryFine(sch, key, val, [x] + rest) && StartFine(sch, val, v, [x] + rest) <==>
              !Stops(sch, key, val, x, v) && EntryFine(sch, key, val, rest) && StartFine(sch, val, next, rest)
  {
    hide SlotTag, SlotReads, Replaced, MayBeReplaced, Payload;
    TagsApart(key, val);
    var rs := [x] + rest;
    assert rs[0] == x && forall j :: 0 <= j < |rest| ==> rest[j] == rs[j + 1];
    FineTail(sch, key, val, x, rest);
    assert Untagged(rs, SlotTag(2, val)) <==> x.tag != SlotTag(2, val) && Untagged(rest, SlotTag(2, val));
  }

  lemma {:induction false} FineTail(sch: Schema, key: Slot, val: Slot, x: Rec, rest: seq<Rec>)
    requires SlotOk(sch, val)
    ensures EntryFine(sch, key, val, [x] + rest) <==>
              && EntryFine(sch, key, val, rest)
              && (x.tag == SlotTag(1, key) ==> SlotReads(key, x)) && (x.tag == SlotTag(2, val) ==> SlotReads(val, x))
              && (x.tag == SlotTag(2, val) && !Untagged(rest, SlotTag(2, val)) ==> MayBeReplaced(sch, val, Payload(x)))
  {
    hide SlotTag, SlotReads, MayBeReplaced, Payload, AllRead, Untagged, EarlierFine;
    ReadTail(key, SlotTag(1, key), x, rest);
    ReadTail(val, SlotTag(2, val), x, rest);
    EarlierTail(sch, val, SlotTag(2, val), x, rest);
  }

  lemma {:induction false} EarlierTail(sch: Schema, val: Slot, tag: nat, x: Rec, rest: seq<Rec>)
    requires SlotOk(sch, val)
    ensures EarlierFine(sch, val, tag, [x] + rest) <==>
              EarlierFine(sch, val, tag, rest) && (x.tag == tag && !Untagged(rest, tag) ==> MayBeReplaced(sch, val, Payload(x)))
  {
    hide MayBeReplaced, Payload, Untagged;
    var rs := [x] + rest;
    if EarlierFine(sch, val, tag, rs) {
      forall i, j | 0 <= i < j < |rest| && rest[i].tag == tag && rest[j].tag == tag
        ensures MayBeReplaced(sch, val, Payload(rest[i]))
      {
        assert rs[i + 1] == rest[i] && rs[j + 1] == rest[j];
      }
      if x.tag == tag && !Untagged(rest, tag) {
        var j := SomeTagged(rest, tag);
        assert rs[0] == x && rs[j + 1] == rest[j];
      }
    }
    if EarlierFine(sch, val, tag, rest) && (x.tag == tag && !Untagged(rest, tag) ==> MayBeReplaced(sch, val, Payload(x))) {
      forall i, j | 0 <= i < j < |rs| && rs[i].tag == tag && rs[j].tag == tag
        ensures MayBeReplaced(sch, val, Payload(rs[i]))
      {
        assert rs[j] == rest[j - 1];
        if i > 0 {
          assert rs[i] == rest[i - 1];
        } else {
          IsTagged(rest, tag, j - 1);
        }
      }
    }
  }

  lemma {:induction false} SomeTagged(rs: seq<Rec>, tag: nat) returns (j: nat)
    requires !Untagged(rs, tag)
    ensures j < |rs| && rs[j].tag == tag
  {
    j :| j < |rs| && rs[j].tag == tag;
  }

  lemma {:induction false} IsTagged(rs: seq<Rec>, tag: nat, j: nat)
    requires j < |rs| && rs[j].tag == tag
    ensures !Untagged(rs, tag)
  {
  }

  lemma {:induction false} ReadTail(slot: Slot, tag: nat, x: Rec, rest: seq<Rec>)
    ensures AllRead(slot, tag, [x] + rest) <==> AllRead(slot, tag, rest) && (x.tag == tag ==> SlotReads(slot, x))
  {
    hide SlotReads;
    var rs := [x] + rest;
    assert rs[0] == x && forall j :: 0 <= j < |rest| ==> rest[j] == rs[j + 1];
  }
}
