// Three walks over a file's entries that must agree: counting, filling the flat
// arrays, and finding the scope of each `extend` block.
module Slots {
  import opened Descriptors
  import opened Options
  import opened Names

  /** What the parser finds in a file or in a message body. */
  datatype Node =
    | MessageN(name: string, body: seq<Node>)
    | EnumN(name: string)
    | FieldN(decl: FieldDecl)
    | OneofN(decls: seq<FieldDecl>)
    | ExtendN(id: nat)
    | OtherN

  // -------------------------------------------------- the tree and its slots

  /** Messages among the first `n` nodes, nested ones included. */
  function MessagesIn(nodes: seq<Node>, n: nat): nat
    requires n <= |nodes|
    decreases nodes, n
  {
    if n == 0 then 0 else MessagesIn(nodes, n - 1) + MessagesOf(nodes[n - 1])
  }

  function MessagesOf(node: Node): nat
    decreases node
  {
    if node.MessageN? then 1 + MessagesIn(node.body, |node.body|) else 0
  }

  function EnumsIn(nodes: seq<Node>, n: nat): nat
    requires n <= |nodes|
    decreases nodes, n
  {
    if n == 0 then 0 else EnumsIn(nodes, n - 1) + EnumsOf(nodes[n - 1])
  }

  function EnumsOf(node: Node): nat
    decreases node
  {
    match node
    case EnumN(_) => 1
    case MessageN(_, body) => EnumsIn(body, |body|)
    case _ => 0
  }

  /** A descriptor's name, the slot of the message around it, and its own fields. */
  datatype Slot = Slot(name: string, parent: Option<nat>, fields: seq<FieldDecl>)

  /** The message slots in pre-order, the first at `start`. */
  function MessageSlots(nodes: seq<Node>, n: nat, parent: Option<nat>, start: nat): (s: seq<Slot>)
    requires n <= |nodes|
    ensures |s| == MessagesIn(nodes, n)
    decreases nodes, n
  {
    if n == 0 then []
    else MessageSlots(nodes, n - 1, parent, start) + SlotsOf(nodes[n - 1], parent, start + MessagesIn(nodes, n - 1))
  }

  /** A message's own fields; those of a oneof are fields like any other. */
  function OwnFields(body: seq<Node>, n: nat): seq<FieldDecl>
    requires n <= |body|
  {
    if n == 0 then []
    else
      OwnFields(body, n - 1) +
      (match body[n - 1]
       case FieldN(d) => [d]
       case OneofN(ds) => ds
       case _ => [])
  }

  function MessageSlot(node: Node, parent: Option<nat>): Slot
    requires node.MessageN?
  {
    Slot(node.name, parent, OwnFields(node.body, |node.body|))
  }

  function SlotsOf(node: Node, parent: Option<nat>, at: nat): (s: seq<Slot>)
    ensures |s| == MessagesOf(node)
    decreases node
  {
    if node.MessageN? then [MessageSlot(node, parent)] + MessageSlots(node.body, |node.body|, Some(at), at + 1) else []
  }

  /** The enum slots in pre-order; `start` is still the next message slot. */
  function EnumSlots(nodes: seq<Node>, n: nat, parent: Option<nat>, start: nat): (s: seq<Slot>)
    requires n <= |nodes|
    ensures |s| == EnumsIn(nodes, n)
    decreases nodes, n
  {
    if n == 0 then []
    else EnumSlots(nodes, n - 1, parent, start) + EnumSlotsOf(nodes[n - 1], parent, start + MessagesIn(nodes, n - 1))
  }

  function EnumSlotsOf(node: Node, parent: Option<nat>, at: nat): (s: seq<Slot>)
    ensures |s| == EnumsOf(node)
    decreases node
  {
    match node
    case EnumN(name) => [Slot(name, parent, [])]
    case MessageN(_, body) => EnumSlots(body, |body|, Some(at), at + 1)
    case _ => []
  }

  // ------------------------------------------------------------ counting

  method CountBody(nodes: seq<Node>, msgs: nat, enums: nat) returns (m: nat, e: nat)
    ensures m == msgs + MessagesIn(nodes, |nodes|) && e == enums + EnumsIn(nodes, |nodes|)
    decreases nodes
  {
    m, e := msgs, enums;
    for i := 0 to |nodes|
      invariant m == msgs + MessagesIn(nodes, i) && e == enums + EnumsIn(nodes, i)
    {
      match nodes[i]
      case EnumN(_) =>
        e := e + 1;
      case MessageN(_, body) =>
        m := m + 1;
        m, e := CountBody(body, m, e);
      case _ =>
    }
  }

  lemma {:induction false} MessagesGrow(nodes: seq<Node>, i: nat, n: nat)
    requires i <= n <= |nodes|
    ensures MessagesIn(nodes, i) <= MessagesIn(nodes, n) && EnumsIn(nodes, i) <= EnumsIn(nodes, n)
    decreases n
  {
    if i < n {
      MessagesGrow(nodes, i, n - 1);
    }
  }

  // -------------------------------------------------------------- filling

  /** The array holds, from index `from` on, what the slots describe. */
  ghost predicate Holds(messages: seq<MessageType?>, slots: seq<Slot>, from: nat)
    reads (set m: MessageType | m in messages)`fields
  {
    from + |slots| <= |messages| && forall k :: 0 <= k < |slots| ==> HoldsAt(messages, slots[k], from + k)
  }

  ghost predicate HoldsAt(messages: seq<MessageType?>, slot: Slot, k: nat)
    requires k < |messages|
    reads (if messages[k] != null then {messages[k]} else {})`fields
  {
    && messages[k] != null && messages[k].ownName == slot.name && messages[k].fields == slot.fields
    && ParentAt(messages, messages[k].parent, slot.parent, k)
  }

  /** `parent` is the message in the slot named, which comes before slot `k`. */
  predicate ParentAt(messages: seq<MessageType?>, parent: MessageType?, at: Option<nat>, k: nat) {
    && (at.None? ==> parent == null)
    && (at.Some? ==> at.value < k && at.value < |messages| && parent != null && parent == messages[at.value])
  }

  /** The same for enums; the messages around them are below slot `upto`. */
  ghost predicate EnumHolds(messages: seq<MessageType?>, upto: nat, enums: seq<EnumType?>, slots: seq<Slot>, from: nat) {
    && from + |slots| <= |enums|
    && forall k :: 0 <= k < |slots| ==> EnumAt(messages, upto, enums[from + k], slots[k])
  }

  predicate EnumAt(messages: seq<MessageType?>, upto: nat, e: EnumType?, slot: Slot) {
    e != null && e.ownName == slot.name && ParentAt(messages, e.parent, slot.parent, upto)
  }

  lemma {:induction false} HoldsAppend(messages: seq<MessageType?>, a: seq<Slot>, b: seq<Slot>, from: nat)
    requires Holds(messages, a, from) && Holds(messages, b, from + |a|)
    ensures Holds(messages, a + b, from)
  {
    hide HoldsAt;
    forall k | 0 <= k < |a + b|
      ensures HoldsAt(messages, (a + b)[k], from + k)
    {
      if k >= |a| {
        assert (a + b)[k] == b[k - |a|] && from + k == (from + |a|) + (k - |a|);
      }
    }
  }

  lemma {:induction false} HoldsSame(now: seq<MessageType?>, was: seq<MessageType?>, slots: seq<Slot>, from: nat)
    requires Holds(was, slots, from) && |now| == |was| && now[..from + |slots|] == was[..from + |slots|]
    ensures Holds(now, slots, from)
  {
    forall k | 0 <= k < |slots|
      ensures HoldsAt(now, slots[k], from + k)
    {
      assert HoldsAt(was, slots[k], from + k);
      assert now[from + k] == now[..from + |slots|][from + k];
      if slots[k].parent.Some? {
        assert now[slots[k].parent.value] == now[..from + |slots|][slots[k].parent.value];
      }
    }
  }

  lemma {:induction false} EnumHoldsSame(now: seq<MessageType?>, was: seq<MessageType?>, upto: nat, later: nat,
                                         nowE: seq<EnumType?>, wasE: seq<EnumType?>, slots: seq<Slot>, from: nat)
    requires EnumHolds(was, upto, wasE, slots, from) && upto <= later <= |now| == |was| && now[..upto] == was[..upto]
    requires |nowE| == |wasE| && nowE[..from + |slots|] == wasE[..from + |slots|]
    ensures EnumHolds(now, later, nowE, slots, from)
  {
    forall k | 0 <= k < |slots|
      ensures EnumAt(now, later, nowE[from + k], slots[k])
    {
      assert EnumAt(was, upto, wasE[from + k], slots[k]);
      assert nowE[from + k] == nowE[..from + |slots|][from + k];
      if slots[k].parent.Some? {
        assert now[slots[k].parent.value] == now[..upto][slots[k].parent.value];
      }
    }
  }

  lemma {:induction false} EnumHoldsAppend(messages: seq<MessageType?>, upto: nat, enums: seq<EnumType?>, a: seq<Slot>, b: seq<Slot>, from: nat)
    requires EnumHolds(messages, upto, enums, a, from) && EnumHolds(messages, upto, enums, b, from + |a|)
    ensures EnumHolds(messages, upto, enums, a + b, from)
  {
    hide EnumAt;
    forall k | 0 <= k < |a + b|
      ensures EnumAt(messages, upto, enums[from + k], (a + b)[k])
    {
      if k >= |a| {
        assert (a + b)[k] == b[k - |a|] && from + k == (from + |a|) + (k - |a|);
      }
    }
  }

  predicate Distinct<T(==)>(s: seq<T>, n: nat) {
    forall i, j :: 0 <= i < j < n && j < |s| ==> s[i] != s[j]
  }

  /** The arrays of a file being built, and the next free slot of each. */
  class Filler {
    const messages: array<MessageType?>
    const enums: array<EnumType?>
    var msgIdx: nat
    var enumIdx: nat

    constructor (nMessages: nat, nEnums: nat)
      ensures fresh(messages) && fresh(enums) && messages.Length == nMessages && enums.Length == nEnums
      ensures msgIdx == 0 && enumIdx == 0
    {
      messages := new MessageType?[nMessages](_ => null);
      enums := new EnumType?[nEnums](_ => null);
      msgIdx, enumIdx := 0, 0;
    }

    /** Room for what is still to come, a parent already in its slot, and no
        descriptor in two slots. */
    predicate Roomy(nMessages: nat, nEnums: nat, parent: MessageType?, at: Option<nat>)
      reads this, messages, enums
    {
      && Distinct(messages[..], msgIdx) && Distinct(enums[..], enumIdx)
      && msgIdx + nMessages <= messages.Length && enumIdx + nEnums <= enums.Length
      && ParentAt(messages[..], parent, at, msgIdx)
    }

    method FillEnum(name: string, parent: MessageType?, ghost at: Option<nat>)
      requires Roomy(0, 1, parent, at)
      modifies this, enums
      ensures Distinct(enums[..], enumIdx)
      ensures msgIdx == old(msgIdx) && enumIdx == old(enumIdx) + 1
      ensures enums[..old(enumIdx)] == old(enums[..])[..old(enumIdx)]
      ensures EnumHolds(messages[..], msgIdx, enums[..], [Slot(name, at, [])], old(enumIdx))
    {
      var e := new EnumType(name, parent);
      enums[enumIdx] := e;
      enumIdx := enumIdx + 1;
    }

    /** A message and everything nested in it, the message first. */
    method FillMessage(node: Node, parent: MessageType?, ghost at: Option<nat>)
      requires node.MessageN? && Roomy(MessagesOf(node), EnumsOf(node), parent, at)
      modifies this, messages, enums
      ensures Distinct(messages[..], msgIdx) && Distinct(enums[..], enumIdx)
      ensures msgIdx == old(msgIdx) + MessagesOf(node) && enumIdx == old(enumIdx) + EnumsOf(node)
      ensures messages[..old(msgIdx)] == old(messages[..])[..old(msgIdx)]
      ensures enums[..old(enumIdx)] == old(enums[..])[..old(enumIdx)]
      ensures Holds(messages[..], SlotsOf(node, at, old(msgIdx)), old(msgIdx))
      ensures EnumHolds(messages[..], msgIdx, enums[..], EnumSlotsOf(node, at, old(msgIdx)), old(enumIdx))
      decreases node, 0
    {
      hide HoldsAt, EnumAt, OwnFields, Holds, EnumHolds, SlotsOf, EnumSlotsOf, MessageSlots, EnumSlots, MessagesOf, EnumsOf,
           MessagesIn, EnumsIn, MessageSlot;
      ghost var slot := msgIdx;
      MessageUnfolds(node, at, slot);
      var fields := OwnFieldList(node.body);
      var m := new MessageType(node.name, parent, fields);
      messages[msgIdx] := m;
      msgIdx := msgIdx + 1;
      ghost var first := messages[..];
      FirstSlot(first, node, at, slot, m);
      FillNodes(node.body, m, Some(slot));
      HoldsSame(messages[..], first, [MessageSlot(node, at)], slot);
      HoldsAppend(messages[..], [MessageSlot(node, at)], MessageSlots(node.body, |node.body|, Some(slot), slot + 1), slot);
    }

    method FillNode(node: Node, parent: MessageType?, ghost at: Option<nat>)
      requires Roomy(MessagesOf(node), EnumsOf(node), parent, at)
      modifies this, messages, enums
      ensures Distinct(messages[..], msgIdx) && Distinct(enums[..], enumIdx)
      ensures msgIdx == old(msgIdx) + MessagesOf(node) && enumIdx == old(enumIdx) + EnumsOf(node)
      ensures messages[..old(msgIdx)] == old(messages[..])[..old(msgIdx)]
      ensures enums[..old(enumIdx)] == old(enums[..])[..old(enumIdx)]
      ensures Holds(messages[..], SlotsOf(node, at, old(msgIdx)), old(msgIdx))
      ensures EnumHolds(messages[..], msgIdx, enums[..], EnumSlotsOf(node, at, old(msgIdx)), old(enumIdx))
      decreases node, 1
    {
      hide HoldsAt, EnumAt, Holds, EnumHolds, SlotsOf, EnumSlotsOf;
      LeafSlots(node, at, messages[..], msgIdx, enums[..], enumIdx);
      match node
      case EnumN(name) =>
        FillEnum(name, parent, at);
        LeafSlots(node, at, messages[..], msgIdx, enums[..], enumIdx);
      case MessageN(_, _) =>
        FillMessage(node, parent, at);
      case _ =>
    }

    /** All entries of a body or of a file, nested ones included. */
    method FillNodes(nodes: seq<Node>, parent: MessageType?, ghost at: Option<nat>)
      requires Roomy(MessagesIn(nodes, |nodes|), EnumsIn(nodes, |nodes|), parent, at)
      modifies this, messages, enums
      ensures Distinct(messages[..], msgIdx) && Distinct(enums[..], enumIdx)
      ensures msgIdx == old(msgIdx) + MessagesIn(nodes, |nodes|) && enumIdx == old(enumIdx) + EnumsIn(nodes, |nodes|)
      ensures messages[..old(msgIdx)] == old(messages[..])[..old(msgIdx)]
      ensures enums[..old(enumIdx)] == old(enums[..])[..old(enumIdx)]
      ensures Holds(messages[..], MessageSlots(nodes, |nodes|, at, old(msgIdx)), old(msgIdx))
      ensures EnumHolds(messages[..], msgIdx, enums[..], EnumSlots(nodes, |nodes|, at, old(msgIdx)), old(enumIdx))
      decreases nodes, 1
    {
      hide HoldsAt, EnumAt, Holds, EnumHolds, SlotsOf, EnumSlotsOf, MessageSlots, EnumSlots, ParentAt, Distinct;
      ghost var start, startE := msgIdx, enumIdx;
      ghost var base, baseE := messages[..], enums[..];
      NoSlots(nodes, at, start, messages[..], enums[..], startE);
      for i := 0 to |nodes|
        invariant msgIdx == start + MessagesIn(nodes, i) && enumIdx == startE + EnumsIn(nodes, i)
        invariant Distinct(messages[..], msgIdx) && Distinct(enums[..], enumIdx)
        invariant messages[..start] == base[..start] && enums[..startE] == baseE[..startE]
        invariant Holds(messages[..], MessageSlots(nodes, i, at, start), start)
        invariant EnumHolds(messages[..], msgIdx, enums[..], EnumSlots(nodes, i, at, start), startE)
      {
        MessagesGrow(nodes, i + 1, |nodes|);
        ghost var was, wasE, upto := messages[..], enums[..], msgIdx;
        ParentSame(messages[..], base, parent, at, start, msgIdx);
        FillNode(nodes[i], parent, at);
        NextSlots(nodes, i, at, start, startE, was, messages[..], upto, msgIdx, wasE, enums[..]);
      }
    }
  }

  lemma {:induction false} FirstSlot(messages: seq<MessageType?>, node: Node, at: Option<nat>, slot: nat, m: MessageType)
    requires node.MessageN? && slot < |messages| && messages[slot] == m
    requires m.ownName == node.name && m.fields == OwnFields(node.body, |node.body|) && ParentAt(messages, m.parent, at, slot)
    ensures Holds(messages, [MessageSlot(node, at)], slot) && ParentAt(messages, m, Some(slot), slot + 1)
  {
    hide OwnFields;
  }

  lemma {:induction false} ParentSame(now: seq<MessageType?>, was: seq<MessageType?>, parent: MessageType?, at: Option<nat>, k: nat, later: nat)
    requires ParentAt(was, parent, at, k) && k <= later && k <= |was| == |now| && now[..k] == was[..k]
    ensures ParentAt(now, parent, at, later)
  {
    if at.Some? {
      assert now[at.value] == now[..k][at.value];
    }
  }

  lemma {:induction false} NoSlots(nodes: seq<Node>, at: Option<nat>, start: nat, messages: seq<MessageType?>, enums: seq<EnumType?>, startE: nat)
    requires start <= |messages| && startE <= |enums|
    ensures Holds(messages, MessageSlots(nodes, 0, at, start), start)
    ensures EnumHolds(messages, start, enums, EnumSlots(nodes, 0, at, start), startE)
  {
  }

  /** An entry that is no message takes no message slot. */
  lemma {:induction false} LeafSlots(node: Node, at: Option<nat>, messages: seq<MessageType?>, upto: nat, enums: seq<EnumType?>, startE: nat)
    requires upto <= |messages| && startE <= |enums|
    ensures !node.MessageN? ==> SlotsOf(node, at, upto) == [] && Holds(messages, SlotsOf(node, at, upto), upto)
    ensures node.EnumN? ==> EnumSlotsOf(node, at, upto) == [Slot(node.name, at, [])]
    ensures !node.MessageN? && !node.EnumN? ==> EnumHolds(messages, upto, enums, EnumSlotsOf(node, at, upto), startE)
  {
  }

  lemma {:induction false} MessageUnfolds(node: Node, at: Option<nat>, slot: nat)
    requires node.MessageN?
    ensures MessagesOf(node) == 1 + MessagesIn(node.body, |node.body|)
    ensures EnumsOf(node) == EnumsIn(node.body, |node.body|)
    ensures SlotsOf(node, at, slot) == [MessageSlot(node, at)] + MessageSlots(node.body, |node.body|, Some(slot), slot + 1)
    ensures EnumSlotsOf(node, at, slot) == EnumSlots(node.body, |node.body|, Some(slot), slot + 1)
  {
  }

  method CountFields(body: seq<Node>) returns (nFields: nat)
    ensures nFields == |OwnFields(body, |body|)|
  {
    nFields := 0;
    for i := 0 to |body|
      invariant nFields == |OwnFields(body, i)|
    {
      match body[i]
      case FieldN(_) =>
        nFields := nFields + 1;
      case OneofN(decls) =>
        for k := 0 to |decls|
          invariant nFields == |OwnFields(body, i)| + k
        {
          nFields := nFields + 1;
        }
      case _ =>
    }
  }

  /** The fields of a body, into an array of exactly their number. */
  method OwnFieldList(body: seq<Node>) returns (fields: seq<FieldDecl>)
    ensures fields == OwnFields(body, |body|)
  {
    hide OwnFields;
    var nFields := CountFields(body);
    var items := new FieldDecl[nFields](_ => FieldDecl(Named(""), Unresolved, None));
    var fi := 0;
    FieldsStep(body, 0);
    for i := 0 to |body|
      invariant fi == |OwnFields(body, i)| <= nFields && items[..fi] == OwnFields(body, i)
    {
      FieldsGrow(body, i + 1, |body|);
      FieldsStep(body, i);
      match body[i]
      case FieldN(d) =>
        fi := AddFields(items, fi, [d]);
      case OneofN(decls) =>
        fi := AddFields(items, fi, decls);
      case _ =>
    }
    return items[..];
  }

  method AddFields(items: array<FieldDecl>, fi: nat, decls: seq<FieldDecl>) returns (end: nat)
    requires fi + |decls| <= items.Length
    modifies items
    ensures end == fi + |decls| && items[..end] == old(items[..fi]) + decls
  {
    ghost var done := items[..fi];
    end := fi;
    for k := 0 to |decls|
      invariant end == fi + k && items[..end] == done + decls[..k]
    {
      items[end] := decls[k];
      end := end + 1;
      assert items[..end] == (done + decls[..k]) + [decls[k]];
    }
    assert decls[..|decls|] == decls;
  }

  lemma {:induction false} FieldsStep(body: seq<Node>, i: nat)
    requires i <= |body|
    ensures OwnFields(body, 0) == []
    ensures i < |body| ==>
              OwnFields(body, i + 1) ==
              OwnFields(body, i) +
              (match body[i]
               case FieldN(d) => [d]
               case OneofN(ds) => ds
               case _ => [])
  {
  }

  /** The fields of a body are those of its parts in order: a field is itself,
      a oneof its members, and what is nested contributes none. */
  lemma {:induction false} FieldsOfParts(a: seq<Node>, b: seq<Node>)
    ensures OwnFields(a + b, |a + b|) == OwnFields(a, |a|) + OwnFields(b, |b|)
    ensures forall d :: OwnFields([FieldN(d)], 1) == [d]
    ensures forall ds :: OwnFields([OneofN(ds)], 1) == ds
    ensures forall node: Node :: !node.FieldN? && !node.OneofN? ==> OwnFields([node], 1) == []
  {
    FieldsAppend(a, b, |b|);
    assert (a + b)[..|a + b|] == a + b;
  }

  lemma {:induction false} FieldsAppend(a: seq<Node>, b: seq<Node>, n: nat)
    requires n <= |b|
    ensures OwnFields(a + b, |a| + n) == OwnFields(a, |a|) + OwnFields(b, n)
    decreases n
  {
    hide OwnFields;
    FieldsStep(b, n);
    if n == 0 {
      FieldsFront(a, b, |a|);
    } else {
      FieldsAppend(a, b, n - 1);
      FieldsStep(a + b, |a| + (n - 1));
      FieldsStep(b, n - 1);
      assert (a + b)[|a| + (n - 1)] == b[n - 1];
    }
  }

  lemma {:induction false} FieldsFront(a: seq<Node>, b: seq<Node>, n: nat)
    requires n <= |a|
    ensures OwnFields(a + b, n) == OwnFields(a, n)
  {
    if n > 0 {
      FieldsFront(a, b, n - 1);
    }
  }

  /** One more entry: its slots go behind those before it. */
  lemma {:induction false} NextSlots(nodes: seq<Node>, i: nat, at: Option<nat>, start: nat, startE: nat, was: seq<MessageType?>, now: seq<MessageType?>,
                                     upto: nat, later: nat, wasE: seq<EnumType?>, nowE: seq<EnumType?>)
    requires i < |nodes| && |now| == |was| && |nowE| == |wasE| && upto == start + MessagesIn(nodes, i) <= later <= |now|
    requires startE + EnumsIn(nodes, i) <= |nowE|
    requires now[..upto] == was[..upto] && nowE[..startE + EnumsIn(nodes, i)] == wasE[..startE + EnumsIn(nodes, i)]
    requires Holds(was, MessageSlots(nodes, i, at, start), start)
    requires EnumHolds(was, upto, wasE, EnumSlots(nodes, i, at, start), startE)
    requires Holds(now, SlotsOf(nodes[i], at, upto), upto)
    requires EnumHolds(now, later, nowE, EnumSlotsOf(nodes[i], at, upto), startE + EnumsIn(nodes, i))
    ensures Holds(now, MessageSlots(nodes, i + 1, at, start), start)
    ensures EnumHolds(now, later, nowE, EnumSlots(nodes, i + 1, at, start), startE)
  {
    hide Holds, EnumHolds, SlotsOf, EnumSlotsOf;
    var a, b := MessageSlots(nodes, i, at, start), EnumSlots(nodes, i, at, start);
    HoldsSame(now, was, a, start);
    HoldsAppend(now, a, SlotsOf(nodes[i], at, upto), start);
    EnumHoldsSame(now, was, upto, later, nowE, wasE, b, startE);
    EnumHoldsAppend(now, later, nowE, b, EnumSlotsOf(nodes[i], at, upto), startE);
  }

  lemma {:induction false} FieldsGrow(body: seq<Node>, i: nat, n: nat)
    requires i <= n <= |body|
    ensures |OwnFields(body, i)| <= |OwnFields(body, n)|
    decreases n
  {
    if i < n {
      FieldsGrow(body, i, n - 1);
    }
  }

  /** Two passes: count, then fill arrays of exactly that size. */
  method BuildFile(nodes: seq<Node>) returns (f: Filler)
    ensures fresh(f) && fresh(f.messages) && fresh(f.enums)
    ensures f.msgIdx == f.messages.Length && f.enumIdx == f.enums.Length && Built(f, nodes)
  {
    hide Holds, EnumHolds, MessageSlots, EnumSlots;
    var m, e := CountBody(nodes, 0, 0);
    f := new Filler(m, e);
    f.FillNodes(nodes, null, None);
  }

  // ---------------------------------------------------------- scoped names

  /** The full names of the messages, by the structure of the tree. */
  function Paths(nodes: seq<Node>, n: nat, prefix: Name): (p: seq<Name>)
    requires n <= |nodes|
    ensures |p| == MessagesIn(nodes, n)
    decreases nodes, n
  {
    if n == 0 then [] else Paths(nodes, n - 1, prefix) + PathsOf(nodes[n - 1], prefix)
  }

  function PathsOf(node: Node, prefix: Name): (p: seq<Name>)
    ensures |p| == MessagesOf(node)
    decreases node
  {
    if node.MessageN? then [prefix + [node.name]] + Paths(node.body, |node.body|, prefix + [node.name]) else []
  }

  function EnumPaths(nodes: seq<Node>, n: nat, prefix: Name): (p: seq<Name>)
    requires n <= |nodes|
    ensures |p| == EnumsIn(nodes, n)
    decreases nodes, n
  {
    if n == 0 then [] else EnumPaths(nodes, n - 1, prefix) + EnumPathsOf(nodes[n - 1], prefix)
  }

  function EnumPathsOf(node: Node, prefix: Name): (p: seq<Name>)
    ensures |p| == EnumsOf(node)
    decreases node
  {
    match node
    case EnumN(name) => [prefix + [name]]
    case MessageN(name, body) => EnumPaths(body, |body|, prefix + [name])
    case _ => []
  }

  /** Entry `i` is named after its parent: the one outside, or one with the names `paths` from slot `start` on. */
  predicate NamedAfter(slot: Slot, name: Name, at: Option<nat>, prefix: Name, start: nat, paths: seq<Name>) {
    || (slot.parent == at && name == prefix + [slot.name])
    || (&& slot.parent.Some? && start <= slot.parent.value < start + |paths|
        && name == paths[slot.parent.value - start] + [slot.name])
  }

  predicate AllNamedAfter(slots: seq<Slot>, names: seq<Name>, at: Option<nat>, prefix: Name, start: nat, paths: seq<Name>) {
    |slots| == |names| && forall i :: 0 <= i < |slots| ==> NamedAfter(slots[i], names[i], at, prefix, start, paths)
  }

  lemma {:induction false} NamedAppend(a: seq<Slot>, na: seq<Name>, b: seq<Slot>, nb: seq<Name>, at: Option<nat>, prefix: Name, start: nat,
                                       paths: seq<Name>, more: seq<Name>)
    requires AllNamedAfter(a, na, at, prefix, start, paths)
    requires AllNamedAfter(b, nb, at, prefix, start + |paths|, more)
    ensures AllNamedAfter(a + b, na + nb, at, prefix, start, paths + more)
  {
  }

  lemma {:induction false} NamedInside(slot: Slot, b: seq<Slot>, nb: seq<Name>, at: Option<nat>, prefix: Name, start: nat, paths: seq<Name>)
    requires slot.parent == at && AllNamedAfter(b, nb, Some(start), prefix + [slot.name], start + 1, paths)
    ensures AllNamedAfter([slot] + b, [prefix + [slot.name]] + nb, at, prefix, start, [prefix + [slot.name]] + paths)
    ensures AllNamedAfter(b, nb, at, prefix, start, [prefix + [slot.name]] + paths)
  {
    var all := [prefix + [slot.name]] + paths;
    forall i | 0 <= i < |b|
      ensures NamedAfter(b[i], nb[i], at, prefix, start, all)
    {
      assert NamedAfter(b[i], nb[i], Some(start), prefix + [slot.name], start + 1, paths);
    }
  }

  /** Slots and names, laid out by two recursions, agree. */
  lemma {:induction false} PathsFollowSlots(nodes: seq<Node>, n: nat, at: Option<nat>, start: nat, prefix: Name)
    requires n <= |nodes|
    ensures AllNamedAfter(MessageSlots(nodes, n, at, start), Paths(nodes, n, prefix), at, prefix, start, Paths(nodes, n, prefix))
    ensures AllNamedAfter(EnumSlots(nodes, n, at, start), EnumPaths(nodes, n, prefix), at, prefix, start, Paths(nodes, n, prefix))
    decreases nodes, n
  {
    hide AllNamedAfter;
    if n == 0 {
      NothingNamed(at, prefix, start);
    } else {
      var x, next := nodes[n - 1], start + MessagesIn(nodes, n - 1);
      PathsFollowSlots(nodes, n - 1, at, start, prefix);
      NodeFollowsSlots(x, at, next, prefix);
      NamedAppend(MessageSlots(nodes, n - 1, at, start), Paths(nodes, n - 1, prefix), SlotsOf(x, at, next), PathsOf(x, prefix),
                  at, prefix, start, Paths(nodes, n - 1, prefix), PathsOf(x, prefix));
      NamedAppend(EnumSlots(nodes, n - 1, at, start), EnumPaths(nodes, n - 1, prefix), EnumSlotsOf(x, at, next), EnumPathsOf(x, prefix),
                  at, prefix, start, Paths(nodes, n - 1, prefix), PathsOf(x, prefix));
    }
  }

  lemma {:induction false} NodeFollowsSlots(x: Node, at: Option<nat>, next: nat, prefix: Name)
    ensures AllNamedAfter(SlotsOf(x, at, next), PathsOf(x, prefix), at, prefix, next, PathsOf(x, prefix))
    ensures AllNamedAfter(EnumSlotsOf(x, at, next), EnumPathsOf(x, prefix), at, prefix, next, PathsOf(x, prefix))
    decreases x
  {
    if x.MessageN? {
      hide AllNamedAfter, OwnFields;
      var inner, body := prefix + [x.name], x.body;
      PathsFollowSlots(body, |body|, Some(next), next + 1, inner);
      NamedInside(MessageSlot(x, at), MessageSlots(body, |body|, Some(next), next + 1), Paths(body, |body|, inner), at, prefix, next,
                  Paths(body, |body|, inner));
      NamedInside(MessageSlot(x, at), EnumSlots(body, |body|, Some(next), next + 1), EnumPaths(body, |body|, inner), at, prefix, next,
                  Paths(body, |body|, inner));
    }
  }

  lemma {:induction false} NothingNamed(at: Option<nat>, prefix: Name, start: nat)
    ensures AllNamedAfter([], [], at, prefix, start, [])
  {
  }

  /** `n` is the package: no segments if it is absent or empty, otherwise the
      proper name it is written as, with or without a leading dot. */
  predicate PackageIs(package: Option<string>, n: Name) {
    if package.None? || package.value == "" then n == []
    else Proper(n) && (package.value == Join(n) || package.value == "." + Join(n))
  }

  /** A package has at most one name, and it is the one the parser finds. */
  lemma {:induction false} PackageParsed(p: string, n: Name)
    requires p != ""
    ensures PackageIs(Some(p), n) <==> Parse(p).Some? && Parse(p).value.segments == n
  {
    hide Parse, Join;
    ParseIsInverse(p, Scoped(n, false));
    ParseIsInverse(p, Scoped(n, true));
    if Proper(n) {
      assert "" + Join(n) == Join(n);
    }
    if Parse(p).Some? {
      ParseIsInverse(p, Parse(p).value);
    }
  }

  /** What the arrays hold is the file `nodes`. */
  ghost predicate Built(f: Filler, nodes: seq<Node>)
    reads f, f.messages, f.enums, (set m: MessageType | m in f.messages[..])`fields
  {
    && f.messages.Length == MessagesIn(nodes, |nodes|) && f.enums.Length == EnumsIn(nodes, |nodes|)
    && Holds(f.messages[..], MessageSlots(nodes, |nodes|, None, 0), 0)
    && EnumHolds(f.messages[..], f.messages.Length, f.enums[..], EnumSlots(nodes, |nodes|, None, 0), 0)
    && Distinct(f.messages[..], f.messages.Length) && Distinct(f.enums[..], f.enums.Length)
  }

  lemma {:induction false} MessageSlotAt(f: Filler, nodes: seq<Node>, pkg: Name, k: nat)
    requires Built(f, nodes) && k < f.messages.Length
    ensures |Paths(nodes, |nodes|, pkg)| == f.messages.Length && f.messages[k] != null
    ensures var p, m := Paths(nodes, |nodes|, pkg), f.messages[k];
            if m.parent == null then p[k] == pkg + [m.ownName]
            else exists j :: 0 <= j < k && f.messages[j] == m.parent && p[k] == p[j] + [m.ownName]
  {
    hide Distinct, EnumHolds;
    PathsFollowSlots(nodes, |nodes|, None, 0, pkg);
    var slots, p := MessageSlots(nodes, |nodes|, None, 0), Paths(nodes, |nodes|, pkg);
    assert HoldsAt(f.messages[..], slots[k], k);
    assert NamedAfter(slots[k], p[k], None, pkg, 0, p);
  }

  lemma {:induction false} EnumSlotAt(f: Filler, nodes: seq<Node>, pkg: Name, k: nat)
    requires Built(f, nodes) && k < f.enums.Length
    ensures |EnumPaths(nodes, |nodes|, pkg)| == f.enums.Length && f.enums[k] != null
    ensures |Paths(nodes, |nodes|, pkg)| == f.messages.Length
    ensures var p, e := EnumPaths(nodes, |nodes|, pkg), f.enums[k];
            if e.parent == null then p[k] == pkg + [e.ownName]
            else exists j :: 0 <= j < f.messages.Length && f.messages[j] == e.parent && p[k] == Paths(nodes, |nodes|, pkg)[j] + [e.ownName]
  {
    hide Distinct, Holds;
    PathsFollowSlots(nodes, |nodes|, None, 0, pkg);
    var slots, p := EnumSlots(nodes, |nodes|, None, 0), EnumPaths(nodes, |nodes|, pkg);
    assert EnumAt(f.messages[..], f.messages.Length, f.enums[..][0 + k], slots[k]);
    assert NamedAfter(slots[k], p[k], None, pkg, 0, Paths(nodes, |nodes|, pkg));
  }

  /** A descriptor's full name: its own behind that of the message around it,
      or behind the package. */
  ghost predicate NamedUnder(f: Filler, pkg: Name)
    reads f, f.messages, f.enums, (set m: MessageType | m in f.messages[..])`scopedName, (set e: EnumType | e in f.enums[..])`scopedName
  {
    && (forall k :: 0 <= k < f.messages.Length ==>
         && f.messages[k] != null
         && var m := f.messages[k];
            if m.parent == null then m.scopedName == pkg + [m.ownName]
            else m.parent in f.messages[..k] && m.scopedName == m.parent.scopedName + [m.ownName])
    && (forall k :: 0 <= k < f.enums.Length ==>
         && f.enums[k] != null
         && var e := f.enums[k];
            if e.parent == null then e.scopedName == pkg + [e.ownName]
            else e.parent in f.messages[..] && e.scopedName == e.parent.scopedName + [e.ownName])
  }

  /** Names every message and enum: package, enclosing messages, itself; fails
      exactly when the package is no name. */
  method ComputeScopedNames(f: Filler, package: Option<string>, ghost nodes: seq<Node>) returns (ok: bool, ghost pkg: Name)
    requires Built(f, nodes)
    modifies (set m: MessageType | m in f.messages[..])`scopedName, (set e: EnumType | e in f.enums[..])`scopedName
    ensures Built(f, nodes) && (ok <==> exists n :: PackageIs(package, n))
    ensures ok ==> PackageIs(package, pkg) && forall n :: PackageIs(package, n) ==> n == pkg
    ensures ok ==> NamedUnder(f, pkg)
    ensures ok ==> MessagesNamed(f, Paths(nodes, |nodes|, pkg), f.messages.Length)
    ensures ok ==> EnumsNamed(f, EnumPaths(nodes, |nodes|, pkg), f.enums.Length)
  {
    hide Built, Paths, EnumPaths, Parse, PackageIs, NamedUnder;
    var prefix: Name := [];
    if package.None? || package.value == "" {
      NoPackage(package);
    }
    if package.Some? && |package.value| > 0 {
      forall n
        ensures PackageIs(package, n) <==> Parse(package.value).Some? && Parse(package.value).value.segments == n
      {
        PackageParsed(package.value, n);
      }
      var r := ParseName(package.value);
      if r.None? {
        return false, [];
      }
      prefix := r.value.segments;
    }
    assert PackageIs(package, prefix);
    NameMessages(f, prefix, nodes);
    NameEnums(f, prefix, nodes);
    NamesByParent(f, prefix, nodes);
    return true, prefix;
  }

  lemma {:induction false} NoPackage(package: Option<string>)
    requires package.None? || package.value == ""
    ensures PackageIs(package, []) && forall n :: PackageIs(package, n) ==> n == []
  {
  }

  lemma {:induction false} NamesByParent(f: Filler, pkg: Name, nodes: seq<Node>)
    requires Built(f, nodes) && MessagesNamed(f, Paths(nodes, |nodes|, pkg), f.messages.Length)
    requires EnumsNamed(f, EnumPaths(nodes, |nodes|, pkg), f.enums.Length)
    ensures NamedUnder(f, pkg)
  {
    hide Built, Paths, EnumPaths;
    forall k | 0 <= k < f.messages.Length
      ensures var m := f.messages[k];
              if m.parent == null then m.scopedName == pkg + [m.ownName]
              else m.parent in f.messages[..k] && m.scopedName == m.parent.scopedName + [m.ownName]
    {
      MessageSlotAt(f, nodes, pkg, k);
      var m := f.messages[k];
      if m.parent != null {
        var j :| 0 <= j < k && f.messages[j] == m.parent && Paths(nodes, |nodes|, pkg)[k] == Paths(nodes, |nodes|, pkg)[j] + [m.ownName];
        assert f.messages[..k][j] == m.parent;
      }
    }
    forall k | 0 <= k < f.enums.Length
      ensures var e := f.enums[k];
              if e.parent == null then e.scopedName == pkg + [e.ownName]
              else e.parent in f.messages[..] && e.scopedName == e.parent.scopedName + [e.ownName]
    {
      EnumSlotAt(f, nodes, pkg, k);
      var e := f.enums[k];
      if e.parent != null {
        var j :| 0 <= j < f.messages.Length && f.messages[j] == e.parent &&
                 EnumPaths(nodes, |nodes|, pkg)[k] == Paths(nodes, |nodes|, pkg)[j] + [e.ownName];
        assert f.messages[..][j] == e.parent;
      }
    }
  }

  ghost predicate EnumsNamed(f: Filler, paths: seq<Name>, n: nat)
    reads f, f.enums, (set e: EnumType | e in f.enums[..])`scopedName
  {
    n <= |paths| == f.enums.Length && forall k :: 0 <= k < n ==> f.enums[k] != null && f.enums[k].scopedName == paths[k]
  }

  /** The messages' names are final. */
  ghost predicate MessagesNamed(f: Filler, paths: seq<Name>, n: nat)
    reads f, f.messages, (set m: MessageType | m in f.messages[..])`scopedName
  {
    n <= |paths| == f.messages.Length && forall k :: 0 <= k < n ==> f.messages[k] != null && f.messages[k].scopedName == paths[k]
  }

  method NameMessages(f: Filler, pkg: Name, ghost nodes: seq<Node>)
    requires Built(f, nodes)
    modifies (set m: MessageType | m in f.messages[..])`scopedName
    ensures Built(f, nodes) && MessagesNamed(f, Paths(nodes, |nodes|, pkg), f.messages.Length)
  {
    hide Holds, EnumHolds, MessageSlots, EnumSlots, Paths;
    ghost var paths := Paths(nodes, |nodes|, pkg);
    for i := 0 to f.messages.Length
      invariant Built(f, nodes) && MessagesNamed(f, paths, i)
    {
      MessageSlotAt(f, nodes, pkg, i);
      var m := f.messages[i];
      assert m == f.messages[..][i];
      var prefix := if m.parent != null then m.parent.scopedName else pkg;
      m.scopedName := prefix + [m.ownName];
    }
  }

  method NameEnums(f: Filler, pkg: Name, ghost nodes: seq<Node>)
    requires Built(f, nodes) && MessagesNamed(f, Paths(nodes, |nodes|, pkg), f.messages.Length)
    modifies (set e: EnumType | e in f.enums[..])`scopedName
    ensures Built(f, nodes) && MessagesNamed(f, Paths(nodes, |nodes|, pkg), f.messages.Length)
    ensures EnumsNamed(f, EnumPaths(nodes, |nodes|, pkg), f.enums.Length)
  {
    hide Holds, EnumHolds, MessageSlots, EnumSlots, Paths;
    ghost var paths, enumPaths := Paths(nodes, |nodes|, pkg), EnumPaths(nodes, |nodes|, pkg);
    for i := 0 to f.enums.Length
      invariant Built(f, nodes) && MessagesNamed(f, paths, f.messages.Length)
      invariant EnumsNamed(f, enumPaths, i)
    {
      EnumSlotAt(f, nodes, pkg, i);
      var e := f.enums[i];
      assert e == f.enums[..][i];
      var prefix := if e.parent != null then e.parent.scopedName else pkg;
      e.scopedName := prefix + [e.ownName];
    }
  }

  // ---------------------------------------------------------- extend blocks

  /** An `extend` block and the scope it was written in. */
  datatype Extension = Extension(id: nat, scope: Name)

  function Extensions(nodes: seq<Node>, n: nat, prefix: Name): seq<Extension>
    requires n <= |nodes|
    decreases nodes, n
  {
    if n == 0 then [] else Extensions(nodes, n - 1, prefix) + ExtensionsOf(nodes[n - 1], prefix)
  }

  function ExtensionsOf(node: Node, prefix: Name): seq<Extension>
    decreases node
  {
    match node
    case ExtendN(id) => [Extension(id, prefix)]
    case MessageN(name, body) => Extensions(body, |body|, prefix + [name])
    case _ => []
  }

  /** The scoped names from slot `from` on are `paths`. */
  ghost predicate NamedFrom(messages: seq<MessageType?>, from: nat, paths: seq<Name>)
    reads (set m: MessageType | m in messages)`scopedName
  {
    && from + |paths| <= |messages|
    && forall k :: 0 <= k < |paths| ==> NamedIs(messages[from + k], paths[k])
  }

  ghost predicate NamedIs(m: MessageType?, name: Name)
    reads (if m != null then {m} else {})`scopedName
  {
    m != null && m.scopedName == name
  }

  /** Walks a body again with a running message slot; every `extend` block is
      found in the scope its nesting says. */
  method WalkBody(nodes: seq<Node>, enclosing: Name, messages: seq<MessageType?>, cursor: nat) returns (found: seq<Extension>, next: nat)
    requires NamedFrom(messages, cursor, Paths(nodes, |nodes|, enclosing))
    ensures found == Extensions(nodes, |nodes|, enclosing) && next == cursor + MessagesIn(nodes, |nodes|)
    decreases nodes
  {
    hide NamedFrom;
    found, next := [], cursor;
    for i := 0 to |nodes|
      invariant found == Extensions(nodes, i, enclosing) && next == cursor + MessagesIn(nodes, i)
    {
      NamedPart(nodes, i, enclosing, messages, cursor);
      match nodes[i]
      case MessageN(name, body) =>
        var idx := next;
        next := next + 1;
        NamedInner(messages, idx, enclosing, name, body);
        var scope := messages[idx].scopedName;
        var inner;
        inner, next := WalkBody(body, scope, messages, next);
        found := found + inner;
      case ExtendN(id) =>
        found := found + [Extension(id, enclosing)];
      case _ =>
    }
  }

  lemma {:induction false} NamedInner(messages: seq<MessageType?>, idx: nat, enclosing: Name, name: string, body: seq<Node>)
    requires NamedFrom(messages, idx, [enclosing + [name]] + Paths(body, |body|, enclosing + [name]))
    ensures idx < |messages| && messages[idx] != null && messages[idx].scopedName == enclosing + [name]
    ensures NamedFrom(messages, idx + 1, Paths(body, |body|, enclosing + [name]))
  {
    var all, inner := [enclosing + [name]] + Paths(body, |body|, enclosing + [name]), Paths(body, |body|, enclosing + [name]);
    assert NamedIs(messages[idx + 0], all[0]);
    forall k | 0 <= k < |inner|
      ensures NamedIs(messages[idx + 1 + k], inner[k])
    {
      var j := k + 1;
      assert NamedIs(messages[idx + j], all[j]);
    }
  }

  lemma {:induction false} NamedPart(nodes: seq<Node>, i: nat, enclosing: Name, messages: seq<MessageType?>, cursor: nat)
    requires i < |nodes| && NamedFrom(messages, cursor, Paths(nodes, |nodes|, enclosing))
    ensures NamedFrom(messages, cursor + MessagesIn(nodes, i), PathsOf(nodes[i], enclosing))
  {
    var all, part, off := Paths(nodes, |nodes|, enclosing), PathsOf(nodes[i], enclosing), MessagesIn(nodes, i);
    PathsPrefix(nodes, i + 1, enclosing);
    assert Paths(nodes, i + 1, enclosing) == Paths(nodes, i, enclosing) + part;
    forall k | 0 <= k < |part|
      ensures NamedIs(messages[cursor + off + k], part[k])
    {
      var j := off + k;
      assert all[j] == part[k];
      assert NamedIs(messages[cursor + j], all[j]);
    }
  }

  lemma {:induction false} PathsPrefix(nodes: seq<Node>, n: nat, prefix: Name)
    requires n <= |nodes|
    ensures Paths(nodes, n, prefix) <= Paths(nodes, |nodes|, prefix)
    decreases |nodes| - n
  {
    hide PathsOf;
    if n < |nodes| {
      PathsPrefix(nodes, n + 1, prefix);
    }
  }

  /** Naming and then walking the entries again: the scope of each `extend`
      block of a built file, as `gremlind_propagate_extends` sees it. Naming
      takes an empty package for none; the walk parses any package there is. */
  method ScopesOfFile(f: Filler, nodes: seq<Node>, package: Option<string>) returns (found: Option<seq<Extension>>, ghost pkg: Name)
    requires Built(f, nodes)
    modifies (set m: MessageType | m in f.messages[..])`scopedName, (set e: EnumType | e in f.enums[..])`scopedName
    ensures Built(f, nodes)
    ensures found.Some? <==> package != Some("") && exists n :: PackageIs(package, n)
    ensures found.Some? ==> PackageIs(package, pkg) && NamedUnder(f, pkg) && found.value == Extensions(nodes, |nodes|, pkg)
    ensures found.Some? ==>
              forall id: nat, path: Name ::
                (Extension(id, pkg + path) in found.value <==> ExtendIn(nodes, path, id))
  {
    hide Built, Paths, EnumPaths, Extensions, Parse, PackageIs, NamedUnder, ExtendIn;
    var ok;
    ok, pkg := ComputeScopedNames(f, package, nodes);
    if !ok {
      return None, [];
    }
    var scope: Name := [];
    if package.Some? {
      EmptyUnparsed();
      var r := ParseName(package.value);
      if r.None? {
        if package.value != "" {
          PackageParsed(package.value, pkg);
        }
        return None, pkg;
      }
      scope := r.value.segments;
      PackageParsed(package.value, scope);
    } else {
      NoPackage(package);
    }
    assert scope == pkg;
    assert NamedFrom(f.messages[..], 0, Paths(nodes, |nodes|, pkg));
    var found', next := WalkBody(nodes, scope, f.messages[..], 0);
    forall id: nat, path: Name
      ensures Extension(id, pkg + path) in found' <==> ExtendIn(nodes, path, id)
    {
      ExtendsFound(nodes, pkg, path, id);
    }
    return Some(found'), pkg;
  }

  lemma {:induction false} EmptyUnparsed()
    ensures Parse("").None?
  {
  }

  // ------------------------------------------- what is nested in what

  /** The bodies along `path` lead to an `extend` block. */
  predicate ExtendIn(nodes: seq<Node>, path: Name, id: nat)
    decreases nodes
  {
    if path == [] then exists i :: 0 <= i < |nodes| && nodes[i] == ExtendN(id)
    else exists i :: 0 <= i < |nodes| && nodes[i].MessageN? && nodes[i].name == path[0] && ExtendIn(nodes[i].body, path[1..], id)
  }

  /** The bodies along `path` lead to a message. */
  predicate MessageIn(nodes: seq<Node>, path: Name)
    decreases nodes
  {
    path != [] &&
    exists i :: 0 <= i < |nodes| && nodes[i].MessageN? && nodes[i].name == path[0] && (|path| == 1 || MessageIn(nodes[i].body, path[1..]))
  }

  lemma {:induction false} SomeExtension(nodes: seq<Node>, n: nat, prefix: Name, x: Extension)
    requires n <= |nodes|
    ensures x in Extensions(nodes, n, prefix) <==> exists i :: 0 <= i < n && x in ExtensionsOf(nodes[i], prefix)
    decreases n
  {
    hide ExtensionsOf;
    if n > 0 {
      SomeExtension(nodes, n - 1, prefix, x);
    }
  }

  lemma {:induction false} ScopeExtends(nodes: seq<Node>, prefix: Name, x: Extension)
    requires x in Extensions(nodes, |nodes|, prefix)
    ensures prefix <= x.scope
    decreases nodes
  {
    hide Extensions;
    SomeExtension(nodes, |nodes|, prefix, x);
    var i :| 0 <= i < |nodes| && x in ExtensionsOf(nodes[i], prefix);
    if nodes[i].MessageN? {
      ScopeExtends(nodes[i].body, prefix + [nodes[i].name], x);
    }
  }

  /** An `extend` block is found in a scope exactly when the messages that the
      scope names behind the prefix are nested so and the last holds the block. */
  lemma {:induction false} ExtendsFound(nodes: seq<Node>, prefix: Name, path: Name, id: nat)
    ensures Extension(id, prefix + path) in Extensions(nodes, |nodes|, prefix) <==> ExtendIn(nodes, path, id)
    decreases nodes
  {
    hide Extensions;
    var x := Extension(id, prefix + path);
    SomeExtension(nodes, |nodes|, prefix, x);
    forall i | 0 <= i < |nodes|
      ensures x in ExtensionsOf(nodes[i], prefix) <==>
                || (path == [] && nodes[i] == ExtendN(id))
                || (path != [] && nodes[i].MessageN? && nodes[i].name == path[0] && ExtendIn(nodes[i].body, path[1..], id))
    {
      ExtendAt(nodes, prefix, path, id, i);
    }
  }

  lemma {:induction false} ExtendAt(nodes: seq<Node>, prefix: Name, path: Name, id: nat, i: nat)
    requires i < |nodes|
    ensures Extension(id, prefix + path) in ExtensionsOf(nodes[i], prefix) <==>
              || (path == [] && nodes[i] == ExtendN(id))
              || (path != [] && nodes[i].MessageN? && nodes[i].name == path[0] && ExtendIn(nodes[i].body, path[1..], id))
    decreases nodes, 0
  {
    hide Extensions, ExtendIn;
    var x := Extension(id, prefix + path);
    if path == [] {
      assert prefix + path == prefix;
    }
    if nodes[i].MessageN? {
      var inner, body := prefix + [nodes[i].name], nodes[i].body;
      if x in Extensions(body, |body|, inner) {
        ScopeExtends(body, inner, x);
        assert (prefix + path)[..|inner|] == inner;
        assert path != [] && path[0] == (prefix + path)[|prefix|] == nodes[i].name;
      }
      if path != [] && nodes[i].name == path[0] {
        assert prefix + path == inner + path[1..];
        ExtendsFound(body, inner, path[1..], id);
      }
    } else if nodes[i].ExtendN? && x in ExtensionsOf(nodes[i], prefix) {
      assert prefix + path == prefix;
      assert |path| == 0;
    }
  }

  lemma {:induction false} SomePath(nodes: seq<Node>, n: nat, prefix: Name, x: Name)
    requires n <= |nodes|
    ensures x in Paths(nodes, n, prefix) <==> exists i :: 0 <= i < n && x in PathsOf(nodes[i], prefix)
    decreases n
  {
    hide PathsOf;
    if n > 0 {
      SomePath(nodes, n - 1, prefix, x);
    }
  }

  lemma {:induction false} PathExtends(nodes: seq<Node>, prefix: Name, x: Name)
    requires x in Paths(nodes, |nodes|, prefix)
    ensures prefix < x
    decreases nodes
  {
    hide Paths;
    SomePath(nodes, |nodes|, prefix, x);
    var i :| 0 <= i < |nodes| && x in PathsOf(nodes[i], prefix);
    if x != prefix + [nodes[i].name] {
      PathExtends(nodes[i].body, prefix + [nodes[i].name], x);
    }
  }

  /** The names given to messages are exactly the paths of nested messages
      behind the prefix. */
  lemma {:induction false} PathsFound(nodes: seq<Node>, prefix: Name, path: Name)
    ensures prefix + path in Paths(nodes, |nodes|, prefix) <==> MessageIn(nodes, path)
    decreases nodes
  {
    hide Paths;
    SomePath(nodes, |nodes|, prefix, prefix + path);
    if prefix + path in Paths(nodes, |nodes|, prefix) {
      PathExtends(nodes, prefix, prefix + path);
      assert path != [];
    }
    forall i | 0 <= i < |nodes|
      ensures path != [] ==>
                (prefix + path in PathsOf(nodes[i], prefix) <==>
                  nodes[i].MessageN? && nodes[i].name == path[0] && (|path| == 1 || MessageIn(nodes[i].body, path[1..])))
    {
      PathAt(nodes, prefix, path, i);
    }
  }

  lemma {:induction false} PathAt(nodes: seq<Node>, prefix: Name, path: Name, i: nat)
    requires i < |nodes|
    ensures path != [] ==>
              (prefix + path in PathsOf(nodes[i], prefix) <==>
                nodes[i].MessageN? && nodes[i].name == path[0] && (|path| == 1 || MessageIn(nodes[i].body, path[1..])))
    decreases nodes, 0
  {
    hide Paths, MessageIn;
    var x := prefix + path;
    if path != [] && nodes[i].MessageN? {
      var inner, body := prefix + [nodes[i].name], nodes[i].body;
      assert path[0] == x[|prefix|];
      if x in Paths(body, |body|, inner) {
        PathExtends(body, inner, x);
        assert x[..|inner|] == inner;
        assert x[|prefix|] == inner[|prefix|];
      }
      if nodes[i].name == path[0] {
        assert x == inner + path[1..];
        if |path| == 1 {
          assert x == inner;
        } else {
          assert x != inner;
          PathsFound(body, inner, path[1..]);
        }
      }
    }
  }
}
