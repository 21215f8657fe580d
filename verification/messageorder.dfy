// The order of a file's messages, which of them need a forward declaration, and
// which have their reader declared ahead.
module MessageOrder {
  import opened Descriptors
  import opened Options
  import opened Graphs
  import opened DepthFirst
  import opened Imports

  /** The message a field holds, directly or as a map's value. */
  function Held(t: TypeRef): Option<MessageType> {
    match t
    case MessageRef(m) => Some(m)
    case MapRef(_, v) => if v.MessageRef? then Some(v.message) else None
    case _ => None
  }

  function InFile(messages: seq<MessageType>, t: TypeRef): Option<nat> {
    if Held(t).None? then None else IndexFrom(messages, Held(t).value, 0)
  }

  function FieldTargets(messages: seq<MessageType>, fields: seq<FieldDecl>): (e: seq<Option<nat>>)
    ensures |e| == |fields| && forall k :: 0 <= k < |e| ==> e[k] == InFile(messages, fields[k].ty)
    ensures forall k :: 0 <= k < |e| && e[k].Some? ==> e[k].value < |messages|
  {
    seq(|fields|, k requires 0 <= k < |fields| => InFile(messages, fields[k].ty))
  }

  /** An edge for every field that holds a message of the same file. */
  ghost function MessageGraph(messages: seq<MessageType>): (g: Graph)
    reads (set m | m in messages)`fields
    ensures WellFormed(g) && Depicts(messages, g)
  {
    GraphPrefix(messages, |messages|)
  }

  ghost function GraphPrefix(messages: seq<MessageType>, n: nat): (g: Graph)
    requires n <= |messages|
    reads (set m | m in messages)`fields
    ensures |g| == n && forall i :: 0 <= i < n ==> g[i] == FieldTargets(messages, messages[i].fields)
  {
    if n == 0 then [] else GraphPrefix(messages, n - 1) + [FieldTargets(messages, messages[n - 1].fields)]
  }

  ghost predicate Depicts(messages: seq<MessageType>, g: Graph)
    reads (set m | m in messages)`fields
  {
    |g| == |messages| && forall u :: 0 <= u < |messages| ==> g[u] == FieldTargets(messages, messages[u].fields)
  }

  function Chosen(messages: seq<MessageType>, at: seq<nat>): (c: seq<MessageType>)
    requires forall i :: 0 <= i < |at| ==> at[i] < |messages|
    ensures |c| == |at|
  {
    seq(|at|, i requires 0 <= i < |at| => messages[at[i]])
  }

  predicate Stored(messages: seq<MessageType>, order: seq<nat>, items: seq<MessageType?>) {
    |order| <= |items| && forall i :: 0 <= i < |order| ==> order[i] < |messages| && items[i] == messages[order[i]]
  }

  ghost predicate Flags(needs: seq<bool>, mark: set<nat>) {
    forall v: nat :: v in mark <==> v < |needs| && needs[v]
  }

  lemma {:induction false} FlagMore(needs: seq<bool>, mark: set<nat>, v: nat)
    requires Flags(needs, mark) && v < |needs|
    ensures Flags(needs[v := true], mark + {v})
  {
  }

  lemma {:induction false} StoreNext(messages: seq<MessageType>, order: seq<nat>, items: seq<MessageType?>, v: nat)
    requires Stored(messages, order, items) && |order| < |items| && v < |messages|
    ensures Stored(messages, order + [v], items[|order| := messages[v]])
  {
  }

  /** The index of the message a field leads to within the file. */
  method TargetIndex(messages: seq<MessageType>, t: TypeRef) returns (r: Option<nat>)
    ensures r == InFile(messages, t)
  {
    var target := None;
    if t.MessageRef? {
      target := Some(t.message);
    } else if t.MapRef? && t.value.MessageRef? {
      target := Some(t.value.message);
    }
    if target.None? {
      return None;
    }
    for i := 0 to |messages|
      invariant IndexFrom(messages, target.value, 0) == IndexFrom(messages, target.value, i)
    {
      if messages[i] == target.value {
        return Some(i);
      }
    }
    return None;
  }

  method StoreItem(items: array<MessageType?>, count: nat, m: MessageType)
    requires count < items.Length
    modifies items
    ensures items[..] == old(items[..])[count := m]
  {
    items[count] := m;
  }

  method Flag(needs: array<bool>, v: nat)
    requires v < needs.Length
    modifies needs
    ensures needs[..] == old(needs[..])[v := true]
  {
    needs[v] := true;
  }

  method OrderFrom(messages: seq<MessageType>, root: nat, color: array<Color>, stack: array<Frame>, items: array<MessageType?>,
                   needs: array<bool>, start: nat, ghost g: Graph, ghost was: State)
    returns (count: nat, ghost s: State)
    requires Depicts(messages, g) && root < |messages|
    requires Shown(g, was, color[..], stack[..]) && was.stack == [] && Flags(needs[..], was.mark)
    requires color.Length == stack.Length == items.Length == needs.Length == |messages| == |was.rank|
    requires color[root] == White && start == |was.order| && Stored(messages, was.order, items[..])
    modifies color, stack, items, needs
    ensures Shown(g, s, color[..], stack[..]) && s.stack == [] && Flags(needs[..], s.mark)
    ensures Keeps(was, s) && |s.rank| == |messages| && s.rank[root] >= 0
    ensures count == |s.order| && Stored(messages, s.order, items[..])
  {
    hide Shown, Ranked, Start, Advance, Descend, Finish, AtEdge, TopEdge, Left, Unseen, OnCycle, WellFormed, InFile, Meet, Stored,
         Flags;
    var n := |messages|;
    ShowStart(g, was, color[..], stack[..], root);
    s := Start(n, was, root);
    count := start;
    var top := 0;
    Push(color, stack, top, root);
    while true
      invariant Shown(g, s, color[..], stack[..]) && |s.rank| == n && Flags(needs[..], s.mark)
      invariant top + 1 == |s.stack| <= n && count == |s.order| && Stored(messages, s.order, items[..])
      invariant Keeps(was, s) && s.rank[root] >= 0
      decreases Unseen(g, s), |s.stack|, Left(g, s)
    {
      ShowColors(g, s, color[..], stack[..]);
      ghost var frames, colors := stack[..], color[..];
      var frame := stack[top];
      var m := messages[frame.node];
      if frame.next >= |m.fields| {
        ShowFinish(g, s, colors, frames);
        StoreNext(messages, s.order, items[..], frame.node);
        s := Finish(s);
        Blacken(color, frame.node);
        StoreItem(items, count, m);
        count := count + 1;
        if top == 0 {
          return;
        }
        top := top - 1;
        continue;
      }
      var fd := m.fields[frame.next];
      ShowEdge(g, s, colors, frames);
      Step(stack, top);
      var child := TargetIndex(messages, fd.ty);
      if child.Some? && color[child.value] == Gray {
        ShowMeet(g, s, colors, frames);
        FlagMore(needs[..], s.mark, child.value);
        s := Meet(g, s);
        Flag(needs, child.value);
        continue;
      }
      if child.None? || color[child.value] == Black {
        ShowAdvance(g, s, colors, frames);
        s := Advance(s);
        continue;
      }
      ShowDescend(g, s, colors, frames);
      s := Descend(n, s, child.value);
      top := top + 1;
      Push(color, stack, top, child.value);
    }
  }

  /** Some message refers to `v` without coming after it. */
  ghost predicate NamedEarly(g: Graph, order: seq<nat>, v: nat) {
    exists u :: Edge(g, u, v) && !Before(order, v, u)
  }

  /** `picks` are, in index order, the messages named before they are defined. */
  ghost predicate PicksExactly(g: Graph, order: seq<nat>, picks: seq<nat>) {
    && (forall i, j :: 0 <= i < j < |picks| ==> picks[i] < picks[j])
    && forall v: nat :: v in picks <==> v < |g| && NamedEarly(g, order, v)
  }

  predicate SortedBelow(picks: seq<nat>, n: nat) {
    (forall i, j :: 0 <= i < j < |picks| ==> picks[i] < picks[j]) && forall i :: 0 <= i < |picks| ==> picks[i] < n
  }

  /** The flagged indices below `n`, in order. */
  function Flagged(needs: seq<bool>, n: nat): (picks: seq<nat>)
    requires n <= |needs|
    ensures forall i :: 0 <= i < |picks| ==> picks[i] < n
  {
    if n == 0 then [] else Flagged(needs, n - 1) + if needs[n - 1] then [n - 1] else []
  }

  lemma {:induction false} FlaggedExact(needs: seq<bool>, n: nat)
    requires n <= |needs|
    ensures SortedBelow(Flagged(needs, n), n) && forall v: nat :: v in Flagged(needs, n) <==> v < n && needs[v]
    decreases n
  {
    if n > 0 {
      FlaggedExact(needs, n - 1);
    }
  }

  lemma {:induction false} ChosenMore(messages: seq<MessageType>, at: seq<nat>, v: nat)
    requires v < |messages| && forall i :: 0 <= i < |at| ==> at[i] < |messages|
    ensures Chosen(messages, at + [v]) == Chosen(messages, at) + [messages[v]]
  {
  }

  /** Copies the flagged messages. */
  method Collect(messages: seq<MessageType>, needs: array<bool>) returns (predeclare: seq<MessageType>)
    requires needs.Length == |messages|
    ensures predeclare == Chosen(messages, Flagged(needs[..], |messages|))
  {
    hide Chosen;
    ghost var flags := needs[..];
    predeclare := [];
    for i := 0 to |messages|
      invariant predeclare == Chosen(messages, Flagged(flags, i))
    {
      if needs[i] {
        ChosenMore(messages, Flagged(flags, i), i);
        predeclare := predeclare + [messages[i]];
      } else {
        assert Flagged(flags, i + 1) == Flagged(flags, i);
      }
    }
  }

  /** Every message once; targets first where no cycle forbids it; and exactly
      the messages that are named by one placed no later than themselves. */
  method TopoSortMessages(file: File)
    returns (items: array<MessageType?>, predeclare: seq<MessageType>, ghost order: seq<nat>, ghost picks: seq<nat>)
    ensures fresh(items) && Permutation(order, |file.messages|) && items[..] == Chosen(file.messages, order)
    ensures SortedBelow(picks, |file.messages|) && predeclare == Chosen(file.messages, picks)
    ensures var g := old(MessageGraph(file.messages));
            && PicksExactly(g, order, picks)
            && forall u, v :: Edge(g, u, v) && !Before(order, v, u) ==> OnCycle(g, u) && OnCycle(g, v)
  {
    hide Shown, OnCycle, Cyclic, WellFormed, AllSeen, Before, Permutation, Edge, Stored, MessageGraph, Flags, PicksExactly;
    var messages := file.messages;
    var n := |messages|;
    ghost var g := MessageGraph(messages);
    items := new MessageType?[n](_ => null);
    var color := new Color[n](_ => White);
    var needs := new bool[n](_ => false);
    var stack := new Frame[n](_ => Frame(0, 0));
    ghost var s := Initial(n);
    var count := 0;
    ShowInitial(g, color[..], stack[..]);
    NothingYet(messages, items[..], needs[..]);
    for root := 0 to n
      invariant Shown(g, s, color[..], stack[..]) && s.stack == [] && |s.rank| == n && Depicts(messages, g)
      invariant Flags(needs[..], s.mark) && count == |s.order| && Stored(messages, s.order, items[..])
      invariant forall v :: 0 <= v < root ==> s.rank[v] >= 0
    {
      ShowColors(g, s, color[..], stack[..]);
      if color[root] == White {
        count, s := OrderFrom(messages, root, color, stack, items, needs, count, g, s);
      }
    }
    order := s.order;
    ShowDone(g, s, color[..], stack[..]);
    predeclare := Collect(messages, needs);
    picks := Flagged(needs[..], n);
    FlaggedExact(needs[..], n);
    OrderExact(messages, g, s, items[..], needs[..], picks);
  }

  lemma {:induction false} NothingYet(messages: seq<MessageType>, items: seq<MessageType?>, needs: seq<bool>)
    requires forall v :: 0 <= v < |needs| ==> !needs[v]
    ensures Stored(messages, [], items) && Flags(needs, {})
  {
  }

  lemma {:induction false} OrderExact(messages: seq<MessageType>, g: Graph, s: State, items: seq<MessageType?>, needs: seq<bool>, picks: seq<nat>)
    requires |g| == |messages| && Inv(g, s) && AllSeen(g, s) && Flags(needs, s.mark) && |needs| == |items| == |messages|
    requires Stored(messages, s.order, items) && SortedBelow(picks, |messages|)
    requires forall v: nat :: v in picks <==> v < |messages| && needs[v]
    ensures Permutation(s.order, |messages|) && items == Chosen(messages, s.order)
    ensures PicksExactly(g, s.order, picks)
    ensures forall u, v :: Edge(g, u, v) && !Before(s.order, v, u) ==> OnCycle(g, u) && OnCycle(g, v)
  {
    hide Edge, Before, OnCycle, AllSeen, Inv, NamedEarly;
    InvRanked(g, s);
    OrderComplete(g, s);
    forall v: nat
      ensures v in picks <==> v < |g| && NamedEarly(g, s.order, v)
    {
      NamedEarlyIsMarked(g, s, v);
    }
    forall u, v | Edge(g, u, v) && !Before(s.order, v, u)
      ensures OnCycle(g, u) && OnCycle(g, v)
    {
      LateTarget(g, s, u, v);
    }
  }

  lemma {:induction false} NamedEarlyIsMarked(g: Graph, s: State, v: nat)
    requires Inv(g, s) && AllSeen(g, s)
    ensures v in s.mark <==> NamedEarly(g, s.order, v)
  {
    hide Inv, AllSeen, Before, Edge;
    MarkedExactly(g, s, v);
  }

  // ------------------------------------------------------- declared ahead

  /** A field of `p` has type `m`, or is a map to it. */
  ghost predicate Holds(p: MessageType, m: MessageType)
    reads p`fields
  {
    exists k :: 0 <= k < |p.fields| &&
      (p.fields[k].ty == MessageRef(m) || (p.fields[k].ty.MapRef? && p.fields[k].ty.value == MessageRef(m)))
  }

  /** A message earlier in the order holds the one at `k`. */
  ghost predicate HeldEarlier(items: seq<MessageType>, k: nat)
    requires k < |items|
    reads (set m | m in items)`fields
  {
    exists i :: 0 <= i < k && Holds(items[i], items[k])
  }

  /** Marks every message that an earlier one holds. */
  method MarkNamedBefore(items: seq<MessageType>, hoist: array<bool>) returns (any: bool)
    requires NoRepeats(items) && hoist.Length == |items| && forall k :: 0 <= k < |items| ==> !hoist[k]
    modifies hoist
    ensures forall k :: 0 <= k < |items| ==> (hoist[k] <==> HeldEarlier(items, k))
    ensures any <==> exists k :: 0 <= k < |items| && HeldEarlier(items, k)
  {
    hide Holds, NoRepeats, Relates, HeldUpto, HeldEarlier;
    ghost var held := Relation(items);
    var pos := Positions(items);
    any := false;
    NothingHeld(held);
    for i := 0 to |items|
      invariant forall k :: 0 <= k < |items| ==> (hoist[k] <==> HeldUpto(held, i, k))
      invariant any <==> exists k :: 0 <= k < |items| && hoist[k]
      invariant Relates(items, held)
    {
      any := MarkHeldBy(items, i, pos, hoist, any, held);
      HeldNext(held, i);
    }
    HeldInTheEnd(items, held);
  }

  /** Which message of the order holds which. */
  ghost function Relation(items: seq<MessageType>): (held: set<(nat, nat)>)
    reads (set m | m in items)`fields
    ensures Relates(items, held)
  {
    set i: nat, k: nat | i < |items| && k < |items| && Holds(items[i], items[k]) :: (i, k)
  }

  ghost predicate Relates(items: seq<MessageType>, held: set<(nat, nat)>)
    reads (set m | m in items)`fields
  {
    forall i: nat, k: nat :: i < |items| && k < |items| ==> ((i, k) in held <==> Holds(items[i], items[k]))
  }

  /** One of the first `n` messages holds the one at `k` and comes before it. */
  ghost predicate HeldUpto(held: set<(nat, nat)>, n: nat, k: nat) {
    exists i: nat :: i < n && i < k && (i, k) in held
  }

  lemma {:induction false} NothingHeld(held: set<(nat, nat)>)
    ensures forall k: nat :: !HeldUpto(held, 0, k)
  {
  }

  lemma {:induction false} HeldInTheEnd(items: seq<MessageType>, held: set<(nat, nat)>)
    requires Relates(items, held)
    ensures forall k :: 0 <= k < |items| ==> (HeldUpto(held, |items|, k) <==> HeldEarlier(items, k))
  {
    hide Holds;
  }

  lemma {:induction false} HeldNext(held: set<(nat, nat)>, i: nat)
    ensures forall k: nat :: HeldUpto(held, i + 1, k) <==> HeldUpto(held, i, k) || (i < k && (i, k) in held)
  {
  }

  method Positions(items: seq<MessageType>) returns (pos: map<MessageType, nat>)
    requires NoRepeats(items)
    ensures forall k :: 0 <= k < |items| ==> items[k] in pos && pos[items[k]] == k
    ensures forall m :: m in pos ==> pos[m] < |items| && items[pos[m]] == m
  {
    pos := map[];
    for i := 0 to |items|
      invariant forall k :: 0 <= k < i ==> items[k] in pos && pos[items[k]] == k
      invariant forall m :: m in pos ==> pos[m] < i && items[pos[m]] == m
    {
      pos := pos[items[i] := i];
    }
  }

  /** Marks what the message at `i` holds and comes after it. */
  method MarkHeldBy(items: seq<MessageType>, i: nat, pos: map<MessageType, nat>, hoist: array<bool>, marked: bool,
                    ghost held: set<(nat, nat)>)
    returns (any: bool)
    requires Relates(items, held) && NoRepeats(items) && i < |items| == hoist.Length
    requires forall k :: 0 <= k < |items| ==> items[k] in pos && pos[items[k]] == k
    requires forall m :: m in pos ==> pos[m] < |items| && items[pos[m]] == m
    requires marked <==> exists k :: 0 <= k < |items| && hoist[k]
    modifies hoist
    ensures Relates(items, held)
    ensures forall k :: 0 <= k < |items| ==> (hoist[k] <==> old(hoist[k]) || (i < k && (i, k) in held))
    ensures any <==> exists k :: 0 <= k < |items| && hoist[k]
  {
    any := marked;
    var p := items[i];
    for k := 0 to |p.fields|
      invariant forall x :: 0 <= x < |items| ==>
                  (hoist[x] <==> old(hoist[x]) || (i < x && exists j :: 0 <= j < k && Held(p.fields[j].ty) == Some(items[x])))
      invariant any <==> exists x :: 0 <= x < |items| && hoist[x]
    {
      var t := p.fields[k].ty;
      if t.MapRef? {
        t := t.value;
      }
      if !t.MessageRef? {
        continue;
      }
      if t.message in pos && pos[t.message] > i {
        hoist[pos[t.message]] := true;
        any := true;
      }
    }
  }

  lemma {:induction false} EdgeIsHolds(messages: seq<MessageType>, g: Graph, u: nat, v: nat)
    requires Depicts(messages, g) && NoRepeats(messages) && u < |messages| && v < |messages|
    ensures Edge(g, u, v) <==> Holds(messages[u], messages[v])
  {
    assert messages[0..] == messages;
    if Edge(g, u, v) {
      var k :| 0 <= k < |g[u]| && g[u][k] == Some(v);
      assert Held(messages[u].fields[k].ty) == Some(messages[v]);
    }
    if k :| 0 <= k < |messages[u].fields| && Held(messages[u].fields[k].ty) == Some(messages[v]) {
      var r := IndexFrom(messages, messages[v], 0);
      assert messages[r.value] == messages[v];
      assert g[u][k] == Some(v);
    }
  }

  /** The messages declared ahead are those another message names early; the
      rest of the forward declarations are for self-references alone. */
  lemma {:induction false} HoistIsStrict(messages: seq<MessageType>, g: Graph, order: seq<nat>, k: nat)
    requires Depicts(messages, g) && NoRepeats(messages) && Permutation(order, |messages|) && k < |order|
    ensures HeldEarlier(Chosen(messages, order), k) <==>
              exists u :: u != order[k] && Edge(g, u, order[k]) && !Before(order, order[k], u)
    ensures NamedEarly(g, order, order[k]) && !HeldEarlier(Chosen(messages, order), k) ==>
              Edge(g, order[k], order[k])
  {
    hide Holds, Edge, Depicts;
    var v, items := order[k], Chosen(messages, order);
    if HeldEarlier(items, k) {
      var i :| 0 <= i < k && Holds(items[i], items[k]);
      EdgeIsHolds(messages, g, order[i], v);
      NotAfter(order, i, k);
    }
    if u :| u != v && Edge(g, u, v) && !Before(order, v, u) {
      EdgeInside(messages, g, u, v);
      assert u in order;
      var i :| 0 <= i < |order| && order[i] == u;
      EdgeIsHolds(messages, g, u, v);
      NotBefore(order, i, k);
      assert Holds(items[i], items[k]);
    }
  }

  lemma {:induction false} EdgeInside(messages: seq<MessageType>, g: Graph, u: nat, v: nat)
    requires Depicts(messages, g) && Edge(g, u, v)
    ensures u < |messages| && v < |messages|
  {
  }

  lemma {:induction false} NotAfter(order: seq<nat>, i: nat, k: nat)
    requires NoRepeats(order) && i < k < |order|
    ensures !Before(order, order[k], order[i]) && order[i] != order[k]
  {
  }

  lemma {:induction false} NotBefore(order: seq<nat>, i: nat, k: nat)
    requires i < |order| && k < |order| && order[i] != order[k] && !Before(order, order[k], order[i])
    ensures i < k
  {
  }

  // --------------------------------------------------------- what is emitted

  /** The text of the message at a position: what comes before its reader's
      declaration, the declaration, and the rest with the contracts. */
  datatype Piece = Head(at: nat) | Decl(at: nat) | Tail(at: nat)

  /** The declarations that go out ahead. */
  function Ahead(hoist: seq<bool>, n: nat): seq<Piece>
    requires n <= |hoist|
  {
    if n == 0 then [] else Ahead(hoist, n - 1) + (if hoist[n - 1] then [Decl(n - 1)] else [])
  }

  function Body(hoist: seq<bool>, i: nat): seq<Piece>
    requires i < |hoist|
  {
    [Head(i)] + (if hoist[i] then [] else [Decl(i)]) + [Tail(i)]
  }

  function Bodies(hoist: seq<bool>, n: nat): seq<Piece>
    requires n <= |hoist|
  {
    if n == 0 then [] else Bodies(hoist, n - 1) + Body(hoist, n - 1)
  }

  method EmitHoisted(hoist: array<bool>) returns (out: seq<Piece>)
    ensures out == Ahead(hoist[..], hoist.Length) + Bodies(hoist[..], hoist.Length)
  {
    out := [];
    for i := 0 to hoist.Length
      invariant out == Ahead(hoist[..], i)
    {
      if !hoist[i] {
        continue;
      }
      out := out + [Decl(i)];
    }
    ghost var ahead := out;
    for i := 0 to hoist.Length
      invariant out == ahead + Bodies(hoist[..], i)
    {
      if !hoist[i] {
        out := out + [Head(i), Decl(i), Tail(i)];
      } else {
        out := out + [Head(i)];
        out := out + [Tail(i)];
      }
      assert Body(hoist[..], i) == if hoist[i] then [Head(i), Tail(i)] else [Head(i), Decl(i), Tail(i)];
    }
  }

  predicate Precedes(out: seq<Piece>, a: Piece, b: Piece) {
    exists x, y :: 0 <= x < y < |out| && out[x] == a && out[y] == b
  }

  lemma {:induction false} InBodies(hoist: seq<bool>, n: nat, p: Piece)
    requires n <= |hoist|
    ensures p in Bodies(hoist, n) <==> p.at < n && (p.Decl? ==> !hoist[p.at])
    decreases n
  {
    if n > 0 {
      InBodies(hoist, n - 1, p);
    }
  }

  lemma {:induction false} InAhead(hoist: seq<bool>, n: nat, p: Piece)
    requires n <= |hoist|
    ensures p in Ahead(hoist, n) <==> p.Decl? && p.at < n && hoist[p.at]
    decreases n
  {
    if n > 0 {
      InAhead(hoist, n - 1, p);
    }
  }

  /** All three pieces of every message go out, each exactly once. */
  lemma {:induction false} EachPieceOnce(hoist: seq<bool>)
    ensures var out := Ahead(hoist, |hoist|) + Bodies(hoist, |hoist|);
            NoRepeats(out) && forall p: Piece :: p in out <==> p.at < |hoist|
  {
    hide Ahead, Bodies;
    var a, b := Ahead(hoist, |hoist|), Bodies(hoist, |hoist|);
    AheadOnce(hoist, |hoist|);
    BodiesOnce(hoist, |hoist|);
    forall p: Piece
      ensures p in a <==> p.Decl? && p.at < |hoist| && hoist[p.at]
      ensures p in b <==> p.at < |hoist| && (p.Decl? ==> !hoist[p.at])
    {
      InAhead(hoist, |hoist|, p);
      InBodies(hoist, |hoist|, p);
    }
    JoinOnce(a, b);
  }

  lemma {:induction false} JoinOnce(a: seq<Piece>, b: seq<Piece>)
    requires NoRepeats(a) && NoRepeats(b) && forall p :: p in a ==> p !in b
    ensures NoRepeats(a + b)
  {
    var out := a + b;
    forall i, j | 0 <= i < j < |out|
      ensures out[i] != out[j]
    {
      if i < |a| <= j {
        assert out[i] in a && out[j] == b[j - |a|];
      }
    }
  }

  lemma {:induction false} AheadOnce(hoist: seq<bool>, n: nat)
    requires n <= |hoist|
    ensures NoRepeats(Ahead(hoist, n))
    decreases n
  {
    if n > 0 {
      AheadOnce(hoist, n - 1);
      InAhead(hoist, n - 1, Decl(n - 1));
      JoinOnce(Ahead(hoist, n - 1), if hoist[n - 1] then [Decl(n - 1)] else []);
    }
  }

  lemma {:induction false} BodiesOnce(hoist: seq<bool>, n: nat)
    requires n <= |hoist|
    ensures NoRepeats(Bodies(hoist, n))
    decreases n
  {
    if n > 0 {
      BodiesOnce(hoist, n - 1);
      var a, b := Bodies(hoist, n - 1), Body(hoist, n - 1);
      forall p | p in a
        ensures p !in b
      {
        InBodies(hoist, n - 1, p);
      }
      JoinOnce(a, b);
    }
  }

  lemma {:induction false} SplitPrecedes(a: seq<Piece>, b: seq<Piece>, p: Piece, q: Piece)
    requires p in a && q in b
    ensures Precedes(a + b, p, q)
  {
    var x :| 0 <= x < |a| && a[x] == p;
    var y :| 0 <= y < |b| && b[y] == q;
    assert (a + b)[x] == p && (a + b)[|a| + y] == q;
  }

  lemma {:induction false} PrecedesInside(a: seq<Piece>, b: seq<Piece>, p: Piece, q: Piece)
    ensures Precedes(a, p, q) ==> Precedes(a + b, p, q)
    ensures Precedes(b, p, q) ==> Precedes(a + b, p, q)
  {
    if Precedes(a, p, q) {
      var x, y :| 0 <= x < y < |a| && a[x] == p && a[y] == q;
      assert (a + b)[x] == p && (a + b)[y] == q;
    }
    if Precedes(b, p, q) {
      var x, y :| 0 <= x < y < |b| && b[x] == p && b[y] == q;
      assert (a + b)[|a| + x] == p && (a + b)[|a| + y] == q;
    }
  }

  lemma {:induction false} InOrder(hoist: seq<bool>, n: nat, i: nat, j: nat)
    requires i <= j < n <= |hoist| && !hoist[i]
    ensures Precedes(Bodies(hoist, n), Decl(i), Tail(j))
    decreases n
  {
    hide Precedes;
    var a, b := Bodies(hoist, n - 1), Body(hoist, n - 1);
    if j < n - 1 {
      InOrder(hoist, n - 1, i, j);
    } else if i < j {
      InBodies(hoist, n - 1, Decl(i));
      SplitPrecedes(a, b, Decl(i), Tail(j));
    } else {
      assert b == [Head(i), Decl(i)] + [Tail(i)];
      SplitPrecedes([Head(i), Decl(i)], [Tail(i)], Decl(i), Tail(i));
    }
    PrecedesInside(a, b, Decl(i), Tail(j));
  }

  /** Whatever message's contracts name a reader, its declaration is out before them. */
  lemma {:induction false} DeclaredFirst(items: seq<MessageType>, hoist: seq<bool>, i: nat, j: nat)
    requires |hoist| == |items| && forall k :: 0 <= k < |items| ==> (hoist[k] <==> HeldEarlier(items, k))
    requires i < |items| && j < |items| && Holds(items[j], items[i])
    ensures Precedes(Ahead(hoist, |hoist|) + Bodies(hoist, |hoist|), Decl(i), Tail(j))
  {
    hide Holds, Precedes, Ahead, Bodies;
    var a, b := Ahead(hoist, |hoist|), Bodies(hoist, |hoist|);
    if hoist[i] {
      InAhead(hoist, |hoist|, Decl(i));
      InBodies(hoist, |hoist|, Tail(j));
      SplitPrecedes(a, b, Decl(i), Tail(j));
    } else {
      InOrder(hoist, |hoist|, i, j);
      PrecedesInside(a, b, Decl(i), Tail(j));
    }
  }
}
