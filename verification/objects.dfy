// Messages as linked structs in memory, possibly shared, with their size caches.
module Objects {
  import opened Bits
  import opened Options
  import opened Varint
  import opened Scalars
  import opened Schema

  /** A generated message struct: its fields and the `_size` cache. */
  class Message {
    const ty: nat
    var vals: seq<Val<Message>>
    var size: nat

    constructor (ty: nat, vals: seq<Val<Message>>)
      ensures this.ty == ty && this.vals == vals
    {
      this.ty, this.vals, size := ty, vals, 0;
    }
  }

  /** The messages a call may touch, a snapshot of their fields, and a rank
      that shows there is no cycle. Sharing is allowed. */
  datatype World = World(sch: Schema, objs: set<Message>, vals: map<Message, seq<Val<Message>>>, rank: map<Message, nat>)

  /** A child of a message of rank `r`, of the type its field asks for. */
  predicate Below(w: World, ty: nat, c: Option<Message>, r: nat) {
    c.Some? ==>
      c.value in w.objs && c.value in w.rank && w.rank[c.value] < r && c.value.ty == ty
  }

  predicate SlotBelow(w: World, slot: Slot, v: SlotV<Message>, r: nat) {
    match slot
    case ScalarSlot(k) => v.IntS? && InRange(k, v.num)
    case BlobSlot => v.BlobS?
    case MessageSlot(ty) => v.MessageS? && Below(w, ty, v.msg, r)
  }

  predicate ValBelow(w: World, shape: Shape, v: Val<Message>, r: nat) {
    match shape
    case Single(k, _) => v.IntV? && InRange(k, v.num)
    case Blob(_) => v.BlobV?
    case Child(ty) => v.ChildV? && Below(w, ty, v.child, r)
    case Numbers(k, _) => v.IntsV? && forall i :: 0 <= i < |v.ints| ==> InRange(k, v.ints[i])
    case Blobs => v.BlobsV?
    case Children(ty) => v.ChildrenV? && forall i :: 0 <= i < |v.children| ==> Below(w, ty, v.children[i], r)
    case Table(k, t) =>
      v.TableV? && forall i :: 0 <= i < |v.entries| ==>
        SlotBelow(w, k, v.entries[i].key, r) && SlotBelow(w, t, v.entries[i].val, r)
  }

  predicate Known(w: World, m: Message) {
    m in w.objs && m in w.rank && m in w.vals && m.ty < |w.sch|
  }

  ghost predicate Closed(w: World) {
    && SchemaOk(w.sch)
    && forall m :: m in w.objs ==>
         && Known(w, m) && |w.vals[m]| == |w.sch[m.ty]|
         && forall i :: 0 <= i < |w.vals[m]| ==> ValBelow(w, w.sch[m.ty][i].shape, w.vals[m][i], w.rank[m])
  }

  /** The snapshot is what memory holds. */
  ghost predicate Current(w: World)
    reads w.objs`vals
  {
    forall m :: m in w.objs ==> m in w.vals && m.vals == w.vals[m]
  }

  // --------------------------------------------------- messages as values

  ghost function TreeOf(w: World, m: Message): (t: Tree)
    requires Closed(w) && m in w.objs
    ensures |t.vals| == |w.vals[m]|
    decreases w.rank[m], 3, 0
  {
    Tree(ValTrees(w, w.sch[m.ty], w.vals[m], |w.vals[m]|, w.rank[m]))
  }

  ghost function ValTrees(w: World, fields: seq<Field>, vals: seq<Val<Message>>, n: nat, r: nat): (ts: seq<Val<Tree>>)
    requires Closed(w) && n <= |vals| == |fields|
    requires forall i :: 0 <= i < |vals| ==> ValBelow(w, fields[i].shape, vals[i], r)
    ensures |ts| == n
    decreases r, 2, n
  {
    if n == 0 then [] else ValTrees(w, fields, vals, n - 1, r) + [ValTree(w, fields[n - 1].shape, vals[n - 1], r)]
  }

  ghost function ValTree(w: World, shape: Shape, v: Val<Message>, r: nat): Val<Tree>
    requires Closed(w) && ValBelow(w, shape, v, r)
    decreases r, 1, 0
  {
    match v
    case IntV(x) => IntV(x)
    case BlobV(b) => BlobV(b)
    case ChildV(c) => ChildV(OptTree(w, shape.ty, c, r))
    case IntsV(xs) => IntsV(xs)
    case BlobsV(bs) => BlobsV(bs)
    case ChildrenV(cs) => ChildrenV(OptTrees(w, shape.ty, cs, |cs|, r))
    case TableV(es) => TableV(EntryTrees(w, shape.key, shape.val, es, |es|, r))
  }

  ghost function OptTree(w: World, ty: nat, c: Option<Message>, r: nat): (t: Option<Tree>)
    requires Closed(w) && Below(w, ty, c, r)
    ensures t.Some? <==> c.Some?
    decreases r, 0, 0
  {
    if c.Some? then Some(TreeOf(w, c.value)) else None
  }

  ghost function OptTrees(w: World, ty: nat, cs: seq<Option<Message>>, n: nat, r: nat): (ts: seq<Option<Tree>>)
    requires Closed(w) && n <= |cs| && forall i :: 0 <= i < |cs| ==> Below(w, ty, cs[i], r)
    ensures |ts| == n
    decreases r, 0, n + 1
  {
    if n == 0 then [] else OptTrees(w, ty, cs, n - 1, r) + [OptTree(w, ty, cs[n - 1], r)]
  }

  ghost function SlotTree(w: World, slot: Slot, v: SlotV<Message>, r: nat): SlotV<Tree>
    requires Closed(w) && SlotBelow(w, slot, v, r)
    decreases r, 0, 1
  {
    match v
    case IntS(x) => IntS(x)
    case BlobS(b) => BlobS(b)
    case MessageS(c) => MessageS(OptTree(w, slot.ty, c, r))
  }

  ghost function EntryTrees(w: World, key: Slot, val: Slot, es: seq<Entry<Message>>, n: nat, r: nat): (ts: seq<Entry<Tree>>)
    requires Closed(w) && n <= |es|
    requires forall i :: 0 <= i < |es| ==> SlotBelow(w, key, es[i].key, r) && SlotBelow(w, val, es[i].val, r)
    ensures |ts| == n
    decreases r, 0, n + 2
  {
    if n == 0 then []
    else
      EntryTrees(w, key, val, es, n - 1, r) +
      [Entry(SlotTree(w, key, es[n - 1].key, r), SlotTree(w, val, es[n - 1].val, r))]
  }

  /** The bytes message `m` encodes to. */
  ghost function Image(w: World, m: Message): seq<byte>
    requires Closed(w) && m in w.objs
  {
    Encode(w.sch, m.ty, TreeOf(w, m))
  }

  // ------------------------------------------------------------ reachability

  /** The messages a field's value refers to. */
  predicate Refers(v: Val<Message>, c: Message) {
    match v
    case ChildV(k) => k == Some(c)
    case ChildrenV(cs) => Some(c) in cs
    case TableV(es) => exists i :: 0 <= i < |es| && es[i].val == MessageS(Some(c))
    case _ => false
  }

  ghost predicate ChildOf(w: World, m: Message, c: Message)
    requires m in w.vals
  {
    exists i :: 0 <= i < |w.vals[m]| && Refers(w.vals[m][i], c)
  }

  ghost predicate Reaches(w: World, m: Message, x: Message)
    requires Closed(w) && m in w.objs
    decreases w.rank[m]
  {
    x == m || exists c :: c in w.objs && w.rank[c] < w.rank[m] && ChildOf(w, m, c) && Reaches(w, c, x)
  }

  /** The cache of `x` holds the length of its encoding. */
  ghost predicate Cached(w: World, x: Message)
    requires Closed(w) && x in w.objs
    reads x`size
  {
    x.size == |Image(w, x)|
  }

  /** Every message `m` reaches is cached. */
  ghost predicate Sized(w: World, m: Message)
    requires Closed(w) && m in w.objs
    reads w.objs`size
  {
    forall x :: x in w.objs && Reaches(w, m, x) ==> Cached(w, x)
  }

  /** Right caches stay right. */
  twostate predicate Kept(w: World)
    requires Closed(w)
    reads w.objs`size
  {
    && (forall x :: x in w.objs && old(Cached(w, x)) ==> Cached(w, x))
    && (forall x :: x in w.objs && old(Sized(w, x)) ==> Sized(w, x))
  }

  lemma {:induction false} ReachesChild(w: World, m: Message, c: Message, x: Message)
    requires Closed(w) && m in w.objs && c in w.objs && w.rank[c] < w.rank[m] && ChildOf(w, m, c)
    requires Reaches(w, c, x)
    ensures Reaches(w, m, x)
  {
  }

  lemma {:induction false} SizedChild(w: World, m: Message, c: Message)
    requires Closed(w) && m in w.objs && c in w.objs && w.rank[c] < w.rank[m] && ChildOf(w, m, c)
    requires Sized(w, m)
    ensures Sized(w, c) && Cached(w, c)
  {
    hide Cached;
    forall x | x in w.objs && Reaches(w, c, x)
      ensures Cached(w, x)
    {
      ReachesChild(w, m, c, x);
    }
  }

  /** A message is sized when it is cached and its children are sized. */
  lemma {:induction false} SizedFromChildren(w: World, m: Message)
    requires Closed(w) && m in w.objs && Cached(w, m)
    requires forall c :: c in w.objs && w.rank[c] < w.rank[m] && ChildOf(w, m, c) ==> Sized(w, c)
    ensures Sized(w, m)
  {
    hide Cached;
  }

  // ----------------------------------------------------------- well-typed

  lemma {:induction false} SlotTyped(w: World, slot: Slot, v: SlotV<Message>, r: nat)
    requires Closed(w) && SlotBelow(w, slot, v, r)
    ensures SlotFits(w.sch, slot, SlotTree(w, slot, v, r))
    decreases r, 0, 1
  {
    hide Closed, InRange, Typed;
    if slot.MessageSlot? && v.msg.Some? {
      ObjectTyped(w, v.msg.value);
    }
  }

  lemma {:induction false} ValTyped(w: World, shape: Shape, v: Val<Message>, r: nat)
    requires Closed(w) && ValBelow(w, shape, v, r)
    ensures Fits(w.sch, shape, ValTree(w, shape, v, r))
    decreases r, 1, 0
  {
    hide Closed, InRange, Typed, TreeOf, SlotFits, SlotTree, SlotBelow;
    match shape
    case Child(ty) =>
      if v.child.Some? {
        ObjectTyped(w, v.child.value);
      }
    case Children(ty) =>
      forall i | 0 <= i < |v.children|
        ensures var t := OptTrees(w, ty, v.children, |v.children|, r)[i]; t.Some? ==> Typed(w.sch, ty, t.value)
      {
        OptTreesAt(w, ty, v.children, |v.children|, r, i);
        if v.children[i].Some? {
          ObjectTyped(w, v.children[i].value);
        }
      }
    case Table(k, t) =>
      forall i | 0 <= i < |v.entries|
        ensures var e := EntryTrees(w, k, t, v.entries, |v.entries|, r)[i];
                SlotFits(w.sch, k, e.key) && SlotFits(w.sch, t, e.val)
      {
        EntryTreesAt(w, k, t, v.entries, |v.entries|, r, i);
        SlotTyped(w, k, v.entries[i].key, r);
        SlotTyped(w, t, v.entries[i].val, r);
      }
    case _ =>
  }

  lemma {:induction false} OptTreesAt(w: World, ty: nat, cs: seq<Option<Message>>, n: nat, r: nat, i: nat)
    requires Closed(w) && i < n <= |cs| && forall i :: 0 <= i < |cs| ==> Below(w, ty, cs[i], r)
    ensures OptTrees(w, ty, cs, n, r)[i] == OptTree(w, ty, cs[i], r)
    ensures OptTrees(w, ty, cs, n, r)[..i] == OptTrees(w, ty, cs, i, r)
    decreases n
  {
    hide Closed, Below, OptTree;
    if i < n - 1 {
      OptTreesAt(w, ty, cs, n - 1, r, i);
    }
  }

  lemma {:induction false} EntryTreesAt(w: World, key: Slot, val: Slot, es: seq<Entry<Message>>, n: nat, r: nat, i: nat)
    requires Closed(w) && i < n <= |es|
    requires forall i :: 0 <= i < |es| ==> SlotBelow(w, key, es[i].key, r) && SlotBelow(w, val, es[i].val, r)
    ensures EntryTrees(w, key, val, es, n, r)[i] ==
              Entry(SlotTree(w, key, es[i].key, r), SlotTree(w, val, es[i].val, r))
    decreases n
  {
    hide Closed, SlotBelow, SlotTree;
    if i < n - 1 {
      EntryTreesAt(w, key, val, es, n - 1, r, i);
    }
  }

  lemma {:induction false} ValTreesAt(w: World, fields: seq<Field>, vals: seq<Val<Message>>, n: nat, r: nat, i: nat)
    requires Closed(w) && i < n <= |vals| == |fields|
    requires forall i :: 0 <= i < |vals| ==> ValBelow(w, fields[i].shape, vals[i], r)
    ensures ValTrees(w, fields, vals, n, r)[i] == ValTree(w, fields[i].shape, vals[i], r)
    decreases n
  {
    hide Closed, ValBelow, ValTree;
    if i < n - 1 {
      ValTreesAt(w, fields, vals, n - 1, r, i);
    }
  }

  /** An object's value is a message of the object's type. */
  lemma {:induction false} ObjectTyped(w: World, m: Message)
    requires Closed(w) && m in w.objs
    ensures Typed(w.sch, m.ty, TreeOf(w, m))
    decreases w.rank[m], 3, 0
  {
    hide ValBelow, ValTree, Fits, SchemaOk, ValTrees;
    var vals := w.vals[m];
    forall i | 0 <= i < |vals|
      ensures Fits(w.sch, w.sch[m.ty][i].shape, TreeOf(w, m).vals[i])
    {
      ValTreesAt(w, w.sch[m.ty], vals, |vals|, w.rank[m], i);
      ValTyped(w, w.sch[m.ty][i].shape, vals[i], w.rank[m]);
    }
  }

  /** What a field of a message stands for: itself, with every message it
      refers to replaced by what that one stands for. */
  lemma {:induction false} TreeVals(w: World, m: Message, i: nat)
    requires Closed(w) && m in w.objs && i < |w.vals[m]|
    ensures var v, t := w.vals[m][i], TreeOf(w, m).vals[i];
            match v
            case IntV(x) => t == IntV(x)
            case BlobV(b) => t == BlobV(b)
            case ChildV(None) => t == ChildV(None)
            case ChildV(Some(c)) => c in w.objs && t == ChildV(Some(TreeOf(w, c)))
            case IntsV(xs) => t == IntsV(xs)
            case BlobsV(bs) => t == BlobsV(bs)
            case ChildrenV(cs) =>
              && t.ChildrenV? && |t.children| == |cs|
              && (forall j :: 0 <= j < |cs| ==> Mirrors(w, cs[j], t.children[j]))
            case TableV(es) =>
              && t.TableV? && |t.entries| == |es|
              && (forall j :: 0 <= j < |es| ==> SlotMirrors(w, es[j].key, t.entries[j].key) && SlotMirrors(w, es[j].val, t.entries[j].val))
  {
    hide SchemaOk, ValTrees, TreeOf, InRange;
    var fields, vals, r := w.sch[m.ty], w.vals[m], w.rank[m];
    assert ValBelow(w, fields[i].shape, vals[i], r);
    FieldTree(w, m, i);
    match vals[i]
    case ChildrenV(cs) =>
      forall j | 0 <= j < |cs|
        ensures Mirrors(w, cs[j], TreeOf(w, m).vals[i].children[j])
      {
        OptTreesAt(w, fields[i].shape.ty, cs, |cs|, r, j);
      }
    case TableV(es) =>
      forall j | 0 <= j < |es|
        ensures SlotMirrors(w, es[j].key, TreeOf(w, m).vals[i].entries[j].key)
        ensures SlotMirrors(w, es[j].val, TreeOf(w, m).vals[i].entries[j].val)
      {
        EntryTreesAt(w, fields[i].shape.key, fields[i].shape.val, es, |es|, r, j);
      }
    case _ =>
  }

  ghost predicate Mirrors(w: World, c: Option<Message>, t: Option<Tree>)
    requires Closed(w)
  {
    if c.None? then t.None? else c.value in w.objs && t == Some(TreeOf(w, c.value))
  }

  ghost predicate SlotMirrors(w: World, v: SlotV<Message>, t: SlotV<Tree>)
    requires Closed(w)
  {
    match v
    case IntS(x) => t == IntS(x)
    case BlobS(b) => t == BlobS(b)
    case MessageS(c) => t.MessageS? && Mirrors(w, c, t.msg)
  }

  lemma {:induction false} FieldTree(w: World, m: Message, i: nat)
    requires Closed(w) && m in w.objs && i < |w.vals[m]|
    ensures ValBelow(w, w.sch[m.ty][i].shape, w.vals[m][i], w.rank[m])
    ensures TreeOf(w, m).vals[i] == ValTree(w, w.sch[m.ty][i].shape, w.vals[m][i], w.rank[m])
  {
    hide ValBelow, ValTree, SchemaOk, ValTrees;
    ValTreesAt(w, w.sch[m.ty], w.vals[m], |w.vals[m]|, w.rank[m], i);
  }
}
