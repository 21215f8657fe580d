// The encode plan: which predicates the write-side contracts need. Pair lists
// grow under four rules until nothing changes.
module EncodePlan {
  import opened Options
  import opened Graphs

  /** A field as the plan classifies it: plain, a value array, or a message. */
  datatype PlanField = Plain | ArrayField(ctype: string) | ChildField(child: nat, repeated: bool)

  datatype PlanMessage = PlanMessage(ok: bool, fields: seq<PlanField>)

  type Messages = seq<PlanMessage>

  /** A message with contracts only has children with contracts, placed before it. */
  predicate PlanOk(ms: Messages) {
    forall i, a :: 0 <= i < |ms| && ms[i].ok && 0 <= a < |ms[i].fields| && ms[i].fields[a].ChildField? ==>
      ms[i].fields[a].child < i && ms[ms[i].fields[a].child].ok
  }

  // ------------------------------------------------------------ the pairs

  datatype Target = MessageTarget(msg: nat) | ArrayTarget(ctype: string)

  datatype Pair = Pair(x: nat, t: Target)

  predicate HasChild(ms: Messages, x: nat, y: nat) {
    x < |ms| && exists a :: 0 <= a < |ms[x].fields| && ms[x].fields[a].ChildField? && ms[x].fields[a].child == y
  }

  predicate HasArray(ms: Messages, x: nat, ctype: string) {
    x < |ms| && ArrayField(ctype) in ms[x].fields
  }

  /** Two message fields of `i` whose subtrees must stay apart, the second
      after the first, or two elements of one repeated field. */
  predicate Siblings(ms: Messages, i: nat, c: nat, d: nat) {
    && i < |ms|
    && exists a, b ::
         && 0 <= a <= b < |ms[i].fields| && ms[i].fields[a].ChildField? && ms[i].fields[b].ChildField?
         && ms[i].fields[a].child == c && ms[i].fields[b].child == d
         && (a == b ==> ms[i].fields[a].repeated)
  }

  /** What the messages with contracts call for themselves. */
  ghost predicate Seeded(ms: Messages, avoid: set<Pair>, navoid: set<Pair>) {
    && (forall i: nat, c: nat :: i < |ms| && ms[i].ok && HasChild(ms, i, c) ==> Pair(c, MessageTarget(i)) in avoid)
    && (forall i: nat, c: nat, s: string :: i < |ms| && ms[i].ok && HasChild(ms, i, c) && HasArray(ms, i, s) ==>
         Pair(c, ArrayTarget(s)) in avoid)
    && (forall i: nat, c: nat, d: nat :: i < |ms| && ms[i].ok && Siblings(ms, i, c, d) ==> Pair(c, MessageTarget(d)) in navoid)
  }

  /** The four rules: both kinds of pairs pass to children; a subtree avoided
      by another avoids it back, arrays included. */
  ghost predicate Saturated(ms: Messages, avoid: set<Pair>, navoid: set<Pair>) {
    && (forall p, y: nat :: p in avoid && HasChild(ms, p.x, y) ==> Pair(y, p.t) in avoid)
    && (forall p :: p in navoid && p.t.MessageTarget? ==> Pair(p.t.msg, MessageTarget(p.x)) in avoid)
    && (forall p, s: string :: p in navoid && p.t.MessageTarget? && HasArray(ms, p.x, s) ==> Pair(p.t.msg, ArrayTarget(s)) in avoid)
    && (forall p, y: nat :: p in navoid && HasChild(ms, p.x, y) ==> Pair(y, p.t) in navoid)
  }

  ghost predicate Closed(ms: Messages, avoid: set<Pair>, navoid: set<Pair>) {
    Seeded(ms, avoid, navoid) && Saturated(ms, avoid, navoid)
  }

  /** Contained in every closed choice of pairs. */
  ghost predicate Needed(ms: Messages, avoid: set<Pair>, navoid: set<Pair>) {
    forall a, n :: Closed(ms, a, n) ==> avoid <= a && navoid <= n
  }

  // -------------------------------------------------------- the pair arrays

  /** A growing array searched linearly before each append. */
  class PairList {
    var items: array<Pair>
    var count: nat

    ghost predicate Valid()
      reads this, items
    {
      count <= items.Length && NoRepeats(items[..count])
    }

    ghost function Contents(): seq<Pair>
      requires count <= items.Length
      reads this, items
    {
      items[..count]
    }

    constructor ()
      ensures Valid() && Contents() == [] && fresh(items)
    {
      items := new Pair[0];
      count := 0;
    }

    /** `pair_add` */
    method Add(p: Pair) returns (changed: bool)
      requires Valid()
      modifies this, items
      ensures Valid() && (items == old(items) || fresh(items))
      ensures changed <==> p !in old(Contents())
      ensures Contents() == if changed then old(Contents()) + [p] else old(Contents())
    {
      for i := 0 to count
        invariant Valid() && unchanged(this) && unchanged(items) && p !in items[..i]
      {
        if items[i] == p {
          return false;
        }
      }
      ghost var before := Contents();
      if count == items.Length {
        var cap := if items.Length > 0 then items.Length * 2 else 16;
        var n := new Pair[cap](k requires 0 <= k reads this, items => if k < items.Length then items[k] else p);
        assert n[..count] == before;
        items := n;
      }
      items[count] := p;
      count := count + 1;
      assert items[..count] == before + [p];
      return true;
    }
  }

  // ------------------------------------------------------- what pairs can be

  function Targets(ms: Messages): set<Target> {
    (set m | m in Upto(|ms|) :: MessageTarget(m)) +
    (set i, b | 0 <= i < |ms| && 0 <= b < |ms[i].fields| && ms[i].fields[b].ArrayField? :: ArrayTarget(ms[i].fields[b].ctype))
  }

  function Universe(ms: Messages): set<Pair> {
    set x, t | x in Upto(|ms|) && t in Targets(ms) :: Pair(x, t)
  }

  /** A pair of messages with contracts, or of one and a value array. */
  predicate Fits(ms: Messages, p: Pair) {
    p in Universe(ms) && ms[p.x].ok && (p.t.MessageTarget? ==> p.t.msg < |ms| && ms[p.t.msg].ok)
  }

  predicate AllFit(ms: Messages, pairs: seq<Pair>) {
    NoRepeats(pairs) && forall i :: 0 <= i < |pairs| ==> Fits(ms, pairs[i])
  }

  lemma {:induction false} InUniverse(ms: Messages, x: nat, t: Target)
    requires x < |ms|
    ensures t.MessageTarget? && t.msg < |ms| ==> Pair(x, t) in Universe(ms)
    ensures forall i: nat, s: string :: HasArray(ms, i, s) && t == ArrayTarget(s) ==> Pair(x, t) in Universe(ms)
  {
    assert x in Upto(|ms|);
    if t.MessageTarget? && t.msg < |ms| {
      assert t.msg in Upto(|ms|);
    }
    forall i: nat, s: string | HasArray(ms, i, s) && t == ArrayTarget(s)
      ensures t in Targets(ms)
    {
      var b :| 0 <= b < |ms[i].fields| && ms[i].fields[b] == ArrayField(s);
      assert ms[i].fields[b].ArrayField? && ms[i].fields[b].ctype == s;
    }
  }

  /** The lists cannot outgrow the universe. */
  lemma {:induction false} Limited(ms: Messages, pairs: seq<Pair>)
    requires AllFit(ms, pairs)
    ensures |pairs| <= |Universe(ms)|
  {
    hide Universe;
    CountElements(pairs);
    SubsetSize(Elements(pairs), Universe(ms));
  }

  /** `p` is in every closed choice that contains the given pairs. */
  ghost predicate Derived(ms: Messages, av: seq<Pair>, nv: seq<Pair>, p: Pair, isAvoid: bool) {
    forall a, n :: Closed(ms, a, n) && Elements(av) <= a && Elements(nv) <= n ==> p in if isAvoid then a else n
  }

  /** The invariant of the plan's two lists. */
  ghost predicate Good(ms: Messages, av: seq<Pair>, nv: seq<Pair>) {
    && AllFit(ms, av) && AllFit(ms, nv) && (forall i :: 0 <= i < |nv| ==> nv[i].t.MessageTarget?)
    && Needed(ms, Elements(av), Elements(nv))
  }

  lemma {:induction false} ElementsMore(s: seq<Pair>, p: Pair)
    ensures Elements(s + [p]) == Elements(s) + {p}
  {
  }

  lemma {:induction false} GoodAvoid(ms: Messages, av: seq<Pair>, nv: seq<Pair>, p: Pair)
    requires Good(ms, av, nv) && Derived(ms, av, nv, p, true) && Fits(ms, p) && p !in av
    ensures Good(ms, av + [p], nv)
  {
    hide Closed, Fits;
    ElementsMore(av, p);
  }

  lemma {:induction false} GoodNavoid(ms: Messages, av: seq<Pair>, nv: seq<Pair>, p: Pair)
    requires Good(ms, av, nv) && Derived(ms, av, nv, p, false) && Fits(ms, p) && p !in nv && p.t.MessageTarget?
    ensures Good(ms, av, nv + [p])
  {
    hide Closed, Fits;
    ElementsMore(nv, p);
  }

  // --------------------------------------------------- each rule's conclusion

  lemma {:induction false} SeedAvoid(ms: Messages, av: seq<Pair>, nv: seq<Pair>, i: nat, c: nat)
    requires PlanOk(ms) && i < |ms| && ms[i].ok && HasChild(ms, i, c)
    ensures Derived(ms, av, nv, Pair(c, MessageTarget(i)), true) && Fits(ms, Pair(c, MessageTarget(i)))
  {
    hide Saturated, Siblings, Universe;
    InUniverse(ms, c, MessageTarget(i));
  }

  lemma {:induction false} SeedArray(ms: Messages, av: seq<Pair>, nv: seq<Pair>, i: nat, c: nat, s: string)
    requires PlanOk(ms) && i < |ms| && ms[i].ok && HasChild(ms, i, c) && HasArray(ms, i, s)
    ensures Derived(ms, av, nv, Pair(c, ArrayTarget(s)), true) && Fits(ms, Pair(c, ArrayTarget(s)))
  {
    hide Saturated, Siblings, Universe;
    InUniverse(ms, c, ArrayTarget(s));
  }

  lemma {:induction false} SeedSiblings(ms: Messages, av: seq<Pair>, nv: seq<Pair>, i: nat, c: nat, d: nat)
    requires PlanOk(ms) && i < |ms| && ms[i].ok && Siblings(ms, i, c, d)
    ensures Derived(ms, av, nv, Pair(c, MessageTarget(d)), false) && Fits(ms, Pair(c, MessageTarget(d)))
  {
    hide Saturated, Universe;
    var a, b :|
      && 0 <= a <= b < |ms[i].fields| && ms[i].fields[a].ChildField? && ms[i].fields[b].ChildField?
      && ms[i].fields[a].child == c && ms[i].fields[b].child == d;
    InUniverse(ms, c, MessageTarget(d));
  }

  lemma {:induction false} FitsChild(ms: Messages, p: Pair, y: nat)
    requires PlanOk(ms) && Fits(ms, p) && HasChild(ms, p.x, y)
    ensures Fits(ms, Pair(y, p.t))
  {
    assert y in Upto(|ms|);
  }

  lemma {:induction false} PassAvoid(ms: Messages, av: seq<Pair>, nv: seq<Pair>, p: Pair, y: nat)
    requires PlanOk(ms) && p in av && Fits(ms, p) && HasChild(ms, p.x, y)
    ensures Derived(ms, av, nv, Pair(y, p.t), true) && Fits(ms, Pair(y, p.t))
  {
    hide Seeded, Universe, HasChild;
    FitsChild(ms, p, y);
    assert p in Elements(av);
  }

  lemma {:induction false} PassNavoid(ms: Messages, av: seq<Pair>, nv: seq<Pair>, p: Pair, y: nat)
    requires PlanOk(ms) && p in nv && Fits(ms, p) && HasChild(ms, p.x, y)
    ensures Derived(ms, av, nv, Pair(y, p.t), false) && Fits(ms, Pair(y, p.t))
  {
    hide Seeded, Universe, HasChild;
    FitsChild(ms, p, y);
    assert p in Elements(nv);
  }

  lemma {:induction false} AvoidBack(ms: Messages, av: seq<Pair>, nv: seq<Pair>, p: Pair)
    requires PlanOk(ms) && p in nv && Fits(ms, p) && p.t.MessageTarget?
    ensures Derived(ms, av, nv, Pair(p.t.msg, MessageTarget(p.x)), true) && Fits(ms, Pair(p.t.msg, MessageTarget(p.x)))
  {
    hide Seeded, Universe, HasChild;
    UniverseX(ms, p);
    InUniverse(ms, p.t.msg, MessageTarget(p.x));
    assert p in Elements(nv);
  }

  lemma {:induction false} AvoidArray(ms: Messages, av: seq<Pair>, nv: seq<Pair>, p: Pair, s: string)
    requires PlanOk(ms) && p in nv && Fits(ms, p) && p.t.MessageTarget? && HasArray(ms, p.x, s)
    ensures Derived(ms, av, nv, Pair(p.t.msg, ArrayTarget(s)), true) && Fits(ms, Pair(p.t.msg, ArrayTarget(s)))
  {
    hide Seeded, Universe, HasChild;
    InUniverse(ms, p.t.msg, ArrayTarget(s));
    assert p in Elements(nv);
  }

  lemma {:induction false} UniverseX(ms: Messages, p: Pair)
    requires p in Universe(ms)
    ensures p.x < |ms|
  {
  }

  // ------------------------------------------------------- building the plan

  class Plan {
    const ms: Messages
    const avoid: PairList
    const navoid: PairList

    ghost predicate Valid()
      reads this, avoid, navoid, avoid.items, navoid.items
    {
      && PlanOk(ms) && avoid != navoid && avoid.items != navoid.items
      && avoid.Valid() && navoid.Valid() && Good(ms, avoid.Contents(), navoid.Contents())
    }

    constructor (ms: Messages)
      requires PlanOk(ms)
      ensures Valid() && this.ms == ms && avoid.Contents() == [] && navoid.Contents() == []
      ensures fresh(avoid) && fresh(navoid) && fresh(avoid.items) && fresh(navoid.items)
    {
      this.ms := ms;
      avoid := new PairList();
      navoid := new PairList();
      new;
      assert Elements<Pair>([]) == {};
    }

    method AddAvoid(p: Pair) returns (changed: bool)
      requires Valid() && Fits(ms, p) && Derived(ms, avoid.Contents(), navoid.Contents(), p, true)
      modifies avoid, avoid.items
      ensures Valid() && (avoid.items == old(avoid.items) || fresh(avoid.items))
      ensures navoid.Contents() == old(navoid.Contents()) && p in avoid.Contents()
      ensures avoid.Contents() == if changed then old(avoid.Contents()) + [p] else old(avoid.Contents())
    {
      hide Good, Derived, Fits, PlanOk, NoRepeats;
      ghost var av := avoid.Contents();
      changed := avoid.Add(p);
      if changed {
        GoodAvoid(ms, av, navoid.Contents(), p);
      }
    }

    method AddNavoid(p: Pair) returns (changed: bool)
      requires Valid() && Fits(ms, p) && p.t.MessageTarget? && Derived(ms, avoid.Contents(), navoid.Contents(), p, false)
      modifies navoid, navoid.items
      ensures Valid() && (navoid.items == old(navoid.items) || fresh(navoid.items))
      ensures avoid.Contents() == old(avoid.Contents()) && p in navoid.Contents()
      ensures navoid.Contents() == if changed then old(navoid.Contents()) + [p] else old(navoid.Contents())
    {
      hide Good, Derived, Fits, PlanOk, NoRepeats;
      ghost var nv := navoid.Contents();
      changed := navoid.Add(p);
      if changed {
        GoodNavoid(ms, avoid.Contents(), nv, p);
      }
    }

    /** Child `c` of message `i` keeps away from its value arrays. */
    method SeedArrays(i: nat, c: nat)
      requires Valid() && i < |ms| && ms[i].ok && HasChild(ms, i, c)
      modifies avoid, avoid.items
      ensures Valid() && (avoid.items == old(avoid.items) || fresh(avoid.items))
      ensures navoid.Contents() == old(navoid.Contents()) && old(avoid.Contents()) <= avoid.Contents()
      ensures ArraysSeeded(ms[i].fields, c, |ms[i].fields|, avoid.Contents())
    {
      hide Good, Derived, Fits, PlanOk, NoRepeats, Universe, HasChild;
      var fields := ms[i].fields;
      for b := 0 to |fields|
        invariant Valid() && (avoid.items == old(avoid.items) || fresh(avoid.items))
        invariant navoid.Contents() == old(navoid.Contents()) && old(avoid.Contents()) <= avoid.Contents()
        invariant ArraysSeeded(fields, c, b, avoid.Contents())
      {
        if !fields[b].ArrayField? {
          continue;
        }
        assert HasArray(ms, i, fields[b].ctype) by {
          assert fields[b] == ArrayField(fields[b].ctype);
        }
        SeedArray(ms, avoid.Contents(), navoid.Contents(), i, c, fields[b].ctype);
        var changed := AddAvoid(Pair(c, ArrayTarget(fields[b].ctype)));
      }
    }

    /** The subtree at field `a` keeps away from those of later fields. */
    method SeedLater(i: nat, a: nat)
      requires Valid() && i < |ms| && ms[i].ok && a < |ms[i].fields| && ms[i].fields[a].ChildField?
      modifies navoid, navoid.items
      ensures Valid() && (navoid.items == old(navoid.items) || fresh(navoid.items))
      ensures avoid.Contents() == old(avoid.Contents()) && old(navoid.Contents()) <= navoid.Contents()
      ensures LaterSeeded(ms[i].fields, a, |ms[i].fields|, navoid.Contents())
      ensures ms[i].fields[a].repeated ==>
                Pair(ms[i].fields[a].child, MessageTarget(ms[i].fields[a].child)) in navoid.Contents()
    {
      hide Good, Derived, Fits, PlanOk, NoRepeats, Universe, HasChild;
      var fields, c := ms[i].fields, ms[i].fields[a].child;
      for b := a + 1 to |fields|
        invariant Valid() && (navoid.items == old(navoid.items) || fresh(navoid.items))
        invariant avoid.Contents() == old(avoid.Contents()) && old(navoid.Contents()) <= navoid.Contents()
        invariant LaterSeeded(fields, a, b, navoid.Contents())
      {
        if !fields[b].ChildField? {
          continue;
        }
        SeedSiblings(ms, avoid.Contents(), navoid.Contents(), i, c, fields[b].child);
        var changed := AddNavoid(Pair(c, MessageTarget(fields[b].child)));
      }
      if fields[a].repeated {
        SeedSiblings(ms, avoid.Contents(), navoid.Contents(), i, c, c);
        var changed := AddNavoid(Pair(c, MessageTarget(c)));
      }
    }

    /** What field `a` of message `i` calls for. */
    method SeedField(i: nat, a: nat)
      requires Valid() && i < |ms| && ms[i].ok && a < |ms[i].fields|
      modifies avoid, navoid, avoid.items, navoid.items
      ensures Valid() && (avoid.items == old(avoid.items) || fresh(avoid.items)) && (navoid.items == old(navoid.items) || fresh(navoid.items))
      ensures old(avoid.Contents()) <= avoid.Contents() && old(navoid.Contents()) <= navoid.Contents()
      ensures FieldSeeded(ms, i, a, avoid.Contents(), navoid.Contents())
    {
      hide Good, Derived, Fits, PlanOk, NoRepeats, Universe, ArraysSeeded, LaterSeeded;
      if !ms[i].fields[a].ChildField? {
        return;
      }
      var c := ms[i].fields[a].child;
      assert HasChild(ms, i, c);
      SeedAvoid(ms, avoid.Contents(), navoid.Contents(), i, c);
      var changed := AddAvoid(Pair(c, MessageTarget(i)));
      SeedArrays(i, c);
      SeedLater(i, a);
    }

    /** The seeds of all messages with contracts. */
    method Seed()
      requires Valid()
      modifies avoid, navoid, avoid.items, navoid.items
      ensures Valid() && (avoid.items == old(avoid.items) || fresh(avoid.items)) && (navoid.items == old(navoid.items) || fresh(navoid.items))
      ensures forall i :: 0 <= i < |ms| ==> MessageSeeded(ms, i, |ms[i].fields|, avoid.Contents(), navoid.Contents())
    {
      hide Good, PlanOk, NoRepeats, FieldSeeded;
      for i := 0 to |ms|
        invariant Valid() && (avoid.items == old(avoid.items) || fresh(avoid.items)) && (navoid.items == old(navoid.items) || fresh(navoid.items))
        invariant forall k :: 0 <= k < i ==> MessageSeeded(ms, k, |ms[k].fields|, avoid.Contents(), navoid.Contents())
      {
        if !ms[i].ok {
          continue;
        }
        for a := 0 to |ms[i].fields|
          invariant Valid() && (avoid.items == old(avoid.items) || fresh(avoid.items)) && (navoid.items == old(navoid.items) || fresh(navoid.items))
          invariant forall k :: 0 <= k < i ==> MessageSeeded(ms, k, |ms[k].fields|, avoid.Contents(), navoid.Contents())
          invariant MessageSeeded(ms, i, a, avoid.Contents(), navoid.Contents())
        {
          ghost var av, nv := avoid.Contents(), navoid.Contents();
          SeedField(i, a);
          SeededMore(ms, av, nv, avoid.Contents(), navoid.Contents());
        }
      }
    }

    /** Passes avoid pair `p` on to the children of its message. */
    method PassOn(p: Pair) returns (changed: bool)
      requires Valid() && p in avoid.Contents()
      modifies avoid, avoid.items
      ensures Valid() && (avoid.items == old(avoid.items) || fresh(avoid.items))
      ensures navoid.Contents() == old(navoid.Contents()) && old(avoid.Contents()) <= avoid.Contents()
      ensures changed <==> |avoid.Contents()| > |old(avoid.Contents())|
      ensures AvoidDone(ms, p, avoid.Contents())
    {
      hide Good, Derived, Fits, PlanOk, NoRepeats, Universe, HasChild, PassedOn;
      PairFits(ms, avoid.Contents(), navoid.Contents(), p);
      var fields := ms[p.x].fields;
      changed := false;
      PassedNone(fields, p.t, avoid.Contents());
      for a := 0 to |fields|
        invariant Valid() && (avoid.items == old(avoid.items) || fresh(avoid.items))
        invariant navoid.Contents() == old(navoid.Contents()) && old(avoid.Contents()) <= avoid.Contents()
        invariant changed <==> |avoid.Contents()| > |old(avoid.Contents())|
        invariant PassedOn(fields, a, p.t, avoid.Contents())
      {
        ghost var av := avoid.Contents();
        if fields[a].ChildField? {
          ChildAt(ms, p.x, a);
          assert p in avoid.Contents();
          PassAvoid(ms, avoid.Contents(), navoid.Contents(), p, fields[a].child);
          var c := AddAvoid(Pair(fields[a].child, p.t));
          changed := changed || c;
        }
        PassedMore(fields, a, p.t, av, avoid.Contents());
      }
    }

    /** One pass over the avoid pairs, those found on the way included. */
    method AvoidRound() returns (changed: bool)
      requires Valid()
      modifies avoid, avoid.items
      ensures Valid() && (avoid.items == old(avoid.items) || fresh(avoid.items))
      ensures navoid.Contents() == old(navoid.Contents()) && old(avoid.Contents()) <= avoid.Contents()
      ensures changed <==> |avoid.Contents()| > |old(avoid.Contents())|
      ensures !changed ==> forall p :: p in avoid.Contents() ==> AvoidDone(ms, p, avoid.Contents())
    {
      hide Good, PlanOk, NoRepeats, AvoidDone;
      changed := false;
      var i := 0;
      while i < avoid.count
        invariant Valid() && (avoid.items == old(avoid.items) || fresh(avoid.items))
        invariant navoid.Contents() == old(navoid.Contents()) && old(avoid.Contents()) <= avoid.Contents()
        invariant changed <==> |avoid.Contents()| > |old(avoid.Contents())|
        invariant i <= avoid.count
        invariant !changed ==> forall k :: 0 <= k < i ==> AvoidDone(ms, avoid.Contents()[k], avoid.Contents())
        decreases |Universe(ms)| - i
      {
        var p := avoid.items[i];
        assert p == avoid.Contents()[i];
        Bounded(ms, avoid.Contents(), navoid.Contents());
        ghost var av := avoid.Contents();
        var c := PassOn(p);
        changed := changed || c;
        assert !changed ==> avoid.Contents() == av;
        i := i + 1;
      }
    }

    /** What navoid pair `p` entails: avoidance back, of arrays too, and the
        pairs of its message's children. */
    method Mirror(p: Pair) returns (changed: bool)
      requires Valid() && p in navoid.Contents()
      modifies avoid, navoid, avoid.items, navoid.items
      ensures Valid() && (avoid.items == old(avoid.items) || fresh(avoid.items)) && (navoid.items == old(navoid.items) || fresh(navoid.items))
      ensures old(avoid.Contents()) <= avoid.Contents() && old(navoid.Contents()) <= navoid.Contents()
      ensures changed <==> |avoid.Contents()| + |navoid.Contents()| > |old(avoid.Contents())| + |old(navoid.Contents())|
      ensures NavoidDone(ms, p, avoid.Contents(), navoid.Contents())
    {
      hide Good, Derived, Fits, PlanOk, NoRepeats, Universe, HasChild, PassedOn, ArraysBack;
      PairFits(ms, avoid.Contents(), navoid.Contents(), p);
      var fields := ms[p.x].fields;
      AvoidBack(ms, avoid.Contents(), navoid.Contents(), p);
      changed := AddAvoid(Pair(p.t.msg, MessageTarget(p.x)));
      ghost var back := Pair(p.t.msg, MessageTarget(p.x));
      PassedNone(fields, p.t, navoid.Contents());
      BackNone(fields, p.t.msg, avoid.Contents());
      for a := 0 to |fields|
        invariant Valid() && (avoid.items == old(avoid.items) || fresh(avoid.items)) && (navoid.items == old(navoid.items) || fresh(navoid.items))
        invariant old(avoid.Contents()) <= avoid.Contents() && old(navoid.Contents()) <= navoid.Contents()
        invariant changed <==> |avoid.Contents()| + |navoid.Contents()| > |old(avoid.Contents())| + |old(navoid.Contents())|
        invariant back in avoid.Contents()
        invariant PassedOn(fields, a, p.t, navoid.Contents()) && ArraysBack(fields, a, p.t.msg, avoid.Contents())
      {
        ghost var av, nv := avoid.Contents(), navoid.Contents();
        assert p in nv;
        var c := MirrorField(p, a);
        changed := changed || c;
        PassedMore(fields, a, p.t, nv, navoid.Contents());
        BackMore(fields, a, p.t.msg, av, avoid.Contents());
      }
    }

    method MirrorField(p: Pair, a: nat) returns (changed: bool)
      requires Valid() && p in navoid.Contents() && p.x < |ms| && p.t.MessageTarget? && a < |ms[p.x].fields|
      modifies avoid, navoid, avoid.items, navoid.items
      ensures Valid() && (avoid.items == old(avoid.items) || fresh(avoid.items)) && (navoid.items == old(navoid.items) || fresh(navoid.items))
      ensures old(avoid.Contents()) <= avoid.Contents() && old(navoid.Contents()) <= navoid.Contents()
      ensures changed <==> |avoid.Contents()| + |navoid.Contents()| > |old(avoid.Contents())| + |old(navoid.Contents())|
      ensures var f := ms[p.x].fields[a];
              && (f.ArrayField? ==> Pair(p.t.msg, ArrayTarget(f.ctype)) in avoid.Contents())
              && (f.ChildField? ==> Pair(f.child, p.t) in navoid.Contents())
    {
      hide Good, Derived, Fits, PlanOk, NoRepeats, Universe, HasChild;
      PairFits(ms, avoid.Contents(), navoid.Contents(), p);
      var f := ms[p.x].fields[a];
      changed := false;
      if f.ArrayField? {
        assert HasArray(ms, p.x, f.ctype) by {
          assert f == ArrayField(f.ctype);
        }
        AvoidArray(ms, avoid.Contents(), navoid.Contents(), p, f.ctype);
        changed := AddAvoid(Pair(p.t.msg, ArrayTarget(f.ctype)));
      }
      if f.ChildField? {
        ChildAt(ms, p.x, a);
        PassNavoid(ms, avoid.Contents(), navoid.Contents(), p, f.child);
        changed := AddNavoid(Pair(f.child, p.t));
      }
    }

    method NavoidRound() returns (changed: bool)
      requires Valid()
      modifies avoid, navoid, avoid.items, navoid.items
      ensures Valid() && (avoid.items == old(avoid.items) || fresh(avoid.items)) && (navoid.items == old(navoid.items) || fresh(navoid.items))
      ensures old(avoid.Contents()) <= avoid.Contents() && old(navoid.Contents()) <= navoid.Contents()
      ensures changed <==> |avoid.Contents()| + |navoid.Contents()| > |old(avoid.Contents())| + |old(navoid.Contents())|
      ensures !changed ==> forall p :: p in navoid.Contents() ==> NavoidDone(ms, p, avoid.Contents(), navoid.Contents())
    {
      hide Good, PlanOk, NoRepeats, NavoidDone;
      changed := false;
      var i := 0;
      while i < navoid.count
        invariant Valid() && (avoid.items == old(avoid.items) || fresh(avoid.items)) && (navoid.items == old(navoid.items) || fresh(navoid.items))
        invariant old(avoid.Contents()) <= avoid.Contents() && old(navoid.Contents()) <= navoid.Contents()
        invariant changed <==> |avoid.Contents()| + |navoid.Contents()| > |old(avoid.Contents())| + |old(navoid.Contents())|
        invariant i <= navoid.count
        invariant !changed ==> forall k :: 0 <= k < i ==> NavoidDone(ms, navoid.Contents()[k], avoid.Contents(), navoid.Contents())
        decreases |Universe(ms)| - i
      {
        var p := navoid.items[i];
        assert p == navoid.Contents()[i];
        Bounded(ms, avoid.Contents(), navoid.Contents());
        ghost var av, nv := avoid.Contents(), navoid.Contents();
        var c := Mirror(p);
        changed := changed || c;
        assert !changed ==> avoid.Contents() == av && navoid.Contents() == nv;
        i := i + 1;
      }
    }

    /** One round of all four rules. */
    method Round() returns (changed: bool)
      requires Valid()
      modifies avoid, navoid, avoid.items, navoid.items
      ensures Valid() && (avoid.items == old(avoid.items) || fresh(avoid.items)) && (navoid.items == old(navoid.items) || fresh(navoid.items))
      ensures old(avoid.Contents()) <= avoid.Contents() && old(navoid.Contents()) <= navoid.Contents()
      ensures changed <==> |avoid.Contents()| + |navoid.Contents()| > |old(avoid.Contents())| + |old(navoid.Contents())|
      ensures !changed ==> Saturated(ms, Elements(avoid.Contents()), Elements(navoid.Contents()))
    {
      hide Good, PlanOk, NoRepeats, NavoidDone, AvoidDone, Saturated;
      ghost var av, nv := avoid.Contents(), navoid.Contents();
      changed := AvoidRound();
      assert !changed ==> avoid.Contents() == av;
      assert !changed ==> forall p :: p in av ==> AvoidDone(ms, p, av);
      var more := NavoidRound();
      assert !changed && !more ==> avoid.Contents() == av && navoid.Contents() == nv;
      changed := changed || more;
      if !changed {
        StillSaturated(ms, av, nv);
      }
    }

    /** Saturation: rounds until one changes nothing. */
    method Saturate()
      requires Valid()
      modifies avoid, navoid, avoid.items, navoid.items
      ensures Valid()
      ensures old(avoid.Contents()) <= avoid.Contents() && old(navoid.Contents()) <= navoid.Contents()
      ensures Saturated(ms, Elements(avoid.Contents()), Elements(navoid.Contents()))
    {
      hide Good, PlanOk, NoRepeats, Saturated;
      var changed := true;
      while changed
        invariant Valid() && (avoid.items == old(avoid.items) || fresh(avoid.items)) && (navoid.items == old(navoid.items) || fresh(navoid.items))
        invariant old(avoid.Contents()) <= avoid.Contents() && old(navoid.Contents()) <= navoid.Contents()
        invariant !changed ==> Saturated(ms, Elements(avoid.Contents()), Elements(navoid.Contents()))
        decreases 2 * |Universe(ms)| - |avoid.Contents()| - |navoid.Contents()|, changed
      {
        changed := Round();
        Bounded(ms, avoid.Contents(), navoid.Contents());
      }
    }
  }

  /** The children of `p.x` have pairs with `p.t`, as far as the first `n` fields go. */
  predicate PassedOn(fields: seq<PlanField>, n: nat, t: Target, pairs: seq<Pair>) {
    forall a :: 0 <= a < n && a < |fields| && fields[a].ChildField? ==> Pair(fields[a].child, t) in pairs
  }

  predicate ArraysBack(fields: seq<PlanField>, n: nat, t: nat, av: seq<Pair>) {
    forall a :: 0 <= a < n && a < |fields| && fields[a].ArrayField? ==> Pair(t, ArrayTarget(fields[a].ctype)) in av
  }

  predicate AvoidDone(ms: Messages, p: Pair, av: seq<Pair>) {
    p.x < |ms| ==> PassedOn(ms[p.x].fields, |ms[p.x].fields|, p.t, av)
  }

  predicate NavoidDone(ms: Messages, p: Pair, av: seq<Pair>, nv: seq<Pair>) {
    p.x < |ms| && p.t.MessageTarget? ==>
      && Pair(p.t.msg, MessageTarget(p.x)) in av
      && ArraysBack(ms[p.x].fields, |ms[p.x].fields|, p.t.msg, av)
      && PassedOn(ms[p.x].fields, |ms[p.x].fields|, p.t, nv)
  }

  predicate ArraysSeeded(fields: seq<PlanField>, c: nat, n: nat, av: seq<Pair>) {
    forall k :: 0 <= k < n && k < |fields| && fields[k].ArrayField? ==> Pair(c, ArrayTarget(fields[k].ctype)) in av
  }

  predicate LaterSeeded(fields: seq<PlanField>, a: nat, n: nat, nv: seq<Pair>) {
    a < |fields| && fields[a].ChildField? ==>
      forall k :: a < k < n && k < |fields| && fields[k].ChildField? ==>
        Pair(fields[a].child, MessageTarget(fields[k].child)) in nv
  }

  /** The first `n` fields of a message with contracts are seeded. */
  predicate MessageSeeded(ms: Messages, i: nat, n: nat, av: seq<Pair>, nv: seq<Pair>)
    requires i < |ms|
  {
    ms[i].ok ==> forall a :: 0 <= a < n && a < |ms[i].fields| ==> FieldSeeded(ms, i, a, av, nv)
  }

  lemma {:induction false} SeededMore(ms: Messages, av: seq<Pair>, nv: seq<Pair>, av': seq<Pair>, nv': seq<Pair>)
    requires av <= av' && nv <= nv'
    ensures forall k, a :: 0 <= k < |ms| && 0 <= a < |ms[k].fields| && FieldSeeded(ms, k, a, av, nv) ==> FieldSeeded(ms, k, a, av', nv')
  {
  }

  /** The pairs field `a` of message `i` calls for are there. */
  predicate FieldSeeded(ms: Messages, i: nat, a: nat, av: seq<Pair>, nv: seq<Pair>)
    requires i < |ms| && a < |ms[i].fields|
  {
    var fields := ms[i].fields;
    fields[a].ChildField? ==>
      var c := fields[a].child;
      && Pair(c, MessageTarget(i)) in av && ArraysSeeded(fields, c, |fields|, av) && LaterSeeded(fields, a, |fields|, nv)
      && (fields[a].repeated ==> Pair(c, MessageTarget(c)) in nv)
  }

  lemma {:induction false} PairFits(ms: Messages, av: seq<Pair>, nv: seq<Pair>, p: Pair)
    requires Good(ms, av, nv) && (p in av || p in nv)
    ensures p.x < |ms| && Fits(ms, p) && (p in nv ==> p.t.MessageTarget? && p.t.msg < |ms|)
  {
    hide Needed, Universe;
    assert p in Universe(ms);
    UniverseX(ms, p);
  }

  lemma {:induction false} Bounded(ms: Messages, av: seq<Pair>, nv: seq<Pair>)
    requires Good(ms, av, nv)
    ensures |av| <= |Universe(ms)| && |nv| <= |Universe(ms)|
  {
    hide Needed, Universe, Fits, NoRepeats;
    Limited(ms, av);
    Limited(ms, nv);
  }

  lemma {:induction false} PassedNone(fields: seq<PlanField>, t: Target, pairs: seq<Pair>)
    ensures PassedOn(fields, 0, t, pairs)
  {
  }

  lemma {:induction false} ChildAt(ms: Messages, x: nat, a: nat)
    requires x < |ms| && a < |ms[x].fields| && ms[x].fields[a].ChildField?
    ensures HasChild(ms, x, ms[x].fields[a].child)
  {
  }

  lemma {:induction false} PassedMore(fields: seq<PlanField>, a: nat, t: Target, pairs: seq<Pair>, more: seq<Pair>)
    requires a < |fields| && PassedOn(fields, a, t, pairs) && pairs <= more
    requires fields[a].ChildField? ==> Pair(fields[a].child, t) in more
    ensures PassedOn(fields, a + 1, t, more)
  {
  }

  lemma {:induction false} BackNone(fields: seq<PlanField>, t: nat, av: seq<Pair>)
    ensures ArraysBack(fields, 0, t, av)
  {
  }

  lemma {:induction false} BackMore(fields: seq<PlanField>, a: nat, t: nat, av: seq<Pair>, more: seq<Pair>)
    requires a < |fields| && ArraysBack(fields, a, t, av) && av <= more
    requires fields[a].ArrayField? ==> Pair(t, ArrayTarget(fields[a].ctype)) in more
    ensures ArraysBack(fields, a + 1, t, more)
  {
  }

  lemma {:induction false} StillSaturated(ms: Messages, av: seq<Pair>, nv: seq<Pair>)
    requires forall p :: p in av ==> AvoidDone(ms, p, av)
    requires forall p :: p in nv ==> NavoidDone(ms, p, av, nv)
    requires Good(ms, av, nv)
    ensures Saturated(ms, Elements(av), Elements(nv))
  {
    hide Good;
    forall p | p in nv
      ensures p.x < |ms| && p.t.MessageTarget?
    {
      PairFits(ms, av, nv, p);
    }
  }

  lemma {:induction false} AllSeeded(ms: Messages, av: seq<Pair>, nv: seq<Pair>)
    requires forall i :: 0 <= i < |ms| ==> MessageSeeded(ms, i, |ms[i].fields|, av, nv)
    ensures Seeded(ms, Elements(av), Elements(nv))
  {
    forall i: nat, c: nat | i < |ms| && ms[i].ok && HasChild(ms, i, c)
      ensures Pair(c, MessageTarget(i)) in av
      ensures forall s: string :: HasArray(ms, i, s) ==> Pair(c, ArrayTarget(s)) in av
    {
      var a :| 0 <= a < |ms[i].fields| && ms[i].fields[a].ChildField? && ms[i].fields[a].child == c;
      assert MessageSeeded(ms, i, |ms[i].fields|, av, nv) && FieldSeeded(ms, i, a, av, nv);
    }
    forall i: nat, c: nat, d: nat | i < |ms| && ms[i].ok && Siblings(ms, i, c, d)
      ensures Pair(c, MessageTarget(d)) in nv
    {
      var a, b :|
        && 0 <= a <= b < |ms[i].fields| && ms[i].fields[a].ChildField? && ms[i].fields[b].ChildField?
        && ms[i].fields[a].child == c && ms[i].fields[b].child == d && (a == b ==> ms[i].fields[a].repeated);
      assert MessageSeeded(ms, i, |ms[i].fields|, av, nv) && FieldSeeded(ms, i, a, av, nv);
    }
  }

  lemma {:induction false} SeedsStay(ms: Messages, av: seq<Pair>, nv: seq<Pair>, av': seq<Pair>, nv': seq<Pair>)
    requires av <= av' && nv <= nv' && forall i :: 0 <= i < |ms| ==> MessageSeeded(ms, i, |ms[i].fields|, av, nv)
    ensures forall i :: 0 <= i < |ms| ==> MessageSeeded(ms, i, |ms[i].fields|, av', nv')
  {
    hide FieldSeeded;
    SeededMore(ms, av, nv, av', nv');
  }

  /** The two lists together are the least choice of pairs that the seeds and
      the four rules leave: closed, and part of every closed one. */
  method BuildPairs(ms: Messages) returns (plan: Plan)
    requires PlanOk(ms)
    ensures fresh(plan) && plan.ms == ms && plan.Valid()
    ensures var avoid, navoid := Elements(plan.avoid.Contents()), Elements(plan.navoid.Contents());
            Closed(ms, avoid, navoid) && forall a, n :: Closed(ms, a, n) ==> avoid <= a && navoid <= n
    ensures NoRepeats(plan.avoid.Contents()) && NoRepeats(plan.navoid.Contents())
  {
    hide PlanOk, NoRepeats, MessageSeeded, Seeded, Saturated, Universe, Fits;
    plan := new Plan(ms);
    plan.Seed();
    ghost var av, nv := plan.avoid.Contents(), plan.navoid.Contents();
    plan.Saturate();
    SeedsStay(ms, av, nv, plan.avoid.Contents(), plan.navoid.Contents());
    AllSeeded(ms, plan.avoid.Contents(), plan.navoid.Contents());
  }

  // --------------------------------------------------------- classification

  /** A field as declared: supported or not, a value array, or a message. */
  datatype Raw = Supported | Unsupported | RawArray(ctype: string) | RawMessage(target: Option<nat>, repeated: bool)

  /** The plan's view of a message while the list is built. */
  datatype Planned = Planned(message: PlanMessage, rep: bool, kids: bool)

  /** What contracts need of a field: a message field wants an earlier message
      with contracts, a repeated one also no message fields in it. */
  predicate Taken(done: seq<Planned>, f: Raw) {
    match f
    case Supported => true
    case Unsupported => false
    case RawArray(_) => true
    case RawMessage(target, repeated) =>
      && target.Some? && target.value < |done| && done[target.value].message.ok
      && (repeated ==> !done[target.value].rep && !done[target.value].kids)
  }

  /** `classify`: the field's kind, if contracts support it. Message fields need
      an earlier message with contracts; an element of a repeated one must have
      no message fields of its own. */
  method Classify(done: seq<Planned>, f: Raw) returns (r: Option<PlanField>)
    ensures r.Some? <==>
              && !f.Unsupported?
              && (f.RawMessage? ==>
                    && f.target.Some? && f.target.value < |done| && done[f.target.value].message.ok
                    && (f.repeated ==> !done[f.target.value].rep && !done[f.target.value].kids))
    ensures r.Some? && r.value.ChildField? ==>
              && r.value.child < |done| && done[r.value.child].message.ok
              && (r.value.repeated ==> !done[r.value.child].rep && !done[r.value.child].kids)
              && f == RawMessage(Some(r.value.child), r.value.repeated)
    ensures f.Supported? ==> r == Some(Plain)
    ensures f.RawArray? ==> r == Some(ArrayField(f.ctype))
    ensures f.Unsupported? ==> r == None
    ensures f.RawMessage? && r.Some? ==> r == Some(ChildField(f.target.value, f.repeated))
  {
    match f
    case Supported =>
      return Some(Plain);
    case Unsupported =>
      return None;
    case RawArray(s) =>
      return Some(ArrayField(s));
    case RawMessage(target, repeated) =>
      if target.None? || target.value >= |done| || !done[target.value].message.ok {
        return None;
      }
      if repeated && (done[target.value].rep || done[target.value].kids) {
        return None;
      }
      return Some(ChildField(target.value, repeated));
  }

  predicate Fine(done: seq<Planned>) {
    forall i, a :: 0 <= i < |done| && done[i].message.ok && 0 <= a < |done[i].message.fields| && done[i].message.fields[a].ChildField? ==>
      ChildFine(done, i, done[i].message.fields[a])
  }

  predicate ChildFine(done: seq<Planned>, i: nat, f: PlanField) {
    f.ChildField? ==>
      f.child < i && f.child < |done| && done[f.child].message.ok && (f.repeated ==> !done[f.child].kids)
  }

  /** The elements of a repeated message field have no message fields, so no
      repeated message sits under another. */
  predicate ElementsAreLeaves(ms: Messages) {
    forall i, a :: 0 <= i < |ms| && ms[i].ok && 0 <= a < |ms[i].fields| && ms[i].fields[a].ChildField? && ms[i].fields[a].repeated ==>
      ms[i].fields[a].child < |ms| && Childless(ms[ms[i].fields[a].child].fields)
  }

  predicate Childless(fields: seq<PlanField>) {
    forall b :: 0 <= b < |fields| ==> !fields[b].ChildField?
  }

  function Bare(done: seq<Planned>): (ms: Messages)
    ensures |ms| == |done|
  {
    seq(|done|, i requires 0 <= i < |done| => done[i].message)
  }

  /** Message `i` gets contracts, from the declarations alone, exactly when it
      is within the limits, all its fields are supported, its message fields
      have types that come earlier and get contracts, the element types of
      repeated ones have no message fields, and a repeated message field is its
      only message field. */
  ghost predicate Eligible(raw: seq<seq<Raw>>, light: seq<bool>, ms: Messages, i: nat)
    requires i < |raw| == |light| == |ms|
  {
    ms[i].ok <==>
      && light[i]
      && (forall a :: 0 <= a < |raw[i]| ==> !raw[i][a].Unsupported?)
      && (forall a :: 0 <= a < |raw[i]| && raw[i][a].RawMessage? ==>
           && raw[i][a].target.Some? && raw[i][a].target.value < i && ms[raw[i][a].target.value].ok
           && (raw[i][a].repeated ==>
                 forall b :: 0 <= b < |raw[raw[i][a].target.value]| ==> !raw[raw[i][a].target.value][b].RawMessage?))
      && (forall a, b :: 0 <= a < |raw[i]| && 0 <= b < |raw[i]| && a != b && raw[i][a].RawMessage? && raw[i][a].repeated ==>
           !raw[i][b].RawMessage?)
  }

  /** A message with contracts keeps its fields, each as declared. */
  ghost predicate AsDeclared(raw: seq<Raw>, fields: seq<PlanField>) {
    |fields| == |raw| && forall a :: 0 <= a < |raw| ==> DeclaredAs(raw[a], fields[a])
  }

  predicate DeclaredAs(r: Raw, f: PlanField) {
    match f
    case Plain => r == Supported
    case ArrayField(s) => r == RawArray(s)
    case ChildField(c, repeated) => r == RawMessage(Some(c), repeated)
  }

  predicate MessageFree(raw: seq<Raw>) {
    forall b :: 0 <= b < |raw| ==> !raw[b].RawMessage?
  }

  /** No message field stands beside a repeated one. */
  predicate RepeatedAlone(raw: seq<Raw>) {
    forall a, b :: 0 <= a < |raw| && 0 <= b < |raw| && a != b && raw[a].RawMessage? && raw[a].repeated ==> !raw[b].RawMessage?
  }

  predicate AllTaken(done: seq<Planned>, raw: seq<Raw>, n: nat) {
    forall a :: 0 <= a < n && a < |raw| ==> Taken(done, raw[a])
  }

  /** What is remembered of a message with contracts fits its declaration. */
  ghost predicate Remembered(raw: seq<Raw>, m: Planned) {
    AsDeclared(raw, m.message.fields) && (m.rep ==> m.kids) && (m.kids <==> !MessageFree(raw))
  }

  /** Which messages get contracts, in order. `light` stands for the limits on
      weight, cost and field count. */
  method ClassifyAll(raw: seq<seq<Raw>>, light: seq<bool>) returns (done: seq<Planned>)
    requires |light| == |raw|
    ensures |done| == |raw| && Fine(done) && PlanOk(Bare(done)) && ElementsAreLeaves(Bare(done))
    ensures forall i :: 0 <= i < |raw| ==> Eligible(raw, light, Bare(done), i)
    ensures forall i :: 0 <= i < |raw| && done[i].message.ok ==> AsDeclared(raw[i], done[i].message.fields)
    ensures forall i :: 0 <= i < |done| && done[i].message.ok ==> light[i] && |done[i].message.fields| == |raw[i]|
  {
    hide RepeatedAlone, AsDeclared, AllTaken, MessageFree, Eligible, Fine, PlanOk, ElementsAreLeaves;
    done := [];
    FineNone();
    for i := 0 to |raw|
      invariant |done| == i && Fine(done)
      invariant forall k :: 0 <= k < i && done[k].message.ok ==> Remembered(raw[k], done[k])
      invariant forall k :: 0 <= k < i ==>
                  (done[k].message.ok <==> light[k] && AllTaken(done[..k], raw[k], |raw[k]|) && RepeatedAlone(raw[k]))
      invariant forall k :: 0 <= k < i && done[k].message.ok && !done[k].kids ==> Childless(done[k].message.fields)
    {
      var m := ClassifyMessage(done, raw[i], light[i]);
      ghost var was := done;
      done := done + [m];
      forall k | 0 <= k <= i
        ensures done[..k] == was[..k]
      {
      }
      assert was[..i] == was;
      FineMore(was, m);
    }
    forall i | 0 <= i < |raw|
      ensures Eligible(raw, light, Bare(done), i)
      ensures done[i].message.ok ==> light[i] && |done[i].message.fields| == |raw[i]|
    {
      EligibleAt(raw, light, done, i);
    }
    FineOk(done);
  }

  lemma {:induction false} FineNone()
    ensures Fine([])
  {
  }

  lemma {:induction false} FineMore(was: seq<Planned>, m: Planned)
    requires Fine(was)
    requires m.message.ok ==> forall a :: 0 <= a < |m.message.fields| ==> ChildFine(was, |was|, m.message.fields[a])
    ensures Fine(was + [m])
  {
    var done := was + [m];
    forall k, a | 0 <= k < |done| && done[k].message.ok && 0 <= a < |done[k].message.fields| && done[k].message.fields[a].ChildField?
      ensures ChildFine(done, k, done[k].message.fields[a])
    {
      assert ChildFine(was, k, done[k].message.fields[a]);
    }
  }

  lemma {:induction false} FineOk(done: seq<Planned>)
    requires Fine(done)
    requires forall k :: 0 <= k < |done| && done[k].message.ok && !done[k].kids ==> Childless(done[k].message.fields)
    ensures PlanOk(Bare(done)) && ElementsAreLeaves(Bare(done))
  {
    forall i, a | 0 <= i < |done| && done[i].message.ok && 0 <= a < |done[i].message.fields| && done[i].message.fields[a].ChildField?
      ensures done[i].message.fields[a].child < i && done[done[i].message.fields[a].child].message.ok
      ensures done[i].message.fields[a].repeated ==> Childless(done[done[i].message.fields[a].child].message.fields)
    {
      assert ChildFine(done, i, done[i].message.fields[a]);
    }
  }

  lemma {:induction false} EligibleAt(raw: seq<seq<Raw>>, light: seq<bool>, done: seq<Planned>, i: nat)
    requires i < |raw| == |light| == |done|
    requires forall k :: 0 <= k < |raw| && done[k].message.ok ==> Remembered(raw[k], done[k])
    requires done[i].message.ok <==> light[i] && AllTaken(done[..i], raw[i], |raw[i]|) && RepeatedAlone(raw[i])
    ensures Eligible(raw, light, Bare(done), i)
    ensures done[i].message.ok ==> light[i] && |done[i].message.fields| == |raw[i]|
  {
    hide AsDeclared;
    if done[i].message.ok {
      AsMany(raw[i], done[i].message.fields);
    }
    forall a | 0 <= a < |raw[i]|
      ensures Taken(done[..i], raw[i][a]) <==>
                && !raw[i][a].Unsupported?
                && (raw[i][a].RawMessage? ==>
                      && raw[i][a].target.Some? && raw[i][a].target.value < i && done[raw[i][a].target.value].message.ok
                      && (raw[i][a].repeated ==> MessageFree(raw[raw[i][a].target.value])))
    {
      if raw[i][a].RawMessage? && raw[i][a].target.Some? && raw[i][a].target.value < i && done[raw[i][a].target.value].message.ok {
        assert Remembered(raw[raw[i][a].target.value], done[raw[i][a].target.value]);
      }
    }
  }

  lemma {:induction false} AsMany(raw: seq<Raw>, fields: seq<PlanField>)
    requires AsDeclared(raw, fields)
    ensures |fields| == |raw|
  {
  }

  method ClassifyMessage(done: seq<Planned>, raw: seq<Raw>, light: bool) returns (m: Planned)
    ensures m.message.ok <==> light && AllTaken(done, raw, |raw|) && RepeatedAlone(raw)
    ensures m.message.ok ==> Remembered(raw, m)
    ensures m.message.ok ==>
              (m.rep <==>
                exists a :: 0 <= a < |raw| && raw[a].RawMessage? && raw[a].target.Some? && raw[a].target.value < |done| &&
                            (raw[a].repeated || done[raw[a].target.value].rep))
    ensures m.message.ok ==> light && |m.message.fields| == |raw|
    ensures m.message.ok ==> forall a :: 0 <= a < |m.message.fields| ==> ChildFine(done, |done|, m.message.fields[a])
    ensures m.message.ok && !m.kids ==> Childless(m.message.fields)
  {
    var fields: seq<PlanField> := [];
    for j := 0 to |raw|
      invariant |fields| == j && forall a :: 0 <= a < j ==> ChildFine(done, |done|, fields[a])
      invariant forall a :: 0 <= a < j && fields[a].ChildField? ==> fields[a].child < |done|
      invariant AllTaken(done, raw, j) && forall a :: 0 <= a < j ==> DeclaredAs(raw[a], fields[a])
    {
      var f := Classify(done, raw[j]);
      if f.None? {
        assert !Taken(done, raw[j]);
        return Planned(PlanMessage(false, fields), false, false);
      }
      fields := fields + [f.value];
    }
    var rep, kids, repSlot, slots := false, false, false, 0;
    ghost var first, second, repAt, deep := 0, 0, 0, 0;
    for j := 0 to |fields|
      invariant kids <==> slots > 0
      invariant slots == 0 ==> forall b :: 0 <= b < j ==> !fields[b].ChildField?
      invariant slots > 0 ==> first < j && fields[first].ChildField?
      invariant slots == 1 ==> forall b :: 0 <= b < j && fields[b].ChildField? ==> b == first
      invariant slots > 1 ==> first < second < j && fields[second].ChildField?
      invariant repSlot ==> repAt < j && fields[repAt].ChildField? && fields[repAt].repeated
      invariant !repSlot ==> forall b :: 0 <= b < j && fields[b].ChildField? ==> !fields[b].repeated
      invariant rep ==> deep < j && fields[deep].ChildField? && (fields[deep].repeated || done[fields[deep].child].rep)
      invariant !rep ==> forall b :: 0 <= b < j && fields[b].ChildField? ==> !fields[b].repeated && !done[fields[b].child].rep
    {
      if fields[j].ChildField? {
        if slots == 0 {
          first := j;
        } else if slots == 1 {
          second := j;
        }
        kids, slots := true, slots + 1;
        if fields[j].repeated {
          repSlot, rep := true, true;
          repAt, deep := j, j;
        }
        if done[fields[j].child].rep {
          rep := true;
          deep := j;
        }
      }
    }
    var ok := light && !(repSlot && slots > 1);
    assert forall a :: 0 <= a < |raw| ==> DeclaredAs(raw[a], fields[a]);
    return Planned(PlanMessage(ok, fields), rep, kids);
  }
}
