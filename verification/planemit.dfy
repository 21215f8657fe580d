// Emission of the plan's predicates, message by message: every predicate that a
// definition or a validity clause names is already out.
module PlanEmission {
  import opened Options
  import opened Graphs
  import opened EncodePlan

  /** The message with which a pair's predicate is emitted: the later of the two. */
  function Pos(p: Pair): nat {
    if p.t.MessageTarget? && p.t.msg > p.x then p.t.msg else p.x
  }

  /** A finished plan: closed lists of pairs of messages with contracts. */
  ghost predicate Finished(ms: Messages, av: seq<Pair>, nv: seq<Pair>) {
    && PlanOk(ms) && AllFit(ms, av) && AllFit(ms, nv) && (forall i :: 0 <= i < |nv| ==> nv[i].t.MessageTarget?)
    && Closed(ms, Elements(av), Elements(nv))
  }

  /** What has been emitted: every pair that comes before message `z`, and of
      `z` itself those with a first part below `x`, or equal to it and an index below `i`. */
  predicate Reached(pairs: seq<Pair>, named: seq<bool>, z: nat, x: nat, i: nat) {
    |named| == |pairs| &&
    forall k :: 0 <= k < |pairs| ==>
      (named[k] <==> Pos(pairs[k]) < z || (Pos(pairs[k]) == z && (pairs[k].x < x || (pairs[k].x == x && k < i))))
  }

  lemma {:induction false} IsNamed(pairs: seq<Pair>, named: seq<bool>, z: nat, x: nat, i: nat, p: Pair)
    requires Reached(pairs, named, z, x, i) && p in pairs && (Pos(p) < z || (Pos(p) == z && p.x < x))
    ensures HasName(pairs, named, p)
  {
  }

  predicate HasName(pairs: seq<Pair>, named: seq<bool>, p: Pair) {
    |named| == |pairs| && exists k :: 0 <= k < |pairs| && pairs[k] == p && named[k]
  }

  /** The emitted text, as the definitions and mentions of predicates in it. */
  datatype Event = Define(navoid: bool, p: Pair) | Mention(navoid: bool, p: Pair)

  /** No predicate is mentioned before it is defined. */
  predicate Ordered(log: seq<Event>) {
    forall i :: 0 <= i < |log| && log[i].Mention? ==> Define(log[i].navoid, log[i].p) in log[..i]
  }

  lemma {:induction false} OrderedMore(log: seq<Event>, e: Event)
    requires Ordered(log) && (e.Mention? ==> Define(e.navoid, e.p) in log)
    ensures Ordered(log + [e])
  {
    var more := log + [e];
    forall i | 0 <= i < |more| && more[i].Mention?
      ensures Define(more[i].navoid, more[i].p) in more[..i]
    {
      assert i < |log| ==> more[..i] == log[..i];
      assert more[..|log|] == log;
    }
  }

  /** The names are those of the definitions that are out. */
  predicate Tracks(navoid: bool, pairs: seq<Pair>, named: seq<bool>, log: seq<Event>) {
    |named| == |pairs| && forall k :: 0 <= k < |pairs| ==> (named[k] <==> Define(navoid, pairs[k]) in log)
  }

  lemma {:induction false} TracksMore(navoid: bool, pairs: seq<Pair>, named: seq<bool>, log: seq<Event>, e: Event)
    requires Tracks(navoid, pairs, named, log)
    requires e.Mention? || e.navoid != navoid
    ensures Tracks(navoid, pairs, named, log + [e])
  {
  }

  lemma {:induction false} TracksDefined(navoid: bool, pairs: seq<Pair>, named: seq<bool>, log: seq<Event>, k: nat)
    requires Tracks(navoid, pairs, named, log) && NoRepeats(pairs) && k < |pairs|
    ensures Tracks(navoid, pairs, named[k := true], log + [Define(navoid, pairs[k])])
  {
  }

  lemma {:induction false} NamedIsDefined(navoid: bool, pairs: seq<Pair>, named: seq<bool>, log: seq<Event>, p: Pair)
    requires Tracks(navoid, pairs, named, log) && HasName(pairs, named, p)
    ensures Define(navoid, p) in log
  {
  }

  // ------------------------------------------------- what each piece mentions

  /** The definition of avoid pair `p` mentions the pairs of the first `n` fields' children. */
  function AvoidMentions(fields: seq<PlanField>, n: nat, t: Target): seq<Event>
    requires n <= |fields|
  {
    if n == 0 then []
    else AvoidMentions(fields, n - 1, t) + if fields[n - 1].ChildField? then [Mention(false, Pair(fields[n - 1].child, t))] else []
  }

  /** The definition of navoid pair (x, t) after its first clause: the arrays
      of `x` avoided by `t`, and the pairs of the children. */
  function NavoidMentions(fields: seq<PlanField>, n: nat, t: nat): seq<Event>
    requires n <= |fields|
  {
    if n == 0 then []
    else
      NavoidMentions(fields, n - 1, t) +
      match fields[n - 1]
      case Plain => []
      case ArrayField(s) => [Mention(false, Pair(t, ArrayTarget(s)))]
      case ChildField(c, _) => [Mention(true, Pair(c, MessageTarget(t)))]
  }

  /** A child's clauses: it avoids the arrays among the first `n` fields. */
  function ArrayMentions(fields: seq<PlanField>, n: nat, c: nat): seq<Event>
    requires n <= |fields|
  {
    if n == 0 then []
    else ArrayMentions(fields, n - 1, c) + if fields[n - 1].ArrayField? then [Mention(false, Pair(c, ArrayTarget(fields[n - 1].ctype)))] else []
  }

  /** The children among the first `n` fields with the message and its arrays. */
  function ChildMentions(fields: seq<PlanField>, n: nat, z: nat): seq<Event>
    requires n <= |fields|
  {
    if n == 0 then []
    else
      ChildMentions(fields, n - 1, z) +
      if fields[n - 1].ChildField? then
        [Mention(false, Pair(fields[n - 1].child, MessageTarget(z)))] + ArrayMentions(fields, |fields|, fields[n - 1].child)
      else []
  }

  /** Field `i` against the fields from `i` up to `n`. */
  function LaterMentions(fields: seq<PlanField>, i: nat, n: nat): seq<Event>
    requires i <= n <= |fields| && i < |fields|
  {
    if n == i || !fields[i].ChildField? then []
    else
      LaterMentions(fields, i, n - 1) +
      if fields[n - 1].ChildField? && (n - 1 > i || fields[i].repeated) then
        [Mention(true, Pair(fields[i].child, MessageTarget(fields[n - 1].child)))]
      else []
  }

  function SiblingMentions(fields: seq<PlanField>, n: nat): seq<Event>
    requires n <= |fields|
  {
    if n == 0 then [] else SiblingMentions(fields, n - 1) + LaterMentions(fields, n - 1, |fields|)
  }

  class Emitter {
    const ms: Messages
    const av: seq<Pair>
    const nv: seq<Pair>
    const avNamed: array<bool>
    const nvNamed: array<bool>
    var log: seq<Event>

    ghost predicate Valid()
      reads this, avNamed, nvNamed
    {
      && Finished(ms, av, nv) && avNamed != nvNamed && avNamed.Length == |av| && nvNamed.Length == |nv|
      && Ordered(log) && Tracks(false, av, avNamed[..], log) && Tracks(true, nv, nvNamed[..], log)
    }

    /** Avoid pairs reached up to (z, x, i), navoid pairs up to (z', x', i'). */
    ghost predicate At(z: nat, x: nat, i: nat, z': nat, x': nat, i': nat)
      reads this, avNamed, nvNamed
    {
      Valid() && Reached(av, avNamed[..], z, x, i) && Reached(nv, nvNamed[..], z', x', i')
    }

    /** Every definition that is out is there in full. */
    ghost predicate AllOut()
      reads this, avNamed, nvNamed
    {
      Out(false, ms, av, avNamed[..], log) && Out(true, ms, nv, nvNamed[..], log)
    }

    constructor (ms: Messages, av: seq<Pair>, nv: seq<Pair>)
      requires Finished(ms, av, nv)
      ensures At(0, 0, 0, 0, 0, 0) && AllOut() && this.ms == ms && this.av == av && this.nv == nv && log == []
      ensures fresh(avNamed) && fresh(nvNamed)
    {
      this.ms, this.av, this.nv, log := ms, av, nv, [];
      avNamed := new bool[|av|](_ => false);
      nvNamed := new bool[|nv|](_ => false);
    }

    /** `avoid_name`: the name of the first pair that matches, if it has one. */
    method AvoidName(p: Pair) returns (found: bool)
      requires Valid()
      ensures found <==> HasName(av, avNamed[..], p)
    {
      hide Finished, Ordered, Tracks;
      for i := 0 to |av|
        invariant p !in av[..i]
      {
        if av[i] == p {
          OnlyOne(ms, av, nv, i);
          return avNamed[i];
        }
      }
      return false;
    }

    method NavoidName(p: Pair) returns (found: bool)
      requires Valid()
      ensures found <==> HasName(nv, nvNamed[..], p)
    {
      hide Finished, Ordered, Tracks;
      for i := 0 to |nv|
        invariant p !in nv[..i]
      {
        if nv[i] == p {
          OnlyOne(ms, av, nv, i);
          return nvNamed[i];
        }
      }
      return false;
    }

    /** Looks a predicate up and writes its name; fails if there is none. */
    method MentionPair(navoid: bool, p: Pair) returns (ok: bool)
      requires Valid()
      modifies this`log
      ensures Valid()
      ensures ok <==> if navoid then HasName(nv, nvNamed[..], p) else HasName(av, avNamed[..], p)
      ensures log == if ok then old(log) + [Mention(navoid, p)] else old(log)
    {
      hide Finished, Ordered, Tracks, HasName;
      if navoid {
        ok := NavoidName(p);
      } else {
        ok := AvoidName(p);
      }
      if ok {
        if navoid {
          NamedIsDefined(true, nv, nvNamed[..], log, p);
        } else {
          NamedIsDefined(false, av, avNamed[..], log, p);
        }
        OrderedMore(log, Mention(navoid, p));
        TracksMore(false, av, avNamed[..], log, Mention(navoid, p));
        TracksMore(true, nv, nvNamed[..], log, Mention(navoid, p));
        log := log + [Mention(navoid, p)];
      }
    }

    method DefineAvoid(k: nat)
      requires Valid() && k < |av|
      modifies this`log, avNamed
      ensures Valid() && avNamed[..] == old(avNamed[..])[k := true] && log == old(log) + [Define(false, av[k])]
    {
      hide Finished, Ordered, Tracks;
      Unrepeated(ms, av, nv);
      OrderedMore(log, Define(false, av[k]));
      TracksDefined(false, av, avNamed[..], log, k);
      TracksMore(true, nv, nvNamed[..], log, Define(false, av[k]));
      ghost var was, other := avNamed[..], nvNamed[..];
      avNamed[k] := true;
      assert avNamed[..] == was[k := true] && nvNamed[..] == other;
      log := log + [Define(false, av[k])];
    }

    method DefineNavoid(k: nat)
      requires Valid() && k < |nv|
      modifies this`log, nvNamed
      ensures Valid() && nvNamed[..] == old(nvNamed[..])[k := true] && log == old(log) + [Define(true, nv[k])]
    {
      hide Finished, Ordered, Tracks;
      Unrepeated(ms, av, nv);
      OrderedMore(log, Define(true, nv[k]));
      TracksDefined(true, nv, nvNamed[..], log, k);
      TracksMore(false, av, avNamed[..], log, Define(true, nv[k]));
      ghost var was, other := nvNamed[..], avNamed[..];
      nvNamed[k] := true;
      assert nvNamed[..] == was[k := true] && avNamed[..] == other;
      log := log + [Define(true, nv[k])];
    }

    /** `emit_avoid`: defines pair `k` by those of the children. */
    method EmitAvoid(k: nat, ghost z': nat) returns (ok: bool)
      requires k < |av| && At(Pos(av[k]), av[k].x, k, z', 0, 0)
      modifies this`log, avNamed
      ensures ok && At(Pos(av[k]), av[k].x, k + 1, z', 0, 0) && avNamed[..] == old(avNamed[..])[k := true]
      ensures av[k].x < |ms|
      ensures var fields := ms[av[k].x].fields;
              log == old(log) + [Define(false, av[k])] + AvoidMentions(fields, |fields|, av[k].t)
    {
      hide Finished, HasName, Ordered, Tracks, Reached;
      FitsAt(ms, av, nv, av[k]);
      var p := av[k];
      ghost var z := Pos(p);
      var fields := ms[p.x].fields;
      ReachNext(av, avNamed[..], z, p.x, k);
      DefineAvoid(k);
      ghost var start := log;
      assert start == start + [];
      for a := 0 to |fields|
        invariant At(z, p.x, k + 1, z', 0, 0) && log == start + AvoidMentions(fields, a, p.t)
        invariant avNamed[..] == old(avNamed[..])[k := true]
      {
        if !fields[a].ChildField? {
          continue;
        }
        ChildPair(ms, av, nv, p, a);
        IsNamed(av, avNamed[..], z, p.x, k + 1, Pair(fields[a].child, p.t));
        ok := MentionPair(false, Pair(fields[a].child, p.t));
        if !ok {
          return;
        }
      }
      return true;
    }

    /** `emit_navoid`: defines pair `k` by avoidance back and the children's pairs. */
    method EmitNavoid(k: nat) returns (ok: bool)
      requires k < |nv| && At(Pos(nv[k]) + 1, 0, 0, Pos(nv[k]), nv[k].x, k)
      modifies this`log, nvNamed
      ensures ok && At(Pos(nv[k]) + 1, 0, 0, Pos(nv[k]), nv[k].x, k + 1) && nvNamed[..] == old(nvNamed[..])[k := true]
      ensures nv[k].x < |ms| && nv[k].t.MessageTarget?
      ensures var fields, t := ms[nv[k].x].fields, nv[k].t.msg;
              log == old(log) + [Define(true, nv[k]), Mention(false, Pair(t, MessageTarget(nv[k].x)))] +
                     NavoidMentions(fields, |fields|, t)
    {
      hide Finished, HasName, Ordered, Tracks, Reached;
      FitsAt(ms, av, nv, nv[k]);
      var p := nv[k];
      ghost var z := Pos(p);
      var t := p.t.msg;
      ReachNext(nv, nvNamed[..], z, p.x, k);
      DefineNavoid(k);
      BackPair(ms, av, nv, p);
      IsNamed(av, avNamed[..], z + 1, 0, 0, Pair(t, MessageTarget(p.x)));
      ok := MentionPair(false, Pair(t, MessageTarget(p.x)));
      if !ok {
        return;
      }
      ok := NavoidClauses(k);
      if ok {
        assert old(log) + [Define(true, p)] + [Mention(false, Pair(t, MessageTarget(p.x)))] ==
               old(log) + [Define(true, p), Mention(false, Pair(t, MessageTarget(p.x)))];
      }
    }

    /** The clauses of navoid pair `k` on the fields of its message. */
    method NavoidClauses(k: nat) returns (ok: bool)
      requires k < |nv| && nv[k].t.MessageTarget? && At(Pos(nv[k]) + 1, 0, 0, Pos(nv[k]), nv[k].x, k + 1)
      modifies this`log
      ensures ok && At(Pos(nv[k]) + 1, 0, 0, Pos(nv[k]), nv[k].x, k + 1)
      ensures nv[k].x < |ms|
      ensures var fields, t := ms[nv[k].x].fields, nv[k].t.msg; log == old(log) + NavoidMentions(fields, |fields|, t)
    {
      hide Finished, HasName, Ordered, Tracks, Reached;
      FitsAt(ms, av, nv, nv[k]);
      var p := nv[k];
      ghost var z := Pos(p);
      var fields, t := ms[p.x].fields, p.t.msg;
      assert log == log + [];
      for a := 0 to |fields|
        invariant At(z + 1, 0, 0, z, p.x, k + 1) && log == old(log) + NavoidMentions(fields, a, t)
      {
        if fields[a].ArrayField? {
          ArrayPair(ms, av, nv, p, a);
          IsNamed(av, avNamed[..], z + 1, 0, 0, Pair(t, ArrayTarget(fields[a].ctype)));
          ok := MentionPair(false, Pair(t, ArrayTarget(fields[a].ctype)));
          if !ok {
            return;
          }
        } else if fields[a].ChildField? {
          ChildNPair(ms, av, nv, p, a);
          IsNamed(nv, nvNamed[..], z, p.x, k + 1, Pair(fields[a].child, p.t));
          ok := MentionPair(true, Pair(fields[a].child, p.t));
          if !ok {
            return;
          }
        }
      }
      return true;
    }

    /** `emit_pairs`: the pairs of message `z`, avoidance first, by their first part. */
    method EmitPairs(z: nat) returns (ok: bool)
      requires At(z, 0, 0, z, 0, 0) && AllOut()
      modifies this`log, avNamed, nvNamed
      ensures ok && At(z + 1, 0, 0, z + 1, 0, 0) && AllOut() && old(log) <= log
    {
      hide Finished, Ordered, Tracks, Reached, Out;
      for x := 0 to z + 1
        invariant At(z, x, 0, z, 0, 0) && AllOut() && old(log) <= log
      {
        for i := 0 to |av|
          invariant At(z, x, i, z, 0, 0) && AllOut() && old(log) <= log
        {
          if av[i].x != x || Pos(av[i]) != z {
            ReachSkip(av, avNamed[..], z, x, i);
            continue;
          }
          ghost var was, named := log, avNamed[..];
          ok := EmitAvoid(i, z);
          if !ok {
            return;
          }
          AvoidOut(ms, av, named, avNamed[..], was, log, i);
          OutStays(true, ms, nv, nvNamed[..], was, log);
        }
        ReachX(av, avNamed[..], z, x);
      }
      ReachZ(av, avNamed[..], z);
      for x := 0 to z + 1
        invariant At(z + 1, 0, 0, z, x, 0) && AllOut() && old(log) <= log
      {
        for i := 0 to |nv|
          invariant At(z + 1, 0, 0, z, x, i) && AllOut() && old(log) <= log
        {
          if nv[i].x != x || Pos(nv[i]) != z {
            ReachSkip(nv, nvNamed[..], z, x, i);
            continue;
          }
          ghost var was, named := log, nvNamed[..];
          ok := EmitNavoid(i);
          if !ok {
            return;
          }
          NavoidOut(ms, nv, named, nvNamed[..], was, log, i);
          OutStays(false, ms, av, avNamed[..], was, log);
        }
        ReachX(nv, nvNamed[..], z, x);
      }
      ReachZ(nv, nvNamed[..], z);
      return true;
    }

    /** The names `valid_clauses` looks up for message `z`. */
    method ValidClauses(z: nat) returns (ok: bool)
      requires At(z + 1, 0, 0, z + 1, 0, 0) && z < |ms| && ms[z].ok
      modifies this`log
      ensures ok && At(z + 1, 0, 0, z + 1, 0, 0)
      ensures var fields := ms[z].fields;
              log == old(log) + ChildMentions(fields, |fields|, z) + SiblingMentions(fields, |fields|)
    {
      hide Finished, Ordered, Tracks, Reached;
      var fields := ms[z].fields;
      assert log == log + [];
      for i := 0 to |fields|
        invariant At(z + 1, 0, 0, z + 1, 0, 0) && log == old(log) + ChildMentions(fields, i, z)
      {
        if !fields[i].ChildField? {
          continue;
        }
        ok := ChildClauses(z, i);
        if !ok {
          return;
        }
      }
      ghost var mid := log;
      assert log == log + [];
      for i := 0 to |fields|
        invariant At(z + 1, 0, 0, z + 1, 0, 0) && log == mid + SiblingMentions(fields, i)
      {
        if !fields[i].ChildField? {
          assert LaterMentions(fields, i, |fields|) == [];
          continue;
        }
        ok := SiblingClauses(z, i);
        if !ok {
          return;
        }
      }
      return true;
    }

    /** The clauses on message field `i`: its subtree avoids the message and its arrays. */
    method ChildClauses(z: nat, i: nat) returns (ok: bool)
      requires At(z + 1, 0, 0, z + 1, 0, 0) && z < |ms| && ms[z].ok && i < |ms[z].fields| && ms[z].fields[i].ChildField?
      modifies this`log
      ensures ok && At(z + 1, 0, 0, z + 1, 0, 0)
      ensures var fields, c := ms[z].fields, ms[z].fields[i].child;
              log == old(log) + ([Mention(false, Pair(c, MessageTarget(z)))] + ArrayMentions(fields, |fields|, c))
    {
      hide Finished, HasName, Ordered, Tracks, Reached;
      var fields, c := ms[z].fields, ms[z].fields[i].child;
      OwnPairs(ms, av, nv, z, i, i);
      IsNamed(av, avNamed[..], z + 1, 0, 0, Pair(c, MessageTarget(z)));
      ok := MentionPair(false, Pair(c, MessageTarget(z)));
      if !ok {
        return;
      }
      ghost var start := log;
      assert start == start + [];
      for j := 0 to |fields|
        invariant At(z + 1, 0, 0, z + 1, 0, 0) && log == start + ArrayMentions(fields, j, c)
      {
        if !fields[j].ArrayField? {
          continue;
        }
        OwnPairs(ms, av, nv, z, i, j);
        IsNamed(av, avNamed[..], z + 1, 0, 0, Pair(c, ArrayTarget(fields[j].ctype)));
        ok := MentionPair(false, Pair(c, ArrayTarget(fields[j].ctype)));
        if !ok {
          return;
        }
      }
      return true;
    }

    /** Field `i` against itself, if repeated, and the message fields after it. */
    method SiblingClauses(z: nat, i: nat) returns (ok: bool)
      requires At(z + 1, 0, 0, z + 1, 0, 0) && z < |ms| && ms[z].ok && i < |ms[z].fields| && ms[z].fields[i].ChildField?
      modifies this`log
      ensures ok && At(z + 1, 0, 0, z + 1, 0, 0)
      ensures log == old(log) + LaterMentions(ms[z].fields, i, |ms[z].fields|)
    {
      hide Finished, HasName, Ordered, Tracks, Reached;
      var fields := ms[z].fields;
      assert log == log + [];
      for j := i to |fields|
        invariant At(z + 1, 0, 0, z + 1, 0, 0) && log == old(log) + LaterMentions(fields, i, j)
      {
        if !fields[j].ChildField? || (j == i && !fields[i].repeated) {
          continue;
        }
        SiblingPair(ms, av, nv, z, i, j);
        IsNamed(nv, nvNamed[..], z + 1, 0, 0, Pair(fields[i].child, MessageTarget(fields[j].child)));
        ok := MentionPair(true, Pair(fields[i].child, MessageTarget(fields[j].child)));
        if !ok {
          return;
        }
      }
      return true;
    }

    /** All messages with contracts in order: no lookup comes back empty, no
        predicate is mentioned before its definition, and all are defined. */
    method EmitAll() returns (ok: bool)
      requires At(0, 0, 0, 0, 0, 0) && AllOut()
      modifies this`log, avNamed, nvNamed
      ensures ok && Ordered(log)
      ensures forall p :: p in av ==> Includes(log, Text(false, ms, p))
      ensures forall p :: p in nv ==> Includes(log, Text(true, ms, p))
      ensures forall z :: 0 <= z < |ms| && ms[z].ok ==> Includes(log, Clauses(ms, z))
      ensures PairsWritten(ms, av, nv, log) && ClausesWritten(ms, log)
    {
      hide Finished, Ordered, Tracks, Reached, Includes, Clauses, Out, Text, PairsWritten, ClausesWritten;
      for z := 0 to |ms|
        invariant At(z, 0, 0, z, 0, 0) && AllOut()
        invariant forall y :: 0 <= y < z && ms[y].ok ==> Includes(log, Clauses(ms, y))
      {
        ghost var was := log;
        if !ms[z].ok {
          NoPairs(ms, av, nv, avNamed[..], nvNamed[..], z);
          continue;
        }
        ok := EmitPairs(z);
        if !ok {
          return;
        }
        ghost var mid := log;
        ok := ValidClauses(z);
        if !ok {
          return;
        }
        NowIncluded(ms, z, was, mid, log);
        OutStays(false, ms, av, avNamed[..], mid, log);
        OutStays(true, ms, nv, nvNamed[..], mid, log);
      }
      AllNamed(ms, av, nv, avNamed[..], nvNamed[..], log);
      AllWritten(ms, av, nv, log);
      return true;
    }
  }

  // ------------------------------------------------- the emitted text, clause by clause

  /** `e` is part of the definition of pair `p`: it follows the definition's
      head, and no other definition begins in between. */
  ghost predicate InDefinition(log: seq<Event>, navoid: bool, p: Pair, e: Event) {
    exists i, j :: 0 <= i < j < |log| && log[i] == Define(navoid, p) && log[j] == e && Uncut(log, i, j)
  }

  predicate Uncut(log: seq<Event>, i: nat, j: nat) {
    j < |log| && forall m :: i < m < j ==> log[m].Mention?
  }

  /** The definition of an avoid pair carries over to every child; that of a
      navoid pair says that the other part avoids back, that it avoids every
      array of the message, and carries over to every child. */
  ghost predicate PairsWritten(ms: Messages, av: seq<Pair>, nv: seq<Pair>, log: seq<Event>) {
    && (forall p :: p in av ==> Define(false, p) in log)
    && (forall p :: p in nv ==> Define(true, p) in log)
    && (forall p, y: nat :: p in av && HasChild(ms, p.x, y) ==> InDefinition(log, false, p, Mention(false, Pair(y, p.t))))
    && (forall p :: p in nv && p.t.MessageTarget? ==>
         InDefinition(log, true, p, Mention(false, Pair(p.t.msg, MessageTarget(p.x)))))
    && (forall p, s: string :: p in nv && p.t.MessageTarget? && HasArray(ms, p.x, s) ==>
         InDefinition(log, true, p, Mention(false, Pair(p.t.msg, ArrayTarget(s)))))
    && (forall p, y: nat :: p in nv && HasChild(ms, p.x, y) ==> InDefinition(log, true, p, Mention(true, Pair(y, p.t))))
  }

  /** The validity predicate of a message keeps each child apart from the
      message and its arrays, and from the children beside it. */
  ghost predicate ClausesWritten(ms: Messages, log: seq<Event>) {
    && (forall z: nat, c: nat :: z < |ms| && ms[z].ok && HasChild(ms, z, c) ==> Mention(false, Pair(c, MessageTarget(z))) in log)
    && (forall z: nat, c: nat, s: string :: z < |ms| && ms[z].ok && HasChild(ms, z, c) && HasArray(ms, z, s) ==>
         Mention(false, Pair(c, ArrayTarget(s))) in log)
    && (forall z: nat, c: nat, d: nat :: z < |ms| && ms[z].ok && Siblings(ms, z, c, d) ==>
         Mention(true, Pair(c, MessageTarget(d))) in log)
  }

  lemma {:induction false} AvoidMentionsChild(fields: seq<PlanField>, n: nat, t: Target, a: nat)
    requires a < n <= |fields| && fields[a].ChildField?
    ensures Mention(false, Pair(fields[a].child, t)) in AvoidMentions(fields, n, t)
    decreases n
  {
    if a < n - 1 {
      AvoidMentionsChild(fields, n - 1, t, a);
    }
  }

  lemma {:induction false} AvoidOnlyMentions(fields: seq<PlanField>, n: nat, t: Target)
    requires n <= |fields|
    ensures forall e :: e in AvoidMentions(fields, n, t) ==> e.Mention?
    decreases n
  {
    if n > 0 {
      AvoidOnlyMentions(fields, n - 1, t);
    }
  }

  lemma {:induction false} NavoidMentionsField(fields: seq<PlanField>, n: nat, t: nat, a: nat)
    requires a < n <= |fields|
    ensures fields[a].ArrayField? ==> Mention(false, Pair(t, ArrayTarget(fields[a].ctype))) in NavoidMentions(fields, n, t)
    ensures fields[a].ChildField? ==> Mention(true, Pair(fields[a].child, MessageTarget(t))) in NavoidMentions(fields, n, t)
    decreases n
  {
    if a < n - 1 {
      NavoidMentionsField(fields, n - 1, t, a);
    }
  }

  lemma {:induction false} NavoidOnlyMentions(fields: seq<PlanField>, n: nat, t: nat)
    requires n <= |fields|
    ensures forall e :: e in NavoidMentions(fields, n, t) ==> e.Mention?
    decreases n
  {
    if n > 0 {
      NavoidOnlyMentions(fields, n - 1, t);
    }
  }

  lemma {:induction false} ArrayMentionsField(fields: seq<PlanField>, n: nat, c: nat, a: nat)
    requires a < n <= |fields| && fields[a].ArrayField?
    ensures Mention(false, Pair(c, ArrayTarget(fields[a].ctype))) in ArrayMentions(fields, n, c)
    decreases n
  {
    if a < n - 1 {
      ArrayMentionsField(fields, n - 1, c, a);
    }
  }

  lemma {:induction false} ChildMentionsField(fields: seq<PlanField>, n: nat, z: nat, a: nat)
    requires a < n <= |fields| && fields[a].ChildField?
    ensures Mention(false, Pair(fields[a].child, MessageTarget(z))) in ChildMentions(fields, n, z)
    ensures forall e :: e in ArrayMentions(fields, |fields|, fields[a].child) ==> e in ChildMentions(fields, n, z)
    decreases n
  {
    if a < n - 1 {
      ChildMentionsField(fields, n - 1, z, a);
    }
  }

  lemma {:induction false} LaterMentionsField(fields: seq<PlanField>, a: nat, n: nat, b: nat)
    requires a <= b < n <= |fields| && fields[a].ChildField? && fields[b].ChildField? && (a == b ==> fields[a].repeated)
    ensures Mention(true, Pair(fields[a].child, MessageTarget(fields[b].child))) in LaterMentions(fields, a, n)
    decreases n
  {
    if b < n - 1 {
      LaterMentionsField(fields, a, n - 1, b);
    }
  }

  lemma {:induction false} SiblingMentionsField(fields: seq<PlanField>, n: nat, a: nat)
    requires a < n <= |fields|
    ensures forall e :: e in LaterMentions(fields, a, |fields|) ==> e in SiblingMentions(fields, n)
    decreases n
  {
    hide LaterMentions;
    if a < n - 1 {
      SiblingMentionsField(fields, n - 1, a);
    }
  }

  lemma {:induction false} PieceAt(log: seq<Event>, i: nat, piece: seq<Event>, j: nat)
    requires i <= |log| && piece <= log[i..] && i <= j < i + |piece|
    ensures j < |log| && log[j] == piece[j - i]
  {
    assert log[i..][j - i] == log[j];
  }

  /** What a piece of the log begins with, and what follows in it. */
  lemma {:induction false} PieceInLog(log: seq<Event>, navoid: bool, p: Pair, rest: seq<Event>)
    requires Includes(log, [Define(navoid, p)] + rest) && forall e :: e in rest ==> e.Mention?
    ensures Define(navoid, p) in log && forall e :: e in rest ==> InDefinition(log, navoid, p, e)
  {
    hide InDefinition;
    var piece := [Define(navoid, p)] + rest;
    var i :| 0 <= i <= |log| && piece <= log[i..];
    PieceAt(log, i, piece, i);
    forall e | e in rest
      ensures InDefinition(log, navoid, p, e)
    {
      var k :| 0 <= k < |rest| && rest[k] == e;
      MentionInPiece(log, navoid, p, rest, i, k);
    }
  }

  lemma {:induction false} MentionInPiece(log: seq<Event>, navoid: bool, p: Pair, rest: seq<Event>, i: nat, k: nat)
    requires i <= |log| && [Define(navoid, p)] + rest <= log[i..] && k < |rest| && forall e :: e in rest ==> e.Mention?
    ensures InDefinition(log, navoid, p, rest[k])
  {
    var piece, j := [Define(navoid, p)] + rest, i + 1 + k;
    PieceAt(log, i, piece, i);
    PieceAt(log, i, piece, j);
    forall m | i < m < j
      ensures log[m].Mention?
    {
      PieceAt(log, i, piece, m);
      assert piece[m - i] == rest[m - i - 1];
    }
    assert Uncut(log, i, j);
  }

  lemma {:induction false} AvoidWritten(ms: Messages, p: Pair, log: seq<Event>)
    requires p.x < |ms| && Includes(log, Text(false, ms, p))
    ensures Define(false, p) in log
    ensures forall y: nat :: HasChild(ms, p.x, y) ==> InDefinition(log, false, p, Mention(false, Pair(y, p.t)))
  {
    hide Includes, InDefinition, AvoidMentions;
    var fields := ms[p.x].fields;
    AvoidOnlyMentions(fields, |fields|, p.t);
    PieceInLog(log, false, p, AvoidMentions(fields, |fields|, p.t));
    forall y: nat | HasChild(ms, p.x, y)
      ensures InDefinition(log, false, p, Mention(false, Pair(y, p.t)))
    {
      var a :| 0 <= a < |fields| && fields[a].ChildField? && fields[a].child == y;
      AvoidMentionsChild(fields, |fields|, p.t, a);
    }
  }

  lemma {:induction false} NavoidWritten(ms: Messages, p: Pair, log: seq<Event>)
    requires p.x < |ms| && p.t.MessageTarget? && Includes(log, Text(true, ms, p))
    ensures Define(true, p) in log && InDefinition(log, true, p, Mention(false, Pair(p.t.msg, MessageTarget(p.x))))
    ensures forall s: string :: HasArray(ms, p.x, s) ==> InDefinition(log, true, p, Mention(false, Pair(p.t.msg, ArrayTarget(s))))
    ensures forall y: nat :: HasChild(ms, p.x, y) ==> InDefinition(log, true, p, Mention(true, Pair(y, p.t)))
  {
    hide Includes, InDefinition, NavoidMentions;
    var fields, t := ms[p.x].fields, p.t.msg;
    var back := Mention(false, Pair(t, MessageTarget(p.x)));
    var rest := [back] + NavoidMentions(fields, |fields|, t);
    NavoidOnlyMentions(fields, |fields|, t);
    assert Text(true, ms, p) == [Define(true, p)] + rest;
    PieceInLog(log, true, p, rest);
    assert rest[0] == back;
    forall s: string | HasArray(ms, p.x, s)
      ensures InDefinition(log, true, p, Mention(false, Pair(t, ArrayTarget(s))))
    {
      var a :| 0 <= a < |fields| && fields[a] == ArrayField(s);
      NavoidMentionsField(fields, |fields|, t, a);
    }
    forall y: nat | HasChild(ms, p.x, y)
      ensures InDefinition(log, true, p, Mention(true, Pair(y, p.t)))
    {
      var a :| 0 <= a < |fields| && fields[a].ChildField? && fields[a].child == y;
      NavoidMentionsField(fields, |fields|, t, a);
    }
  }

  lemma {:induction false} IncludedIn(log: seq<Event>, part: seq<Event>)
    requires Includes(log, part)
    ensures forall e :: e in part ==> e in log
  {
    var i :| 0 <= i <= |log| && part <= log[i..];
    forall e | e in part
      ensures e in log
    {
      var k :| 0 <= k < |part| && part[k] == e;
      assert log[i + k] == log[i..][k] == e;
    }
  }

  lemma {:induction false} ClausesOf(ms: Messages, z: nat, log: seq<Event>)
    requires z < |ms| && Includes(log, Clauses(ms, z))
    ensures forall c: nat :: HasChild(ms, z, c) ==> Mention(false, Pair(c, MessageTarget(z))) in log
    ensures forall c: nat, s: string :: HasChild(ms, z, c) && HasArray(ms, z, s) ==> Mention(false, Pair(c, ArrayTarget(s))) in log
    ensures forall c: nat, d: nat :: Siblings(ms, z, c, d) ==> Mention(true, Pair(c, MessageTarget(d))) in log
  {
    hide Includes, ChildMentions, ArrayMentions, SiblingMentions, LaterMentions;
    var fields := ms[z].fields;
    IncludedIn(log, Clauses(ms, z));
    forall c: nat | HasChild(ms, z, c)
      ensures Mention(false, Pair(c, MessageTarget(z))) in log
      ensures forall s: string :: HasArray(ms, z, s) ==> Mention(false, Pair(c, ArrayTarget(s))) in log
    {
      var a :| 0 <= a < |fields| && fields[a].ChildField? && fields[a].child == c;
      ChildMentionsField(fields, |fields|, z, a);
      forall s: string | HasArray(ms, z, s)
        ensures Mention(false, Pair(c, ArrayTarget(s))) in log
      {
        var b :| 0 <= b < |fields| && fields[b] == ArrayField(s);
        ArrayMentionsField(fields, |fields|, c, b);
      }
    }
    forall c: nat, d: nat | Siblings(ms, z, c, d)
      ensures Mention(true, Pair(c, MessageTarget(d))) in log
    {
      var a, b :|
        && 0 <= a <= b < |fields| && fields[a].ChildField? && fields[b].ChildField?
        && fields[a].child == c && fields[b].child == d && (a == b ==> fields[a].repeated);
      LaterMentionsField(fields, a, |fields|, b);
      SiblingMentionsField(fields, |fields|, a);
    }
  }

  lemma {:induction false} AllWritten(ms: Messages, av: seq<Pair>, nv: seq<Pair>, log: seq<Event>)
    requires Finished(ms, av, nv)
    requires forall p :: p in av ==> Includes(log, Text(false, ms, p))
    requires forall p :: p in nv ==> Includes(log, Text(true, ms, p))
    requires forall z :: 0 <= z < |ms| && ms[z].ok ==> Includes(log, Clauses(ms, z))
    ensures PairsWritten(ms, av, nv, log) && ClausesWritten(ms, log)
  {
    hide Finished, Includes, Text, Clauses, InDefinition, HasChild, HasArray, Siblings;
    forall p | p in av
      ensures Define(false, p) in log
      ensures forall y: nat :: HasChild(ms, p.x, y) ==> InDefinition(log, false, p, Mention(false, Pair(y, p.t)))
    {
      FitsAt(ms, av, nv, p);
      AvoidWritten(ms, p, log);
    }
    forall p | p in nv
      ensures p.t.MessageTarget?
      ensures Define(true, p) in log && InDefinition(log, true, p, Mention(false, Pair(p.t.msg, MessageTarget(p.x))))
      ensures forall s: string :: HasArray(ms, p.x, s) ==> InDefinition(log, true, p, Mention(false, Pair(p.t.msg, ArrayTarget(s))))
      ensures forall y: nat :: HasChild(ms, p.x, y) ==> InDefinition(log, true, p, Mention(true, Pair(y, p.t)))
    {
      FitsAt(ms, av, nv, p);
      NavoidWritten(ms, p, log);
    }
    forall z: nat | z < |ms| && ms[z].ok
      ensures forall c: nat :: HasChild(ms, z, c) ==> Mention(false, Pair(c, MessageTarget(z))) in log
      ensures forall c: nat, s: string :: HasChild(ms, z, c) && HasArray(ms, z, s) ==> Mention(false, Pair(c, ArrayTarget(s))) in log
      ensures forall c: nat, d: nat :: Siblings(ms, z, c, d) ==> Mention(true, Pair(c, MessageTarget(d))) in log
    {
      ClausesOf(ms, z, log);
    }
  }

  /** What the validity predicate of message `z` mentions. */
  function Clauses(ms: Messages, z: nat): seq<Event>
    requires z < |ms|
  {
    var fields := ms[z].fields;
    ChildMentions(fields, |fields|, z) + SiblingMentions(fields, |fields|)
  }

  predicate Includes(log: seq<Event>, part: seq<Event>) {
    exists i :: 0 <= i <= |log| && part <= log[i..]
  }

  lemma {:induction false} NowIncluded(ms: Messages, z: nat, was: seq<Event>, mid: seq<Event>, log: seq<Event>)
    requires z < |ms| && was <= mid
    requires var fields := ms[z].fields; log == mid + ChildMentions(fields, |fields|, z) + SiblingMentions(fields, |fields|)
    ensures mid <= log && Includes(log, Clauses(ms, z))
    ensures forall part :: Includes(was, part) ==> Includes(log, part)
  {
    IncludesLast(mid, log, Clauses(ms, z));
    forall part | Includes(was, part)
      ensures Includes(log, part)
    {
      IncludesMore(was, log, part);
    }
  }

  lemma {:induction false} ReachNext(pairs: seq<Pair>, named: seq<bool>, z: nat, x: nat, k: nat)
    requires k < |pairs| && Pos(pairs[k]) == z && pairs[k].x == x && Reached(pairs, named, z, x, k)
    ensures Reached(pairs, named[k := true], z, x, k + 1)
  {
  }

  lemma {:induction false} ReachSkip(pairs: seq<Pair>, named: seq<bool>, z: nat, x: nat, i: nat)
    requires i < |pairs| && (pairs[i].x != x || Pos(pairs[i]) != z) && Reached(pairs, named, z, x, i)
    ensures Reached(pairs, named, z, x, i + 1)
  {
  }

  lemma {:induction false} ReachX(pairs: seq<Pair>, named: seq<bool>, z: nat, x: nat)
    requires Reached(pairs, named, z, x, |pairs|)
    ensures Reached(pairs, named, z, x + 1, 0)
  {
  }

  lemma {:induction false} ReachZ(pairs: seq<Pair>, named: seq<bool>, z: nat)
    requires Reached(pairs, named, z, z + 1, 0)
    ensures Reached(pairs, named, z + 1, 0, 0)
  {
  }

  /** A message without contracts is the later part of no pair. */
  lemma {:induction false} NoPairs(ms: Messages, av: seq<Pair>, nv: seq<Pair>, avNamed: seq<bool>, nvNamed: seq<bool>, z: nat)
    requires Finished(ms, av, nv) && z < |ms| && !ms[z].ok
    requires Reached(av, avNamed, z, 0, 0) && Reached(nv, nvNamed, z, 0, 0)
    ensures Reached(av, avNamed, z + 1, 0, 0) && Reached(nv, nvNamed, z + 1, 0, 0)
  {
    hide Finished;
    forall p | p in av || p in nv
      ensures Pos(p) != z
    {
      FitsAt(ms, av, nv, p);
    }
  }

  lemma {:induction false} AllNamed(ms: Messages, av: seq<Pair>, nv: seq<Pair>, avNamed: seq<bool>, nvNamed: seq<bool>, log: seq<Event>)
    requires Finished(ms, av, nv) && Reached(av, avNamed, |ms|, 0, 0) && Reached(nv, nvNamed, |ms|, 0, 0)
    requires Out(false, ms, av, avNamed, log) && Out(true, ms, nv, nvNamed, log)
    ensures forall p :: p in av ==> Includes(log, Text(false, ms, p))
    ensures forall p :: p in nv ==> Includes(log, Text(true, ms, p))
  {
    hide Finished, Includes, Text;
    forall p | p in av || p in nv
      ensures Pos(p) < |ms|
    {
      FitsAt(ms, av, nv, p);
    }
  }

  /** A pair's whole definition. */
  function Text(navoid: bool, ms: Messages, p: Pair): seq<Event> {
    if p.x >= |ms| then []
    else
      var fields := ms[p.x].fields;
      if !navoid then [Define(false, p)] + AvoidMentions(fields, |fields|, p.t)
      else if p.t.ArrayTarget? then []
      else [Define(true, p), Mention(false, Pair(p.t.msg, MessageTarget(p.x)))] + NavoidMentions(fields, |fields|, p.t.msg)
  }

  predicate Out(navoid: bool, ms: Messages, pairs: seq<Pair>, named: seq<bool>, log: seq<Event>) {
    |named| == |pairs| && forall k :: 0 <= k < |pairs| && named[k] ==> Includes(log, Text(navoid, ms, pairs[k]))
  }

  lemma {:induction false} IncludesMore(was: seq<Event>, log: seq<Event>, part: seq<Event>)
    requires was <= log && Includes(was, part)
    ensures Includes(log, part)
  {
    var i :| 0 <= i <= |was| && part <= was[i..];
    assert log == was + log[|was|..];
    assert log[i..] == was[i..] + log[|was|..];
  }

  lemma {:induction false} OutStays(navoid: bool, ms: Messages, pairs: seq<Pair>, named: seq<bool>, was: seq<Event>, log: seq<Event>)
    requires Out(navoid, ms, pairs, named, was) && was <= log
    ensures Out(navoid, ms, pairs, named, log)
  {
    hide Includes, Text;
    forall k | 0 <= k < |pairs| && named[k]
      ensures Includes(log, Text(navoid, ms, pairs[k]))
    {
      IncludesMore(was, log, Text(navoid, ms, pairs[k]));
    }
  }

  lemma {:induction false} IncludesLast(was: seq<Event>, log: seq<Event>, part: seq<Event>)
    requires log == was + part
    ensures Includes(log, part)
  {
    assert log[|was|..] == part;
  }

  lemma {:induction false} AvoidOut(ms: Messages, av: seq<Pair>, named: seq<bool>, now: seq<bool>, was: seq<Event>, log: seq<Event>, k: nat)
    requires k < |av| == |named| && now == named[k := true] && Out(false, ms, av, named, was) && av[k].x < |ms|
    requires var fields := ms[av[k].x].fields;
             log == was + [Define(false, av[k])] + AvoidMentions(fields, |fields|, av[k].t)
    ensures Out(false, ms, av, now, log)
  {
    hide Includes;
    assert log == was + Text(false, ms, av[k]);
    IncludesLast(was, log, Text(false, ms, av[k]));
    OutStays(false, ms, av, named, was, log);
  }

  lemma {:induction false} NavoidOut(ms: Messages, nv: seq<Pair>, named: seq<bool>, now: seq<bool>, was: seq<Event>, log: seq<Event>, k: nat)
    requires k < |nv| == |named| && now == named[k := true] && Out(true, ms, nv, named, was) && nv[k].x < |ms| && nv[k].t.MessageTarget?
    requires var fields, t := ms[nv[k].x].fields, nv[k].t.msg;
             log == was + [Define(true, nv[k]), Mention(false, Pair(t, MessageTarget(nv[k].x)))] + NavoidMentions(fields, |fields|, t)
    ensures Out(true, ms, nv, now, log)
  {
    hide Includes;
    assert log == was + Text(true, ms, nv[k]);
    IncludesLast(was, log, Text(true, ms, nv[k]));
    OutStays(true, ms, nv, named, was, log);
  }

  lemma {:induction false} Unrepeated(ms: Messages, av: seq<Pair>, nv: seq<Pair>)
    requires Finished(ms, av, nv)
    ensures NoRepeats(av) && NoRepeats(nv)
  {
  }

  lemma {:induction false} SiblingPair(ms: Messages, av: seq<Pair>, nv: seq<Pair>, z: nat, i: nat, j: nat)
    requires Finished(ms, av, nv) && z < |ms| && ms[z].ok && i <= j < |ms[z].fields|
    requires ms[z].fields[i].ChildField? && ms[z].fields[j].ChildField? && (i == j ==> ms[z].fields[i].repeated)
    ensures var q := Pair(ms[z].fields[i].child, MessageTarget(ms[z].fields[j].child)); q in nv && Pos(q) < z
  {
    hide Saturated, AllFit, HasChild;
    assert Siblings(ms, z, ms[z].fields[i].child, ms[z].fields[j].child);
  }

  lemma {:induction false} OwnPairs(ms: Messages, av: seq<Pair>, nv: seq<Pair>, z: nat, i: nat, j: nat)
    requires Finished(ms, av, nv) && z < |ms| && ms[z].ok && i < |ms[z].fields| && j < |ms[z].fields| && ms[z].fields[i].ChildField?
    ensures var q := Pair(ms[z].fields[i].child, MessageTarget(z)); q in av && Pos(q) == z
    ensures ms[z].fields[j].ArrayField? ==>
              var q := Pair(ms[z].fields[i].child, ArrayTarget(ms[z].fields[j].ctype)); q in av && Pos(q) < z
  {
    hide Saturated, AllFit, Siblings;
    ChildBelow(ms, z, i);
    if ms[z].fields[j].ArrayField? {
      assert HasArray(ms, z, ms[z].fields[j].ctype) by {
        assert ms[z].fields[j] == ArrayField(ms[z].fields[j].ctype);
      }
    }
  }

  /** Classification, saturation and emission together: the eligible messages
      and no others get contracts; `av` and `nv` are the least closed choice of
      pairs for them, and every definition and clause they call for is out. */
  method PlanAndEmit(raw: seq<seq<Raw>>, light: seq<bool>)
    returns (ok: bool, log: seq<Event>, done: seq<Planned>, ghost av: seq<Pair>, ghost nv: seq<Pair>)
    requires |light| == |raw|
    ensures ok && Ordered(log) && |done| == |raw|
    ensures forall z :: 0 <= z < |raw| ==> Eligible(raw, light, Bare(done), z)
    ensures forall z :: 0 <= z < |raw| && done[z].message.ok ==> AsDeclared(raw[z], done[z].message.fields)
    ensures var a, n := Elements(av), Elements(nv);
            Closed(Bare(done), a, n) && forall a', n' :: Closed(Bare(done), a', n') ==> a <= a' && n <= n'
    ensures PairsWritten(Bare(done), av, nv, log) && ClausesWritten(Bare(done), log)
    ensures forall z :: 0 <= z < |raw| && done[z].message.ok ==> Includes(log, Clauses(Bare(done), z))
  {
    hide Closed, AllFit, PlanOk, Needed, Ordered, Includes, Clauses, Out, Text, PairsWritten, ClausesWritten, Eligible, AsDeclared;
    done := ClassifyAll(raw, light);
    var plan := BuildPairs(Bare(done));
    var avoid, navoid := plan.avoid.items[..plan.avoid.count], plan.navoid.items[..plan.navoid.count];
    av, nv := avoid, navoid;
    var e := new Emitter(plan.ms, avoid, navoid);
    ok := e.EmitAll();
    log := e.log;
  }

  lemma {:induction false} OnlyOne(ms: Messages, av: seq<Pair>, nv: seq<Pair>, i: nat)
    requires Finished(ms, av, nv)
    ensures i < |av| ==> forall k :: 0 <= k < |av| && av[k] == av[i] ==> k == i
    ensures i < |nv| ==> forall k :: 0 <= k < |nv| && nv[k] == nv[i] ==> k == i
  {
    hide Closed;
  }

  lemma {:induction false} FitsAt(ms: Messages, av: seq<Pair>, nv: seq<Pair>, p: Pair)
    requires Finished(ms, av, nv) && (p in av || p in nv)
    ensures p.x < |ms| && ms[p.x].ok && (p in nv ==> p.t.MessageTarget?)
    ensures p.t.MessageTarget? ==> p.t.msg < |ms| && ms[p.t.msg].ok
    ensures Pos(p) < |ms| && ms[Pos(p)].ok
  {
    hide Closed, Universe;
    assert p in Universe(ms);
    UniverseX(ms, p);
  }

  lemma {:induction false} ChildBelow(ms: Messages, x: nat, a: nat)
    requires PlanOk(ms) && x < |ms| && ms[x].ok && a < |ms[x].fields| && ms[x].fields[a].ChildField?
    ensures ms[x].fields[a].child < x && HasChild(ms, x, ms[x].fields[a].child)
  {
  }

  lemma {:induction false} ChildPair(ms: Messages, av: seq<Pair>, nv: seq<Pair>, p: Pair, a: nat)
    requires Finished(ms, av, nv) && p in av && p.x < |ms| && ms[p.x].ok && a < |ms[p.x].fields| && ms[p.x].fields[a].ChildField?
    ensures var q := Pair(ms[p.x].fields[a].child, p.t); q in av && q.x < p.x && Pos(q) <= Pos(p)
  {
    hide Seeded, AllFit, PlanOk;
    ChildBelow(ms, p.x, a);
    assert p in Elements(av);
  }

  lemma {:induction false} ChildNPair(ms: Messages, av: seq<Pair>, nv: seq<Pair>, p: Pair, a: nat)
    requires Finished(ms, av, nv) && p in nv && p.x < |ms| && ms[p.x].ok && a < |ms[p.x].fields| && ms[p.x].fields[a].ChildField?
    ensures var q := Pair(ms[p.x].fields[a].child, p.t); q in nv && q.x < p.x && Pos(q) <= Pos(p)
  {
    hide Seeded, AllFit, PlanOk;
    ChildBelow(ms, p.x, a);
    assert p in Elements(nv);
  }

  lemma {:induction false} BackPair(ms: Messages, av: seq<Pair>, nv: seq<Pair>, p: Pair)
    requires Finished(ms, av, nv) && p in nv && p.t.MessageTarget?
    ensures Pair(p.t.msg, MessageTarget(p.x)) in av && Pos(Pair(p.t.msg, MessageTarget(p.x))) == Pos(p)
  {
    hide Seeded, AllFit, PlanOk, HasChild;
    assert p in Elements(nv);
  }

  lemma {:induction false} ArrayPair(ms: Messages, av: seq<Pair>, nv: seq<Pair>, p: Pair, a: nat)
    requires Finished(ms, av, nv) && p in nv && p.t.MessageTarget? && p.x < |ms| && a < |ms[p.x].fields| && ms[p.x].fields[a].ArrayField?
    ensures var q := Pair(p.t.msg, ArrayTarget(ms[p.x].fields[a].ctype)); q in av && Pos(q) <= Pos(p)
  {
    hide Seeded, AllFit, PlanOk, HasChild;
    assert p in Elements(nv);
    assert HasArray(ms, p.x, ms[p.x].fields[a].ctype) by {
      assert ms[p.x].fields[a] == ArrayField(ms[p.x].fields[a].ctype);
    }
  }
}
