// The import graph: linking, the cycle check and the order of the files.
module Imports {
  import opened Descriptors
  import opened Options
  import opened Graphs
  import opened DepthFirst

  datatype Outcome = Fine | CircularImport | ImportTargetNotFound

  ghost function Members(files: seq<File?>): set<File> {
    set i | 0 <= i < |files| && files[i] != null :: files[i]
  }

  /** The first index of `f`, from index `i` on. */
  function IndexFrom<T(==)>(files: seq<T>, f: T, i: nat): (r: Option<nat>)
    requires i <= |files|
    ensures r.Some? ==> i <= r.value < |files| && files[r.value] == f && f !in files[i..r.value]
    ensures r.None? ==> f !in files[i..]
    decreases |files| - i
  {
    if i == |files| then None
    else if files[i] == f then Some(i)
    else
      assert files[i..] == [files[i]] + files[i + 1..];
      assert forall k :: i + 1 <= k <= |files| ==> files[i..k] == [files[i]] + files[i + 1..k];
      IndexFrom(files, f, i + 1)
  }

  ghost function Target(files: seq<File?>, imp: Import): Option<nat> {
    if imp.resolved == null then None else IndexFrom(files, imp.resolved, 0)
  }

  ghost function Targets(files: seq<File?>, imports: seq<Import>): (e: seq<Option<nat>>)
    ensures |e| == |imports| && forall j :: 0 <= j < |e| && e[j].Some? ==> e[j].value < |files|
  {
    seq(|imports|, k requires 0 <= k < |imports| => Target(files, imports[k]))
  }

  ghost function ImportsOf(f: File?): seq<Import>
    reads (if f != null then {f} else {})`imports
  {
    if f == null then [] else f.imports
  }

  /** The resolved import graph, over positions in `files`. */
  ghost function ImportGraph(files: seq<File?>): (g: Graph)
    reads Members(files)`imports
    ensures WellFormed(g) && |g| == |files|
  {
    GraphUpto(files, |files|)
  }

  ghost function GraphUpto(files: seq<File?>, n: nat): (g: Graph)
    requires n <= |files|
    reads Members(files)`imports
    ensures |g| == n && forall i :: 0 <= i < n ==> g[i] == Targets(files, ImportsOf(files[i]))
  {
    if n == 0 then [] else GraphUpto(files, n - 1) + [Targets(files, ImportsOf(files[n - 1]))]
  }

  /** The edges of `u` are the targets of `imports`. */
  ghost predicate EdgesMatch(files: seq<File?>, g: Graph, u: nat, imports: seq<Import>) {
    u < |g| && |g[u]| == |imports| && forall k :: 0 <= k < |imports| ==> g[u][k] == Target(files, imports[k])
  }

  /** `g` is the resolved import graph of `files` as they are now. */
  ghost predicate Shows(files: seq<File?>, g: Graph)
    reads Members(files)`imports
  {
    |g| == |files| && forall u :: 0 <= u < |files| ==> EdgesMatch(files, g, u, ImportsOf(files[u]))
  }

  lemma {:induction false} GraphShows(files: seq<File?>)
    ensures Shows(files, ImportGraph(files)) && WellFormed(ImportGraph(files))
  {
  }

  /** An edge leads from a file to the first position of a file that one of
      its imports was resolved to. */
  lemma {:induction false} ImportEdges(files: seq<File?>, u: nat, v: nat)
    ensures Edge(ImportGraph(files), u, v) <==>
              && u < |files| && files[u] != null && v < |files| && files[v] != null && files[v] !in files[..v]
              && exists k :: 0 <= k < |files[u].imports| && files[u].imports[k].resolved == files[v]
  {
    var g := ImportGraph(files);
    if Edge(g, u, v) {
      var k :| 0 <= k < |g[u]| && g[u][k] == Some(v);
      assert Target(files, ImportsOf(files[u])[k]) == Some(v);
      assert files[0..v] == files[..v];
    }
    if u < |files| && files[u] != null && v < |files| && files[v] != null && files[v] !in files[..v] {
      if k :| 0 <= k < |files[u].imports| && files[u].imports[k].resolved == files[v] {
        FirstPosition(files, files[v], v);
        assert g[u][k] == Some(v);
      }
    }
  }

  lemma {:induction false} FirstPosition<T>(s: seq<T>, x: T, v: nat)
    requires v < |s| && s[v] == x && x !in s[..v]
    ensures IndexFrom(s, x, 0) == Some(v)
  {
    var r := IndexFrom(s, x, 0);
    assert s[0..] == s;
    forall k | 0 <= k < r.value
      ensures s[k] != x
    {
      assert s[0..r.value][k] == s[k];
    }
    forall k | 0 <= k < v
      ensures s[k] != x
    {
      assert s[..v][k] == s[k];
    }
  }

  lemma {:induction false} MatchLength(files: seq<File?>, g: Graph, u: nat, imports: seq<Import>)
    requires EdgesMatch(files, g, u, imports)
    ensures u < |g| && |g[u]| == |imports|
  {
  }

  lemma {:induction false} MatchAt(files: seq<File?>, g: Graph, u: nat, imports: seq<Import>, k: nat)
    requires EdgesMatch(files, g, u, imports) && k < |imports|
    ensures u < |g| && k < |g[u]| && g[u][k] == Target(files, imports[k])
  {
  }

  class Context {
    const sources: seq<string>
    const files: seq<File?>
    var error: Outcome
    var failedSource: nat

    constructor (sources: seq<string>, files: seq<File?>)
      requires |sources| == |files|
      ensures this.sources == sources && this.files == files && error == Fine
    {
      this.sources, this.files, error, failedSource := sources, files, Fine, 0;
    }

    method FileIndex(f: File) returns (r: Option<nat>)
      ensures r == IndexFrom(files, f, 0)
    {
      for i := 0 to |files|
        invariant IndexFrom(files, f, 0) == IndexFrom(files, f, i)
      {
        if files[i] == f {
          return Some(i);
        }
      }
      return None;
    }

    /** The position an import leads to, if it is resolved to one of the files. */
    method Follow(imp: Import) returns (r: Option<nat>)
      ensures r == Target(files, imp)
    {
      if imp.resolved == null {
        return None;
      }
      r := FileIndex(imp.resolved);
    }

    /** Follows imports depth first from `root`; delivers a file met again
        while still on the stack. */
    method Search(root: nat, color: array<Color>, stack: array<Frame>, ghost g: Graph, ghost was: State)
      returns (met: Option<nat>, ghost s: State)
      requires Shows(files, g) && root < |files|
      requires Shown(g, was, color[..], stack[..]) && was.stack == [] && was.mark == {}
      requires color.Length == stack.Length == |files| == |was.rank| && color[root] == White
      modifies color, stack
      ensures met.Some? ==> OnCycle(g, met.value)
      ensures met.None? ==>
                && Shown(g, s, color[..], stack[..]) && s.stack == [] && s.mark == {}
                && Keeps(was, s) && |s.rank| == |files| && s.rank[root] >= 0
    {
      hide Shown, Ranked, Start, Advance, Descend, Finish, AtEdge, TopEdge, Left, Unseen, OnCycle, WellFormed, EdgesMatch,
           Target;
      var n := |files|;
      ShowStart(g, was, color[..], stack[..], root);
      s := Start(n, was, root);
      var top := 0;
      Push(color, stack, top, root);
      while true
        invariant Shown(g, s, color[..], stack[..]) && s.mark == {} && |s.rank| == n
        invariant top + 1 == |s.stack| <= n
        invariant Keeps(was, s) && s.rank[root] >= 0
        decreases Unseen(g, s), |s.stack|, Left(g, s)
      {
        ShowColors(g, s, color[..], stack[..]);
        ghost var frames, colors := stack[..], color[..];
        var frame := stack[top];
        var f := files[frame.node];
        MatchLength(files, g, frame.node, if f == null then [] else f.imports);
        if f == null || frame.next >= |f.imports| {
          ShowFinish(g, s, colors, frames);
          s := Finish(s);
          Blacken(color, frame.node);
          if top == 0 {
            return None, s;
          }
          top := top - 1;
          continue;
        }
        var imp := f.imports[frame.next];
        ShowEdge(g, s, colors, frames);
        MatchAt(files, g, frame.node, f.imports, frame.next);
        Step(stack, top);
        var child := Follow(imp);
        if child.Some? && color[child.value] == Gray {
          ShowMeet(g, s, colors, frames);
          return child, s;
        }
        if child.None? || color[child.value] == Black {
          ShowAdvance(g, s, colors, frames);
          s := Advance(s);
          continue;
        }
        ShowDescend(g, s, colors, frames);
        s := Descend(n, s, child.value);
        top := top + 1;
        Push(color, stack, top, child.value);
      }
    }

    /** Depth-first search for a cycle of imports. */
    method CheckNoCycles() returns (r: Outcome)
      modifies this
      ensures r == CircularImport <==> Cyclic(old(ImportGraph(files)))
      ensures r == CircularImport ==> OnCycle(old(ImportGraph(files)), failedSource) && error == r
      ensures r != CircularImport ==> r == Fine && error == old(error) && failedSource == old(failedSource)
    {
      hide Shown, OnCycle, Cyclic, WellFormed, AllSeen, ImportGraph, EdgesMatch;
      var n := |files|;
      ghost var g := ImportGraph(files);
      GraphShows(files);
      var color := new Color[n](_ => White);
      var stack := new Frame[n](_ => Frame(0, 0));
      ghost var s := Initial(n);
      ShowInitial(g, color[..], stack[..]);
      for root := 0 to n
        invariant Shown(g, s, color[..], stack[..]) && s.stack == [] && s.mark == {} && |s.rank| == n
        invariant forall v :: 0 <= v < root ==> s.rank[v] >= 0
        invariant unchanged(this) && Shows(files, g)
      {
        ShowColors(g, s, color[..], stack[..]);
        if color[root] != White {
          continue;
        }
        var met;
        met, s := Search(root, color, stack, g, s);
        if met.Some? {
          CyclicAt(g, met.value);
          error := CircularImport;
          failedSource := met.value;
          return CircularImport;
        }
      }
      ShowDone(g, s, color[..], stack[..]);
      Unmarked(g, s);
      return Fine;
    }

    /** Places the files reachable from `root` behind those placed before it. */
    method PlaceFrom(root: nat, color: array<Color>, stack: array<Frame>, items: array<File?>, start: nat, ghost g: Graph, ghost was: State)
      returns (count: nat, ghost s: State)
      requires Shows(files, g) && root < |files|
      requires Shown(g, was, color[..], stack[..]) && was.stack == []
      requires color.Length == stack.Length == items.Length == |files| == |was.rank| && color[root] == White
      requires start == |was.order| && Filled(files, was.order, items[..])
      modifies color, stack, items
      ensures Shown(g, s, color[..], stack[..]) && s.stack == []
      ensures Keeps(was, s) && |s.rank| == |files| && s.rank[root] >= 0
      ensures count == |s.order| && Filled(files, s.order, items[..])
    {
      hide Shown, Ranked, Start, Advance, Descend, Finish, AtEdge, TopEdge, Left, Unseen, OnCycle, WellFormed, EdgesMatch,
           Target, Meet, Filled;
      var n := |files|;
      ShowStart(g, was, color[..], stack[..], root);
      s := Start(n, was, root);
      count := start;
      var top := 0;
      Push(color, stack, top, root);
      while true
        invariant Shown(g, s, color[..], stack[..]) && |s.rank| == n
        invariant top + 1 == |s.stack| <= n && count == |s.order| && Filled(files, s.order, items[..])
        invariant Keeps(was, s) && s.rank[root] >= 0
        decreases Unseen(g, s), |s.stack|, Left(g, s)
      {
        ShowColors(g, s, color[..], stack[..]);
        ghost var frames, colors := stack[..], color[..];
        var frame := stack[top];
        var f := files[frame.node];
        MatchLength(files, g, frame.node, if f == null then [] else f.imports);
        if f == null || frame.next >= |f.imports| {
          ShowFinish(g, s, colors, frames);
          FillNext(files, s.order, items[..], frame.node);
          s := Finish(s);
          Blacken(color, frame.node);
          items[count] := f;
          count := count + 1;
          if top == 0 {
            return;
          }
          top := top - 1;
          continue;
        }
        var imp := f.imports[frame.next];
        ShowEdge(g, s, colors, frames);
        MatchAt(files, g, frame.node, f.imports, frame.next);
        Step(stack, top);
        var child := Follow(imp);
        if child.None? || color[child.value] != White {
          if child.Some? && color[child.value] == Gray {
            ShowMeet(g, s, colors, frames);
            s := Meet(g, s);
          } else {
            ShowAdvance(g, s, colors, frames);
            s := Advance(s);
          }
          continue;
        }
        ShowDescend(g, s, colors, frames);
        s := Descend(n, s, child.value);
        top := top + 1;
        Push(color, stack, top, child.value);
      }
    }

    /** Every file once, and every import in front of its importer unless the
        two lie on a cycle. `order` holds the positions of `items` in `files`. */
    method TopoSortFiles() returns (items: array<File?>, ghost order: seq<nat>)
      ensures fresh(items) && Permutation(order, |files|) && items[..] == Picked(files, order)
      ensures var g := old(ImportGraph(files));
              && (forall u, v :: Edge(g, u, v) && !Before(order, v, u) ==> OnCycle(g, u) && OnCycle(g, v))
              && (!Cyclic(g) ==> Ordered(items[..]))
    {
      hide Shown, OnCycle, Cyclic, WellFormed, AllSeen, Before, Permutation, Edge, Ordered, Filled, ImportGraph, EdgesMatch;
      var n := |files|;
      ghost var g := ImportGraph(files);
      GraphShows(files);
      items := new File?[n](_ => null);
      var color := new Color[n](_ => White);
      var stack := new Frame[n](_ => Frame(0, 0));
      ghost var s := Initial(n);
      var count := 0;
      ShowInitial(g, color[..], stack[..]);
      FillNone(files, items[..]);
      for root := 0 to n
        invariant Shown(g, s, color[..], stack[..]) && s.stack == [] && |s.rank| == n && Shows(files, g)
        invariant count == |s.order| && Filled(files, s.order, items[..])
        invariant forall v :: 0 <= v < root ==> s.rank[v] >= 0
      {
        ShowColors(g, s, color[..], stack[..]);
        if color[root] == White {
          count, s := PlaceFrom(root, color, stack, items, count, g, s);
        }
      }
      order := s.order;
      ShowDone(g, s, color[..], stack[..]);
      OrderIsRight(files, g, s);
      FillAll(files, order, items[..]);
    }
  }

  // ------------------------------------------------------- the order as files

  /** The files at the positions `order`. */
  function Picked(files: seq<File?>, order: seq<nat>): (p: seq<File?>)
    requires forall i :: 0 <= i < |order| ==> order[i] < |files|
    ensures |p| == |order|
  {
    seq(|order|, i requires 0 <= i < |order| => files[order[i]])
  }

  /** The items so far: the files placed. */
  predicate Filled(files: seq<File?>, order: seq<nat>, items: seq<File?>) {
    |order| <= |items| && forall i :: 0 <= i < |order| ==> order[i] < |files| && items[i] == files[order[i]]
  }

  lemma {:induction false} FillNone(files: seq<File?>, items: seq<File?>)
    ensures Filled(files, [], items)
  {
  }

  lemma {:induction false} FillNext(files: seq<File?>, order: seq<nat>, items: seq<File?>, v: nat)
    requires Filled(files, order, items) && |order| < |items| && v < |files|
    ensures Filled(files, order + [v], items[|order| := files[v]])
  {
  }

  lemma {:induction false} FillAll(files: seq<File?>, order: seq<nat>, items: seq<File?>)
    requires Filled(files, order, items) && |order| == |items| == |files| && Permutation(order, |files|)
    ensures items == Picked(files, order)
  {
  }

  /** Resolved imports stand before their importers. */
  ghost predicate Ordered(items: seq<File?>)
    reads Members(items)`imports
  {
    forall j, k :: 0 <= j < |items| && items[j] != null && 0 <= k < |items[j].imports| ==>
      var target := items[j].imports[k].resolved;
      target != null && target in items ==> target in items[..j]
  }

  lemma {:induction false} OrderIsRight(files: seq<File?>, g: Graph, s: State)
    requires Shows(files, g) && Inv(g, s) && AllSeen(g, s)
    ensures Permutation(s.order, |files|) && |s.order| == |files|
    ensures forall u, v :: Edge(g, u, v) && !Before(s.order, v, u) ==> OnCycle(g, u) && OnCycle(g, v)
    ensures !Cyclic(g) ==> Ordered(Picked(files, s.order))
  {
    hide Edge, Before, Cyclic, OnCycle, AllSeen, Inv, Ordered, EdgesMatch, Permutation;
    InvRanked(g, s);
    OrderComplete(g, s);
    forall u, v | Edge(g, u, v) && !Before(s.order, v, u)
      ensures OnCycle(g, u) && OnCycle(g, v)
    {
      LateTarget(g, s, u, v);
    }
    if !Cyclic(g) {
      forall u, v | Edge(g, u, v)
        ensures Before(s.order, v, u)
      {
        if !Before(s.order, v, u) {
          CyclicAt(g, u);
        }
      }
      ItemsOrdered(files, g, s.order);
    }
  }

  lemma {:induction false} ItemsOrdered(files: seq<File?>, g: Graph, order: seq<nat>)
    requires Shows(files, g) && Permutation(order, |files|)
    requires forall u, v :: Edge(g, u, v) ==> Before(order, v, u)
    ensures Ordered(Picked(files, order))
  {
    hide Shows, Edge, Before;
    var items := Picked(files, order);
    forall j, k | 0 <= j < |items| && items[j] != null && 0 <= k < |items[j].imports|
      ensures var target := items[j].imports[k].resolved;
              target != null && target in items ==> target in items[..j]
    {
      var target := items[j].imports[k].resolved;
      if target != null && target in items {
        ImportBefore(files, g, order, j, k);
      }
    }
  }

  lemma {:induction false} ImportBefore(files: seq<File?>, g: Graph, order: seq<nat>, j: nat, k: nat)
    requires Shows(files, g) && Permutation(order, |files|)
    requires forall u, v :: Edge(g, u, v) ==> Before(order, v, u)
    requires j < |files| && files[order[j]] != null && k < |files[order[j]].imports|
    requires var target := files[order[j]].imports[k].resolved; target != null && target in Picked(files, order)
    ensures files[order[j]].imports[k].resolved in Picked(files, order)[..j]
  {
    var u := order[j];
    var imports := files[u].imports;
    var target := imports[k].resolved;
    var items := Picked(files, order);
    var x :| 0 <= x < |items| && items[x] == target;
    assert files[order[x]] == target;
    var v := IndexFrom(files, target, 0);
    MatchAt(files, g, u, imports, k);
    assert Edge(g, u, v.value);
    var a, b :| 0 <= a < b < |order| && order[a] == v.value && order[b] == u;
    assert b == j && items[a] == target;
    assert items[..j][a] == target;
  }
}
