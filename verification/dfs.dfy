// The depth-first search behind the cycle check and both topological sorts: an
// explicit stack of frames, three colours, nodes placed when they are finished.
module DepthFirst {
  import opened Options
  import opened Graphs

  datatype Color = White | Gray | Black

  /** A node and the next of its edges to look at. */
  datatype Frame = Frame(node: nat, next: nat)

  /** The search between two steps. `rank` orders all nodes seen by when they
      finish: placed nodes by their position, nodes on the stack above them,
      the top of the stack lowest; -1 stands for unseen. `mark` holds the nodes
      met again while still on the stack. */
  datatype State = State(stack: seq<Frame>, order: seq<nat>, rank: seq<int>, mark: set<nat>)

  function Initial(n: nat): State {
    State([], [], seq(n, i => -1), {})
  }

  predicate RankedAt(n: nat, s: State, v: nat)
    requires |s.rank| == n && v < n
  {
    var r := s.rank[v];
    || r == -1
    || (0 <= r < |s.order| && s.order[r] == v)
    || (2 * n - |s.stack| < r <= 2 * n && s.stack[2 * n - r].node == v)
  }

  predicate Ranked(g: Graph, s: State) {
    var n := |g|;
    && |s.rank| == n && |s.stack| + |s.order| <= n
    && (forall k :: 0 <= k < |s.order| ==> s.order[k] < n && s.rank[s.order[k]] == k)
    && (forall k :: 0 <= k < |s.stack| ==>
         && s.stack[k].node < n && s.rank[s.stack[k].node] == 2 * n - k
         && s.stack[k].next <= |g[s.stack[k].node]|)
    && (forall v :: 0 <= v < n ==> RankedAt(n, s, v))
  }

  /** How many edges of `v` have been looked at. */
  function Done(g: Graph, s: State, v: nat): (d: nat)
    requires Ranked(g, s) && v < |g|
    ensures d <= |g[v]|
  {
    var r := s.rank[v];
    if r < 0 then 0
    else if r < |s.order| then |g[v]|
    else assert RankedAt(|g|, s, v); s.stack[2 * |g| - r].next
  }

  /** A target met: it finishes before `u`, or it was marked and leads back to `u`. */
  ghost predicate Met(g: Graph, s: State, u: nat, v: nat)
    requires Ranked(g, s) && u < |g|
  {
    && v < |g| && s.rank[v] >= 0
    && (s.rank[v] < s.rank[u] || (v in s.mark && Reaches(g, v, u)))
  }

  ghost predicate Explored(g: Graph, s: State)
    requires Ranked(g, s)
  {
    forall u, j :: 0 <= u < |g| && 0 <= j < Done(g, s, u) && g[u][j].Some? ==> Met(g, s, u, g[u][j].value)
  }

  /** Some edge looked at leads to `v` from a node that does not finish after it. */
  predicate MetEarly(g: Graph, s: State, v: nat)
    requires Ranked(g, s)
  {
    v < |g| && exists u, j :: 0 <= u < |g| && 0 <= j < Done(g, s, u) && g[u][j] == Some(v) && s.rank[v] >= s.rank[u]
  }

  ghost predicate Inv(g: Graph, s: State) {
    && WellFormed(g) && Ranked(g, s)
    && (forall k :: 0 <= k < |s.stack| - 1 ==> Edge(g, s.stack[k].node, s.stack[k + 1].node))
    && Explored(g, s)
    && (forall v :: v in s.mark ==> MetEarly(g, s, v))
  }

  function ColorOf(n: nat, r: int): Color {
    if r < 0 then White else if r < n then Black else Gray
  }

  /** The colour array shows the ranks. */
  predicate Painted(g: Graph, s: State, color: seq<Color>) {
    |color| == |g| == |s.rank| && forall v :: 0 <= v < |g| ==> color[v] == ColorOf(|g|, s.rank[v])
  }

  lemma {:induction false} InitialInv(g: Graph)
    requires WellFormed(g)
    ensures Inv(g, Initial(|g|))
  {
  }

  // ------------------------------------------------------------- the steps

  function Start(n: nat, s: State, root: nat): State
    requires |s.rank| == n && root < n
  {
    s.(stack := [Frame(root, 0)], rank := s.rank[root := 2 * n])
  }

  /** The next edge of the top frame, left where it is. */
  function Advance(s: State): State
    requires s.stack != []
  {
    var t := |s.stack| - 1;
    s.(stack := s.stack[t := Frame(s.stack[t].node, s.stack[t].next + 1)])
  }

  function Descend(n: nat, s: State, c: nat): State
    requires s.stack != [] && |s.rank| == n && c < n
  {
    var a := Advance(s);
    a.(stack := a.stack + [Frame(c, 0)], rank := a.rank[c := 2 * n - |s.stack|])
  }

  function Finish(s: State): State
    requires s.stack != [] && s.stack[|s.stack| - 1].node < |s.rank|
  {
    var t := |s.stack| - 1;
    var u := s.stack[t].node;
    s.(stack := s.stack[..t], order := s.order + [u], rank := s.rank[u := |s.order|])
  }

  // -------------------------------------------------------- room on the stack

  /** The nodes on the stack, bottom first, then those placed. */
  function Seen(s: State): seq<nat> {
    seq(|s.stack|, k requires 0 <= k < |s.stack| => s.stack[k].node) + s.order
  }

  /** An unseen node leaves room for itself on the stack and in the order. */
  lemma {:induction false} Room(g: Graph, s: State, v: nat)
    requires Ranked(g, s) && v < |g| && s.rank[v] < 0
    ensures |s.stack| + |s.order| < |g|
  {
    var seen := Seen(s);
    Distinct(g, s);
    Pigeonhole(seen, |g|);
    assert v !in seen;
  }

  lemma {:induction false} Distinct(g: Graph, s: State)
    requires Ranked(g, s)
    ensures NoRepeats(Seen(s)) && forall i :: 0 <= i < |Seen(s)| ==> Seen(s)[i] < |g|
  {
    var seen, m := Seen(s), |s.stack|;
    forall i | 0 <= i < |seen|
      ensures seen[i] < |g| && s.rank[seen[i]] == if i < m then 2 * |g| - i else i - m
    {
      if i >= m {
        assert seen[i] == s.order[i - m];
      }
    }
  }

  // ------------------------------------------------------- steps keep the rank

  lemma {:induction false} StartRanked(g: Graph, s: State, root: nat)
    requires Ranked(g, s) && s.stack == [] && root < |g| && s.rank[root] < 0
    ensures Ranked(g, Start(|g|, s, root))
  {
    var t := Start(|g|, s, root);
    Room(g, s, root);
    forall v | 0 <= v < |g|
      ensures RankedAt(|g|, t, v)
    {
      assert RankedAt(|g|, s, v);
    }
  }

  lemma {:induction false} AdvanceRanked(g: Graph, s: State)
    requires Ranked(g, s) && s.stack != []
    requires s.stack[|s.stack| - 1].next < |g[s.stack[|s.stack| - 1].node]|
    ensures Ranked(g, Advance(s))
  {
    var t := Advance(s);
    forall v | 0 <= v < |g|
      ensures RankedAt(|g|, t, v)
    {
      assert RankedAt(|g|, s, v);
    }
  }

  lemma {:induction false} DescendRanked(g: Graph, s: State, c: nat)
    requires Ranked(g, s) && s.stack != [] && c < |g| && s.rank[c] < 0
    requires s.stack[|s.stack| - 1].next < |g[s.stack[|s.stack| - 1].node]|
    ensures Ranked(g, Descend(|g|, s, c))
  {
    var a, t := Advance(s), Descend(|g|, s, c);
    AdvanceRanked(g, s);
    Room(g, s, c);
    forall v | 0 <= v < |g|
      ensures RankedAt(|g|, t, v)
    {
      assert RankedAt(|g|, a, v);
    }
  }

  lemma {:induction false} FinishRanked(g: Graph, s: State)
    requires Ranked(g, s) && s.stack != []
    ensures Ranked(g, Finish(s))
  {
    var t := Finish(s);
    var u := s.stack[|s.stack| - 1].node;
    assert s.rank[u] == 2 * |g| - (|s.stack| - 1);
    forall v | 0 <= v < |g|
      ensures RankedAt(|g|, t, v)
    {
      assert RankedAt(|g|, s, v);
    }
    forall k | 0 <= k < |t.order|
      ensures t.order[k] < |g| && t.rank[t.order[k]] == k
    {
      if k < |s.order| {
        assert s.rank[s.order[k]] == k;
      }
    }
  }

  // ------------------------------------------------ steps keep what was met

  /** From `s` to `t` nothing seen is forgotten or reordered. */
  predicate Grows(g: Graph, s: State, t: State)
    requires Ranked(g, s) && Ranked(g, t)
  {
    && s.mark <= t.mark
    && forall v :: 0 <= v < |g| && s.rank[v] >= 0 ==>
         && t.rank[v] >= 0 && Done(g, s, v) <= Done(g, t, v)
         && forall u :: 0 <= u < |g| && s.rank[u] >= 0 ==> (s.rank[v] < s.rank[u] <==> t.rank[v] < t.rank[u])
  }

  lemma {:induction false} Lengths(g: Graph, s: State)
    requires Ranked(g, s)
    ensures |s.rank| == |g|
  {
  }

  lemma {:induction false} DoneMeansSeen(g: Graph, s: State, u: nat)
    requires Ranked(g, s) && u < |g| && Done(g, s, u) > 0
    ensures s.rank[u] >= 0
  {
  }

  lemma {:induction false} Carry(g: Graph, s: State, t: State, u: nat, v: nat)
    requires Ranked(g, s) && Ranked(g, t) && Grows(g, s, t) && u < |g| && s.rank[u] >= 0
    ensures Met(g, s, u, v) ==> Met(g, t, u, v)
    ensures MetEarly(g, s, v) ==> MetEarly(g, t, v)
  {
    hide Ranked, Done, Reaches;
    Lengths(g, s);
    Lengths(g, t);
    if MetEarly(g, s, v) {
      var x, j :| 0 <= x < |g| && 0 <= j < Done(g, s, x) && g[x][j] == Some(v) && s.rank[v] >= s.rank[x];
      DoneMeansSeen(g, s, x);
      assert t.rank[v] >= t.rank[x];
    }
  }

  /** A step that looks at one more edge of `u` keeps the invariant if it meets the target. */
  lemma {:induction false} StepInv(g: Graph, s: State, t: State, u: nat)
    requires Inv(g, s) && Ranked(g, t) && Grows(g, s, t)
    requires u < |g| && t.rank[u] >= 0
    requires forall x :: 0 <= x < |g| && x != u && t.rank[x] >= 0 ==> Done(g, t, x) == Done(g, s, x)
    requires forall j :: Done(g, s, u) <= j < Done(g, t, u) && g[u][j].Some? ==> Met(g, t, u, g[u][j].value)
    requires forall v :: v in t.mark && v !in s.mark ==> MetEarly(g, t, v)
    requires forall k :: 0 <= k < |t.stack| - 1 ==> Edge(g, t.stack[k].node, t.stack[k + 1].node)
    ensures Inv(g, t)
  {
    hide Ranked, Done, Met, MetEarly, Edge;
    Lengths(g, s);
    Lengths(g, t);
    forall x, j | 0 <= x < |g| && 0 <= j < Done(g, t, x) && g[x][j].Some?
      ensures Met(g, t, x, g[x][j].value)
    {
      DoneMeansSeen(g, t, x);
      if j < Done(g, s, x) {
        DoneMeansSeen(g, s, x);
        Carry(g, s, t, x, g[x][j].value);
      }
    }
    forall v | v in t.mark
      ensures MetEarly(g, t, v)
    {
      if v in s.mark {
        MarkedSeen(g, s, v);
        Carry(g, s, t, v, v);
      }
    }
  }

  lemma {:induction false} MarkedSeen(g: Graph, s: State, v: nat)
    requires Ranked(g, s) && Explored(g, s) && MetEarly(g, s, v)
    ensures v < |g| && s.rank[v] >= 0
  {
    hide Ranked, Done;
    Lengths(g, s);
    var u, j :| 0 <= u < |g| && 0 <= j < Done(g, s, u) && g[u][j] == Some(v) && s.rank[v] >= s.rank[u];
    assert Met(g, s, u, v);
  }

  lemma {:induction false} StartInv(g: Graph, s: State, root: nat)
    requires Inv(g, s) && s.stack == [] && root < |g| && s.rank[root] < 0
    ensures Inv(g, Start(|g|, s, root))
  {
    hide Reaches, Edge;
    var t := Start(|g|, s, root);
    StartRanked(g, s, root);
    forall v | 0 <= v < |g| && t.rank[v] >= 0 && v != root
      ensures Done(g, t, v) == Done(g, s, v)
    {
      assert RankedAt(|g|, s, v);
    }
    StepInv(g, s, t, root);
  }

  /** The top frame's next edge. */
  predicate AtEdge(g: Graph, s: State)
    requires Ranked(g, s)
  {
    s.stack != [] && s.stack[|s.stack| - 1].next < |g[s.stack[|s.stack| - 1].node]|
  }

  function TopEdge(g: Graph, s: State): Option<nat>
    requires Ranked(g, s) && AtEdge(g, s)
  {
    var top := s.stack[|s.stack| - 1];
    g[top.node][top.next]
  }

  lemma {:induction false} AdvanceDone(g: Graph, s: State, x: nat)
    requires Ranked(g, s) && AtEdge(g, s) && Ranked(g, Advance(s)) && x < |g|
    ensures var u := s.stack[|s.stack| - 1].node;
            Done(g, Advance(s), x) == Done(g, s, x) + if x == u then 1 else 0
  {
    assert RankedAt(|g|, s, x);
  }

  lemma {:induction false} TopSeen(g: Graph, s: State)
    requires Ranked(g, s) && s.stack != []
    ensures var top := s.stack[|s.stack| - 1];
            && top.node < |g| == |s.rank| && top.next <= |g[top.node]|
            && Done(g, s, top.node) == top.next && s.rank[top.node] == 2 * |g| - (|s.stack| - 1)
    ensures |s.stack| <= |g|
  {
  }

  lemma {:induction false} AdvanceGrows(g: Graph, s: State)
    requires Ranked(g, s) && AtEdge(g, s) && Ranked(g, Advance(s))
    ensures Grows(g, s, Advance(s))
  {
    hide Ranked, Done;
    Lengths(g, s);
    Lengths(g, Advance(s));
    forall v | 0 <= v < |g|
      ensures Done(g, s, v) <= Done(g, Advance(s), v)
    {
      AdvanceDone(g, s, v);
    }
  }

  /** An edge that leads nowhere, or to a node already placed. */
  lemma {:induction false} AdvanceInv(g: Graph, s: State)
    requires Inv(g, s) && AtEdge(g, s)
    requires TopEdge(g, s).Some? ==> TopEdge(g, s).value < |g| && 0 <= s.rank[TopEdge(g, s).value] < |g|
    ensures Inv(g, Advance(s))
  {
    hide Reaches, Edge, Ranked, Done, Explored, MetEarly;
    var t := Advance(s);
    var u := s.stack[|s.stack| - 1].node;
    AdvanceRanked(g, s);
    AdvanceGrows(g, s);
    Lengths(g, s);
    Lengths(g, t);
    forall x | 0 <= x < |g|
      ensures Done(g, t, x) == Done(g, s, x) + if x == u then 1 else 0
    {
      AdvanceDone(g, s, x);
    }
    TopSeen(g, s);
    StepInv(g, s, t, u);
  }

  // ----------------------------------------------------- meeting the stack

  /** A node on the stack leads to every node above it. */
  lemma {:induction false} StackReaches(g: Graph, stack: seq<Frame>, i: nat, k: nat)
    requires i <= k < |stack|
    requires forall k :: 0 <= k < |stack| - 1 ==> Edge(g, stack[k].node, stack[k + 1].node)
    ensures Reaches(g, stack[i].node, stack[k].node)
    decreases k
  {
    hide Edge, Reaches;
    if i == k {
      ReachesSelf(g, stack[i].node);
    } else {
      StackReaches(g, stack, i, k - 1);
      ReachesStep(g, stack[i].node, stack[k - 1].node, stack[k].node);
    }
  }

  /** A target still on the stack leads back to the top. */
  lemma {:induction false} GrayReaches(g: Graph, s: State, v: nat)
    requires Inv(g, s) && s.stack != [] && v < |g| && s.rank[v] >= |g|
    ensures Reaches(g, v, s.stack[|s.stack| - 1].node)
    ensures s.rank[v] >= s.rank[s.stack[|s.stack| - 1].node]
  {
    hide Edge, Reaches, Explored, MetEarly;
    assert RankedAt(|g|, s, v);
    StackReaches(g, s.stack, 2 * |g| - s.rank[v], |s.stack| - 1);
  }

  function Meet(g: Graph, s: State): State
    requires Ranked(g, s) && AtEdge(g, s) && TopEdge(g, s).Some?
  {
    Advance(s).(mark := s.mark + {TopEdge(g, s).value})
  }

  /** An edge to a node still on the stack. */
  lemma {:induction false} MeetInv(g: Graph, s: State)
    requires Inv(g, s) && AtEdge(g, s) && TopEdge(g, s).Some?
    requires TopEdge(g, s).value < |g| && s.rank[TopEdge(g, s).value] >= |g|
    ensures Inv(g, Meet(g, s))
  {
    hide Reaches, Edge, Ranked, Done, Explored;
    var a, t, v := Advance(s), Meet(g, s), TopEdge(g, s).value;
    var u := s.stack[|s.stack| - 1].node;
    AdvanceRanked(g, s);
    AdvanceGrows(g, s);
    SameButMark(g, a, t);
    Lengths(g, s);
    forall x | 0 <= x < |g|
      ensures Done(g, t, x) == Done(g, s, x) + if x == u then 1 else 0
    {
      AdvanceDone(g, s, x);
    }
    TopSeen(g, s);
    GrayReaches(g, s, v);
    assert g[u][Done(g, s, u)] == Some(v) && Done(g, s, u) < Done(g, t, u);
    assert MetEarly(g, t, v);
    StepInv(g, s, t, u);
  }

  lemma {:induction false} SameButMark(g: Graph, a: State, t: State)
    requires Ranked(g, a) && t == a.(mark := t.mark)
    ensures Ranked(g, t) && forall x :: 0 <= x < |g| ==> Done(g, t, x) == Done(g, a, x)
  {
    forall v | 0 <= v < |g|
      ensures RankedAt(|g|, t, v)
    {
      assert RankedAt(|g|, a, v);
    }
  }

  // ---------------------------------------------------------- going deeper

  lemma {:induction false} DescendDone(g: Graph, s: State, c: nat, x: nat)
    requires Ranked(g, s) && AtEdge(g, s) && c < |g| && s.rank[c] < 0 && Ranked(g, Descend(|g|, s, c)) && x < |g|
    ensures var u := s.stack[|s.stack| - 1].node;
            Done(g, Descend(|g|, s, c), x) == Done(g, s, x) + if x == u then 1 else 0
  {
    assert RankedAt(|g|, s, x);
  }

  lemma {:induction false} DescendGrows(g: Graph, s: State, c: nat)
    requires Ranked(g, s) && AtEdge(g, s) && c < |g| && s.rank[c] < 0 && Ranked(g, Descend(|g|, s, c))
    ensures Grows(g, s, Descend(|g|, s, c))
  {
    hide Ranked, Done;
    Lengths(g, s);
    Lengths(g, Descend(|g|, s, c));
    forall v | 0 <= v < |g|
      ensures Done(g, s, v) <= Done(g, Descend(|g|, s, c), v)
    {
      DescendDone(g, s, c, v);
    }
  }

  /** An edge to an unseen node, which goes on top. */
  lemma {:induction false} DescendInv(g: Graph, s: State)
    requires Inv(g, s) && AtEdge(g, s) && TopEdge(g, s).Some?
    requires TopEdge(g, s).value < |g| && s.rank[TopEdge(g, s).value] < 0
    ensures Inv(g, Descend(|g|, s, TopEdge(g, s).value)) && |s.stack| + |s.order| < |g|
  {
    hide Reaches, Ranked, Done, Explored, MetEarly;
    Lengths(g, s);
    var c := TopEdge(g, s).value;
    var t := Descend(|g|, s, c);
    var u := s.stack[|s.stack| - 1].node;
    Room(g, s, c);
    DescendRanked(g, s, c);
    DescendGrows(g, s, c);
    forall x | 0 <= x < |g|
      ensures Done(g, t, x) == Done(g, s, x) + if x == u then 1 else 0
    {
      DescendDone(g, s, c, x);
    }
    TopSeen(g, s);
    StepInv(g, s, t, u);
  }

  // ------------------------------------------------------------- finishing

  lemma {:induction false} FinishDone(g: Graph, s: State, x: nat)
    requires Ranked(g, s) && s.stack != [] && Ranked(g, Finish(s)) && x < |g|
    requires s.stack[|s.stack| - 1].next == |g[s.stack[|s.stack| - 1].node]|
    ensures Done(g, Finish(s), x) == Done(g, s, x)
  {
    assert RankedAt(|g|, s, x);
  }

  lemma {:induction false} FinishGrows(g: Graph, s: State)
    requires Ranked(g, s) && s.stack != [] && Ranked(g, Finish(s))
    requires s.stack[|s.stack| - 1].next == |g[s.stack[|s.stack| - 1].node]|
    ensures Grows(g, s, Finish(s))
  {
    hide Done;
    forall v | 0 <= v < |g|
      ensures Done(g, s, v) <= Done(g, Finish(s), v)
    {
      FinishDone(g, s, v);
    }
    forall v | 0 <= v < |g| && s.rank[v] >= 0
      ensures v == s.stack[|s.stack| - 1].node || s.rank[v] < |s.order| || s.rank[v] > 2 * |g| - (|s.stack| - 1)
    {
      assert RankedAt(|g|, s, v);
    }
  }

  /** A node whose edges are all looked at is placed. */
  lemma {:induction false} FinishInv(g: Graph, s: State)
    requires Inv(g, s) && s.stack != []
    requires s.stack[|s.stack| - 1].next == |g[s.stack[|s.stack| - 1].node]|
    ensures Inv(g, Finish(s)) && |s.order| < |g|
  {
    hide Reaches, Edge, Ranked, Done, Explored, MetEarly;
    Lengths(g, s);
    TopSeen(g, s);
    var t := Finish(s);
    var u := s.stack[|s.stack| - 1].node;
    Counted(g, s);
    FinishRanked(g, s);
    FinishGrows(g, s);
    Lengths(g, t);
    forall x | 0 <= x < |g|
      ensures Done(g, t, x) == Done(g, s, x)
    {
      FinishDone(g, s, x);
    }
    StepInv(g, s, t, u);
  }

  lemma {:induction false} Counted(g: Graph, s: State)
    requires Ranked(g, s)
    ensures |s.stack| + |s.order| <= |g|
  {
  }

  // ------------------------------------------------------ what the search finds

  /** `v` stands before `u`. */
  ghost predicate Before(order: seq<nat>, v: nat, u: nat) {
    exists i, j :: 0 <= i < j < |order| && order[i] == v && order[j] == u
  }

  predicate Permutation(order: seq<nat>, n: nat) {
    |order| == n && NoRepeats(order) && (forall i :: 0 <= i < n ==> order[i] < n) && forall v: nat :: v < n ==> v in order
  }

  predicate AllSeen(g: Graph, s: State) {
    |s.rank| == |g| && s.stack == [] && forall v :: 0 <= v < |g| ==> s.rank[v] >= 0
  }

  lemma {:induction false} OrderComplete(g: Graph, s: State)
    requires Ranked(g, s) && AllSeen(g, s)
    ensures Permutation(s.order, |g|)
    ensures forall v :: 0 <= v < |g| ==> 0 <= s.rank[v] < |s.order| && s.order[s.rank[v]] == v
  {
    forall v | 0 <= v < |g|
      ensures v in s.order && 0 <= s.rank[v] < |s.order| && s.order[s.rank[v]] == v
    {
      assert RankedAt(|g|, s, v);
    }
    Pigeonhole(s.order, |g|);
  }

  lemma {:induction false} BeforeIsRank(g: Graph, s: State, v: nat, u: nat)
    requires Ranked(g, s) && AllSeen(g, s) && u < |g| && v < |g|
    ensures Before(s.order, v, u) <==> s.rank[v] < s.rank[u]
  {
    OrderComplete(g, s);
  }

  /** A target not placed before its source lies on a cycle with it, and was marked. */
  lemma {:induction false} LateTarget(g: Graph, s: State, u: nat, v: nat)
    requires Inv(g, s) && AllSeen(g, s) && Edge(g, u, v) && !Before(s.order, v, u)
    ensures OnCycle(g, u) && OnCycle(g, v) && v in s.mark
  {
    hide Reaches, OnCycle, MetEarly;
    var j :| 0 <= j < |g[u]| && g[u][j] == Some(v);
    OrderComplete(g, s);
    assert j < Done(g, s, u);
    assert Met(g, s, u, v);
    BeforeIsRank(g, s, v, u);
    ClosesCycle(g, u, v);
  }

  /** The marked nodes are exactly the targets of edges whose source does not
      come after them. */
  lemma {:induction false} MarkedExactly(g: Graph, s: State, v: nat)
    requires Inv(g, s) && AllSeen(g, s)
    ensures v in s.mark <==> exists u :: Edge(g, u, v) && !Before(s.order, v, u)
  {
    hide Reaches, Ranked, Before;
    if v in s.mark {
      var u, j :| 0 <= u < |g| && 0 <= j < Done(g, s, u) && g[u][j] == Some(v) && s.rank[v] >= s.rank[u];
      BeforeIsRank(g, s, v, u);
      assert Edge(g, u, v);
    }
    if u :| Edge(g, u, v) && !Before(s.order, v, u) {
      LateTarget(g, s, u, v);
    }
  }

  /** No node met again: every target comes before its source, so no cycle. */
  lemma {:induction false} Unmarked(g: Graph, s: State)
    requires Inv(g, s) && AllSeen(g, s) && s.mark == {}
    ensures !Cyclic(g)
  {
    hide Ranked, Before, MetEarly, Explored;
    if v :| OnCycle(g, v) {
      var p :| IsPath(g, p) && |p| >= 2 && p[0] == v && p[|p| - 1] == v;
      Downhill(g, s, p, |p| - 1);
      assert false;
    }
  }

  lemma {:induction false} Downhill(g: Graph, s: State, p: seq<nat>, k: nat)
    requires Inv(g, s) && AllSeen(g, s) && s.mark == {} && IsPath(g, p) && 1 <= k < |p|
    ensures p[0] < |g| && p[k] < |g| && s.rank[p[k]] < s.rank[p[0]]
    decreases k
  {
    hide Ranked, Before, MetEarly, Explored, Edge;
    assert Edge(g, p[k - 1], p[k]);
    if k > 1 {
      Downhill(g, s, p, k - 1);
    }
    EdgeDown(g, s, p[k - 1], p[k]);
  }

  lemma {:induction false} EdgeDown(g: Graph, s: State, u: nat, v: nat)
    requires Inv(g, s) && AllSeen(g, s) && s.mark == {} && Edge(g, u, v)
    ensures u < |g| && v < |g| && s.rank[v] < s.rank[u]
  {
    hide Reaches;
    var j :| 0 <= j < |g[u]| && g[u][j] == Some(v);
    OrderComplete(g, s);
    assert j < Done(g, s, u);
    assert Met(g, s, u, v);
  }

  /** The next edge leads to a node on the stack: that node is on a cycle. */
  lemma {:induction false} CycleFound(g: Graph, s: State)
    requires Inv(g, s) && AtEdge(g, s) && TopEdge(g, s).Some?
    requires TopEdge(g, s).value < |g| && s.rank[TopEdge(g, s).value] >= |g|
    ensures OnCycle(g, TopEdge(g, s).value)
  {
    hide Reaches, OnCycle, Explored, MetEarly;
    GrayReaches(g, s, TopEdge(g, s).value);
    ClosesCycle(g, s.stack[|s.stack| - 1].node, TopEdge(g, s).value);
  }

  // ---------------------------------------------- the arrays of a running pass

  /** The pass's colour array and frame array show the state. */
  ghost predicate Shown(g: Graph, s: State, color: seq<Color>, frames: seq<Frame>) {
    && Inv(g, s) && Painted(g, s, color)
    && |s.stack| <= |frames| == |g| && frames[..|s.stack|] == s.stack
  }

  /** Edges of the top frame still to look at. */
  function Left(g: Graph, s: State): nat {
    if s.stack == [] then 0
    else
      var top := s.stack[|s.stack| - 1];
      if top.node < |g| && top.next <= |g[top.node]| then |g[top.node]| - top.next else 0
  }

  /** Nodes not seen yet. */
  function Unseen(g: Graph, s: State): int {
    |g| - |s.stack| - |s.order|
  }

  /** No node is forgotten. */
  predicate Keeps(s: State, t: State) {
    |s.rank| == |t.rank| && forall v :: 0 <= v < |s.rank| && s.rank[v] >= 0 ==> t.rank[v] >= 0
  }

  /** Puts an unseen node on top of the stack. */
  method Push(color: array<Color>, stack: array<Frame>, top: nat, node: nat)
    requires top < stack.Length && node < color.Length
    modifies color, stack
    ensures color[..] == old(color[..])[node := Gray]
    ensures stack[..] == old(stack[..])[top := Frame(node, 0)]
  {
    stack[top] := Frame(node, 0);
    color[node] := Gray;
  }

  /** Moves the frame at `top` to its next edge. */
  method Step(stack: array<Frame>, top: nat)
    requires top < stack.Length
    modifies stack
    ensures stack[..] == old(stack[..])[top := Frame(old(stack[top].node), old(stack[top].next) + 1)]
  {
    stack[top] := Frame(stack[top].node, stack[top].next + 1);
  }

  method Blacken(color: array<Color>, node: nat)
    requires node < color.Length
    modifies color
    ensures color[..] == old(color[..])[node := Black]
  {
    color[node] := Black;
  }

  lemma {:induction false} ShowInitial(g: Graph, color: seq<Color>, frames: seq<Frame>)
    requires WellFormed(g) && |color| == |frames| == |g| && forall v :: 0 <= v < |g| ==> color[v] == White
    ensures Shown(g, Initial(|g|), color, frames)
  {
    InitialInv(g);
  }

  lemma {:induction false} ShowColors(g: Graph, s: State, color: seq<Color>, frames: seq<Frame>)
    requires Shown(g, s, color, frames)
    ensures |color| == |frames| == |g| == |s.rank| && Unseen(g, s) >= 0
    ensures forall v :: 0 <= v < |g| ==> (color[v] == White <==> s.rank[v] < 0)
    ensures forall v :: 0 <= v < |g| ==> (color[v] == Gray <==> s.rank[v] >= |g|)
    ensures s.stack != [] ==>
              var top := frames[|s.stack| - 1];
              && |s.stack| <= |g| && top.node < |g| && top.next <= |g[top.node]| && Left(g, s) == |g[top.node]| - top.next
              && top == s.stack[|s.stack| - 1]
  {
    hide Explored, MetEarly, Edge;
    if s.stack != [] {
      assert frames[|s.stack| - 1] == frames[..|s.stack|][|s.stack| - 1];
    }
  }

  lemma {:induction false} ShowStart(g: Graph, s: State, color: seq<Color>, frames: seq<Frame>, root: nat)
    requires Shown(g, s, color, frames) && s.stack == [] && root < |g| == |color| && color[root] == White
    ensures |s.rank| == |g| && 0 < |frames|
    ensures var t := Start(|g|, s, root);
            && Shown(g, t, color[root := Gray], frames[0 := Frame(root, 0)])
            && |t.stack| == 1 && t.mark == s.mark && t.order == s.order && Keeps(s, t) && t.rank[root] >= 0
  {
    hide Inv;
    assert Ranked(g, s) by {
      InvRanked(g, s);
    }
    StartInv(g, s, root);
    assert frames[0 := Frame(root, 0)][..1] == [Frame(root, 0)];
  }

  lemma {:induction false} InvRanked(g: Graph, s: State)
    requires Inv(g, s)
    ensures Ranked(g, s)
  {
  }

  lemma {:induction false} ShowFinish(g: Graph, s: State, color: seq<Color>, frames: seq<Frame>)
    requires Shown(g, s, color, frames) && s.stack != [] && Left(g, s) == 0
    ensures s.stack[|s.stack| - 1].node < |s.rank| == |g| == |color|
    ensures var t := Finish(s);
            && Shown(g, t, color[s.stack[|s.stack| - 1].node := Black], frames)
            && |t.stack| == |s.stack| - 1 && t.mark == s.mark && Unseen(g, t) == Unseen(g, s) && Keeps(s, t)
            && |s.order| < |g| && t.order == s.order + [s.stack[|s.stack| - 1].node]
  {
    hide Inv, Done;
    InvRanked(g, s);
    TopSeen(g, s);
    FinishInv(g, s);
    assert frames[..|s.stack| - 1] == frames[..|s.stack|][..|s.stack| - 1];
  }

  lemma {:induction false} ShowAdvance(g: Graph, s: State, color: seq<Color>, frames: seq<Frame>)
    requires Shown(g, s, color, frames) && s.stack != [] && Left(g, s) > 0
    requires Ranked(g, s) && AtEdge(g, s)
    requires TopEdge(g, s).Some? ==> TopEdge(g, s).value < |color| && color[TopEdge(g, s).value] == Black
    ensures var t, top := Advance(s), |s.stack| - 1;
            && top < |frames|
            && Shown(g, t, color, frames[top := Frame(s.stack[top].node, s.stack[top].next + 1)])
            && |t.stack| == |s.stack| && t.mark == s.mark && t.order == s.order && Keeps(s, t)
            && Left(g, t) < Left(g, s) && Unseen(g, t) == Unseen(g, s)
  {
    hide Inv;
    AdvanceInv(g, s);
    NextFrame(s, frames);
  }

  lemma {:induction false} ShowEdge(g: Graph, s: State, color: seq<Color>, frames: seq<Frame>)
    requires Shown(g, s, color, frames) && s.stack != [] && Left(g, s) > 0
    ensures Ranked(g, s) && AtEdge(g, s)
    ensures var top := s.stack[|s.stack| - 1];
            && top.node < |g| && top.next < |g[top.node]| && TopEdge(g, s) == g[top.node][top.next]
            && (TopEdge(g, s).Some? ==> TopEdge(g, s).value < |g|)
  {
    hide Explored, MetEarly, Edge;
  }

  lemma {:induction false} NextFrame(s: State, frames: seq<Frame>)
    requires s.stack != [] && |s.stack| <= |frames| && frames[..|s.stack|] == s.stack
    ensures var top := |s.stack| - 1;
            frames[top := Frame(s.stack[top].node, s.stack[top].next + 1)][..|s.stack|] == Advance(s).stack
  {
  }

  lemma {:induction false} ShowMeet(g: Graph, s: State, color: seq<Color>, frames: seq<Frame>)
    requires Shown(g, s, color, frames) && s.stack != [] && Left(g, s) > 0
    requires Ranked(g, s) && AtEdge(g, s) && TopEdge(g, s).Some?
    requires TopEdge(g, s).value < |color| && color[TopEdge(g, s).value] == Gray
    ensures var t, top := Meet(g, s), |s.stack| - 1;
            && top < |frames|
            && Shown(g, t, color, frames[top := Frame(s.stack[top].node, s.stack[top].next + 1)])
            && |t.stack| == |s.stack| && t.mark == s.mark + {TopEdge(g, s).value} && t.order == s.order && Keeps(s, t)
            && Left(g, t) < Left(g, s) && Unseen(g, t) == Unseen(g, s)
    ensures OnCycle(g, TopEdge(g, s).value)
  {
    hide Inv, OnCycle;
    MeetInv(g, s);
    CycleFound(g, s);
    NextFrame(s, frames);
  }

  lemma {:induction false} ShowDescend(g: Graph, s: State, color: seq<Color>, frames: seq<Frame>)
    requires Shown(g, s, color, frames) && s.stack != [] && Left(g, s) > 0
    requires Ranked(g, s) && AtEdge(g, s) && TopEdge(g, s).Some?
    requires TopEdge(g, s).value < |color| && color[TopEdge(g, s).value] == White
    ensures |s.rank| == |g| == |frames| == |color| && |s.stack| < |g|
    ensures var t, top, c := Descend(|g|, s, TopEdge(g, s).value), |s.stack| - 1, TopEdge(g, s).value;
            && Shown(g, t, color[c := Gray],
                     frames[top := Frame(s.stack[top].node, s.stack[top].next + 1)][top + 1 := Frame(c, 0)])
            && |t.stack| == |s.stack| + 1 && t.mark == s.mark && t.order == s.order && Keeps(s, t)
            && Unseen(g, t) < Unseen(g, s)
  {
    hide Inv;
    var c, top := TopEdge(g, s).value, |s.stack| - 1;
    DescendInv(g, s);
    NextFrame(s, frames);
    var mid := frames[top := Frame(s.stack[top].node, s.stack[top].next + 1)];
    assert mid[top + 1 := Frame(c, 0)][..top + 2] == mid[..top + 1] + [Frame(c, 0)];
  }

  lemma {:induction false} ShowDone(g: Graph, s: State, color: seq<Color>, frames: seq<Frame>)
    requires Shown(g, s, color, frames) && s.stack == [] && |s.rank| == |g| && forall v :: 0 <= v < |g| ==> s.rank[v] >= 0
    ensures Inv(g, s) && AllSeen(g, s)
  {
  }

  lemma {:induction false} CyclicAt(g: Graph, v: nat)
    requires OnCycle(g, v)
    ensures Cyclic(g)
  {
  }
}
