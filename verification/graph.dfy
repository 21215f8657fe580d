// Directed graphs as the passes see them: nodes are array indices, and an edge
// slot may lead nowhere (an unresolved import, a field that is no message).
module Graphs {
  import opened Options

  type Graph = seq<seq<Option<nat>>>

  predicate WellFormed(g: Graph) {
    forall u, j :: 0 <= u < |g| && 0 <= j < |g[u]| && g[u][j].Some? ==> g[u][j].value < |g|
  }

  predicate Edge(g: Graph, u: nat, v: nat) {
    u < |g| && Some(v) in g[u]
  }

  predicate IsPath(g: Graph, p: seq<nat>) {
    p != [] && forall k :: 0 <= k < |p| - 1 ==> Edge(g, p[k], p[k + 1])
  }

  ghost predicate Reaches(g: Graph, u: nat, v: nat) {
    exists p :: IsPath(g, p) && p[0] == u && p[|p| - 1] == v
  }

  ghost predicate OnCycle(g: Graph, v: nat) {
    exists p :: IsPath(g, p) && |p| >= 2 && p[0] == v && p[|p| - 1] == v
  }

  ghost predicate Cyclic(g: Graph) {
    exists v :: OnCycle(g, v)
  }

  lemma {:induction false} ReachesSelf(g: Graph, v: nat)
    ensures Reaches(g, v, v)
  {
    assert IsPath(g, [v]);
  }

  lemma {:induction false} ReachesStep(g: Graph, u: nat, v: nat, x: nat)
    requires Reaches(g, u, v) && Edge(g, v, x)
    ensures Reaches(g, u, x)
  {
    hide Edge;
    var p :| IsPath(g, p) && p[0] == u && p[|p| - 1] == v;
    var q := p + [x];
    forall k | 0 <= k < |q| - 1
      ensures Edge(g, q[k], q[k + 1])
    {
      if k == |p| - 1 {
        assert q[k] == v && q[k + 1] == x;
      } else {
        assert q[k] == p[k] && q[k + 1] == p[k + 1];
      }
    }
    assert IsPath(g, q);
  }

  /** An edge back to where one came from closes a cycle. */
  lemma {:induction false} ClosesCycle(g: Graph, u: nat, v: nat)
    requires Edge(g, u, v) && Reaches(g, v, u)
    ensures OnCycle(g, v) && OnCycle(g, u)
  {
    hide Edge;
    var p :| IsPath(g, p) && p[0] == v && p[|p| - 1] == u;
    var q, r := p + [v], [u] + p;
    forall k | 0 <= k < |q| - 1
      ensures Edge(g, q[k], q[k + 1])
    {
      if k == |p| - 1 {
        assert q[k] == u && q[k + 1] == v;
      } else {
        assert q[k] == p[k] && q[k + 1] == p[k + 1];
      }
    }
    forall k | 0 <= k < |r| - 1
      ensures Edge(g, r[k], r[k + 1])
    {
      if k == 0 {
        assert r[0] == u && r[1] == v;
      } else {
        assert r[k] == p[k - 1] && r[k + 1] == p[k];
      }
    }
    assert IsPath(g, q) && IsPath(g, r);
  }

  // ---------------------------------------------------------- counting nodes

  predicate NoRepeats<T(==)>(s: seq<T>) {
    forall i, j :: 0 <= i < j < |s| ==> s[i] != s[j]
  }

  function Elements<T(==)>(s: seq<T>): set<T> {
    set x | x in s
  }

  lemma {:induction false} CountElements<T>(s: seq<T>)
    requires NoRepeats(s)
    ensures |Elements(s)| == |s|
    decreases |s|
  {
    if s != [] {
      var last := |s| - 1;
      CountElements(s[..last]);
      assert Elements(s) == Elements(s[..last]) + {s[last]} by {
        assert s == s[..last] + [s[last]];
      }
      assert s[last] !in s[..last];
    }
  }

  lemma {:induction false} SubsetSize<T>(a: set<T>, b: set<T>)
    requires a <= b
    ensures |a| <= |b|
    ensures |a| == |b| ==> a == b
  {
    assert b == a + (b - a);
    assert |b| == |a| + |b - a|;
    if |a| == |b| {
      assert b - a == {};
    }
  }

  function Upto(n: nat): (s: set<nat>)
    ensures forall x: nat :: x in s <==> x < n
    ensures |s| == n
  {
    if n == 0 then {} else Upto(n - 1) + {n - 1}
  }

  /** At most n distinct indices below n, and exactly n if none is missing. */
  lemma {:induction false} Pigeonhole(s: seq<nat>, n: nat)
    requires NoRepeats(s) && forall i :: 0 <= i < |s| ==> s[i] < n
    ensures |s| <= n
    ensures (exists v: nat :: v < n && v !in s) ==> |s| < n
    ensures (forall v: nat :: v < n ==> v in s) ==> |s| == n
  {
    CountElements(s);
    SubsetSize(Elements(s), Upto(n));
    if v: nat :| v < n && v !in s {
      assert v in Upto(n) && v !in Elements(s);
    }
    if forall v: nat :: v < n ==> v in s {
      assert Elements(s) == Upto(n);
    }
  }
}
