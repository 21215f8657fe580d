// Dotted names: parsing, comparison and extension.
module Names {
  import opened Descriptors
  import opened Options

  /** A name, and whether a leading dot marks it as absolute. */
  datatype Scoped = Scoped(segments: Name, absolute: bool)

  predicate Segment(s: string) {
    s != "" && '.' !in s
  }

  predicate Proper(n: Name) {
    n != [] && forall i :: 0 <= i < |n| ==> Segment(n[i])
  }

  function Join(n: Name): string
    requires n != []
  {
    if |n| == 1 then n[0] else n[0] + "." + Join(n[1..])
  }

  /** How the name is written. */
  function Written(n: Scoped): string
    requires n.segments != []
  {
    (if n.absolute then "." else "") + Join(n.segments)
  }

  /** The first dot from index `i` on, or |s|. */
  function Dot(s: string, i: nat): (d: nat)
    requires i <= |s|
    ensures i <= d <= |s| && (d < |s| ==> s[d] == '.')
    ensures forall k :: i <= k < d ==> s[k] != '.'
    decreases |s| - i
  {
    if i == |s| || s[i] == '.' then i else Dot(s, i + 1)
  }

  /** The segments of `s` from index `i` on; none if one of them is empty. */
  function Segments(s: string, i: nat): Option<Name>
    requires i <= |s|
    decreases |s| - i
  {
    var d := Dot(s, i);
    if d == i then None
    else if d == |s| then Some([s[i..]])
    else
      match Segments(s, d + 1)
      case None => None
      case Some(rest) => Some([s[i..d]] + rest)
  }

  function Parse(s: string): Option<Scoped> {
    var start := if s != "" && s[0] == '.' then 1 else 0;
    match Segments(s, start)
    case None => None
    case Some(n) => Some(Scoped(n, start == 1))
  }

  lemma {:induction false} DotIs(s: string, i: nat, d: nat)
    requires i <= d <= |s| && (d < |s| ==> s[d] == '.') && forall k :: i <= k < d ==> s[k] != '.'
    ensures Dot(s, i) == d
  {
  }

  lemma {:induction false} SegmentsJoin(s: string, i: nat)
    requires i <= |s| && Segments(s, i).Some?
    ensures Proper(Segments(s, i).value) && Join(Segments(s, i).value) == s[i..]
    decreases |s| - i
  {
    var d := Dot(s, i);
    if d < |s| {
      SegmentsJoin(s, d + 1);
      var n := Segments(s, i).value;
      assert n[1..] == Segments(s, d + 1).value;
      assert s[i..] == s[i..d] + "." + s[d + 1..];
    }
  }

  lemma {:induction false} FirstSegment(s: string, i: nat, a: string, rest: string)
    requires i <= |s| && '.' !in a && s[i..] == a + "." + rest
    ensures Dot(s, i) == i + |a| < |s| && s[i..i + |a|] == a && s[i + |a| + 1..] == rest
  {
    var t := s[i..];
    assert forall k :: i <= k < i + |a| ==> s[k] == t[k - i] == a[k - i];
    assert s[i + |a|] == t[|a|] == '.';
    DotIs(s, i, i + |a|);
    assert s[i..i + |a|] == t[..|a|] && s[i + |a| + 1..] == t[|a| + 1..];
  }

  lemma {:induction false} LastSegment(s: string, i: nat, a: string)
    requires i <= |s| && '.' !in a && s[i..] == a
    ensures Dot(s, i) == |s|
  {
    assert forall k :: i <= k < |s| ==> s[k] == a[k - i];
    DotIs(s, i, |s|);
  }

  lemma {:induction false} JoinSegments(n: Name, s: string, i: nat)
    requires Proper(n) && i <= |s| && s[i..] == Join(n)
    ensures Segments(s, i) == Some(n)
    decreases |n|
  {
    hide Dot;
    assert Segment(n[0]);
    if |n| == 1 {
      LastSegment(s, i, n[0]);
      assert [n[0]] == n;
    } else {
      FirstSegment(s, i, n[0], Join(n[1..]));
      JoinSegments(n[1..], s, i + |n[0]| + 1);
      assert [n[0]] + n[1..] == n;
    }
  }

  /** A span parses to a name exactly when the name is proper and written so. */
  lemma {:induction false} ParseIsInverse(s: string, n: Scoped)
    ensures Parse(s) == Some(n) <==> Proper(n.segments) && Written(n) == s
  {
    hide Segments, Join;
    var start := if s != "" && s[0] == '.' then 1 else 0;
    assert start == 1 ==> s == "." + s[1..];
    assert s[0..] == s;
    if Segments(s, start).Some? {
      SegmentsJoin(s, start);
    }
    if Proper(n.segments) && Written(n) == s {
      JoinStarts(n.segments);
      if n.absolute {
        assert s[1..] == Join(n.segments);
      }
      JoinSegments(n.segments, s, start);
    }
  }

  lemma {:induction false} JoinStarts(n: Name)
    requires Proper(n)
    ensures Join(n) != "" && Join(n)[0] != '.'
  {
    assert Segment(n[0]) && n[0][0] in n[0];
  }

  /** `gremlind_scoped_name_parse` */
  method ParseName(span: string) returns (r: Option<Scoped>)
    ensures r == Parse(span)
  {
    hide Segments;
    var i, absolute := 0, false;
    if |span| > 0 && span[0] == '.' {
      absolute, i := true, 1;
    }
    if i >= |span| {
      SegmentsEnd(span, i);
      return None;
    }
    var nSegs := 1;
    for k := i to |span|
      invariant nSegs == 1 + Dots(span, i, k)
    {
      if span[k] == '.' {
        nSegs := nSegs + 1;
      }
    }
    var segs := new string[nSegs](_ => "");
    var ok := FillSegments(span, i, segs);
    return if ok then Some(Scoped(segs[..], absolute)) else None;
  }

  /** Cuts the span at its dots; fails on an empty segment. */
  method FillSegments(span: string, i: nat, segs: array<string>) returns (ok: bool)
    requires i < |span| && segs.Length == 1 + Dots(span, i, |span|)
    modifies segs
    ensures Segments(span, i) == if ok then Some(segs[..]) else None
  {
    hide Segments, After;
    var segStart, segIdx := i, 0;
    assert segs[..0] == [];
    NothingBefore(Segments(span, i));
    for k := i to |span|
      invariant i <= segStart <= k && segIdx == Dots(span, i, k) <= segs.Length
      invariant forall j :: segStart <= j < k ==> span[j] != '.'
      invariant Segments(span, i) == After(segs[..segIdx], Segments(span, segStart))
    {
      DotsGrow(span, i, k + 1, |span|);
      if span[k] == '.' {
        DotIs(span, segStart, k);
        SegmentsStep(span, segStart);
        if k == segStart {
          AfterNone(segs[..segIdx]);
          return false;
        }
        AfterAfter(segs[..segIdx], span[segStart..k], Segments(span, k + 1));
        segs[segIdx] := span[segStart..k];
        assert segs[..segIdx + 1] == segs[..segIdx] + [span[segStart..k]];
        segIdx := segIdx + 1;
        segStart := k + 1;
      }
    }
    if segStart >= |span| {
      SegmentsEnd(span, segStart);
      AfterNone(segs[..segIdx]);
      return false;
    }
    DotIs(span, segStart, |span|);
    SegmentsStep(span, segStart);
    AfterSome(segs[..segIdx], [span[segStart..]]);
    segs[segIdx] := span[segStart..];
    assert segs[..] == segs[..segIdx] + [span[segStart..]];
    return true;
  }

  lemma {:induction false} AfterNone(segs: Name)
    ensures After(segs, None) == None
  {
  }

  lemma {:induction false} AfterSome(segs: Name, rest: Name)
    ensures After(segs, Some(rest)) == Some(segs + rest)
  {
  }

  /** The dots in s[i..k]. */
  function Dots(s: string, i: nat, k: nat): nat
    requires i <= k <= |s|
  {
    if k == i then 0 else Dots(s, i, k - 1) + if s[k - 1] == '.' then 1 else 0
  }

  lemma {:induction false} DotsGrow(s: string, i: nat, k: nat, m: nat)
    requires i <= k <= m <= |s|
    ensures Dots(s, i, k) <= Dots(s, i, m)
    decreases m
  {
    if k < m {
      DotsGrow(s, i, k, m - 1);
    }
  }

  lemma {:induction false} NothingBefore(rest: Option<Name>)
    ensures After([], rest) == rest
  {
    if rest.Some? {
      assert [] + rest.value == rest.value;
    }
  }

  lemma {:induction false} AfterAfter(segs: Name, x: string, rest: Option<Name>)
    ensures After(segs, After([x], rest)) == After(segs + [x], rest)
  {
    if rest.Some? {
      assert segs + ([x] + rest.value) == (segs + [x]) + rest.value;
    }
  }

  function After(segs: Name, rest: Option<Name>): Option<Name> {
    if rest.Some? then Some(segs + rest.value) else None
  }

  lemma {:induction false} SegmentsEnd(s: string, i: nat)
    requires i == |s|
    ensures Segments(s, i) == None
  {
  }

  lemma {:induction false} SegmentsStep(s: string, i: nat)
    requires i <= |s|
    ensures var d := Dot(s, i);
            Segments(s, i) ==
            if d == i then None else if d == |s| then Some([s[i..]]) else After([s[i..d]], Segments(s, d + 1))
  {
  }

  method NameEq(a: Name, b: Name) returns (eq: bool)
    ensures eq <==> a == b
  {
    if |a| != |b| {
      return false;
    }
    for i := 0 to |a|
      invariant a[..i] == b[..i]
    {
      if a[i] != b[i] {
        return false;
      }
    }
    return true;
  }
}
