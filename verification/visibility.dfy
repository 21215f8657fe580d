// Linking imports to files, and the files whose types each file sees.
module Visibility {
  import opened Descriptors
  import opened Options
  import opened Graphs
  import opened Imports

  // ----------------------------------------------------------------- linking

  /** The file of the first source with this path. */
  function Lookup(sources: seq<string>, files: seq<File?>, path: string): File?
    requires |sources| == |files|
  {
    var i := IndexFrom(sources, path, 0);
    if i.Some? then files[i.value] else null
  }

  /** Source `i` is the first with this path. */
  predicate FirstSource(sources: seq<string>, path: string, i: nat) {
    i < |sources| && sources[i] == path && forall j :: 0 <= j < i ==> sources[j] != path
  }

  /** `f` is the file of the first source with this path; null if no source has it. */
  predicate FileOf(sources: seq<string>, files: seq<File?>, path: string, f: File?)
    requires |sources| == |files|
  {
    || (f == null && path !in sources)
    || (exists i :: 0 <= i < |sources| && FirstSource(sources, path, i) && f == files[i])
  }

  lemma {:induction false} LookupIsFirst(sources: seq<string>, files: seq<File?>, path: string)
    requires |sources| == |files|
    ensures FileOf(sources, files, path, Lookup(sources, files, path))
    ensures forall f: File? :: FileOf(sources, files, path, f) ==> f == Lookup(sources, files, path)
  {
    var r := IndexFrom(sources, path, 0);
    assert sources[0..] == sources;
    if r.Some? {
      assert forall j :: 0 <= j < r.value ==> sources[0..r.value][j] == sources[j];
      assert FirstSource(sources, path, r.value);
    }
  }

  function Resolve(sources: seq<string>, files: seq<File?>, imp: Import): Import
    requires |sources| == |files|
  {
    imp.(resolved := Lookup(sources, files, imp.path))
  }

  function ResolveAll(sources: seq<string>, files: seq<File?>, imports: seq<Import>): (r: seq<Import>)
    requires |sources| == |files|
    ensures |r| == |imports|
  {
    seq(|imports|, k requires 0 <= k < |imports| => Resolve(sources, files, imports[k]))
  }

  predicate Found(sources: seq<string>, files: seq<File?>, imports: seq<Import>)
    requires |sources| == |files|
  {
    forall k :: 0 <= k < |imports| ==> Lookup(sources, files, imports[k].path) != null
  }

  method LookupFile(ctx: Context, path: string) returns (f: File?)
    requires |ctx.sources| == |ctx.files|
    ensures f == Lookup(ctx.sources, ctx.files, path) && FileOf(ctx.sources, ctx.files, path, f)
  {
    LookupIsFirst(ctx.sources, ctx.files, path);
    for i := 0 to |ctx.files|
      invariant IndexFrom(ctx.sources, path, 0) == IndexFrom(ctx.sources, path, i)
    {
      if |ctx.sources[i]| != |path| {
        continue;
      }
      if |path| == 0 {
        assert ctx.sources[i] == path;
        return ctx.files[i];
      }
      if ctx.sources[i] == path {
        return ctx.files[i];
      }
    }
    return null;
  }

  /** Resolving changes neither paths nor kinds, so a file may be met twice. */
  lemma {:induction false} ResolveTwice(sources: seq<string>, files: seq<File?>, imports: seq<Import>, k: nat)
    requires |sources| == |files| && k <= |imports|
    ensures var part := LinkedTo(sources, files, imports, k);
            && ResolveAll(sources, files, part) == ResolveAll(sources, files, imports)
            && (Found(sources, files, part) <==> Found(sources, files, imports))
  {
    hide Lookup;
    var part := LinkedTo(sources, files, imports, k);
    forall j | 0 <= j < |imports|
      ensures part[j].path == imports[j].path && Resolve(sources, files, part[j]) == Resolve(sources, files, imports[j])
    {
    }
  }

  /** Links one file's imports, up to the first whose target is missing. */
  method LinkFile(ctx: Context, f: File) returns (ok: bool)
    requires |ctx.sources| == |ctx.files|
    modifies f`imports
    ensures ok <==> Found(ctx.sources, ctx.files, old(f.imports))
    ensures Found(ctx.sources, ctx.files, f.imports) <==> Found(ctx.sources, ctx.files, old(f.imports))
    ensures ResolveAll(ctx.sources, ctx.files, f.imports) == ResolveAll(ctx.sources, ctx.files, old(f.imports))
    ensures ok ==> f.imports == ResolveAll(ctx.sources, ctx.files, old(f.imports))
  {
    hide Lookup, ResolveAll, Resolve, Found;
    ghost var was := f.imports;
    LinkNone(ctx.sources, ctx.files, was);
    for k := 0 to |f.imports|
      invariant |f.imports| == |was| && f.imports == LinkedTo(ctx.sources, ctx.files, was, k)
      invariant forall j :: 0 <= j < k ==> Lookup(ctx.sources, ctx.files, was[j].path) != null
    {
      ResolveTwice(ctx.sources, ctx.files, was, k);
      LinkStep(ctx.sources, ctx.files, was, k);
      var target := LookupFile(ctx, f.imports[k].path);
      if target == null {
        NotFound(ctx.sources, ctx.files, was, k);
        return false;
      }
      f.imports := f.imports[k := f.imports[k].(resolved := target)];
    }
    LinkNone(ctx.sources, ctx.files, was);
    ResolveTwice(ctx.sources, ctx.files, was, |was|);
    AllFound(ctx.sources, ctx.files, was);
    return true;
  }

  /** The first `k` imports linked. */
  function LinkedTo(sources: seq<string>, files: seq<File?>, imports: seq<Import>, k: nat): (r: seq<Import>)
    requires |sources| == |files| && k <= |imports|
    ensures |r| == |imports|
  {
    ResolveAll(sources, files, imports)[..k] + imports[k..]
  }

  lemma {:induction false} LinkNone(sources: seq<string>, files: seq<File?>, imports: seq<Import>)
    requires |sources| == |files|
    ensures LinkedTo(sources, files, imports, 0) == imports
    ensures LinkedTo(sources, files, imports, |imports|) == ResolveAll(sources, files, imports)
  {
  }

  lemma {:induction false} LinkStep(sources: seq<string>, files: seq<File?>, imports: seq<Import>, k: nat)
    requires |sources| == |files| && k < |imports|
    ensures var part := LinkedTo(sources, files, imports, k);
            && part[k] == imports[k]
            && part[k := Resolve(sources, files, imports[k])] == LinkedTo(sources, files, imports, k + 1)
            && Resolve(sources, files, imports[k]) == imports[k].(resolved := Lookup(sources, files, imports[k].path))
  {
    hide Lookup;
  }

  lemma {:induction false} NotFound(sources: seq<string>, files: seq<File?>, imports: seq<Import>, k: nat)
    requires |sources| == |files| && k < |imports| && Lookup(sources, files, imports[k].path) == null
    ensures !Found(sources, files, imports)
  {
  }

  lemma {:induction false} AllFound(sources: seq<string>, files: seq<File?>, imports: seq<Import>)
    requires |sources| == |files| && forall j :: 0 <= j < |imports| ==> Lookup(sources, files, imports[j].path) != null
    ensures Found(sources, files, imports)
  {
  }

  /** Sets every import's target, or stops at the first missing one. */
  method LinkImports(ctx: Context) returns (r: Outcome)
    requires |ctx.sources| == |ctx.files|
    modifies ctx, Members(ctx.files)`imports
    ensures r == ImportTargetNotFound <==>
              exists f :: f in Members(ctx.files) && !Found(ctx.sources, ctx.files, old(f.imports))
    ensures r == Fine ==>
              forall f :: f in Members(ctx.files) ==> f.imports == ResolveAll(ctx.sources, ctx.files, old(f.imports))
    ensures r == Fine ==> Linked(ctx.files)
    ensures r == Fine ==>
              forall f :: f in Members(ctx.files) ==> ImportsLinked(ctx.sources, ctx.files, old(f.imports), f.imports)
    ensures r != Fine ==>
              exists f, k :: f in Members(ctx.files) && 0 <= k < |old(f.imports)| && Missing(ctx.sources, ctx.files, old(f.imports)[k].path)
    ensures r != Fine ==>
              && r == ImportTargetNotFound == ctx.error && ctx.failedSource < |ctx.files|
              && ctx.files[ctx.failedSource] != null
              && var f := ctx.files[ctx.failedSource]; !Found(ctx.sources, ctx.files, old(f.imports))
  {
    hide Lookup, Found, ResolveAll, ImportsLinked, Missing;
    ghost var sources, files := ctx.sources, ctx.files;
    for i := 0 to |ctx.files|
      invariant forall f :: f in Members(files) ==>
                  && ResolveAll(sources, files, f.imports) == ResolveAll(sources, files, old(f.imports))
                  && (Found(sources, files, f.imports) <==> Found(sources, files, old(f.imports)))
      invariant forall j :: 0 <= j < i && files[j] != null ==>
                  && files[j].imports == ResolveAll(sources, files, old(files[j].imports))
                  && Found(sources, files, old(files[j].imports))
    {
      var f := ctx.files[i];
      if f == null {
        continue;
      }
      assert f in Members(files);
      var ok := LinkFile(ctx, f);
      if !ok {
        NotFoundMissing(sources, files, old(f.imports));
        ctx.error := ImportTargetNotFound;
        ctx.failedSource := i;
        return ImportTargetNotFound;
      }
    }
    forall f, k | f in Members(files) && 0 <= k < |f.imports| && f.imports[k].resolved != null
      ensures f.imports[k].resolved in Members(files)
    {
      ResolvedMember(sources, files, old(f.imports), k);
    }
    forall f | f in Members(files)
      ensures ImportsLinked(sources, files, old(f.imports), f.imports)
    {
      LinkedAsWritten(sources, files, old(f.imports));
    }
    return Fine;
  }

  /** Each import keeps its path and kind and leads to the file of the first
      source with that path. */
  predicate ImportsLinked(sources: seq<string>, files: seq<File?>, was: seq<Import>, now: seq<Import>)
    requires |sources| == |files|
  {
    && |now| == |was|
    && forall k :: 0 <= k < |was| ==>
         && now[k].path == was[k].path && now[k].isPublic == was[k].isPublic
         && now[k].resolved != null && FileOf(sources, files, was[k].path, now[k].resolved)
  }

  /** No source has this path, or the first that has it has no file. */
  predicate Missing(sources: seq<string>, files: seq<File?>, path: string)
    requires |sources| == |files|
  {
    FileOf(sources, files, path, null)
  }

  lemma {:induction false} LinkedAsWritten(sources: seq<string>, files: seq<File?>, imports: seq<Import>)
    requires |sources| == |files| && Found(sources, files, imports)
    ensures ImportsLinked(sources, files, imports, ResolveAll(sources, files, imports))
  {
    hide Lookup, FileOf;
    forall k | 0 <= k < |imports|
      ensures FileOf(sources, files, imports[k].path, Lookup(sources, files, imports[k].path))
    {
      LookupIsFirst(sources, files, imports[k].path);
    }
  }

  lemma {:induction false} NotFoundMissing(sources: seq<string>, files: seq<File?>, imports: seq<Import>)
    requires |sources| == |files|
    ensures !Found(sources, files, imports) <==> exists k :: 0 <= k < |imports| && Missing(sources, files, imports[k].path)
  {
    hide Lookup, FileOf;
    forall k | 0 <= k < |imports|
      ensures Missing(sources, files, imports[k].path) <==> Lookup(sources, files, imports[k].path) == null
    {
      LookupIsFirst(sources, files, imports[k].path);
    }
  }

  lemma {:induction false} ResolvedMember(sources: seq<string>, files: seq<File?>, imports: seq<Import>, k: nat)
    requires |sources| == |files| && Found(sources, files, imports) && k < |imports|
    ensures ResolveAll(sources, files, imports)[k].resolved in Members(files)
  {
  }

  // -------------------------------------------------------------- visibility

  /** The edges of public imports only. */
  ghost function PublicTargets(files: seq<File?>, imports: seq<Import>): (e: seq<Option<nat>>)
    ensures |e| == |imports|
    ensures forall k :: 0 <= k < |imports| ==> e[k] == if imports[k].isPublic then Target(files, imports[k]) else None
  {
    seq(|imports|, k requires 0 <= k < |imports| => if imports[k].isPublic then Target(files, imports[k]) else None)
  }

  ghost function PublicGraph(files: seq<File?>): (g: Graph)
    reads Members(files)`imports
    ensures PublicShows(files, g)
  {
    PublicUpto(files, |files|)
  }

  ghost function PublicUpto(files: seq<File?>, n: nat): (g: Graph)
    requires n <= |files|
    reads Members(files)`imports
    ensures |g| == n && forall i :: 0 <= i < n ==> g[i] == PublicTargets(files, ImportsOf(files[i]))
  {
    if n == 0 then [] else PublicUpto(files, n - 1) + [PublicTargets(files, ImportsOf(files[n - 1]))]
  }

  ghost predicate PublicShows(files: seq<File?>, g: Graph)
    reads Members(files)`imports
  {
    |g| == |files| && forall i :: 0 <= i < |files| ==> g[i] == PublicTargets(files, ImportsOf(files[i]))
  }

  /** Reached by one direct import and then public ones. */
  ghost predicate Via(files: seq<File?>, pub: Graph, imports: seq<Import>, t: File?) {
    exists c: nat, x: nat :: Some(c) in Targets(files, imports) && Reaches(pub, c, x) && x < |files| && files[x] == t
  }

  /** Every import was resolved to one of the files, or not at all. */
  ghost predicate Linked(files: seq<File?>)
    reads Members(files)`imports
  {
    forall f, k :: f in Members(files) && 0 <= k < |f.imports| && f.imports[k].resolved != null ==>
      f.imports[k].resolved in Members(files)
  }

  /** `seen` holds `f` first, then files it sees. */
  ghost predicate Sound(files: seq<File?>, pub: Graph, f: File, imports: seq<Import>, seen: seq<File?>) {
    && seen != [] && seen[0] == f && f in Members(files) && NoRepeats(seen)
    && forall k :: 1 <= k < |seen| ==> seen[k] != null && seen[k] in Members(files) && Via(files, pub, imports, seen[k])
  }

  predicate Covers(imports: seq<Import>, n: nat, publicOnly: bool, seen: seq<File?>) {
    forall k :: 0 <= k < n && k < |imports| && imports[k].resolved != null && (publicOnly ==> imports[k].isPublic) ==>
      imports[k].resolved in seen
  }

  lemma {:induction false} TargetOf(files: seq<File?>, imp: Import)
    requires imp.resolved != null && imp.resolved in Members(files)
    ensures Target(files, imp).Some? && Target(files, imp).value < |files| && files[Target(files, imp).value] == imp.resolved
  {
    assert files[0..] == files;
  }

  /** A directly imported file is seen. */
  lemma {:induction false} DirectSeen(files: seq<File?>, pub: Graph, imports: seq<Import>, k: nat)
    requires k < |imports| && imports[k].resolved != null && imports[k].resolved in Members(files)
    ensures Via(files, pub, imports, imports[k].resolved)
  {
    TargetOf(files, imports[k]);
    var c := Target(files, imports[k]).value;
    assert Targets(files, imports)[k] == Some(c);
    ReachesSelf(pub, c);
  }

  /** What a seen file imports publicly is seen. */
  lemma {:induction false} PublicSeen(files: seq<File?>, pub: Graph, imports: seq<Import>, t: File, k: nat)
    requires PublicShows(files, pub) && Via(files, pub, imports, t)
    requires k < |t.imports| && t.imports[k].isPublic && t.imports[k].resolved != null && t.imports[k].resolved in Members(files)
    ensures Via(files, pub, imports, t.imports[k].resolved)
  {
    hide Reaches, Target, Targets;
    var c: nat, x: nat :| Some(c) in Targets(files, imports) && Reaches(pub, c, x) && x < |files| && files[x] == t;
    TargetOf(files, t.imports[k]);
    var b := Target(files, t.imports[k]).value;
    assert pub[x][k] == Some(b);
    ReachesStep(pub, c, x, b);
  }

  /** Nothing that is seen is missing once all of `seen` is processed. */
  lemma {:induction false} Complete(files: seq<File?>, pub: Graph, f: File, seen: seq<File?>, t: File)
    requires PublicShows(files, pub) && Linked(files) && Sound(files, pub, f, f.imports, seen)
    requires Covers(f.imports, |f.imports|, false, seen)
    requires forall k :: 1 <= k < |seen| && seen[k] != null ==> Covers(seen[k].imports, |seen[k].imports|, true, seen)
    requires Via(files, pub, f.imports, t)
    ensures t in seen
  {
    hide PublicShows, Linked;
    var c: nat, x: nat :| Some(c) in Targets(files, f.imports) && Reaches(pub, c, x) && x < |files| && files[x] == t;
    var p :| IsPath(pub, p) && p[0] == c && p[|p| - 1] == x;
    var k :| 0 <= k < |f.imports| && Targets(files, f.imports)[k] == Some(c);
    assert files[c] == f.imports[k].resolved;
    AlongPath(files, pub, f, seen, p, |p| - 1);
  }

  lemma {:induction false} AlongPath(files: seq<File?>, pub: Graph, f: File, seen: seq<File?>, p: seq<nat>, i: nat)
    requires PublicShows(files, pub) && Sound(files, pub, f, f.imports, seen) && IsPath(pub, p) && i < |p|
    requires Covers(f.imports, |f.imports|, false, seen)
    requires forall k :: 1 <= k < |seen| && seen[k] != null ==> Covers(seen[k].imports, |seen[k].imports|, true, seen)
    requires p[0] < |files| && files[p[0]] in seen
    ensures p[i] < |files| && files[p[i]] in seen
    decreases i
  {
    hide Via, NoRepeats;
    if i > 0 {
      AlongPath(files, pub, f, seen, p, i - 1);
      var a, b := p[i - 1], p[i];
      assert Edge(pub, a, b);
      var k :| 0 <= k < |pub[a]| && pub[a][k] == Some(b);
      var imports := ImportsOf(files[a]);
      assert imports[k].isPublic && Target(files, imports[k]) == Some(b);
      assert files[b] == imports[k].resolved;
      var j :| 0 <= j < |seen| && seen[j] == files[a];
      if j > 0 {
        assert Covers(seen[j].imports, |seen[j].imports|, true, seen);
      }
    }
  }

  /** No room runs out: distinct members, and one more, are at most as many as files. */
  lemma {:induction false} Capacity(files: seq<File?>, seen: seq<File?>, t: File?)
    requires NoRepeats(seen) && t in files && t !in seen && forall k :: 0 <= k < |seen| ==> seen[k] in files
    ensures |seen| < |files|
  {
    CountElements(seen);
    assert Elements(seen) + {t} <= Elements(files);
    SubsetSize(Elements(seen) + {t}, Elements(files));
    AtMost(files);
  }

  lemma {:induction false} AtMost<T>(s: seq<T>)
    ensures |Elements(s)| <= |s|
    decreases |s|
  {
    if s == [] {
      assert Elements(s) == {};
    } else {
      var last := |s| - 1;
      AtMost(s[..last]);
      assert Elements(s) == Elements(s[..last]) + {s[last]} by {
        assert s == s[..last] + [s[last]];
      }
    }
  }

  // ------------------------------------------------------------ the closure

  method ContainsFile(arr: array<File?>, n: nat, f: File) returns (found: bool)
    requires n <= arr.Length
    ensures found <==> f in arr[..n]
  {
    for i := 0 to n
      invariant f !in arr[..i]
    {
      if arr[i] == f {
        return true;
      }
    }
    return false;
  }

  /** Adds one seen file unless it is there. */
  method AddFile(scratch: array<File?>, n: nat, t: File, ghost files: seq<File?>, ghost pub: Graph, ghost f: File)
    returns (m: nat)
    requires n <= scratch.Length == |files| && Sound(files, pub, f, f.imports, scratch[..n])
    requires t in Members(files) && Via(files, pub, f.imports, t)
    modifies scratch
    ensures n <= m <= scratch.Length && Sound(files, pub, f, f.imports, scratch[..m])
    ensures scratch[..n] == old(scratch[..n]) && t in scratch[..m]
  {
    hide Via;
    var found := ContainsFile(scratch, n, t);
    if found {
      return n;
    }
    Capacity(files, scratch[..n], t);
    scratch[n] := t;
    assert scratch[..n + 1] == old(scratch[..n]) + [t];
    return n + 1;
  }

  lemma {:induction false} CoversMore(imports: seq<Import>, n: nat, publicOnly: bool, s: seq<File?>, t: seq<File?>)
    requires Covers(imports, n, publicOnly, s) && s <= t
    ensures Covers(imports, n, publicOnly, t)
  {
  }

  lemma {:induction false} ProcessedMore(s: seq<File?>, t: seq<File?>, n: nat)
    requires Processed(s, n) && s <= t
    ensures Processed(t, n)
  {
    forall k | 1 <= k < n && t[k] != null
      ensures Covers(t[k].imports, |t[k].imports|, true, t)
    {
      CoversMore(t[k].imports, |t[k].imports|, true, s, t);
    }
  }

  /** The public imports of the first `n` entries, but for the file itself, are in. */
  ghost predicate Processed(seen: seq<File?>, n: nat)
    reads Members(seen)`imports
  {
    n <= |seen| && forall k :: 1 <= k < n && seen[k] != null ==> Covers(seen[k].imports, |seen[k].imports|, true, seen)
  }

  /** Adds what import `k` of `t` names. */
  method AddImport(imports: seq<Import>, k: nat, publicOnly: bool, scratch: array<File?>, n: nat, ghost files: seq<File?>,
                   ghost pub: Graph, ghost f: File)
    returns (m: nat)
    requires n <= scratch.Length == |files| && Sound(files, pub, f, f.imports, scratch[..n])
    requires k < |imports| && Covers(imports, k, publicOnly, scratch[..n])
    requires imports[k].resolved != null && (publicOnly ==> imports[k].isPublic) ==>
               imports[k].resolved in Members(files) && Via(files, pub, f.imports, imports[k].resolved)
    modifies scratch
    ensures n <= m <= scratch.Length && Sound(files, pub, f, f.imports, scratch[..m])
    ensures scratch[..n] == old(scratch[..n]) && Covers(imports, k + 1, publicOnly, scratch[..m])
    ensures old(scratch[..n]) <= scratch[..m]
  {
    hide Via, Sound;
    m := n;
    if publicOnly && !imports[k].isPublic {
      return;
    }
    var t := imports[k].resolved;
    if t == null {
      return;
    }
    m := AddFile(scratch, n, t, files, pub, f);
    assert scratch[..m][..n] == scratch[..n];
    CoversMore(imports, k, publicOnly, old(scratch[..n]), scratch[..m]);
  }

  /** The files `f` sees: itself, its direct imports, and what those reach by
      public imports alone. */
  method VisibleFrom(files: seq<File?>, f: File, ghost pub: Graph) returns (scratch: array<File?>, n: nat)
    requires f in Members(files) && Linked(files) && PublicShows(files, pub)
    ensures fresh(scratch) && n <= scratch.Length == |files|
    ensures Sound(files, pub, f, f.imports, scratch[..n])
    ensures forall t :: t in Members(files) && Via(files, pub, f.imports, t) ==> t in scratch[..n]
  {
    hide Via, Sound, Linked, PublicShows;
    scratch := new File?[|files|](_ => null);
    n := First(files, f, pub, scratch);
    for k := 0 to |f.imports|
      invariant n <= scratch.Length && Sound(files, pub, f, f.imports, scratch[..n])
      invariant Covers(f.imports, k, false, scratch[..n])
      invariant Linked(files) && PublicShows(files, pub)
    {
      LinkedAt(files, f, k);
      if f.imports[k].resolved != null {
        DirectSeen(files, pub, f.imports, k);
      }
      n := AddImport(f.imports, k, false, scratch, n, files, pub, f);
    }
    SoundSome(files, pub, f, scratch[..n]);
    var processing := 1;
    while processing < n
      invariant 1 <= processing <= n <= scratch.Length && Sound(files, pub, f, f.imports, scratch[..n])
      invariant Covers(f.imports, |f.imports|, false, scratch[..n]) && Processed(scratch[..n], processing)
      invariant Linked(files) && PublicShows(files, pub)
      decreases scratch.Length - processing
    {
      SoundAt(files, pub, f, scratch[..n], processing);
      var cur := scratch[processing];
      for k := 0 to |cur.imports|
        invariant processing < n <= scratch.Length && Sound(files, pub, f, f.imports, scratch[..n])
        invariant scratch[..n][processing] == cur
        invariant Covers(f.imports, |f.imports|, false, scratch[..n]) && Processed(scratch[..n], processing)
        invariant Covers(cur.imports, k, true, scratch[..n])
        invariant Linked(files) && PublicShows(files, pub)
      {
        LinkedAt(files, cur, k);
        if cur.imports[k].isPublic && cur.imports[k].resolved != null {
          PublicSeen(files, pub, f.imports, cur, k);
        }
        ghost var seen := scratch[..n];
        n := AddImport(cur.imports, k, true, scratch, n, files, pub, f);
        CoversMore(f.imports, |f.imports|, false, seen, scratch[..n]);
        ProcessedMore(seen, scratch[..n], processing);
      }
      OneMoreProcessed(scratch[..n], processing);
      processing := processing + 1;
    }
    forall t | t in Members(files) && Via(files, pub, f.imports, t)
      ensures t in scratch[..n]
    {
      Complete(files, pub, f, scratch[..n], t);
    }
  }

  method First(files: seq<File?>, f: File, ghost pub: Graph, scratch: array<File?>) returns (n: nat)
    requires f in Members(files) && scratch.Length == |files|
    modifies scratch
    ensures n == 1 <= scratch.Length && Sound(files, pub, f, f.imports, scratch[..n])
  {
    scratch[0] := f;
    assert scratch[..1] == [f];
    return 1;
  }

  lemma {:induction false} SoundSome(files: seq<File?>, pub: Graph, f: File, seen: seq<File?>)
    requires Sound(files, pub, f, f.imports, seen)
    ensures |seen| >= 1 && Processed(seen, 1)
  {
  }

  lemma {:induction false} SoundAt(files: seq<File?>, pub: Graph, f: File, seen: seq<File?>, k: nat)
    requires Sound(files, pub, f, f.imports, seen) && 1 <= k < |seen|
    ensures seen[k] != null && seen[k] in Members(files) && Via(files, pub, f.imports, seen[k])
  {
  }

  lemma {:induction false} LinkedAt(files: seq<File?>, f: File, k: nat)
    requires Linked(files) && f in Members(files) && k < |f.imports|
    ensures f.imports[k].resolved != null ==> f.imports[k].resolved in Members(files)
  {
  }

  lemma {:induction false} OneMoreProcessed(seen: seq<File?>, n: nat)
    requires 1 <= n < |seen| && Processed(seen, n) && seen[n] != null
    requires Covers(seen[n].imports, |seen[n].imports|, true, seen)
    ensures Processed(seen, n + 1)
  {
  }

  /** The array holds each seen file once, the file itself first, and no other. */
  ghost predicate SeesExactly(files: seq<File?>, pub: Graph, f: File, imports: seq<Import>, visible: seq<File>) {
    && visible != [] && visible[0] == f && NoRepeats(visible) && |visible| <= |files|
    && (forall k :: 0 <= k < |visible| ==> visible[k] in Members(files))
    && (forall t :: t in Members(files) ==> (t in visible <==> t == f || Via(files, pub, imports, t)))
  }

  method Compact(scratch: array<File?>, n: nat) returns (items: seq<File>)
    requires n <= scratch.Length && forall k :: 0 <= k < n ==> scratch[k] != null
    ensures |items| == n && forall k :: 0 <= k < n ==> items[k] == scratch[k]
  {
    items := [];
    for k := 0 to n
      invariant |items| == k && forall j :: 0 <= j < k ==> items[j] == scratch[j]
    {
      items := items + [scratch[k]];
    }
  }

  lemma {:induction false} CompactExact(files: seq<File?>, pub: Graph, f: File, seen: seq<File?>, items: seq<File>)
    requires Sound(files, pub, f, f.imports, seen) && |seen| <= |files|
    requires forall t :: t in Members(files) && Via(files, pub, f.imports, t) ==> t in seen
    requires |items| == |seen| && forall k :: 0 <= k < |seen| ==> items[k] == seen[k]
    ensures SeesExactly(files, pub, f, f.imports, items)
  {
    hide Via;
    forall t | t in Members(files)
      ensures t in items <==> t in seen
    {
      if t in seen {
        var k :| 0 <= k < |seen| && seen[k] == t;
        assert items[k] == t;
      }
    }
  }

  method VisibleItems(files: seq<File?>, f: File, ghost pub: Graph) returns (items: seq<File>)
    requires f in Members(files) && Linked(files) && PublicShows(files, pub)
    ensures SeesExactly(files, pub, f, f.imports, items)
  {
    hide Linked, PublicShows, Via, SeesExactly, NoRepeats, Members;
    var scratch, n := VisibleFrom(files, f, pub);
    forall k | 0 <= k < n
      ensures scratch[k] != null
    {
      assert scratch[k] == scratch[..n][k];
    }
    items := Compact(scratch, n);
    CompactExact(files, pub, f, scratch[..n], items);
  }

  /** `view` holds `f`, the files it imports, and with every file the ones that
      file imports publicly. */
  ghost predicate ViewOf(f: File, view: set<File>)
    reads f`imports, view`imports
  {
    && f in view
    && (forall k :: 0 <= k < |f.imports| && f.imports[k].resolved != null ==> f.imports[k].resolved in view)
    && (forall t, k :: t in view && 0 <= k < |t.imports| && t.imports[k].isPublic && t.imports[k].resolved != null ==>
         t.imports[k].resolved in view)
  }

  lemma {:induction false} SeenIsView(files: seq<File?>, pub: Graph, f: File, visible: seq<File>)
    requires PublicShows(files, pub) && Linked(files) && f in Members(files) && SeesExactly(files, pub, f, f.imports, visible)
    ensures ViewOf(f, set t | t in visible)
  {
    hide Via, PublicShows, NoRepeats;
    forall k | 0 <= k < |f.imports| && f.imports[k].resolved != null
      ensures f.imports[k].resolved in visible
    {
      DirectSeen(files, pub, f.imports, k);
    }
    forall t, k | t in visible && 0 <= k < |t.imports| && t.imports[k].isPublic && t.imports[k].resolved != null
      ensures t.imports[k].resolved in visible
    {
      if t == f {
        DirectSeen(files, pub, f.imports, k);
      } else {
        PublicSeen(files, pub, f.imports, t, k);
      }
    }
  }

  lemma {:induction false} SeenIsLeast(files: seq<File?>, pub: Graph, f: File, visible: seq<File>, view: set<File>)
    requires PublicShows(files, pub) && Linked(files) && f in Members(files) && SeesExactly(files, pub, f, f.imports, visible)
    requires ViewOf(f, view)
    ensures forall t :: t in visible ==> t in view
  {
    hide PublicShows, NoRepeats, Reaches;
    forall t | t in visible
      ensures t in view
    {
      if t != f {
        var c: nat, x: nat :| Some(c) in Targets(files, f.imports) && Reaches(pub, c, x) && x < |files| && files[x] == t;
        ViewReached(files, pub, f, view, c, x);
      }
    }
  }

  lemma {:induction false} ViewReached(files: seq<File?>, pub: Graph, f: File, view: set<File>, c: nat, x: nat)
    requires PublicShows(files, pub) && ViewOf(f, view) && Some(c) in Targets(files, f.imports) && Reaches(pub, c, x)
    ensures x < |files| && files[x] != null && files[x] in view
  {
    hide PublicShows;
    var k :| 0 <= k < |f.imports| && Targets(files, f.imports)[k] == Some(c);
    assert files[c] == f.imports[k].resolved;
    var p :| IsPath(pub, p) && p[0] == c && p[|p| - 1] == x;
    ViewAlong(files, pub, f, view, p, |p| - 1);
  }

  lemma {:induction false} ViewAlong(files: seq<File?>, pub: Graph, f: File, view: set<File>, p: seq<nat>, i: nat)
    requires PublicShows(files, pub) && ViewOf(f, view) && IsPath(pub, p) && i < |p|
    requires p[0] < |files| && files[p[0]] != null && files[p[0]] in view
    ensures p[i] < |files| && files[p[i]] != null && files[p[i]] in view
    decreases i
  {
    if i > 0 {
      ViewAlong(files, pub, f, view, p, i - 1);
      var a, b := p[i - 1], p[i];
      assert Edge(pub, a, b);
      var k :| 0 <= k < |pub[a]| && pub[a][k] == Some(b);
      var t := files[a];
      assert t.imports[k].isPublic && Target(files, t.imports[k]) == Some(b);
      assert files[b] == t.imports[k].resolved;
    }
  }

  /** Fills every file's `visible`. */
  method ComputeVisibility(ctx: Context)
    requires Linked(ctx.files)
    modifies Members(ctx.files)`visible
    ensures var files, pub := ctx.files, old(PublicGraph(ctx.files));
            forall f :: f in Members(files) ==> SeesExactly(files, pub, f, f.imports, f.visible)
    ensures forall f :: f in Members(ctx.files) ==> ViewOf(f, set t | t in f.visible)
    ensures forall f, view: set<File> :: f in Members(ctx.files) && ViewOf(f, view) ==> (set t | t in f.visible) <= view
  {
    hide SeesExactly, PublicGraph, ViewOf;
    ghost var pub := PublicGraph(ctx.files);
    var files := ctx.files;
    for i := 0 to |files|
      invariant Linked(files) && PublicShows(files, pub)
      invariant forall j :: 0 <= j < i && files[j] != null ==>
                  SeesExactly(files, pub, files[j], files[j].imports, files[j].visible)
    {
      var f := files[i];
      if f == null {
        continue;
      }
      assert f in Members(files);
      var items := VisibleItems(files, f, pub);
      f.visible := items;
    }
    forall f | f in Members(files)
      ensures ViewOf(f, set t | t in f.visible)
    {
      SeenIsView(files, pub, f, f.visible);
    }
    forall f, view: set<File> | f in Members(files) && ViewOf(f, view)
      ensures (set t | t in f.visible) <= view
    {
      SeenIsLeast(files, pub, f, f.visible, view);
    }
  }
}
