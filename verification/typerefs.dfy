// Type references: the scope walk over the visible files.
module TypeRefs {
  import opened Descriptors
  import opened Graphs
  import opened Options
  import opened Imports
  import opened Names

  /** A declared type under its full name. */
  datatype Listing = Listing(name: Name, ty: TypeRef)

  /** `entries` are a file's messages and then its enums. */
  ghost predicate Lists(f: File, entries: seq<Listing>)
    reads f`messages, f`enums, (set m | m in f.messages)`scopedName, (set e | e in f.enums)`scopedName
  {
    && |entries| == |f.messages| + |f.enums|
    && (forall i :: 0 <= i < |f.messages| ==> entries[i] == Listing(f.messages[i].scopedName, MessageRef(f.messages[i])))
    && (forall i :: 0 <= i < |f.enums| ==>
         entries[|f.messages| + i] == Listing(f.enums[i].scopedName, EnumRef(f.enums[i])))
  }

  type Directory = map<File, seq<Listing>>

  ghost predicate Catalogued(files: set<File>, dir: Directory)
    reads files`messages, files`enums, (set f, m | f in files && m in f.messages :: m)`scopedName,
          (set f, e | f in files && e in f.enums :: e)`scopedName
  {
    forall f :: f in files ==> f in dir && Lists(f, dir[f])
  }

  /** Everything visible, in visibility order. */
  function Entries(dir: Directory, visible: seq<File>): seq<Listing> {
    if visible == [] then []
    else
      var last := visible[|visible| - 1];
      Entries(dir, visible[..|visible| - 1]) + (if last in dir then dir[last] else [])
  }

  function FirstOf(entries: seq<Listing>, target: Name): Option<TypeRef> {
    if entries == [] then None
    else if entries[0].name == target then Some(entries[0].ty)
    else FirstOf(entries[1..], target)
  }

  lemma {:induction false} FirstOfAppend(a: seq<Listing>, b: seq<Listing>, target: Name)
    ensures FirstOf(a + b, target) == if FirstOf(a, target).Some? then FirstOf(a, target) else FirstOf(b, target)
    decreases a
  {
    if a == [] {
      assert a + b == b;
    } else {
      assert (a + b)[1..] == a[1..] + b;
      FirstOfAppend(a[1..], b, target);
    }
  }

  lemma {:induction false} FirstAt(entries: seq<Listing>, target: Name, i: nat)
    requires i < |entries| && entries[i].name == target && forall j :: 0 <= j < i ==> entries[j].name != target
    ensures FirstOf(entries, target) == Some(entries[i].ty)
    decreases i
  {
    if i > 0 {
      FirstAt(entries[1..], target, i - 1);
    }
  }

  lemma {:induction false} FirstNowhere(entries: seq<Listing>, target: Name)
    requires forall j :: 0 <= j < |entries| ==> entries[j].name != target
    ensures FirstOf(entries, target) == None
    decreases entries
  {
    if entries != [] {
      FirstNowhere(entries[1..], target);
    }
  }

  method LookupInFile(f: File, target: Name, ghost entries: seq<Listing>) returns (r: Option<TypeRef>)
    requires Lists(f, entries)
    ensures r == FirstOf(entries, target)
  {
    hide FirstOf;
    for m := 0 to |f.messages|
      invariant forall j :: 0 <= j < m ==> entries[j].name != target
    {
      var eq := NameEq(f.messages[m].scopedName, target);
      if eq {
        FirstAt(entries, target, m);
        return Some(MessageRef(f.messages[m]));
      }
    }
    var n := |f.messages|;
    for e := 0 to |f.enums|
      invariant forall j :: 0 <= j < n + e ==> entries[j].name != target
    {
      assert entries[n + e] == Listing(f.enums[e].scopedName, EnumRef(f.enums[e]));
      var eq := NameEq(f.enums[e].scopedName, target);
      if eq {
        FirstAt(entries, target, n + e);
        return Some(EnumRef(f.enums[e]));
      }
    }
    FirstNowhere(entries, target);
    return None;
  }

  method LookupInVisible(target: Name, visible: seq<File>, ghost dir: Directory) returns (r: Option<TypeRef>)
    requires Catalogued((set f | f in visible), dir)
    ensures r == FirstOf(Entries(dir, visible), target)
  {
    hide FirstOf, Lists;
    FirstOfNothing(target);
    for i := 0 to |visible|
      invariant FirstOf(Entries(dir, visible[..i]), target) == None
    {
      var f := visible[i];
      assert visible[..i + 1][..i] == visible[..i];
      FirstOfAppend(Entries(dir, visible[..i]), dir[f], target);
      r := LookupInFile(f, target, dir[f]);
      if r.Some? {
        FirstOfMore(dir, visible, i + 1, target);
        return;
      }
    }
    assert visible[..|visible|] == visible;
    return None;
  }

  lemma {:induction false} FirstOfNothing(target: Name)
    ensures FirstOf([], target) == None
  {
  }

  /** Later files do not matter once a name is found. */
  lemma {:induction false} FirstOfMore(dir: Directory, visible: seq<File>, n: nat, target: Name)
    requires n <= |visible| && FirstOf(Entries(dir, visible[..n]), target).Some?
    ensures FirstOf(Entries(dir, visible), target) == FirstOf(Entries(dir, visible[..n]), target)
    decreases |visible| - n
  {
    hide FirstOf;
    if n == |visible| {
      assert visible[..n] == visible;
    } else {
      var more := visible[..n + 1];
      assert more[..n] == visible[..n];
      FirstOfAppend(Entries(dir, visible[..n]), if visible[n] in dir then dir[visible[n]] else [], target);
      FirstOfMore(dir, visible, n + 1, target);
    }
  }

  // ---------------------------------------------------------- the scope walk

  const BUILTINS: seq<string> := [
    "double", "float", "int32", "int64", "uint32", "uint64", "sint32", "sint64", "fixed32", "fixed64", "sfixed32", "sfixed64",
    "bool", "string", "bytes"]

  datatype Resolution = Resolved(ty: TypeRef) | TypeNotFound | InvalidName

  function FromLookup(r: Option<TypeRef>): Resolution {
    match r
    case Some(t) => Resolved(t)
    case None => TypeNotFound
  }

  /** The first visible match of the prefix of length `k` with `ref` behind it. */
  function Match(entries: seq<Listing>, scope: Name, ref: Name, k: nat): Option<TypeRef>
    requires k <= |scope|
  {
    FirstOf(entries, scope[..k] + ref)
  }

  /** Tries the prefix of length `k`, then shorter ones. */
  function Walk(entries: seq<Listing>, scope: Name, ref: Name, k: nat): Option<TypeRef>
    requires k <= |scope|
  {
    var hit := Match(entries, scope, ref, k);
    if hit.Some? then hit else if k == 0 then None else Walk(entries, scope, ref, k - 1)
  }

  /** The prefix of length `j` matches, and no longer one does. */
  predicate LongestMatch(entries: seq<Listing>, scope: Name, ref: Name, k: nat, j: nat) {
    j <= k <= |scope| && Match(entries, scope, ref, j).Some? && forall i :: j < i <= k ==> Match(entries, scope, ref, i).None?
  }

  /** The longest prefix with any visible match decides; only if no prefix has
      one does the walk fail. */
  lemma {:induction false} LongestPrefix(entries: seq<Listing>, scope: Name, ref: Name, k: nat)
    requires k <= |scope|
    ensures Walk(entries, scope, ref, k).None? <==> forall j :: 0 <= j <= k ==> Match(entries, scope, ref, j).None?
    ensures Walk(entries, scope, ref, k).Some? ==>
              exists j :: 0 <= j <= k && LongestMatch(entries, scope, ref, k, j) &&
                Walk(entries, scope, ref, k) == Match(entries, scope, ref, j)
    ensures forall j :: 0 <= j <= k && LongestMatch(entries, scope, ref, k, j) ==>
              Walk(entries, scope, ref, k) == Match(entries, scope, ref, j)
    decreases k
  {
    hide Match;
    if Match(entries, scope, ref, k).Some? {
      assert LongestMatch(entries, scope, ref, k, k);
    } else if k > 0 {
      LongestPrefix(entries, scope, ref, k - 1);
      forall j | 0 <= j <= k
        ensures LongestMatch(entries, scope, ref, k, j) <==> j < k && LongestMatch(entries, scope, ref, k - 1, j)
      {
      }
    }
  }

  /** What a written type means in a scope. */
  function ResolveSpan(span: string, scope: Name, entries: seq<Listing>): Resolution {
    if span == "" then TypeNotFound
    else if span in BUILTINS then Resolved(Builtin(span))
    else
      match Parse(span)
      case None => InvalidName
      case Some(ref) =>
        FromLookup(if ref.absolute then FirstOf(entries, ref.segments) else Walk(entries, scope, ref.segments, |scope|))
  }

  // ------------------------------------------- meaning, entry by entry

  /** Entry `i` is the first of this name. */
  predicate FirstNamedAt(entries: seq<Listing>, name: Name, i: nat) {
    i < |entries| && entries[i].name == name && forall j :: 0 <= j < i ==> entries[j].name != name
  }

  predicate FirstNamed(entries: seq<Listing>, name: Name, t: TypeRef) {
    exists i :: 0 <= i < |entries| && FirstNamedAt(entries, name, i) && entries[i].ty == t
  }

  predicate Unnamed(entries: seq<Listing>, name: Name) {
    forall i :: 0 <= i < |entries| ==> entries[i].name != name
  }

  /** `t` is the first entry named like the prefix of length `j` of the scope
      with `ref` behind it, and no longer prefix has any. */
  predicate InnermostMatch(entries: seq<Listing>, scope: Name, ref: Name, j: nat, t: TypeRef) {
    && j <= |scope| && FirstNamed(entries, scope[..j] + ref, t)
    && forall i :: j < i <= |scope| ==> Unnamed(entries, scope[..i] + ref)
  }

  predicate NoMatch(entries: seq<Listing>, scope: Name, ref: Name) {
    forall i :: 0 <= i <= |scope| ==> Unnamed(entries, scope[..i] + ref)
  }

  lemma {:induction false} FirstOfIndices(entries: seq<Listing>, name: Name, t: TypeRef)
    ensures FirstOf(entries, name) == Some(t) <==> FirstNamed(entries, name, t)
    ensures FirstOf(entries, name) == None <==> Unnamed(entries, name)
  {
    hide FirstOf;
    if Unnamed(entries, name) {
      FirstNowhere(entries, name);
    } else {
      var k := FirstIndex(entries, name);
      FirstAt(entries, name, k);
    }
    if FirstNamed(entries, name, t) {
      var i :| 0 <= i < |entries| && FirstNamedAt(entries, name, i) && entries[i].ty == t;
      FirstAt(entries, name, i);
    }
  }

  lemma {:induction false} FirstIndex(entries: seq<Listing>, name: Name) returns (k: nat)
    requires !Unnamed(entries, name)
    ensures FirstNamedAt(entries, name, k)
  {
    k := 0;
    while entries[k].name != name
      invariant k < |entries| && forall j :: 0 <= j < k ==> entries[j].name != name
      decreases |entries| - k
    {
      k := k + 1;
    }
  }

  lemma {:induction false} WalkIndices(entries: seq<Listing>, scope: Name, ref: Name, t: TypeRef)
    ensures Walk(entries, scope, ref, |scope|) == Some(t) <==> exists j: nat :: InnermostMatch(entries, scope, ref, j, t)
    ensures Walk(entries, scope, ref, |scope|) == None <==> NoMatch(entries, scope, ref)
  {
    hide Walk, FirstNamed, Unnamed, FirstOf;
    LongestPrefix(entries, scope, ref, |scope|);
    forall j | 0 <= j <= |scope|
      ensures Match(entries, scope, ref, j) == Some(t) <==> FirstNamed(entries, scope[..j] + ref, t)
      ensures Match(entries, scope, ref, j) == None <==> Unnamed(entries, scope[..j] + ref)
    {
      FirstOfIndices(entries, scope[..j] + ref, t);
    }
    if Walk(entries, scope, ref, |scope|) == Some(t) {
      var j :| 0 <= j <= |scope| && LongestMatch(entries, scope, ref, |scope|, j) &&
               Walk(entries, scope, ref, |scope|) == Match(entries, scope, ref, j);
      assert InnermostMatch(entries, scope, ref, j, t);
    }
    if j: nat :| InnermostMatch(entries, scope, ref, j, t) {
      assert LongestMatch(entries, scope, ref, |scope|, j);
    }
  }

  /** A relative name is tried in the scope and then in every scope around it:
      it resolves to what the longest prefix with a match finds first. */
  lemma {:induction false} RelativeName(span: string, n: Scoped, scope: Name, entries: seq<Listing>, t: TypeRef)
    requires span !in BUILTINS && Proper(n.segments) && !n.absolute && span == Join(n.segments)
    ensures ResolveSpan(span, scope, entries) == Resolved(t) <==>
              exists j: nat :: InnermostMatch(entries, scope, n.segments, j, t)
    ensures ResolveSpan(span, scope, entries) == TypeNotFound <==> NoMatch(entries, scope, n.segments)
    ensures ResolveSpan(span, scope, entries) != InvalidName
  {
    hide Walk, FirstOf, Parse, Join, InnermostMatch, NoMatch;
    JoinStarts(n.segments);
    assert Written(n) == span;
    ParseIsInverse(span, n);
    WalkIndices(entries, scope, n.segments, t);
  }

  /** A leading dot names the type in full, whatever the scope. */
  lemma {:induction false} AbsoluteName(span: string, n: Scoped, scope: Name, entries: seq<Listing>, t: TypeRef)
    requires Proper(n.segments) && n.absolute && span == "." + Join(n.segments)
    ensures ResolveSpan(span, scope, entries) == Resolved(t) <==> FirstNamed(entries, n.segments, t)
    ensures ResolveSpan(span, scope, entries) == TypeNotFound <==> Unnamed(entries, n.segments)
    ensures ResolveSpan(span, scope, entries) != InvalidName
  {
    hide Walk, FirstOf, Parse, Join, FirstNamed, Unnamed;
    assert span[0] == '.';
    NoDottedBuiltin(span);
    assert Written(n) == span;
    ParseIsInverse(span, n);
    FirstOfIndices(entries, n.segments, t);
  }

  lemma {:induction false} NoDottedBuiltin(span: string)
    requires span != "" && span[0] == '.'
    ensures span !in BUILTINS
  {
  }

  /** A span that is neither a builtin nor a written name is invalid; the
      empty one is not found. */
  lemma {:induction false} NoName(span: string, scope: Name, entries: seq<Listing>)
    ensures span == "" ==> ResolveSpan(span, scope, entries) == TypeNotFound
    ensures span in BUILTINS ==> ResolveSpan(span, scope, entries) == Resolved(Builtin(span))
    ensures span != "" && span !in BUILTINS ==>
              (ResolveSpan(span, scope, entries) == InvalidName <==>
                forall n: Scoped :: !(Proper(n.segments) && Written(n) == span))
  {
    hide Walk, FirstOf, Parse, Join;
    NoEmptyBuiltin();
    forall n: Scoped
      ensures Parse(span) == Some(n) <==> Proper(n.segments) && Written(n) == span
    {
      ParseIsInverse(span, n);
    }
  }

  lemma {:induction false} NoEmptyBuiltin()
    ensures "" !in BUILTINS
  {
  }

  /** All of it in one: `r` is what the span means in this scope. */
  ghost predicate Means(span: string, scope: Name, entries: seq<Listing>, r: Resolution) {
    if span == "" then r == TypeNotFound
    else if span in BUILTINS then r == Resolved(Builtin(span))
    else
      && (r == InvalidName <==> forall n: Scoped :: !(Proper(n.segments) && Written(n) == span))
      && forall n: Scoped :: Proper(n.segments) && Written(n) == span ==> NameMeans(n, scope, entries, r)
  }

  ghost predicate NameMeans(n: Scoped, scope: Name, entries: seq<Listing>, r: Resolution) {
    if n.absolute then
      && (r == TypeNotFound <==> Unnamed(entries, n.segments))
      && (r.Resolved? ==> FirstNamed(entries, n.segments, r.ty))
    else
      && (r == TypeNotFound <==> NoMatch(entries, scope, n.segments))
      && (r.Resolved? ==> exists j: nat :: InnermostMatch(entries, scope, n.segments, j, r.ty))
  }

  lemma {:induction false} SpanMeans(span: string, scope: Name, entries: seq<Listing>)
    ensures Means(span, scope, entries, ResolveSpan(span, scope, entries))
  {
    hide ResolveSpan, InnermostMatch, NoMatch, FirstNamed, Unnamed, Join;
    var r := ResolveSpan(span, scope, entries);
    NoName(span, scope, entries);
    NoEmptyBuiltin();
    if span != "" && span !in BUILTINS {
      forall n: Scoped | Proper(n.segments) && Written(n) == span
        ensures NameMeans(n, scope, entries, r)
      {
        var t := if r.Resolved? then r.ty else Unresolved;
        if n.absolute {
          AbsoluteName(span, n, scope, entries, t);
        } else {
          RelativeName(span, n, scope, entries, t);
        }
      }
    }
  }

  // ----------------------------------------------- entries of visible files

  /** The first visible file with an entry of the name decides. */
  lemma {:induction false} EntriesFirst(dir: Directory, visible: seq<File>, name: Name, t: TypeRef)
    requires forall f :: f in visible ==> f in dir
    ensures FirstNamed(Entries(dir, visible), name, t) <==>
              exists v :: 0 <= v < |visible| && FirstNamed(dir[visible[v]], name, t) &&
                          forall u :: 0 <= u < v ==> Unnamed(dir[visible[u]], name)
    ensures Unnamed(Entries(dir, visible), name) <==> forall v :: 0 <= v < |visible| ==> Unnamed(dir[visible[v]], name)
    decreases |visible|
  {
    hide FirstNamed, Unnamed;
    if visible == [] {
      NothingNamed(name, t);
    } else {
      var last := |visible| - 1;
      EntriesFirst(dir, visible[..last], name, t);
      NamedAppend(Entries(dir, visible[..last]), dir[visible[last]], name, t);
      assert forall v :: 0 <= v < last ==> visible[..last][v] == visible[v];
      if FirstNamed(Entries(dir, visible[..last]), name, t) {
        var v :| 0 <= v < last && FirstNamed(dir[visible[v]], name, t) && forall u :: 0 <= u < v ==> Unnamed(dir[visible[u]], name);
        NamedNotUnnamed(dir[visible[v]], name, t);
      }
    }
  }

  lemma {:induction false} NothingNamed(name: Name, t: TypeRef)
    ensures Unnamed([], name) && !FirstNamed([], name, t)
  {
  }

  lemma {:induction false} NamedNotUnnamed(entries: seq<Listing>, name: Name, t: TypeRef)
    requires FirstNamed(entries, name, t)
    ensures !Unnamed(entries, name)
  {
  }

  lemma {:induction false} NamedAppend(a: seq<Listing>, b: seq<Listing>, name: Name, t: TypeRef)
    ensures Unnamed(a + b, name) <==> Unnamed(a, name) && Unnamed(b, name)
    ensures FirstNamed(a + b, name, t) <==> FirstNamed(a, name, t) || (Unnamed(a, name) && FirstNamed(b, name, t))
  {
    hide FirstOf, FirstNamed, Unnamed;
    FirstOfIndices(a, name, t);
    FirstOfIndices(b, name, t);
    FirstOfIndices(a + b, name, t);
    FirstOfAppend(a, b, name);
  }

  /** Listings whose names are `names` and types `types`: the first index decides. */
  lemma {:induction false} ListedFirst(entries: seq<Listing>, names: seq<Name>, types: seq<TypeRef>, name: Name, t: TypeRef)
    requires |entries| == |names| == |types|
    requires forall i :: 0 <= i < |entries| ==> entries[i] == Listing(names[i], types[i])
    ensures Unnamed(entries, name) <==> forall i :: 0 <= i < |names| ==> names[i] != name
    ensures FirstNamed(entries, name, t) <==>
              exists i :: 0 <= i < |names| && FirstEqual(names, name, i) && types[i] == t
  {
    if FirstNamed(entries, name, t) {
      var i :| 0 <= i < |entries| && FirstNamedAt(entries, name, i) && entries[i].ty == t;
      assert FirstEqual(names, name, i);
    }
    if i :| 0 <= i < |names| && FirstEqual(names, name, i) && types[i] == t {
      assert FirstNamedAt(entries, name, i);
    }
  }

  predicate FirstEqual(names: seq<Name>, name: Name, i: nat) {
    i < |names| && names[i] == name && forall j :: 0 <= j < i ==> names[j] != name
  }

  ghost function MessageNames(messages: seq<MessageType>): (names: seq<Name>)
    reads (set m | m in messages)`scopedName
    ensures |names| == |messages| && forall i :: 0 <= i < |names| ==> names[i] == messages[i].scopedName
  {
    if messages == [] then []
    else
      var last := |messages| - 1;
      MessageNames(messages[..last]) + [messages[last].scopedName]
  }

  ghost function EnumNames(enums: seq<EnumType>): (names: seq<Name>)
    reads (set e | e in enums)`scopedName
    ensures |names| == |enums| && forall i :: 0 <= i < |names| ==> names[i] == enums[i].scopedName
  {
    if enums == [] then []
    else
      var last := |enums| - 1;
      EnumNames(enums[..last]) + [enums[last].scopedName]
  }

  /** In a file the first message of the name decides, and only if there is
      none the first enum. */
  lemma {:induction false} FileFirst(f: File, entries: seq<Listing>, name: Name, t: TypeRef)
    requires Lists(f, entries)
    ensures var messages, enums := MessageNames(f.messages), EnumNames(f.enums);
            && (Unnamed(entries, name) <==> name !in messages && name !in enums)
            && (FirstNamed(entries, name, t) <==>
                  || (exists i :: 0 <= i < |f.messages| && FirstEqual(messages, name, i) && t == MessageRef(f.messages[i]))
                  || (name !in messages && exists i :: 0 <= i < |f.enums| && FirstEqual(enums, name, i) && t == EnumRef(f.enums[i])))
  {
    hide FirstNamed, Unnamed, FirstEqual, MessageNames, EnumNames;
    var n := |f.messages|;
    var a, b := entries[..n], entries[n..];
    var messages, enums := MessageNames(f.messages), EnumNames(f.enums);
    assert entries == a + b;
    NamedAppend(a, b, name, t);
    forall i | 0 <= i < |b|
      ensures b[i] == Listing(enums[i], EnumRef(f.enums[i]))
    {
      assert b[i] == entries[|f.messages| + i];
    }
    ListedFirst(a, messages, Types(a), name, t);
    ListedFirst(b, enums, Types(b), name, t);
  }

  function Types(entries: seq<Listing>): (ts: seq<TypeRef>)
    ensures |ts| == |entries|
  {
    seq(|entries|, i requires 0 <= i < |entries| => entries[i].ty)
  }

  method IsBuiltin(span: string) returns (found: bool)
    ensures found <==> span in BUILTINS
  {
    for i := 0 to |BUILTINS|
      invariant span !in BUILTINS[..i]
    {
      assert BUILTINS[..i + 1] == BUILTINS[..i] + [BUILTINS[i]];
      if BUILTINS[i] == span {
        return true;
      }
    }
    assert BUILTINS[..|BUILTINS|] == BUILTINS;
    return false;
  }

  method ResolveNamed(span: string, scope: Name, visible: seq<File>, ghost dir: Directory) returns (r: Resolution)
    requires Catalogued((set f | f in visible), dir)
    ensures r == ResolveSpan(span, scope, Entries(dir, visible))
    ensures Means(span, scope, Entries(dir, visible), r)
  {
    hide FirstOf, Catalogued, Parse, Entries, Means;
    SpanMeans(span, scope, Entries(dir, visible));
    if |span| == 0 {
      return TypeNotFound;
    }
    var builtin := IsBuiltin(span);
    if builtin {
      return Resolved(Builtin(span));
    }
    var ref := ParseName(span);
    if ref.None? {
      return InvalidName;
    }
    var segments := ref.value.segments;
    if ref.value.absolute {
      var hit := LookupInVisible(segments, visible, dir);
      return FromLookup(hit);
    }
    ghost var entries := Entries(dir, visible);
    var k: nat := |scope| + 1;
    while k > 0
      invariant 0 <= k <= |scope| + 1
      invariant Walk(entries, scope, segments, |scope|) == if k == 0 then None else Walk(entries, scope, segments, (k - 1) as nat)
    {
      k := k - 1;
      var hit := LookupInVisible(scope[..k] + segments, visible, dir);
      if hit.Some? {
        return FromLookup(hit);
      }
    }
    return TypeNotFound;
  }

  // ------------------------------------------------------------- all fields

  function ResolveDeclared(d: Declared, scope: Name, entries: seq<Listing>): Resolution {
    match d
    case Named(s) => ResolveSpan(s, scope, entries)
    case MapOf(k, v) =>
      var kr := ResolveSpan(k, scope, entries);
      if !kr.Resolved? then kr
      else
        var vr := ResolveSpan(v, scope, entries);
        if !vr.Resolved? then vr else Resolved(MapRef(kr.ty, vr.ty))
  }

  method ResolveFieldType(d: Declared, scope: Name, visible: seq<File>, ghost dir: Directory) returns (r: Resolution)
    requires Catalogued((set f | f in visible), dir)
    ensures r == ResolveDeclared(d, scope, Entries(dir, visible))
  {
    hide Catalogued, Entries, ResolveSpan;
    match d
    case Named(s) =>
      r := ResolveNamed(s, scope, visible, dir);
    case MapOf(k, v) =>
      var kr := ResolveNamed(k, scope, visible, dir);
      if !kr.Resolved? {
        return kr;
      }
      var vr := ResolveNamed(v, scope, visible, dir);
      if !vr.Resolved? {
        return vr;
      }
      return Resolved(MapRef(kr.ty, vr.ty));
  }

  /** The file whose visible set a field's type is looked up in: the extending
      file for a field an `extend` block added, its own otherwise. */
  function Viewpoint(fd: FieldDecl, f: File): File {
    if fd.origin.Some? then fd.origin.value.file else f
  }

  ghost function Meaning(dir: Directory, fd: FieldDecl, f: File, m: MessageType): Resolution
    reads Viewpoint(fd, f)`visible, m`scopedName
  {
    ResolveDeclared(fd.declared, if fd.origin.Some? then fd.origin.value.scope else m.scopedName,
                    Entries(dir, Viewpoint(fd, f).visible))
  }

  /** A field of the message's own file means what it means in the message's
      scope and among the files its file sees; one that an `extend` block
      added, in the scope of that block and among the files that file sees. */
  lemma {:induction false} FieldMeaning(dir: Directory, fd: FieldDecl, f: File, m: MessageType)
    requires fd.declared.Named?
    ensures fd.origin.None? ==> Means(fd.declared.ty, m.scopedName, Entries(dir, f.visible), Meaning(dir, fd, f, m))
    ensures fd.origin.Some? ==>
              Means(fd.declared.ty, fd.origin.value.scope, Entries(dir, fd.origin.value.file.visible), Meaning(dir, fd, f, m))
  {
    hide ResolveSpan, Means, Entries;
    if fd.origin.None? {
      SpanMeans(fd.declared.ty, m.scopedName, Entries(dir, f.visible));
    } else {
      SpanMeans(fd.declared.ty, fd.origin.value.scope, Entries(dir, fd.origin.value.file.visible));
    }
  }

  /** A map's key and value in the same place: the key's failure is reported
      first, then the value's. */
  lemma {:induction false} MapMeaning(dir: Directory, fd: FieldDecl, f: File, m: MessageType) returns (kr: Resolution, vr: Resolution)
    requires fd.declared.MapOf?
    ensures fd.origin.None? ==>
              && Means(fd.declared.key, m.scopedName, Entries(dir, f.visible), kr)
              && Means(fd.declared.value, m.scopedName, Entries(dir, f.visible), vr)
    ensures fd.origin.Some? ==>
              && Means(fd.declared.key, fd.origin.value.scope, Entries(dir, fd.origin.value.file.visible), kr)
              && Means(fd.declared.value, fd.origin.value.scope, Entries(dir, fd.origin.value.file.visible), vr)
    ensures Meaning(dir, fd, f, m).Resolved? <==> kr.Resolved? && vr.Resolved?
    ensures kr.Resolved? && vr.Resolved? ==> Meaning(dir, fd, f, m).ty == MapRef(kr.ty, vr.ty)
    ensures !kr.Resolved? ==> Meaning(dir, fd, f, m) == kr
    ensures kr.Resolved? && !vr.Resolved? ==> Meaning(dir, fd, f, m) == vr
  {
    hide ResolveSpan, Means, Entries;
    var scope := if fd.origin.None? then m.scopedName else fd.origin.value.scope;
    var entries := Entries(dir, if fd.origin.None? then f.visible else fd.origin.value.file.visible);
    kr, vr := ResolveSpan(fd.declared.key, scope, entries), ResolveSpan(fd.declared.value, scope, entries);
    SpanMeans(fd.declared.key, scope, entries);
    SpanMeans(fd.declared.value, scope, entries);
  }

  /** Every viewpoint of the message's fields only sees catalogued files. */
  ghost predicate Ready(all: set<File>, f: File, m: MessageType)
    reads m`fields, f`visible, (set k | 0 <= k < |m.fields| :: Viewpoint(m.fields[k], f))`visible
  {
    forall k :: 0 <= k < |m.fields| ==> forall x :: x in Viewpoint(m.fields[k], f).visible ==> x in all
  }

  /** `now` are the fields `was` with their types resolved. */
  ghost predicate AllResolved(dir: Directory, f: File, m: MessageType, was: seq<FieldDecl>, now: seq<FieldDecl>)
    reads m`scopedName, f`visible, (set k | 0 <= k < |was| :: Viewpoint(was[k], f))`visible
  {
    && |now| == |was|
    && forall k :: 0 <= k < |was| ==>
         Meaning(dir, was[k], f, m).Resolved? && now[k] == was[k].(ty := Meaning(dir, was[k], f, m).ty)
  }

  method ResolveMessage(f: File, m: MessageType, ghost all: set<File>, ghost dir: Directory) returns (r: Resolution, failed: nat)
    requires Catalogued(all, dir) && Ready(all, f, m)
    modifies m`fields
    ensures r.Resolved? ==> AllResolved(dir, f, m, old(m.fields), m.fields)
    ensures !r.Resolved? ==> failed < |old(m.fields)| && r == Meaning(dir, old(m.fields)[failed], f, m)
    ensures !r.Resolved? ==> forall j :: 0 <= j < failed ==> Meaning(dir, old(m.fields)[j], f, m).Resolved?
  {
    hide Catalogued, ResolveDeclared, Entries;
    ghost var was := m.fields;
    for k := 0 to |m.fields|
      invariant |m.fields| == |was| && m.fields[k..] == was[k..]
      invariant forall j :: 0 <= j < k ==>
                  Meaning(dir, was[j], f, m).Resolved? && m.fields[j] == was[j].(ty := Meaning(dir, was[j], f, m).ty)
    {
      assert m.fields[k] == m.fields[k..][0] == was[k];
      var fd := m.fields[k];
      var scope := if fd.origin.Some? then fd.origin.value.scope else m.scopedName;
      var visible := if fd.origin.Some? then fd.origin.value.file.visible else f.visible;
      Fewer(all, dir, visible);
      var t := ResolveFieldType(fd.declared, scope, visible, dir);
      if !t.Resolved? {
        return t, k;
      }
      m.fields := m.fields[k := fd.(ty := t.ty)];
    }
    return Resolved(Unresolved), 0;
  }

  /** All messages of one file, each resolved once. */
  method ResolveFile(f: File, ghost all: set<File>, ghost dir: Directory) returns (r: Resolution)
    requires Catalogued(all, dir) && NoRepeats(f.messages) && forall m :: m in f.messages ==> Ready(all, f, m)
    modifies (set m | m in f.messages)`fields
    ensures r.Resolved? ==> forall m :: m in f.messages ==> AllResolved(dir, f, m, old(m.fields), m.fields)
    ensures !r.Resolved? ==>
              exists m, k :: m in f.messages && 0 <= k < |old(m.fields)| && r == Meaning(dir, old(m.fields)[k], f, m)
  {
    hide ResolveDeclared, Entries, Lists;
    for i := 0 to |f.messages|
      invariant Catalogued(all, dir)
      invariant forall j :: 0 <= j < i ==> AllResolved(dir, f, f.messages[j], old(f.messages[j].fields), f.messages[j].fields)
      invariant forall j :: i <= j < |f.messages| ==> f.messages[j].fields == old(f.messages[j].fields)
    {
      var m := f.messages[i];
      assert Ready(all, f, m);
      var k;
      r, k := ResolveMessage(f, m, all, dir);
      if !r.Resolved? {
        return;
      }
    }
    return Resolved(Unresolved);
  }

  /** No message belongs to two files. */
  ghost predicate Apart(files: seq<File>)
    reads (set f | f in files)`messages
  {
    forall i, j :: 0 <= i < j < |files| ==> forall m :: m in files[i].messages ==> m !in files[j].messages
  }

  /** `gremlind_resolve_type_refs`: every field of every message of every file,
      or a file with a field that does not resolve. */
  method ResolveTypeRefs(files: seq<File>, ghost all: set<File>, ghost dir: Directory) returns (r: Resolution, failed: nat)
    requires Catalogued(all, dir) && Apart(files)
    requires forall f :: f in files ==> NoRepeats(f.messages) && forall m :: m in f.messages ==> Ready(all, f, m)
    modifies (set f, m | f in files && m in f.messages :: m)`fields
    ensures r.Resolved? ==>
              forall f, m :: f in files && m in f.messages ==> AllResolved(dir, f, m, old(m.fields), m.fields)
    ensures !r.Resolved? ==>
              && failed < |files|
              && exists m, k :: m in files[failed].messages && 0 <= k < |old(m.fields)| &&
                   r == Meaning(dir, old(m.fields)[k], files[failed], m)
  {
    hide ResolveDeclared, Entries, Lists, Meaning;
    for i := 0 to |files|
      invariant Catalogued(all, dir)
      invariant forall j, m :: 0 <= j < i && m in files[j].messages ==> AllResolved(dir, files[j], m, old(m.fields), m.fields)
      invariant forall j, m :: i <= j < |files| && m in files[j].messages ==> m.fields == old(m.fields)
    {
      var f := files[i];
      assert forall m :: m in f.messages ==> Ready(all, f, m);
      r := ResolveFile(f, all, dir);
      if !r.Resolved? {
        return r, i;
      }
    }
    return Resolved(Unresolved), 0;
  }

  lemma {:induction false} Fewer(all: set<File>, dir: Directory, visible: seq<File>)
    requires Catalogued(all, dir) && forall x :: x in visible ==> x in all
    ensures Catalogued((set f | f in visible), dir)
  {
    hide Lists;
  }
}
