// `extend` blocks: finding the extended message and appending the fields.
module Extends {
  import opened Descriptors
  import opened Options
  import opened Names
  import opened TypeRefs

  /** The listings of messages, in order. */
  function MessagesOnly(entries: seq<Listing>): seq<Listing> {
    if entries == [] then []
    else (if entries[0].ty.MessageRef? then [entries[0]] else []) + MessagesOnly(entries[1..])
  }

  lemma {:induction false} MessagesAppend(a: seq<Listing>, b: seq<Listing>)
    ensures MessagesOnly(a + b) == MessagesOnly(a) + MessagesOnly(b)
    decreases a
  {
    if a == [] {
      assert a + b == b;
    } else {
      assert (a + b)[1..] == a[1..] + b;
      MessagesAppend(a[1..], b);
      var first := if a[0].ty.MessageRef? then [a[0]] else [];
      assert first + (MessagesOnly(a[1..]) + MessagesOnly(b)) == (first + MessagesOnly(a[1..])) + MessagesOnly(b);
    }
  }

  lemma {:induction false} AllMessages(entries: seq<Listing>)
    requires forall i :: 0 <= i < |entries| ==> entries[i].ty.MessageRef?
    ensures MessagesOnly(entries) == entries
    decreases entries
  {
    if entries != [] {
      AllMessages(entries[1..]);
      assert [entries[0]] + entries[1..] == entries;
    }
  }

  lemma {:induction false} NoMessages(entries: seq<Listing>)
    requires forall i :: 0 <= i < |entries| ==> !entries[i].ty.MessageRef?
    ensures MessagesOnly(entries) == []
    decreases entries
  {
    if entries != [] {
      NoMessages(entries[1..]);
    }
  }

  lemma {:induction false} FileMessages(f: File, entries: seq<Listing>)
    requires Lists(f, entries)
    ensures |f.messages| <= |entries| && MessagesOnly(entries) == entries[..|f.messages|]
  {
    var n := |f.messages|;
    var a, b := entries[..n], entries[n..];
    assert a + b == entries;
    MessagesAppend(a, b);
    AllMessages(a);
    forall i | 0 <= i < |b|
      ensures !b[i].ty.MessageRef?
    {
      assert b[i] == entries[|f.messages| + i] == Listing(f.enums[i].scopedName, EnumRef(f.enums[i]));
    }
    NoMessages(b);
  }

  /** What an extended type means in a scope: the scope walk over messages alone. */
  function ExtendTarget(span: string, scope: Name, entries: seq<Listing>): Resolution {
    if span == "" then TypeNotFound
    else
      match Parse(span)
      case None => InvalidName
      case Some(ref) =>
        var messages := MessagesOnly(entries);
        FromLookup(if ref.absolute then FirstOf(messages, ref.segments) else Walk(messages, scope, ref.segments, |scope|))
  }

  // ------------------------------------------- meaning, entry by entry

  /** Entry `i` is the first message of this name. */
  predicate FirstMessageAt(entries: seq<Listing>, name: Name, i: nat) {
    && i < |entries| && entries[i].name == name && entries[i].ty.MessageRef?
    && forall j :: 0 <= j < i && entries[j].name == name ==> !entries[j].ty.MessageRef?
  }

  predicate FirstMessage(entries: seq<Listing>, name: Name, t: TypeRef) {
    exists i :: 0 <= i < |entries| && FirstMessageAt(entries, name, i) && entries[i].ty == t
  }

  predicate NoMessageNamed(entries: seq<Listing>, name: Name) {
    forall i :: 0 <= i < |entries| && entries[i].name == name ==> !entries[i].ty.MessageRef?
  }

  predicate InnermostMessage(entries: seq<Listing>, scope: Name, ref: Name, j: nat, t: TypeRef) {
    && j <= |scope| && FirstMessage(entries, scope[..j] + ref, t)
    && forall i :: j < i <= |scope| ==> NoMessageNamed(entries, scope[..i] + ref)
  }

  lemma {:induction false} MessagesNamed(entries: seq<Listing>, name: Name, t: TypeRef)
    ensures Unnamed(MessagesOnly(entries), name) <==> NoMessageNamed(entries, name)
    ensures FirstNamed(MessagesOnly(entries), name, t) <==> FirstMessage(entries, name, t)
    decreases entries
  {
    hide FirstNamed, Unnamed, FirstMessage, NoMessageNamed;
    if entries == [] {
      NothingNamed(name, t);
      MessageHead(entries, name, t);
    } else {
      MessagesNamed(entries[1..], name, t);
      MessageHead(entries, name, t);
      if entries[0].ty.MessageRef? {
        NamedAppend([entries[0]], MessagesOnly(entries[1..]), name, t);
        OneEntry(entries[0], name, t);
      } else {
        assert [] + MessagesOnly(entries[1..]) == MessagesOnly(entries[1..]);
      }
    }
  }

  lemma {:induction false} OneEntry(x: Listing, name: Name, t: TypeRef)
    ensures Unnamed([x], name) <==> x.name != name
    ensures FirstNamed([x], name, t) <==> x.name == name && x.ty == t
  {
    assert x.name == name ==> FirstNamedAt([x], name, 0);
  }

  lemma {:induction false} MessageHead(entries: seq<Listing>, name: Name, t: TypeRef)
    ensures entries == [] ==> NoMessageNamed(entries, name) && !FirstMessage(entries, name, t)
    ensures entries != [] ==>
              var hit := entries[0].name == name && entries[0].ty.MessageRef?;
              && (NoMessageNamed(entries, name) <==> !hit && NoMessageNamed(entries[1..], name))
              && (FirstMessage(entries, name, t) <==> if hit then entries[0].ty == t else FirstMessage(entries[1..], name, t))
  {
    if entries != [] {
      var rest := entries[1..];
      var hit := entries[0].name == name && entries[0].ty.MessageRef?;
      assert forall i :: 0 <= i < |rest| ==> rest[i] == entries[i + 1];
      if NoMessageNamed(entries, name) {
        assert forall i :: 0 <= i < |rest| ==> rest[i] == entries[i + 1];
      }
      if FirstMessage(entries, name, t) {
        var i :| 0 <= i < |entries| && FirstMessageAt(entries, name, i) && entries[i].ty == t;
        if !hit {
          assert FirstMessageAt(rest, name, i - 1);
        }
      }
      if hit {
        assert FirstMessageAt(entries, name, 0);
      } else if FirstMessage(rest, name, t) {
        var i :| 0 <= i < |rest| && FirstMessageAt(rest, name, i) && rest[i].ty == t;
        assert FirstMessageAt(entries, name, i + 1);
      }
    }
  }

  /** A relative target is the first message under the longest prefix of the
      scope that has one; enums of the same name are passed over. */
  lemma {:induction false} RelativeTarget(span: string, n: Scoped, scope: Name, entries: seq<Listing>, t: TypeRef)
    requires Proper(n.segments) && !n.absolute && span == Join(n.segments)
    ensures ExtendTarget(span, scope, entries) == Resolved(t) <==>
              exists j: nat :: InnermostMessage(entries, scope, n.segments, j, t)
    ensures ExtendTarget(span, scope, entries) == TypeNotFound <==>
              forall i :: 0 <= i <= |scope| ==> NoMessageNamed(entries, scope[..i] + n.segments)
    ensures ExtendTarget(span, scope, entries) != InvalidName
  {
    hide Walk, Parse, Join, FirstNamed, Unnamed, FirstMessage, NoMessageNamed, MessagesOnly;
    JoinStarts(n.segments);
    assert Written(n) == span;
    ParseIsInverse(span, n);
    var messages := MessagesOnly(entries);
    WalkIndices(messages, scope, n.segments, t);
    forall j | 0 <= j <= |scope|
      ensures Unnamed(messages, scope[..j] + n.segments) <==> NoMessageNamed(entries, scope[..j] + n.segments)
      ensures FirstNamed(messages, scope[..j] + n.segments, t) <==> FirstMessage(entries, scope[..j] + n.segments, t)
    {
      MessagesNamed(entries, scope[..j] + n.segments, t);
    }
    forall j: nat
      ensures InnermostMatch(messages, scope, n.segments, j, t) <==> InnermostMessage(entries, scope, n.segments, j, t)
    {
    }
  }

  /** With a leading dot it is the first message of that full name. */
  lemma {:induction false} AbsoluteTarget(span: string, n: Scoped, scope: Name, entries: seq<Listing>, t: TypeRef)
    requires Proper(n.segments) && n.absolute && span == "." + Join(n.segments)
    ensures ExtendTarget(span, scope, entries) == Resolved(t) <==> FirstMessage(entries, n.segments, t)
    ensures ExtendTarget(span, scope, entries) == TypeNotFound <==> NoMessageNamed(entries, n.segments)
    ensures ExtendTarget(span, scope, entries) != InvalidName
  {
    hide Walk, FirstOf, Parse, Join, FirstNamed, Unnamed, FirstMessage, NoMessageNamed, MessagesOnly;
    assert Written(n) == span;
    ParseIsInverse(span, n);
    FirstOfIndices(MessagesOnly(entries), n.segments, t);
    MessagesNamed(entries, n.segments, t);
  }

  /** An empty target is not found; one that no name is written like is invalid. */
  lemma {:induction false} NoTarget(span: string, scope: Name, entries: seq<Listing>)
    ensures span == "" ==> ExtendTarget(span, scope, entries) == TypeNotFound
    ensures span != "" ==>
              (ExtendTarget(span, scope, entries) == InvalidName <==>
                forall n: Scoped :: !(Proper(n.segments) && Written(n) == span))
  {
    hide Walk, FirstOf, Parse, Join, MessagesOnly;
    forall n: Scoped
      ensures Parse(span) == Some(n) <==> Proper(n.segments) && Written(n) == span
    {
      ParseIsInverse(span, n);
    }
  }

  /** A message of one of the visible files. */
  ghost predicate Seen(visible: seq<File>, m: MessageType)
    reads (set f | f in visible)`messages
  {
    exists f :: f in visible && m in f.messages
  }

  method LookupMessage(target: Name, visible: seq<File>, ghost dir: Directory) returns (r: Option<MessageType>)
    requires Catalogued((set f | f in visible), dir)
    ensures r.Some? ==> Seen(visible, r.value)
    ensures FirstOf(MessagesOnly(Entries(dir, visible)), target) == if r.None? then None else Some(MessageRef(r.value))
  {
    hide FirstOf, Lists, MessagesOnly;
    NoMessages([]);
    FirstOfNothing(target);
    for i := 0 to |visible|
      invariant FirstOf(MessagesOnly(Entries(dir, visible[..i])), target) == None
    {
      var f := visible[i];
      assert visible[..i + 1][..i] == visible[..i];
      MessagesAppend(Entries(dir, visible[..i]), dir[f]);
      FirstOfAppend(MessagesOnly(Entries(dir, visible[..i])), MessagesOnly(dir[f]), target);
      r := LookupInMessages(f, target, dir[f]);
      if r.Some? {
        StillFirst(dir, visible, i + 1, target);
        return;
      }
    }
    assert visible[..|visible|] == visible;
    return None;
  }

  method LookupInMessages(f: File, target: Name, ghost entries: seq<Listing>) returns (r: Option<MessageType>)
    requires Lists(f, entries)
    ensures r.Some? ==> r.value in f.messages
    ensures FirstOf(MessagesOnly(entries), target) == if r.None? then None else Some(MessageRef(r.value))
  {
    hide FirstOf, MessagesOnly;
    FileMessages(f, entries);
    ghost var messages := entries[..|f.messages|];
    for m := 0 to |f.messages|
      invariant forall j :: 0 <= j < m ==> messages[j].name != target
    {
      var eq := NameEq(f.messages[m].scopedName, target);
      if eq {
        FirstAt(messages, target, m);
        return Some(f.messages[m]);
      }
    }
    FirstNowhere(messages, target);
    return None;
  }

  lemma {:induction false} StillFirst(dir: Directory, visible: seq<File>, n: nat, target: Name)
    requires n <= |visible| && FirstOf(MessagesOnly(Entries(dir, visible[..n])), target).Some?
    ensures FirstOf(MessagesOnly(Entries(dir, visible)), target) == FirstOf(MessagesOnly(Entries(dir, visible[..n])), target)
    decreases |visible| - n
  {
    hide FirstOf, MessagesOnly;
    if n == |visible| {
      assert visible[..n] == visible;
    } else {
      assert visible[..n + 1][..n] == visible[..n];
      var next := if visible[n] in dir then dir[visible[n]] else [];
      MessagesAppend(Entries(dir, visible[..n]), next);
      FirstOfAppend(MessagesOnly(Entries(dir, visible[..n])), MessagesOnly(next), target);
      StillFirst(dir, visible, n + 1, target);
    }
  }

  /** `resolve_extend_target` */
  method ResolveTarget(span: string, enclosing: Name, visible: seq<File>, ghost dir: Directory) returns (r: Resolution)
    requires Catalogued((set f | f in visible), dir)
    ensures r == ExtendTarget(span, enclosing, Entries(dir, visible))
    ensures r.Resolved? ==> r.ty.MessageRef? && Seen(visible, r.ty.message)
  {
    hide FirstOf, Catalogued, Parse, Entries, MessagesOnly;
    if |span| == 0 {
      return TypeNotFound;
    }
    var ref := ParseName(span);
    if ref.None? {
      return InvalidName;
    }
    var segments := ref.value.segments;
    if ref.value.absolute {
      var m := LookupMessage(segments, visible, dir);
      return if m.None? then TypeNotFound else Resolved(MessageRef(m.value));
    }
    ghost var messages := MessagesOnly(Entries(dir, visible));
    var k: nat := |enclosing| + 1;
    while k > 0
      invariant 0 <= k <= |enclosing| + 1
      invariant Walk(messages, enclosing, segments, |enclosing|) ==
                  if k == 0 then None else Walk(messages, enclosing, segments, (k - 1) as nat)
    {
      k := k - 1;
      var m := LookupMessage(enclosing[..k] + segments, visible, dir);
      if m.Some? {
        return Resolved(MessageRef(m.value));
      }
    }
    return TypeNotFound;
  }

  /** The fields of a block, tagged with where they were declared. */
  function Tagged(decls: seq<FieldDecl>, origin: Origin): (t: seq<FieldDecl>)
    ensures |t| == |decls|
  {
    seq(|decls|, i requires 0 <= i < |decls| => decls[i].(origin := Some(origin)))
  }

  /** `apply_extend`: the extended message gets the block's fields behind its
      own, each remembering the extending file and scope; no other message changes. */
  method ApplyExtend(file: File, span: string, scope: Name, decls: seq<FieldDecl>, ghost dir: Directory) returns (r: Resolution)
    requires Catalogued((set f | f in file.visible), dir)
    modifies (set f, m | f in file.visible && m in f.messages :: m)`fields
    ensures r == ExtendTarget(span, scope, Entries(dir, file.visible))
    ensures r.Resolved? ==>
              && r.ty.MessageRef?
              && |r.ty.message.fields| == |old(r.ty.message.fields)| + |decls|
              && r.ty.message.fields[..|old(r.ty.message.fields)|] == old(r.ty.message.fields)
              && (forall i :: 0 <= i < |decls| ==>
                   r.ty.message.fields[|old(r.ty.message.fields)| + i] == decls[i].(origin := Some(Origin(file, scope))))
    ensures forall f, m :: f in file.visible && m in f.messages && !(r.Resolved? && r.ty == MessageRef(m)) ==> m.fields == old(m.fields)
  {
    hide Catalogued, ExtendTarget, Entries;
    r := ResolveTarget(span, scope, file.visible, dir);
    if !r.Resolved? {
      return;
    }
    var target := r.ty.message;
    assert r.ty == MessageRef(target);
    var nNew := |decls|;
    if nNew == 0 {
      assert target.fields == target.fields + Tagged(decls, Origin(file, scope));
      return;
    }
    var oldCount := |target.fields|;
    var merged := new FieldDecl[oldCount + nNew](k requires 0 <= k < oldCount + nNew reads target =>
      if k < |target.fields| then target.fields[k] else FieldDecl(Named(""), Unresolved, None));
    assert merged[..oldCount] == target.fields;
    ghost var tagged := Tagged(decls, Origin(file, scope));
    for i := 0 to nNew
      invariant merged[..oldCount + i] == old(target.fields) + tagged[..i]
      modifies merged
    {
      merged[oldCount + i] := decls[i].(origin := Some(Origin(file, scope)));
      assert merged[..oldCount + i + 1] == merged[..oldCount + i] + [tagged[i]];
    }
    assert tagged[..nNew] == tagged;
    target.fields := merged[..];
  }
}
