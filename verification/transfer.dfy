// The whole way of a message: size it, encode it into a buffer of exactly that
// size, read it back.
module Transfer {
  import opened Bits
  import opened Options
  import opened Varint
  import opened Schema
  import opened Eager
  import opened RoundTrip
  import opened Objects
  import opened Encoder
  import opened ReadBack

  /** What arrives is the message that was sent, null list and map children
      having become blank ones; only caches changed on the sender's side. */
  method SendAndReceive(sch: Schema, m: Message, ghost w: World) returns (got: Option<Tree>)
    requires sch == w.sch && Closed(w) && Current(w) && m in w.objs
    requires |Image(w, m)| < TWO_64
    modifies w.objs`size
    ensures Current(w) && Sized(w, m)
    ensures Typed(sch, m.ty, TreeOf(w, m))
    ensures got == Some(Normal(sch, m.ty, TreeOf(w, m)))
  {
    hide Sized, Cached, Closed, Image, TreeOf, Typed, Normal, ReadTree, Encode, Wrote;
    var n := SizeOf(sch, m, w);
    var buf := new byte[n];
    ghost var before := buf[..];
    var end := WriteMessage(sch, m, buf, 0, w);
    WroteAll(before, buf[..], Image(w, m));
    ImageReads(w, m);
    got := ReadMessage(sch, m.ty, buf[..]);
  }

  lemma {:induction false} ImageReads(w: World, m: Message)
    requires Closed(w) && m in w.objs && |Image(w, m)| < TWO_64
    ensures SchemaOk(w.sch) && m.ty < |w.sch| && Typed(w.sch, m.ty, TreeOf(w, m))
    ensures ReadTree(w.sch, m.ty, Image(w, m)) == Some(Normal(w.sch, m.ty, TreeOf(w, m)))
  {
    hide TreeOf, Typed, Normal, ReadTree, Encode;
    ObjectTyped(w, m);
    TreeReads(w.sch, m.ty, TreeOf(w, m));
  }

  lemma {:induction false} WroteAll(before: seq<byte>, after: seq<byte>, data: seq<byte>)
    requires Wrote(before, after, 0, data) && |before| == |data|
    ensures after == data
  {
  }
}
