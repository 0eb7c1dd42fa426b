/**
 The layout of an encoded field, said without a buffer: its header and the bytes of its
 segments, given where the segments start.  Writing in place produces this layout, checking
 accepts it, reading gives the value back; and what checking accepts is a layout.
 */
module EncodingLayout {
  import opened Bytes
  import opened Encoding
  import opened EncodingTypes
  import Utf8

  /** Bytes of the segments of a field. */
  ghost function TailSize(t: Type, v: Value): nat
    requires Fits(t, v)
    decreases Rank(t), 1, 0
  {
    if Fixed(t) then 0
    else if t.List? then
      var ts := Repeat(t.item, |v.items|);
      HeaderSize(ts) + TailSizeAll(ts, v.items)
    else |Content(t, v)|
  }

  ghost function TailSizeAll(ts: seq<Type>, vs: seq<Value>): nat
    requires FitsAll(ts, vs)
    decreases RankAll(ts), 2, |ts|
  {
    if ts == [] then 0 else TailSize(ts[0], vs[0]) + TailSizeAll(ts[1..], vs[1..])
  }

  /** The bytes in place of the field, when its segments start at `pos`. */
  ghost function Head(t: Type, v: Value, pos: nat): (r: seq<Byte>)
    requires Fits(t, v)
    ensures |r| == FieldSize(t)
  {
    if Fixed(t) then StoreFixed(t, v) else Header(pos, Count(t, v))
  }

  /** The segments of the field: for a list the headers of its items and then their segments. */
  ghost function Tail(t: Type, v: Value, pos: nat): (r: seq<Byte>)
    requires Fits(t, v)
    ensures |r| == TailSize(t, v)
    decreases Rank(t), 1, 0
  {
    if Fixed(t) then []
    else if t.List? then
      var ts := Repeat(t.item, |v.items|);
      var first := pos + HeaderSize(ts);
      Heads(ts, v.items, first) + Tails(ts, v.items, first)
    else Content(t, v)
  }

  ghost function Heads(ts: seq<Type>, vs: seq<Value>, pos: nat): (r: seq<Byte>)
    requires FitsAll(ts, vs)
    ensures |r| == HeaderSize(ts)
    decreases RankAll(ts), 2, |ts|
  {
    if ts == [] then []
    else Head(ts[0], vs[0], pos) + Heads(ts[1..], vs[1..], pos + TailSize(ts[0], vs[0]))
  }

  ghost function Tails(ts: seq<Type>, vs: seq<Value>, pos: nat): (r: seq<Byte>)
    requires FitsAll(ts, vs)
    ensures |r| == TailSizeAll(ts, vs)
    decreases RankAll(ts), 2, |ts|
  {
    if ts == [] then []
    else Tail(ts[0], vs[0], pos) + Tails(ts[1..], vs[1..], pos + TailSize(ts[0], vs[0]))
  }

  // ----- Writing produces the layout -----

  lemma SpliceTwice(buf: seq<Byte>, from: nat, a: seq<Byte>, more: seq<Byte>, b: seq<Byte>)
    requires from + |a| + |b| <= |buf|
    ensures Splice(Splice(buf, from, a) + more, from + |a|, b) == Splice(buf, from, a + b) + more
  {
  }

  lemma SpliceNothing(buf: seq<Byte>, from: nat)
    requires from <= |buf|
    ensures Splice(buf, from, []) + [] == buf
  {
  }

  /** Writing in place puts the header at `from` and the segments at the end, and touches
      nothing else. */
  lemma {:induction false} WriteIsLayout(t: Type, v: Value, buf: seq<Byte>, from: nat)
    requires Fits(t, v) && from + FieldSize(t) <= |buf|
    ensures Write(t, v, buf, from) == Splice(buf, from, Head(t, v, |buf|)) + Tail(t, v, |buf|)
    decreases Rank(t), 1, 0
  {
    hide FitsAll, Repeat, Zeros, WriteAll, Heads, Tails, TailSizeAll, FixedFits, StoreFixed, Header, FieldSize,
         Utf8.ValidUtf8;
    if t.List? {
      var ts := Repeat(t.item, |v.items|);
      var b := Splice(buf, from, Head(t, v, |buf|));
      var room := b + Zeros(HeaderSize(ts));
      WriteAllIsLayout(ts, v.items, room, |b|);
      assert Splice(room, |b|, Heads(ts, v.items, |room|)) == b + Heads(ts, v.items, |room|);
    }
  }

  lemma {:induction false} WriteAllIsLayout(ts: seq<Type>, vs: seq<Value>, buf: seq<Byte>, from: nat)
    requires FitsAll(ts, vs) && from + HeaderSize(ts) <= |buf|
    ensures WriteAll(ts, vs, buf, from) == Splice(buf, from, Heads(ts, vs, |buf|)) + Tails(ts, vs, |buf|)
    decreases RankAll(ts), 2, |ts|
  {
    hide Head, Tail, Fits, TailSize, Splice, Write;
    if ts != [] {
      var head, tail := Head(ts[0], vs[0], |buf|), Tail(ts[0], vs[0], |buf|);
      var next := Splice(buf, from, head) + tail;
      WriteIsLayout(ts[0], vs[0], buf, from);
      WriteAllIsLayout(ts[1..], vs[1..], next, from + |head|);
      var heads, tails := Heads(ts[1..], vs[1..], |next|), Tails(ts[1..], vs[1..], |next|);
      SpliceTwice(buf, from, head, tail, heads);
      assert Splice(buf, from, head + heads) + tail + tails == Splice(buf, from, head + heads) + (tail + tails);
    } else {
      SpliceNothing(buf, from);
    }
  }

  // ----- A layout inside a buffer -----

  ghost predicate Holds(buf: seq<Byte>, at: nat, bytes: seq<Byte>) {
    at + |bytes| <= |buf| && buf[at..at + |bytes|] == bytes
  }

  lemma HoldsSplit(buf: seq<Byte>, at: nat, a: seq<Byte>, b: seq<Byte>)
    ensures Holds(buf, at, a + b) <==> Holds(buf, at, a) && Holds(buf, at + |a|, b)
  {
    if at + |a| + |b| <= |buf| {
      var whole := buf[at..at + |a| + |b|];
      assert whole[..|a|] == buf[at..at + |a|] && whole[|a|..] == buf[at + |a|..at + |a| + |b|];
      assert whole == whole[..|a|] + whole[|a|..];
      assert (a + b)[..|a|] == a && (a + b)[|a|..] == b;
    }
  }

  /** The buffer holds the field: its header at `from`, its segments at `pos`. */
  ghost predicate At(t: Type, v: Value, buf: seq<Byte>, from: nat, pos: nat) {
    Fits(t, v) && Holds(buf, from, Head(t, v, pos)) && Holds(buf, pos, Tail(t, v, pos))
  }

  ghost predicate AtAll(ts: seq<Type>, vs: seq<Value>, buf: seq<Byte>, from: nat, pos: nat) {
    FitsAll(ts, vs) && Holds(buf, from, Heads(ts, vs, pos)) && Holds(buf, pos, Tails(ts, vs, pos))
  }

  lemma AtAllFirst(ts: seq<Type>, vs: seq<Value>, buf: seq<Byte>, from: nat, pos: nat)
    requires ts != [] && FitsAll(ts, vs)
    ensures AtAll(ts, vs, buf, from, pos) <==>
              && At(ts[0], vs[0], buf, from, pos)
              && AtAll(ts[1..], vs[1..], buf, from + FieldSize(ts[0]), pos + TailSize(ts[0], vs[0]))
  {
    hide Holds, Head, Tail, Fits, TailSize;
    var next := pos + TailSize(ts[0], vs[0]);
    HoldsSplit(buf, from, Head(ts[0], vs[0], pos), Heads(ts[1..], vs[1..], next));
    HoldsSplit(buf, pos, Tail(ts[0], vs[0], pos), Tails(ts[1..], vs[1..], next));
  }

  lemma ListMeans(t: Type, v: Value, pos: nat, ts: seq<Type>, first: nat)
    requires t.List? && Fits(t, v) && ts == Repeat(t.item, |v.items|) && first == pos + HeaderSize(ts)
    ensures FitsAll(ts, v.items) && Head(t, v, pos) == Header(pos, |v.items|)
    ensures Tail(t, v, pos) == Heads(ts, v.items, first) + Tails(ts, v.items, first)
  {
    hide Heads, Tails, FitsAll, TailSizeAll, Repeat, HeaderSize, Header, FieldSize;
  }

  /** A list is its header and its items. */
  lemma AtList(t: Type, v: Value, buf: seq<Byte>, from: nat, pos: nat)
    requires t.List? && Fits(t, v)
    ensures var ts := Repeat(t.item, |v.items|);
            At(t, v, buf, from, pos) <==>
              Holds(buf, from, Header(pos, |v.items|)) && AtAll(ts, v.items, buf, pos, pos + HeaderSize(ts))
  {
    var ts := Repeat(t.item, |v.items|);
    var first := pos + HeaderSize(ts);
    ListMeans(t, v, pos, ts, first);
    hide Holds, Heads, Tails, FitsAll, Head, Tail, Fits, Repeat, HeaderSize, Header;
    HoldsSplit(buf, pos, Heads(ts, v.items, first), Tails(ts, v.items, first));
  }
}
