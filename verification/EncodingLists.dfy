/** The three loops over the items of a list. */
module EncodingLists {
  import opened Bytes
  import opened Encoding
  import opened EncodingLayout
  import opened EncodingTypes
  import opened Wrappers

  lemma RepeatFirst(item: Type, n: nat)
    requires n > 0
    ensures Repeat(item, n)[0] == item && Repeat(item, n)[1..] == Repeat(item, n - 1)
    ensures HeaderSize(Repeat(item, n)) == FieldSize(item) + HeaderSize(Repeat(item, n - 1))
  {
    assert Repeat(item, n) == [item] + Repeat(item, n - 1);
  }

  /** `check_data` of a list: the items in order, each behind the segments of the others. */
  method CheckItems(item: Type, buf: seq<Byte>, from: nat, count: nat, latest0: nat) returns (r: Checked)
    requires from + HeaderSize(Repeat(item, count)) <= |buf|
    ensures r == CheckAll(Repeat(item, count), buf, from, latest0)
  {
    hide Check, Repeat, FieldSize;
    var start: nat, latest: nat := from, latest0;
    ghost var goal := CheckAll(Repeat(item, count), buf, from, latest0);
    for i := 0 to count
      invariant start + HeaderSize(Repeat(item, count - i)) <= |buf|
      invariant CheckAll(Repeat(item, count - i), buf, start, latest) == goal
    {
      RepeatFirst(item, count - i);
      r := Check(item, buf, start, latest);
      if r.Err? {
        return;
      }
      latest := r.end;
      start := start + FieldSize(item);
    }
    return Ok(latest);
  }

  /** `from_buffer` of a list. */
  method ReadItems(item: Type, buf: seq<Byte>, from: nat, count: nat) returns (r: Option<seq<Value>>)
    ensures r == ReadAll(Repeat(item, count), buf, from)
  {
    hide Read, Repeat, FieldSize;
    var start: nat, items := from, [];
    ghost var goal := ReadAll(Repeat(item, count), buf, from);
    assert goal.Some? ==> [] + goal.value == goal.value;
    for i := 0 to count
      invariant Follows(items, ReadAll(Repeat(item, count - i), buf, start), goal)
    {
      RepeatFirst(item, count - i);
      var v := Read(item, buf, start);
      if v.None? {
        return None;
      }
      ghost var rest := ReadAll(Repeat(item, count - i - 1), buf, start + FieldSize(item));
      assert rest.Some? ==> items + [v.value] + rest.value == items + ([v.value] + rest.value);
      items := items + [v.value];
      start := start + FieldSize(item);
    }
    assert items + [] == items;
    return Some(items);
  }

  ghost predicate Follows(items: seq<Value>, rest: Option<seq<Value>>, goal: Option<seq<Value>>) {
    goal == if rest.Some? then Some(items + rest.value) else None
  }

  /** `extend_buffer` of a list: room for the headers first, then every item in place. */
  method ExtendItems(item: Type, vs: seq<Value>, buf0: seq<Byte>) returns (buf: seq<Byte>)
    requires Fits(List(item), VList(vs))
    ensures buf == buf0 + Tail(List(item), VList(vs), |buf0|)
  {
    hide Write, Repeat, FieldSize, Tail;
    var start: nat := |buf0|;
    buf := buf0 + Zeros(|vs| * FieldSize(item));
    ghost var ts := Repeat(item, |vs|);
    RepeatSize(item, |vs|);
    ListTail(List(item), VList(vs), buf0);
    ghost var goal := WriteAll(ts, vs, buf, start);
    assert vs[0..] == vs;
    for i := 0 to |vs|
      invariant FitsAll(Repeat(item, |vs| - i), vs[i..]) && start + HeaderSize(Repeat(item, |vs| - i)) <= |buf|
      invariant WriteAll(Repeat(item, |vs| - i), vs[i..], buf, start) == goal
    {
      RepeatFirst(item, |vs| - i);
      assert vs[i..][1..] == vs[i + 1..];
      buf := Write(item, vs[i], buf, start);
      start := start + FieldSize(item);
    }
  }

  lemma ListTail(t: Type, v: Value, buf: seq<Byte>)
    requires t.List? && Fits(t, v)
    ensures var ts := Repeat(t.item, |v.items|);
            FitsAll(ts, v.items) && WriteAll(ts, v.items, buf + Zeros(HeaderSize(ts)), |buf|) == buf + Tail(t, v, |buf|)
  {
    var ts := Repeat(t.item, |v.items|);
    var room := buf + Zeros(HeaderSize(ts));
    var first := |buf| + HeaderSize(ts);
    ListMeans(t, v, |buf|, ts, first);
    hide WriteAll, Heads, Tails, FitsAll, Repeat, HeaderSize, Splice, Zeros, Tail, Fits;
    assert |room| == first;
    WriteAllIsLayout(ts, v.items, room, |buf|);
    Filled(buf, Heads(ts, v.items, first), Tails(ts, v.items, first), WriteAll(ts, v.items, room, |buf|),
      Tail(t, v, |buf|));
  }

  lemma Filled(buf: seq<Byte>, heads: seq<Byte>, tails: seq<Byte>, written: seq<Byte>, tail: seq<Byte>)
    requires written == Splice(buf + Zeros(|heads|), |buf|, heads) + tails && tail == heads + tails
    ensures written == buf + tail
  {
    FillRoom(buf, heads, tails);
  }

  lemma FillRoom(buf: seq<Byte>, heads: seq<Byte>, tails: seq<Byte>)
    ensures Splice(buf + Zeros(|heads|), |buf|, heads) + tails == buf + (heads + tails)
  {
  }
}
