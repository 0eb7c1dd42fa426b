/** What was written is accepted and read back, for every type of field. */
module EncodingRoundTrip {
  import opened Bytes
  import opened Encoding
  import opened EncodingLayout
  import opened EncodingTypes
  import opened Wrappers

  /** A value that can come back: nested messages and structures are well formed, and a bit
      vector is a whole number of bytes. */
  ghost predicate Typed(t: Type, v: Value)
    decreases Rank(t), 1, 0
  {
    && Fits(t, v)
    && match t
       case List(item) => TypedAll(Repeat(item, |v.items|), v.items)
       case Bits => |v.bits| % 8 == 0
       case Raw => CheckRaw(v.bytes, 0, 0).Ok?
       case Struct(fields) => ValidStruct(fields, v.bytes)
       case Message(service, id, fields) => CheckRaw(v.bytes, 0, 0).Ok? && FromRaw(service, id, fields, v.bytes).Ok?
       case _ => true
  }

  ghost predicate TypedAll(ts: seq<Type>, vs: seq<Value>)
    ensures TypedAll(ts, vs) ==> FitsAll(ts, vs)
    decreases RankAll(ts), 2, |ts|
  {
    |ts| == |vs| && (ts == [] || (Typed(ts[0], vs[0]) && TypedAll(ts[1..], vs[1..])))
  }

  ghost predicate ValidStruct(fields: seq<Type>, bytes: seq<Byte>) {
    HeaderSize(fields) <= |bytes| && CheckAll(fields, bytes, 0, HeaderSize(fields)).Ok?
  }

  // ----- Segment headers -----

  lemma HeaderWords(buf: seq<Byte>, from: nat, pos: nat, count: nat)
    requires Holds(buf, from, Header(pos, count)) && pos < U32 && count < U32
    ensures from + 8 <= |buf| && Word(buf, from) == pos && Word(buf, from + 4) == count
  {
    hide StoreLE, LoadLE, Pow256;
    HoldsSplit(buf, from, StoreLE(pos % U32, 4), StoreLE(count % U32, 4));
    Pow256Values();
    LoadStore(pos, 4);
    LoadStore(count, 4);
  }

  lemma WordsHeader(buf: seq<Byte>, from: nat)
    requires from + 8 <= |buf|
    ensures Word(buf, from) < U32 && Word(buf, from + 4) < U32
    ensures Holds(buf, from, Header(Word(buf, from), Word(buf, from + 4)))
  {
    hide StoreLE, LoadLE, Pow256;
    Pow256Values();
    StoreLoad(buf[from..from + 4]);
    StoreLoad(buf[from + 4..from + 8]);
    HoldsSplit(buf, from, StoreLE(Word(buf, from), 4), StoreLE(Word(buf, from + 4), 4));
  }

  lemma WholeItems(size: nat, item: nat)
    requires item >= 1 && size % item == 0
    ensures size / item * item == size && size / item <= size
  {
  }

  // ----- Segments that are not lists -----

  /** The segment of a leaf field that a check or a read finds. */
  lemma LeafWords(t: Type, v: Value, buf: seq<Byte>, from: nat, pos: nat)
    requires !Fixed(t) && !t.List? && At(t, v, buf, from, pos) && |buf| < U32
    ensures from + 8 <= |buf| && Word(buf, from) == pos && Word(buf, from + 4) == Count(t, v)
    ensures Count(t, v) * ItemSize(t) == |Content(t, v)|
    ensures Holds(buf, pos, Content(t, v))
  {
    var size := |Content(t, v)|;
    WholeItems(size, ItemSize(t));
    HeaderWords(buf, from, pos, Count(t, v));
  }

  /** A segment in its place is checked by its content. */
  lemma CheckSegment(t: Type, buf: seq<Byte>, from: nat, pos: nat, count: nat)
    requires !Fixed(t) && from + 8 <= |buf| < U32 && Word(buf, from) == pos && Word(buf, from + 4) == count
    requires pos + count * ItemSize(t) <= |buf|
    ensures from + FieldSize(t) <= |buf| && Check(t, buf, from, pos) == CheckData(t, buf, pos, count)
  {
    hide CheckData, Word, ItemSize;
  }

  lemma CheckLeafData(t: Type, v: Value, buf: seq<Byte>, pos: nat, count: nat)
    requires !Fixed(t) && !t.List? && Typed(t, v)
    requires count * ItemSize(t) == |Content(t, v)| && Holds(buf, pos, Content(t, v))
    ensures CheckData(t, buf, pos, count) == Ok(pos + |Content(t, v)|)
  {
    hide FieldSize, ItemSize, CheckAll, FromRaw, HeaderSize, Repeat;
  }

  lemma CheckLeaf(t: Type, v: Value, buf: seq<Byte>, from: nat, pos: nat)
    requires !Fixed(t) && !t.List? && Typed(t, v) && At(t, v, buf, from, pos) && |buf| < U32
    ensures from + FieldSize(t) <= |buf| && Check(t, buf, from, pos) == Ok(pos + TailSize(t, v))
  {
    hide Holds, Head, Tail, Fits, Check, CheckData, Content, Count, Word;
    LeafWords(t, v, buf, from, pos);
    CheckSegment(t, buf, from, pos, Count(t, v));
    CheckLeafData(t, v, buf, pos, Count(t, v));
  }

  lemma ReadLeaf(t: Type, v: Value, buf: seq<Byte>, from: nat, pos: nat)
    requires !Fixed(t) && !t.List? && Typed(t, v) && At(t, v, buf, from, pos) && |buf| < U32
    ensures Read(t, buf, from) == Some(v)
  {
    hide Head, Tail, Count, Word, ReadAll, FromRaw, Repeat, HeaderSize, ToBytes, FromBytes;
    LeafWords(t, v, buf, from, pos);
    if t.Bits? {
      BitsRoundTrip(v.bits);
    }
  }

  // ----- Every field -----

  lemma {:induction false} CheckAt(t: Type, v: Value, buf: seq<Byte>, from: nat, pos: nat)
    requires Typed(t, v) && At(t, v, buf, from, pos) && |buf| < U32
    ensures from + FieldSize(t) <= |buf| && Check(t, buf, from, pos) == Ok(pos + TailSize(t, v))
    decreases Rank(t), 1, 0
  {
    if t.List? {
      CheckListAt(t, v, buf, from, pos);
    } else if !Fixed(t) {
      CheckLeaf(t, v, buf, from, pos);
    }
  }

  lemma CheckListAt(t: Type, v: Value, buf: seq<Byte>, from: nat, pos: nat)
    requires t.List? && Typed(t, v) && At(t, v, buf, from, pos) && |buf| < U32
    ensures from + FieldSize(t) <= |buf| && Check(t, buf, from, pos) == Ok(pos + TailSize(t, v))
    decreases Rank(t), 0, 0
  {
    hide Holds, Heads, Tails, Head, Tail, FitsAll, TypedAll, TailSizeAll, Check, CheckAll, Word, Repeat, HeaderSize,
         RankAll;
    var ts := Repeat(t.item, |v.items|);
    AtList(t, v, buf, from, pos);
    ListFits(ts, v.items, buf, pos);
    RepeatSize(t.item, |v.items|);
    HeaderWords(buf, from, pos, |v.items|);
    CheckAtAll(ts, v.items, buf, pos, pos + HeaderSize(ts));
    CheckSegment(t, buf, from, pos, |v.items|);
  }

  lemma ReadListAt(t: Type, v: Value, buf: seq<Byte>, from: nat, pos: nat)
    requires t.List? && Typed(t, v) && At(t, v, buf, from, pos) && |buf| < U32
    ensures Read(t, buf, from) == Some(v)
    decreases Rank(t), 0, 0
  {
    hide Holds, Heads, Tails, Head, Tail, FitsAll, TypedAll, TailSizeAll, ReadAll, Word, Repeat, HeaderSize, RankAll;
    var ts := Repeat(t.item, |v.items|);
    AtList(t, v, buf, from, pos);
    ListFits(ts, v.items, buf, pos);
    HeaderWords(buf, from, pos, |v.items|);
    ReadAtAll(ts, v.items, buf, pos, pos + HeaderSize(ts));
  }

  lemma ListFits(ts: seq<Type>, vs: seq<Value>, buf: seq<Byte>, pos: nat)
    requires AtAll(ts, vs, buf, pos, pos + HeaderSize(ts))
    ensures pos + HeaderSize(ts) <= |buf| && |vs| == |ts| <= HeaderSize(ts)
  {
    hide Fits, Tails, Heads;
    HeadersAdd(ts);
  }

  lemma {:induction false} HeadersAdd(ts: seq<Type>)
    ensures |ts| <= HeaderSize(ts)
  {
    if ts == [] {
    } else {
      HeadersAdd(ts[1..]);
    }
  }

  lemma {:induction false} CheckAtAll(ts: seq<Type>, vs: seq<Value>, buf: seq<Byte>, from: nat, pos: nat)
    requires TypedAll(ts, vs) && AtAll(ts, vs, buf, from, pos) && |buf| < U32
    ensures from + HeaderSize(ts) <= |buf| && CheckAll(ts, buf, from, pos) == Ok(pos + TailSizeAll(ts, vs))
    decreases RankAll(ts), 2, |ts|
  {
    hide Heads, Tails, Head, Tail, Fits, Typed, TailSize, Check, At;
    if ts == [] {
    } else {
      AtAllFirst(ts, vs, buf, from, pos);
      CheckAt(ts[0], vs[0], buf, from, pos);
      CheckAtAll(ts[1..], vs[1..], buf, from + FieldSize(ts[0]), pos + TailSize(ts[0], vs[0]));
    }
  }

  lemma {:induction false} ReadAt(t: Type, v: Value, buf: seq<Byte>, from: nat, pos: nat)
    requires Typed(t, v) && At(t, v, buf, from, pos) && |buf| < U32
    ensures Read(t, buf, from) == Some(v)
    decreases Rank(t), 1, 0
  {
    if t.List? {
      ReadListAt(t, v, buf, from, pos);
    } else if Fixed(t) {
      FixedRoundTrip(t, v);
    } else {
      ReadLeaf(t, v, buf, from, pos);
    }
  }

  lemma {:induction false} ReadAtAll(ts: seq<Type>, vs: seq<Value>, buf: seq<Byte>, from: nat, pos: nat)
    requires TypedAll(ts, vs) && AtAll(ts, vs, buf, from, pos) && |buf| < U32
    ensures ReadAll(ts, buf, from) == Some(vs)
    decreases RankAll(ts), 2, |ts|
  {
    hide Holds, Heads, Tails, Head, Tail, Fits, Typed, TailSize, Read, At;
    if ts == [] {
    } else {
      AtAllFirst(ts, vs, buf, from, pos);
      ReadAt(ts[0], vs[0], buf, from, pos);
      ReadAtAll(ts[1..], vs[1..], buf, from + FieldSize(ts[0]), pos + TailSize(ts[0], vs[0]));
      assert vs == [vs[0]] + vs[1..];
    }
  }

  // ----- The round trip -----

  /** Fields written one after another into any buffer are accepted, with the end of the buffer
      as the end of the last segment, and read back; the rest of the buffer stays. */
  lemma FieldsRoundTrip(ts: seq<Type>, vs: seq<Value>, buf: seq<Byte>, from: nat)
    requires TypedAll(ts, vs) && from + HeaderSize(ts) <= |buf|
    requires |WriteAll(ts, vs, buf, from)| < U32
    ensures var r := WriteAll(ts, vs, buf, from);
            && CheckAll(ts, r, from, |buf|) == Ok(|r|)
            && ReadAll(ts, r, from) == Some(vs)
            && r[..from] == buf[..from]
            && r[from + HeaderSize(ts)..|buf|] == buf[from + HeaderSize(ts)..]
  {
    hide WriteAll, CheckAll, ReadAll, TypedAll, FitsAll;
    var r := WriteAll(ts, vs, buf, from);
    WrittenAt(ts, vs, buf, from);
    CheckAtAll(ts, vs, r, from, |buf|);
    ReadAtAll(ts, vs, r, from, |buf|);
  }

  lemma WrittenAt(ts: seq<Type>, vs: seq<Value>, buf: seq<Byte>, from: nat)
    requires FitsAll(ts, vs) && from + HeaderSize(ts) <= |buf|
    ensures var r := WriteAll(ts, vs, buf, from);
            && AtAll(ts, vs, r, from, |buf|) && |r| == |buf| + TailSizeAll(ts, vs)
            && r[..from] == buf[..from]
            && r[from + HeaderSize(ts)..|buf|] == buf[from + HeaderSize(ts)..]
  {
    hide WriteAll, Heads, Tails, FitsAll, TailSizeAll;
    WriteAllIsLayout(ts, vs, buf, from);
    var r := WriteAll(ts, vs, buf, from);
    var heads, tails := Heads(ts, vs, |buf|), Tails(ts, vs, |buf|);
    assert r[from..from + |heads|] == heads && r[|buf|..] == tails;
  }

  /** Every field of its own comes back, whatever its place. */
  lemma {:induction false} FieldComesBack(ts: seq<Type>, vs: seq<Value>, buf: seq<Byte>, from: nat, i: nat)
    requires ReadAll(ts, buf, from) == Some(vs) && i < |ts|
    ensures Read(ts[i], buf, from + HeaderSize(ts[..i])) == Some(vs[i])
    decreases i
  {
    hide Read;
    if i > 0 {
      FieldComesBack(ts[1..], vs[1..], buf, from + FieldSize(ts[0]), i - 1);
      assert ts[..i][1..] == ts[1..][..i - 1];
    } else {
      assert ts[..0] == [];
    }
  }

  // ----- Structures -----

  /** `new` of a structure: the headers, then the segments. */
  function NewStruct(ts: seq<Type>, vs: seq<Value>): seq<Byte>
    requires FitsAll(ts, vs)
  {
    WriteAll(ts, vs, Zeros(HeaderSize(ts)), 0)
  }

  /** A new structure is well formed, every accessor gives the argument back, and it can itself
      be a field of something else. */
  lemma StructRoundTrip(ts: seq<Type>, vs: seq<Value>, i: nat)
    requires TypedAll(ts, vs) && |NewStruct(ts, vs)| < U32 && i < |ts|
    ensures Typed(Struct(ts), VBytes(NewStruct(ts, vs)))
    ensures Read(ts[i], NewStruct(ts, vs), HeaderSize(ts[..i])) == Some(vs[i])
  {
    hide CheckAll, ReadAll, Read, WriteAll;
    FieldsRoundTrip(ts, vs, Zeros(HeaderSize(ts)), 0);
    FieldComesBack(ts, vs, NewStruct(ts, vs), 0, i);
  }
}
