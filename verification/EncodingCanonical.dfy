/**
 What the check accepts: the segments follow each other without gaps or overlaps, no read
 leaves the buffer, and the bytes are the only encoding of the value that is read.
 */
module EncodingCanonical {
  import opened Bytes
  import opened Encoding
  import opened EncodingLayout
  import opened EncodingRoundTrip
  import opened EncodingTypes
  import opened Utf8

  /** Every time in the field, also in the items of a list, satisfies `p`. */
  ghost predicate EveryTime(t: Type, buf: seq<Byte>, from: nat, p: seq<Byte> -> bool)
    decreases Rank(t), 1, 0
  {
    if t.Time? then from + 12 <= |buf| ==> p(buf[from..from + 12])
    else if t.List? then from + 8 <= |buf| ==>
      EveryTimeAll(Repeat(t.item, Word(buf, from + 4)), buf, Word(buf, from), p)
    else true
  }

  ghost predicate EveryTimeAll(ts: seq<Type>, buf: seq<Byte>, from: nat, p: seq<Byte> -> bool)
    decreases RankAll(ts), 2, |ts|
  {
    ts == [] || (EveryTime(ts[0], buf, from, p) && EveryTimeAll(ts[1..], buf, from + FieldSize(ts[0]), p))
  }

  // ----- Leaves -----

  /** Of the fields in place only a truth value can be refused; any bytes are a time. */
  lemma FixedAccepted(t: Type, buf: seq<Byte>, from: nat, latest: nat)
    requires Fixed(t) && from + FieldSize(t) <= |buf|
    ensures Check(t, buf, from, latest)
         == if t.Bool? ==> buf[from] in {0, 1} then Ok(latest) else Err(IncorrectBoolean(from, buf[from]))
  {
  }

  /** A segment that does not start where the last one ended, or ends outside the buffer, is refused,
      and the error says how. */
  lemma SegmentRefused(t: Type, buf: seq<Byte>, from: nat, latest: nat)
    requires !Fixed(t) && from + FieldSize(t) <= |buf|
    ensures var start, count := LoadLE(buf[from..from + 4]), LoadLE(buf[from + 4..from + 8]);
            && (start < latest ==> Check(t, buf, from, latest) == Err(OverlappingSegment(latest, start)))
            && (start > latest ==> Check(t, buf, from, latest) == Err(SpaceBetweenSegments(latest, start)))
            && (start == latest && start + count * ItemSize(t) > |buf| ==>
                  Check(t, buf, from, latest) in {Err(OffsetOverflow), Err(IncorrectSegmentSize(from + 4, count))})
  {
    hide CheckData, LoadLE;
  }

  lemma Inside(s: seq<Byte>, from: nat, end: nat, i: nat, j: nat)
    requires from <= end <= |s| && i <= j && from + j <= end
    ensures s[from..end][i..j] == s[from + i..from + j]
  {
    var middle := s[from..end];
    var a, b := middle[i..j], s[from + i..from + j];
    assert |a| == j - i == |b|;
    forall k: nat | k < j - i ensures a[k] == b[k] {
      assert a[k] == middle[i + k];
      assert middle[i + k] == s[from + (i + k)];
    }
  }

  /** The bytes of a message are accepted exactly when they have a header that says their number. */
  lemma RawAccepted(buf: seq<Byte>, start: nat, count: nat)
    requires start + count <= |buf|
    ensures CheckData(Raw, buf, start, count) ==
            if count < 10 then Err(UnexpectedlyShortRawMessage(start, count))
            else
              var said := LoadLE(buf[start + 6..start + 10]);
              if said == count then Ok(start + count) else Err(IncorrectSizeOfRawMessage(start, count, said))
  {
    hide LoadLE;
    var bytes := buf[start..start + count];
    if count >= 10 {
      Inside(buf, start, start + count, 6, 10);
    }
  }

  /** A segment of text is accepted exactly when it is the encoding of some text. */
  lemma TextAccepted(buf: seq<Byte>, start: nat, count: nat)
    requires start + count <= |buf|
    ensures CheckData(Str, buf, start, count) == Ok(start + count) <==>
            exists text: seq<Scalar> :: EncodeAll(text) == buf[start..start + count]
    ensures CheckData(Str, buf, start, count) in {Ok(start + count), Err(Error.Utf8(start))}
  {
    ValidUtf8Exactly(buf[start..start + count]);
  }

  lemma FixedSound(t: Type, buf: seq<Byte>, from: nat, latest: nat)
    requires Fixed(t) && from + FieldSize(t) <= |buf| && latest <= |buf| && Check(t, buf, from, latest).Ok?
    ensures Check(t, buf, from, latest) == Ok(latest)
    ensures Read(t, buf, from).Some? <==> EveryTime(t, buf, from, TimeFits)
    ensures Read(t, buf, from).Some? ==>
              var v := Read(t, buf, from).value;
              && Typed(t, v) && TailSize(t, v) == 0
              && (At(t, v, buf, from, latest) <==> EveryTime(t, buf, from, TimeNormal))
  {
    hide FixedFits, StoreFixed, LoadFixed, TimeFits, TimeNormal;
    FixedCanonical(t, buf[from..from + FieldSize(t)]);
  }

  lemma CountBack(count: nat, item: nat)
    requires item >= 1
    ensures count * item / item == count && count * item % item == 0
  {
    var d, m := count * item / item, count * item % item;
    assert (count - d) * item == m;
    AtLeastOne(count - d, item);
    AtLeastOne(d - count, item);
  }

  lemma AtLeastOne(k: int, item: nat)
    ensures k >= 1 ==> k * item >= item
    ensures (-k) * item == -(k * item)
  {
  }

  /** What an accepted segment says about its place. */
  lemma SegmentSound(t: Type, buf: seq<Byte>, from: nat, latest: nat)
    requires !Fixed(t) && from + FieldSize(t) <= |buf| && Check(t, buf, from, latest).Ok?
    ensures from + 8 <= |buf| && Word(buf, from) == latest
    ensures latest + Word(buf, from + 4) * ItemSize(t) <= |buf|
    ensures Check(t, buf, from, latest) == CheckData(t, buf, latest, Word(buf, from + 4))
  {
    hide CheckData, Word, ItemSize;
  }

  /** The value that is read from an accepted segment. */
  lemma LeafRead(t: Type, buf: seq<Byte>, from: nat, latest: nat)
    requires !Fixed(t) && !t.List? && from + FieldSize(t) <= |buf| && Check(t, buf, from, latest).Ok?
    ensures Read(t, buf, from).Some?
    ensures var v := Read(t, buf, from).value;
            && Typed(t, v)
            && |Content(t, v)| == Word(buf, from + 4) * ItemSize(t) && Holds(buf, latest, Content(t, v))
            && Check(t, buf, from, latest) == Ok(latest + |Content(t, v)|)
  {
    hide CheckAll, FromRaw, Repeat, ReadAll, FitsAll, ToBytes, FromBytes, ValidUtf8, Word, Check, FieldSize, HeaderSize;
    SegmentSound(t, buf, from, latest);
    var count := Word(buf, from + 4);
    CountBack(count, ItemSize(t));
    var bytes := buf[latest..latest + count * ItemSize(t)];
    BytesRoundTrip(bytes);
  }

  lemma LeafSound(t: Type, buf: seq<Byte>, from: nat, latest: nat)
    requires !Fixed(t) && !t.List? && from + FieldSize(t) <= |buf| && Check(t, buf, from, latest).Ok?
    ensures Read(t, buf, from).Some?
    ensures var v := Read(t, buf, from).value;
            && Typed(t, v) && At(t, v, buf, from, latest)
            && Check(t, buf, from, latest) == Ok(latest + TailSize(t, v))
  {
    hide Header, Read, Fits, Content, Check, Word, ItemSize;
    SegmentSound(t, buf, from, latest);
    LeafRead(t, buf, from, latest);
    WordsHeader(buf, from);
    CountBack(Word(buf, from + 4), ItemSize(t));
  }

  // ----- Every field -----

  /** The meaning of an accepted field.  Its segments fill the space up to the returned offset.
      Reading stays inside the buffer and fails only on a time that cannot be represented.
      Writing the value again gives the same bytes exactly when every time is normal. */
  ghost predicate Sound(t: Type, buf: seq<Byte>, from: nat, latest: nat, end: nat) {
    && latest <= end <= |buf|
    && (Read(t, buf, from).Some? <==> EveryTime(t, buf, from, TimeFits))
    && (Read(t, buf, from).Some? ==>
          var v := Read(t, buf, from).value;
          && Typed(t, v) && end == latest + TailSize(t, v)
          && (At(t, v, buf, from, latest) <==> EveryTime(t, buf, from, TimeNormal)))
  }

  ghost predicate SoundAll(ts: seq<Type>, buf: seq<Byte>, from: nat, latest: nat, end: nat) {
    && latest <= end <= |buf|
    && (ReadAll(ts, buf, from).Some? <==> EveryTimeAll(ts, buf, from, TimeFits))
    && (ReadAll(ts, buf, from).Some? ==>
          var vs := ReadAll(ts, buf, from).value;
          && TypedAll(ts, vs) && end == latest + TailSizeAll(ts, vs)
          && (AtAll(ts, vs, buf, from, latest) <==> EveryTimeAll(ts, buf, from, TimeNormal)))
  }

  lemma {:induction false} CheckSound(t: Type, buf: seq<Byte>, from: nat, latest: nat)
    requires from + FieldSize(t) <= |buf| && latest <= |buf| && Check(t, buf, from, latest).Ok?
    ensures Sound(t, buf, from, latest, Check(t, buf, from, latest).end)
    decreases Rank(t), 1, 0
  {
    hide Read, Check, Typed, TailSize, At;
    if Fixed(t) {
      FixedSound(t, buf, from, latest);
    } else if t.List? {
      ListSound(t, buf, from, latest);
    } else {
      LeafSound(t, buf, from, latest);
      SegmentSound(t, buf, from, latest);
      LeafRead(t, buf, from, latest);
    }
  }

  lemma ListSound(t: Type, buf: seq<Byte>, from: nat, latest: nat)
    requires t.List? && from + FieldSize(t) <= |buf| && Check(t, buf, from, latest).Ok?
    ensures Sound(t, buf, from, latest, Check(t, buf, from, latest).end)
    decreases Rank(t), 0, 0
  {
    hide Check, CheckAll, ReadAll, TypedAll, FitsAll, TailSizeAll, EveryTimeAll, Word, Repeat, HeaderSize, AtAll, At,
         Holds, Header;
    SegmentSound(t, buf, from, latest);
    WordsHeader(buf, from);
    var count := Word(buf, from + 4);
    var ts := Repeat(t.item, count);
    RepeatSize(t.item, count);
    CheckAllSound(ts, buf, latest, latest + HeaderSize(ts));
    if ReadAll(ts, buf, latest).Some? {
      AtList(t, VList(ReadAll(ts, buf, latest).value), buf, from, latest);
    }
  }

  lemma {:induction false} CheckAllSound(ts: seq<Type>, buf: seq<Byte>, from: nat, latest: nat)
    requires from + HeaderSize(ts) <= |buf| && latest <= |buf| && CheckAll(ts, buf, from, latest).Ok?
    ensures SoundAll(ts, buf, from, latest, CheckAll(ts, buf, from, latest).end)
    decreases RankAll(ts), 2, |ts|
  {
    hide Check, Read, Typed, Fits, TailSize, EveryTime, At, Head, Tail;
    if ts == [] {
    } else {
      CheckSound(ts[0], buf, from, latest);
      var next := Check(ts[0], buf, from, latest).end;
      var behind := from + FieldSize(ts[0]);
      CheckAllSound(ts[1..], buf, behind, next);
      SoundFirst(ts, buf, from, latest, next, CheckAll(ts, buf, from, latest).end);
    }
  }

  /** What is read of several fields, and what is asked of their times, first and rest. */
  lemma ReadAllFirst(ts: seq<Type>, buf: seq<Byte>, from: nat)
    requires ts != []
    ensures var behind := from + FieldSize(ts[0]);
            && (ReadAll(ts, buf, from).Some? <==> Read(ts[0], buf, from).Some? && ReadAll(ts[1..], buf, behind).Some?)
            && (ReadAll(ts, buf, from).Some? ==>
                  ReadAll(ts, buf, from).value == [Read(ts[0], buf, from).value] + ReadAll(ts[1..], buf, behind).value)
            && forall p: seq<Byte> -> bool ::
                 EveryTimeAll(ts, buf, from, p) <==>
                 EveryTime(ts[0], buf, from, p) && EveryTimeAll(ts[1..], buf, behind, p)
  {
    hide Read, EveryTime, FieldSize;
  }

  lemma TypedAllFirst(ts: seq<Type>, v: Value, vs: seq<Value>)
    requires ts != [] && Typed(ts[0], v) && TypedAll(ts[1..], vs)
    ensures TypedAll(ts, [v] + vs) && TailSizeAll(ts, [v] + vs) == TailSize(ts[0], v) + TailSizeAll(ts[1..], vs)
  {
    hide Typed, Fits, TailSize;
    assert ([v] + vs)[1..] == vs;
  }

  lemma SoundFirst(ts: seq<Type>, buf: seq<Byte>, from: nat, latest: nat, next: nat, end: nat)
    requires ts != [] && Sound(ts[0], buf, from, latest, next)
    requires SoundAll(ts[1..], buf, from + FieldSize(ts[0]), next, end)
    ensures SoundAll(ts, buf, from, latest, end)
  {
    hide Read, ReadAll, Typed, TypedAll, TailSize, TailSizeAll, EveryTime, EveryTimeAll, At, AtAll, FieldSize, Fits,
         FitsAll, TimeFits, TimeNormal;
    ReadAllFirst(ts, buf, from);
    if ReadAll(ts, buf, from).Some? {
      var v, vs := Read(ts[0], buf, from).value, ReadAll(ts[1..], buf, from + FieldSize(ts[0])).value;
      TypedAllFirst(ts, v, vs);
      assert ([v] + vs)[1..] == vs;
      AtAllFirst(ts, [v] + vs, buf, from, latest);
    }
  }
}
