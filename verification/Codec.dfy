/**
 Messages on a byte stream.  Bytes arrive in pieces of any size; the codec cuts them into
 messages by the length in the header of each message.
 */
module Codec {
  import opened Bytes
  import opened Encoding
  import opened EncodingMessages
  import opened EncodingRoundTrip
  import opened EncodingTypes

  /** What a received stream amounts to: the messages in it, the bytes after the last one, and
      whether those bytes announce a message that is refused. */
  datatype Frames = Frames(messages: seq<seq<Byte>>, rest: seq<Byte>, failed: bool)

  /** The length that the header at the front announces is refused. */
  predicate Refused(s: seq<Byte>, max: nat)
    requires |s| >= HEADER_LENGTH
  {
    Word(s, 6) > max || Word(s, 6) < HEADER_LENGTH
  }

  function Split(s: seq<Byte>, max: nat): Frames
    decreases |s|
  {
    if |s| < HEADER_LENGTH then Frames([], s, false)
    else if Refused(s, max) then Frames([], s, true)
    else if |s| < Word(s, 6) then Frames([], s, false)
    else
      var next := Split(s[Word(s, 6)..], max);
      next.(messages := [s[..Word(s, 6)]] + next.messages)
  }

  /** More bytes: what is already split stays split. */
  function Continue(before: Frames, more: seq<Byte>, max: nat): Frames {
    if before.failed then before.(rest := before.rest + more)
    else
      var next := Split(before.rest + more, max);
      next.(messages := before.messages + next.messages)
  }

  /** It does not matter where the stream is cut. */
  lemma {:induction false} SplitAppend(a: seq<Byte>, b: seq<Byte>, max: nat)
    ensures Split(a + b, max) == Continue(Split(a, max), b, max)
    decreases |a|
  {
    if |a| < HEADER_LENGTH {
    } else {
      assert (a + b)[6..10] == a[6..10];
      var n := Word(a, 6);
      if Refused(a, max) || |a| < n {
      } else {
        assert (a + b)[..n] == a[..n] && (a + b)[n..] == a[n..] + b;
        SplitAppend(a[n..], b, max);
        var later := Split(a[n..], max);
        var more := Split(later.rest + b, max).messages;
        assert [a[..n]] + (later.messages + more) == [a[..n]] + later.messages + more;
      }
    }
  }

  /** A message that says its own length, not more than the limit. */
  predicate Framed(m: seq<Byte>, max: nat) {
    |m| >= HEADER_LENGTH && Word(m, 6) == |m| <= max
  }

  function Joined(pieces: seq<seq<Byte>>): seq<Byte> {
    if pieces == [] then [] else pieces[0] + Joined(pieces[1..])
  }

  lemma {:induction false} JoinedAppend(pieces: seq<seq<Byte>>, last: seq<Byte>)
    ensures Joined(pieces + [last]) == Joined(pieces) + last
  {
    if pieces == [] {
    } else {
      JoinedAppend(pieces[1..], last);
      assert (pieces + [last])[1..] == pieces[1..] + [last];
    }
  }

  /** Messages that are sent one after another are received, each of them whole. */
  lemma {:induction false} SplitJoined(ms: seq<seq<Byte>>, max: nat)
    requires forall m | m in ms :: Framed(m, max)
    ensures Split(Joined(ms), max) == Frames(ms, [], false)
  {
    if ms == [] {
    } else {
      var m, rest := ms[0], Joined(ms[1..]);
      SplitJoined(ms[1..], max);
      assert Framed(m, max);
      assert (m + rest)[6..10] == m[6..10] && (m + rest)[..|m|] == m && (m + rest)[|m|..] == rest;
      assert ms == [m] + ms[1..];
    }
  }

  /** Nothing is lost or made up: the messages and the rest are the stream, every message is
      well framed, and the rest is not. */
  lemma {:induction false} JoinedSplit(s: seq<Byte>, max: nat)
    ensures var f := Split(s, max);
            && Joined(f.messages) + f.rest == s
            && (forall m | m in f.messages :: Framed(m, max))
            && (f.failed <==> |f.rest| >= HEADER_LENGTH && Refused(f.rest, max))
            && (!f.failed && |f.rest| >= HEADER_LENGTH ==> |f.rest| < Word(f.rest, 6))
    decreases |s|
  {
    if |s| < HEADER_LENGTH || Refused(s, max) || |s| < Word(s, 6) {
    } else {
      var n := Word(s, 6);
      var m, next := s[..n], Split(s[n..], max);
      assert Split(s, max) == next.(messages := [m] + next.messages);
      FirstIsFramed(s, max);
      JoinedOne(m, next.messages);
      hide Split, Framed, Joined;
      JoinedSplit(s[n..], max);
      assert m + s[n..] == s;
    }
  }

  lemma FirstIsFramed(s: seq<Byte>, max: nat)
    requires |s| >= HEADER_LENGTH && !Refused(s, max) && Word(s, 6) <= |s|
    ensures Framed(s[..Word(s, 6)], max)
  {
    hide LoadLE;
    assert s[..Word(s, 6)][6..10] == s[6..10];
  }

  lemma JoinedOne(m: seq<Byte>, ms: seq<seq<Byte>>)
    ensures forall rest :: Joined([m] + ms) + rest == m + (Joined(ms) + rest)
  {
    assert ([m] + ms)[1..] == ms;
  }

  /** A sent message that is not well framed is the one thing that makes the stream fail or
      shift: the stream is split as it was sent exactly when every message is well framed. */
  lemma SentAsReceived(ms: seq<seq<Byte>>, max: nat)
    ensures Split(Joined(ms), max).messages == ms <==> forall m | m in ms :: Framed(m, max)
  {
    if forall m | m in ms :: Framed(m, max) {
      SplitJoined(ms, max);
    }
    JoinedSplit(Joined(ms), max);
  }

  /** A new message is well framed if the limit admits it. */
  lemma NewMessageIsFramed(service: Uint16, id: Uint16, ts: seq<Type>, vs: seq<Value>, signature: seq<Byte>, max: nat)
    requires TypedAll(ts, vs) && |signature| == SIGNATURE_LENGTH && max < U32
    ensures Framed(NewMessage(service, id, ts, vs, signature), max) <==>
              |NewMessage(service, id, ts, vs, signature)| <= max
  {
    hide TypedAll, NewMessage;
    if |NewMessage(service, id, ts, vs, signature)| <= max {
      MessageRoundTrip(service, id, ts, vs, signature);
    }
  }

  datatype Decoded = Nothing | Received(raw: seq<Byte>) | Failure

  /** A growing buffer of received bytes. */
  class BytesMut {
    var data: seq<Byte>

    constructor ()
      ensures data == []
    {
      data := [];
    }
  }

  class MessagesCodec {
    const maxMessageLen: nat

    constructor (maxMessageLen: nat)
      ensures this.maxMessageLen == maxMessageLen
    {
      this.maxMessageLen := maxMessageLen;
    }

    method Encode(msg: seq<Byte>, buf: BytesMut)
      modifies buf
      ensures buf.data == old(buf.data) + msg
    {
      buf.data := buf.data + msg;
    }

    /** Takes the first message off the buffer, if it is complete. */
    method Decode(buf: BytesMut) returns (r: Decoded)
      modifies buf
      ensures r.Received? ==> r.raw != [] && r.raw + buf.data == old(buf.data)
      ensures r.Received? ==>
                var f := Split(buf.data, maxMessageLen);
                Split(old(buf.data), maxMessageLen) == f.(messages := [r.raw] + f.messages)
      ensures !r.Received? ==>
                buf.data == old(buf.data) && Split(buf.data, maxMessageLen) == Frames([], buf.data, r.Failure?)
    {
      var len := |buf.data|;
      if len < HEADER_LENGTH {
        return Nothing;
      }
      var totalLen := Word(buf.data, 6);
      if totalLen > maxMessageLen {
        return Failure;
      }
      if totalLen < HEADER_LENGTH {
        return Failure;
      }
      if len >= totalLen {
        r := Received(buf.data[..totalLen]);
        buf.data := buf.data[totalLen..];
      } else {
        r := Nothing;
      }
    }

    /** Decodes everything that is complete. */
    method Drain(buf: BytesMut) returns (messages: seq<seq<Byte>>, failed: bool)
      modifies buf
      ensures Split(old(buf.data), maxMessageLen) == Frames(messages, buf.data, failed)
    {
      messages, failed := [], false;
      ghost var goal := Split(buf.data, maxMessageLen);
      var more := true;
      assert buf.data + [] == buf.data && [] + goal.messages == goal.messages;
      while more
        invariant more ==> !failed && goal == Continue(Frames(messages, buf.data, false), [], maxMessageLen)
        invariant !more ==> goal == Frames(messages, buf.data, failed)
        decreases |buf.data|, more
      {
        assert buf.data + [] == buf.data;
        var r := Decode(buf);
        match r
        case Received(raw) =>
          ghost var later := Split(buf.data, maxMessageLen).messages;
          assert messages + ([raw] + later) == messages + [raw] + later;
          assert buf.data + [] == buf.data;
          messages := messages + [raw];
        case Nothing =>
          assert messages + [] == messages;
          more := false;
        case Failure =>
          assert messages + [] == messages;
          more, failed := false, true;
      }
    }

    /** A stream that arrives in any pieces gives the messages of the whole stream; after a
        refused message nothing more is decoded. */
    method Receive(pieces: seq<seq<Byte>>) returns (messages: seq<seq<Byte>>, failed: bool)
      ensures messages == Split(Joined(pieces), maxMessageLen).messages
      ensures failed == Split(Joined(pieces), maxMessageLen).failed
    {
      var buf := new BytesMut();
      messages, failed := [], false;
      for i := 0 to |pieces|
        invariant fresh(buf)
        invariant Split(Joined(pieces[..i]), maxMessageLen) == Frames(messages, buf.data, failed)
      {
        assert pieces[..i + 1] == pieces[..i] + [pieces[i]];
        JoinedAppend(pieces[..i], pieces[i]);
        SplitAppend(Joined(pieces[..i]), pieces[i], maxMessageLen);
        buf.data := buf.data + pieces[i];
        if !failed {
          var next;
          next, failed := Drain(buf);
          messages := messages + next;
        }
      }
      assert pieces[..|pieces|] == pieces;
    }
  }
}
