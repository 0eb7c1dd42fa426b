/** Structures and signed messages. */
module EncodingMessages {
  import opened Bytes
  import opened Encoding
  import opened EncodingCanonical
  import opened EncodingLayout
  import opened EncodingRoundTrip
  import opened EncodingTypes
  import opened Wrappers

  // ----- Structures -----

  lemma NewStructLayout(ts: seq<Type>, vs: seq<Value>)
    requires FitsAll(ts, vs)
    ensures NewStruct(ts, vs) == Heads(ts, vs, HeaderSize(ts)) + Tails(ts, vs, HeaderSize(ts))
  {
    hide WriteAll, Heads, Tails, FitsAll;
    WriteAllIsLayout(ts, vs, Zeros(HeaderSize(ts)), 0);
    assert Splice(Zeros(HeaderSize(ts)), 0, Heads(ts, vs, HeaderSize(ts))) == Heads(ts, vs, HeaderSize(ts));
  }

  /** An accepted structure is the one that its fields make exactly when no bytes are left
      behind its last segment and every time is normal; the check asks for neither. */
  lemma StructCanonical(ts: seq<Type>, bytes: seq<Byte>)
    requires ValidStruct(ts, bytes) && EveryTimeAll(ts, bytes, 0, TimeFits)
    ensures ReadAll(ts, bytes, 0).Some?
    ensures var vs := ReadAll(ts, bytes, 0).value;
            && TypedAll(ts, vs)
            && (bytes == NewStruct(ts, vs) <==>
                  CheckAll(ts, bytes, 0, HeaderSize(ts)).end == |bytes| && EveryTimeAll(ts, bytes, 0, TimeNormal))
  {
    hide Heads, Tails, FitsAll, TypedAll, CheckAll, ReadAll, EveryTimeAll, TailSizeAll, NewStruct, TimeFits, TimeNormal;
    var first := HeaderSize(ts);
    CheckAllSound(ts, bytes, 0, first);
    var vs := ReadAll(ts, bytes, 0).value;
    NewStructLayout(ts, vs);
    HoldsSplit(bytes, 0, Heads(ts, vs, first), Tails(ts, vs, first));
    assert |bytes| == |NewStruct(ts, vs)| ==> (bytes == NewStruct(ts, vs) <==> Holds(bytes, 0, NewStruct(ts, vs)));
  }

  /** A byte too many in a structure is not noticed. */
  lemma SlackIsAccepted()
    ensures Check(Struct([]), [8, 0, 0, 0, 1, 0, 0, 0, 7], 0, 8) == Ok(9)
    ensures NewStruct([], []) != [7]
  {
    var buf: seq<Byte> := [8, 0, 0, 0, 1, 0, 0, 0, 7];
    SmallWord(buf, 0, 8);
    SmallWord(buf, 4, 1);
    assert Zeros(0) == [];
  }

  lemma SmallWord(buf: seq<Byte>, at: nat, b: Byte)
    requires at + 4 <= |buf| && buf[at] == b && buf[at + 1] == buf[at + 2] == buf[at + 3] == 0
    ensures Word(buf, at) == b
  {
    var s := buf[at..at + 4];
    assert s[1..] == [0, 0, 0] && s[2..] == [0, 0] && s[3..] == [0];
    assert s[1..][1..] == s[2..] && s[2..][1..] == s[3..] && s[3..][1..] == [];
    assert LoadLE(s[3..]) == 0;
    assert LoadLE(s[2..]) == 0;
    assert LoadLE(s[1..]) == 0;
  }

  // ----- Messages -----

  /** The header of a message: network, version, message type, service, and its whole length. */
  function MessageHeader(service: Uint16, id: Uint16, length: nat): (r: seq<Byte>)
    ensures |r| == HEADER_LENGTH
  {
    [TEST_NETWORK_ID, PROTOCOL_MAJOR_VERSION] + StoreLE(id, 2) + StoreLE(service, 2) + StoreLE(length % U32, 4)
  }

  /** `new_with_signature`: the fields are written behind an unfinished header, then the length
      is filled in and the signature appended. */
  function NewMessage(service: Uint16, id: Uint16, ts: seq<Type>, vs: seq<Value>, signature: seq<Byte>): seq<Byte>
    requires FitsAll(ts, vs) && |signature| == SIGNATURE_LENGTH
  {
    var body := WriteAll(ts, vs, MessageHeader(service, id, 0) + Zeros(HeaderSize(ts)), HEADER_LENGTH);
    Splice(body, 6, StoreLE((|body| + SIGNATURE_LENGTH) % U32, 4)) + signature
  }

  ghost function MessageBody(service: Uint16, id: Uint16, ts: seq<Type>, vs: seq<Value>, length: nat): seq<Byte>
    requires FitsAll(ts, vs)
  {
    var first := HEADER_LENGTH + HeaderSize(ts);
    MessageHeader(service, id, length) + (Heads(ts, vs, first) + Tails(ts, vs, first))
  }

  lemma NewMessageLayout(service: Uint16, id: Uint16, ts: seq<Type>, vs: seq<Value>, signature: seq<Byte>)
    requires FitsAll(ts, vs) && |signature| == SIGNATURE_LENGTH
    ensures var length := HEADER_LENGTH + HeaderSize(ts) + TailSizeAll(ts, vs) + SIGNATURE_LENGTH;
            NewMessage(service, id, ts, vs, signature) == MessageBody(service, id, ts, vs, length) + signature
  {
    hide WriteAll, Heads, Tails, FitsAll, TailSizeAll, StoreLE;
    var unfinished := MessageHeader(service, id, 0);
    var buf := unfinished + Zeros(HeaderSize(ts));
    var first := HEADER_LENGTH + HeaderSize(ts);
    WriteAllIsLayout(ts, vs, buf, HEADER_LENGTH);
    var fields := Heads(ts, vs, first) + Tails(ts, vs, first);
    var body := WriteAll(ts, vs, buf, HEADER_LENGTH);
    assert body == unfinished + fields;
    var length := |body| + SIGNATURE_LENGTH;
    var filled := Splice(unfinished, 6, StoreLE(length % U32, 4));
    assert Splice(body, 6, StoreLE(length % U32, 4)) == filled + fields;
    assert filled == MessageHeader(service, id, length);
  }

  /** The first ten bytes and the last sixty-four of a message: network, version, message type,
      service and length, the numbers little-endian, and the signature. */
  lemma MessageOnWire(service: Uint16, id: Uint16, ts: seq<Type>, vs: seq<Value>, signature: seq<Byte>)
    requires FitsAll(ts, vs) && |signature| == SIGNATURE_LENGTH
    ensures var raw := NewMessage(service, id, ts, vs, signature);
            && |raw| >= HEADER_LENGTH + SIGNATURE_LENGTH
            && raw[..6] == [0, 0, id % 256, id / 256, service % 256, service / 256]
            && (forall k | 0 <= k < 4 :: raw[6 + k] == |raw| % U32 / Pow256(k) % 256)
            && raw[|raw| - SIGNATURE_LENGTH..] == signature
  {
    hide WriteAll, FitsAll, Heads, Tails, TailSizeAll;
    NewMessageLayout(service, id, ts, vs, signature);
    var raw := NewMessage(service, id, ts, vs, signature);
    var header := MessageHeader(service, id, |raw|);
    assert raw[..HEADER_LENGTH] == header;
    TwoBytes(id);
    TwoBytes(service);
    forall k | 0 <= k < 4 ensures raw[6 + k] == |raw| % U32 / Pow256(k) % 256 {
      StoreLEAt(|raw| % U32, 4, k);
      assert raw[6 + k] == header[6 + k];
    }
    assert raw[..6] == header[..6];
  }

  lemma TwoBytes(n: Uint16)
    ensures StoreLE(n, 2) == [n % 256, n / 256]
  {
    assert StoreLE(n / 256, 1) == [n / 256];
  }

  /** The header, as `from_raw` and the stream codec read it. */
  lemma HeaderIs(s: seq<Byte>, service: Uint16, id: Uint16, length: nat)
    requires |s| >= HEADER_LENGTH
    ensures Holds(s, 0, MessageHeader(service, id, length)) <==>
              && s[0] == TEST_NETWORK_ID && s[1] == PROTOCOL_MAJOR_VERSION
              && LoadLE(s[2..4]) == id && LoadLE(s[4..6]) == service && Word(s, 6) == length % U32
  {
    hide StoreLE, LoadLE, Pow256;
    var names: seq<Byte> := [TEST_NETWORK_ID, PROTOCOL_MAJOR_VERSION];
    HoldsSplit(s, 0, names + StoreLE(id, 2) + StoreLE(service, 2), StoreLE(length % U32, 4));
    HoldsSplit(s, 0, names + StoreLE(id, 2), StoreLE(service, 2));
    HoldsSplit(s, 0, names, StoreLE(id, 2));
    assert Holds(s, 0, names) <==> s[0] == TEST_NETWORK_ID && s[1] == PROTOCOL_MAJOR_VERSION by {
      assert s[0..2] == [s[0], s[1]];
    }
    Pow256Values();
    NumberIs(s, 2, id, 2);
    NumberIs(s, 4, service, 2);
    NumberIs(s, 6, length % U32, 4);
  }

  lemma NumberIs(s: seq<Byte>, at: nat, n: nat, size: nat)
    requires at + size <= |s| && n < Pow256(size)
    ensures Holds(s, at, StoreLE(n, size)) <==> LoadLE(s[at..at + size]) == n
  {
    hide StoreLE, LoadLE, Pow256;
    LoadStore(n, size);
    StoreLoad(s[at..at + size]);
  }

  /** A body holds its header and its fields. */
  lemma BodyHolds(body: seq<Byte>, service: Uint16, id: Uint16, ts: seq<Type>, vs: seq<Value>, length: nat)
    requires FitsAll(ts, vs)
    ensures var first := HEADER_LENGTH + HeaderSize(ts);
            Holds(body, 0, MessageBody(service, id, ts, vs, length)) <==>
              Holds(body, 0, MessageHeader(service, id, length)) && AtAll(ts, vs, body, HEADER_LENGTH, first)
  {
    hide MessageHeader, Heads, Tails, FitsAll, Holds;
    var first := HEADER_LENGTH + HeaderSize(ts);
    var heads, tails := Heads(ts, vs, first), Tails(ts, vs, first);
    HoldsSplit(body, 0, MessageHeader(service, id, length), heads + tails);
    HoldsSplit(body, HEADER_LENGTH, heads, tails);
  }

  /** A new message is accepted, its fields come back, and its header says how long it is. */
  lemma MessageRoundTrip(service: Uint16, id: Uint16, ts: seq<Type>, vs: seq<Value>, signature: seq<Byte>)
    requires TypedAll(ts, vs) && |signature| == SIGNATURE_LENGTH
    requires |NewMessage(service, id, ts, vs, signature)| < U32
    ensures var raw := NewMessage(service, id, ts, vs, signature);
            && FromRaw(service, id, ts, raw).Ok? && raw[|raw| - SIGNATURE_LENGTH..] == signature
            && ReadAll(ts, Body(raw), HEADER_LENGTH) == Some(vs)
            && CheckRaw(raw, 0, 0).Ok?
  {
    hide Heads, Tails, FitsAll, TypedAll, CheckAll, ReadAll, NewMessage, MessageHeader, LoadLE, TailSizeAll;
    var raw := NewMessage(service, id, ts, vs, signature);
    var first := HEADER_LENGTH + HeaderSize(ts);
    NewMessageLayout(service, id, ts, vs, signature);
    var body := MessageBody(service, id, ts, vs, |raw|);
    assert raw == body + signature && Body(raw) == body && |body| == first + TailSizeAll(ts, vs);
    assert Holds(body, 0, body) by {
      assert body[0..|body|] == body;
    }
    BodyHolds(body, service, id, ts, vs, |raw|);
    HeaderIs(body, service, id, |raw|);
    assert raw[2..4] == body[2..4] && raw[4..6] == body[4..6] && raw[6..10] == body[6..10];
    CheckAtAll(ts, vs, body, HEADER_LENGTH, first);
    ReadAtAll(ts, vs, body, HEADER_LENGTH, first);
  }

  /** An accepted message is the one its fields make, byte for byte, exactly when its header
      says its length and every time is normal; `from_raw` asks for neither. */
  lemma MessageCanonical(service: Uint16, id: Uint16, ts: seq<Type>, raw: seq<Byte>)
    requires FromRaw(service, id, ts, raw).Ok? && EveryTimeAll(ts, Body(raw), HEADER_LENGTH, TimeFits)
    ensures ReadAll(ts, Body(raw), HEADER_LENGTH).Some?
    ensures var vs := ReadAll(ts, Body(raw), HEADER_LENGTH).value;
            && TypedAll(ts, vs)
            && (raw == NewMessage(service, id, ts, vs, raw[|raw| - SIGNATURE_LENGTH..]) <==>
                  Word(raw, 6) == |raw| % U32 && EveryTimeAll(ts, Body(raw), HEADER_LENGTH, TimeNormal))
  {
    hide Heads, Tails, FitsAll, TypedAll, CheckAll, ReadAll, EveryTimeAll, TailSizeAll, NewMessage, MessageHeader,
         LoadLE, TimeFits, TimeNormal;
    var body, signature := Body(raw), raw[|raw| - SIGNATURE_LENGTH..];
    var first := HEADER_LENGTH + HeaderSize(ts);
    CheckAllSound(ts, body, HEADER_LENGTH, first);
    var vs := ReadAll(ts, body, HEADER_LENGTH).value;
    NewMessageLayout(service, id, ts, vs, signature);
    BodyHolds(body, service, id, ts, vs, |raw|);
    HeaderIs(body, service, id, |raw|);
    assert raw[2..4] == body[2..4] && raw[4..6] == body[4..6] && raw[6..10] == body[6..10];
    var again := MessageBody(service, id, ts, vs, |raw|);
    SameBody(raw, again, signature);
  }

  /** A message without fields whose header says any length, here a wrong one, is accepted. */
  lemma WrongLengthIsAccepted(service: Uint16, id: Uint16, length: nat, signature: seq<Byte>)
    requires |signature| == SIGNATURE_LENGTH && length % U32 != HEADER_LENGTH + SIGNATURE_LENGTH
    ensures FromRaw(service, id, [], MessageHeader(service, id, length) + signature).Ok?
    ensures NewMessage(service, id, [], [], signature) != MessageHeader(service, id, length) + signature
  {
    hide MessageHeader, NewMessage, LoadLE;
    var header := MessageHeader(service, id, length);
    var raw := header + signature;
    assert Body(raw) == header && header[0..HEADER_LENGTH] == header;
    HeaderIs(header, service, id, length);
    assert raw[2..4] == header[2..4] && raw[4..6] == header[4..6] && raw[6..10] == header[6..10];
    assert raw[|raw| - SIGNATURE_LENGTH..] == signature;
    MessageCanonical(service, id, [], raw);
  }

  lemma SameBody(raw: seq<Byte>, again: seq<Byte>, signature: seq<Byte>)
    requires |raw| == |again| + SIGNATURE_LENGTH && signature == raw[|raw| - SIGNATURE_LENGTH..]
    ensures raw == again + signature <==> Holds(Body(raw), 0, again)
  {
    assert raw == Body(raw) + signature;
    assert Body(raw)[0..|again|] == Body(raw);
    assert (again + signature)[..|again|] == again;
  }

  /** `MessageWriter`: a message under construction. */
  class MessageWriter {
    var raw: seq<Byte>

    constructor (service: Uint16, id: Uint16, payloadLength: nat)
      ensures raw == MessageHeader(service, id, 0) + Zeros(payloadLength)
    {
      var buf := Zeros(HEADER_LENGTH + payloadLength);
      buf := Splice(buf, 0, [TEST_NETWORK_ID]);
      buf := Splice(buf, 1, [PROTOCOL_MAJOR_VERSION]);
      buf := Splice(buf, 4, StoreLE(service, 2));
      buf := Splice(buf, 2, StoreLE(id, 2));
      raw := buf;
      new;
      FreshHeader(service, id, payloadLength);
    }

    static lemma FreshHeader(service: Uint16, id: Uint16, payloadLength: nat)
      ensures var zeros := Zeros(HEADER_LENGTH + payloadLength);
              var named := Splice(Splice(zeros, 0, [TEST_NETWORK_ID]), 1, [PROTOCOL_MAJOR_VERSION]);
              var made := Splice(Splice(named, 4, StoreLE(service, 2)), 2, StoreLE(id, 2));
              made == MessageHeader(service, id, 0) + Zeros(payloadLength)
    {
      hide StoreLE;
      ZeroLength();
      var a, b, z := StoreLE(id, 2), StoreLE(service, 2), Zeros(HEADER_LENGTH + payloadLength);
      assert Splice(Splice(z, 0, [TEST_NETWORK_ID]), 1, [PROTOCOL_MAJOR_VERSION]) == z;
      assert Splice(z, 4, b) == Zeros(4) + b + Zeros(4 + payloadLength);
      assert Splice(Splice(z, 4, b), 2, a) == Zeros(2) + a + b + Zeros(4 + payloadLength);
      assert Zeros(2) == [TEST_NETWORK_ID, PROTOCOL_MAJOR_VERSION];
      assert Zeros(4 + payloadLength) == [0, 0, 0, 0] + Zeros(payloadLength);
    }

    static lemma ZeroLength()
      ensures StoreLE(0, 4) == [0, 0, 0, 0]
    {
      assert StoreLE(0, 2) == [0, 0];
    }

    /** Writes a field behind the header. */
    method Write(t: Type, v: Value, from: nat)
      requires Fits(t, v) && from + HEADER_LENGTH + FieldSize(t) <= |raw|
      modifies this
      ensures raw == Encoding.Write(t, v, old(raw), from + HEADER_LENGTH)
      ensures raw == Splice(old(raw), from + HEADER_LENGTH, Head(t, v, |old(raw)|)) + Tail(t, v, |old(raw)|)
    {
      WriteIsLayout(t, v, raw, from + HEADER_LENGTH);
      raw := Encoding.Write(t, v, raw, from + HEADER_LENGTH);
    }

    /** Fills in the length of the whole message and appends the signature. */
    method AppendSignature(signature: seq<Byte>) returns (message: seq<Byte>)
      requires |raw| >= HEADER_LENGTH && |signature| == SIGNATURE_LENGTH
      ensures message == Splice(raw, 6, StoreLE((|raw| + SIGNATURE_LENGTH) % U32, 4)) + signature
      ensures |message| < U32 ==> Word(message, 6) == |message|
    {
      message := Splice(raw, 6, StoreLE((|raw| + SIGNATURE_LENGTH) % U32, 4)) + signature;
      assert message[6..10] == StoreLE((|raw| + SIGNATURE_LENGTH) % U32, 4);
      Pow256Values();
      LoadStore((|raw| + SIGNATURE_LENGTH) % U32, 4);
    }
  }

  /** `new_with_signature`, field by field. */
  method NewWithSignature(service: Uint16, id: Uint16, ts: seq<Type>, vs: seq<Value>, signature: seq<Byte>)
    returns (message: seq<Byte>)
    requires FitsAll(ts, vs) && |signature| == SIGNATURE_LENGTH
    ensures message == NewMessage(service, id, ts, vs, signature)
  {
    hide Fits, Encoding.Write, MessageHeader, StoreLE;
    var writer := new MessageWriter(service, id, HeaderSize(ts));
    var from: nat := 0;
    assert ts[0..] == ts && vs[0..] == vs;
    ghost var goal := WriteAll(ts, vs, writer.raw, HEADER_LENGTH);
    for i := 0 to |ts|
      invariant FitsAll(ts[i..], vs[i..]) && from + HEADER_LENGTH + HeaderSize(ts[i..]) <= |writer.raw|
      invariant WriteAll(ts[i..], vs[i..], writer.raw, from + HEADER_LENGTH) == goal
    {
      assert ts[i..][1..] == ts[i + 1..] && vs[i..][1..] == vs[i + 1..];
      writer.Write(ts[i], vs[i], from);
      from := from + FieldSize(ts[i]);
    }
    message := writer.AppendSignature(signature);
  }
}
