/**
 Writing, checking and reading fields.  A buffer that is written in place is passed on as a
 value.
 */
module Encoding {
  import opened Bytes
  import opened EncodingTypes
  import opened Utf8
  import opened Wrappers

  const HEADER_LENGTH := 10
  const SIGNATURE_LENGTH := 64
  const PROTOCOL_MAJOR_VERSION := 0
  const TEST_NETWORK_ID := 0

  datatype Error =
    | OffsetOverflow
    | IncorrectBoolean(position: nat, value: Byte)
    | OverlappingSegment(lastEnd: nat, start: nat)
    | SpaceBetweenSegments(lastEnd: nat, start: nat)
    | IncorrectSegmentSize(position: nat, count: nat)
    | Utf8(position: nat)
    | UnexpectedlyShortPayload(actualSize: nat, minimumSize: nat)
    | UnexpectedlyShortRawMessage(position: nat, size: nat)
    | IncorrectSizeOfRawMessage(position: nat, actualSize: nat, declaredSize: nat)
    | UnsupportedProtocolVersion
    | IncorrectNetworkId
    | IncorrectMessageType
    | IncorrectServiceId
    | IncorrectLength

  /** The end of the last segment seen, or what is wrong. */
  datatype Checked = Ok(end: nat) | Err(error: Error)

  // ----- Checking -----

  function Word(s: seq<Byte>, at: nat): nat
    requires at + 4 <= |s|
  {
    LoadLE(s[at..at + 4])
  }

  /** `Field::check`: the field at `from`, when the last segment so far ends at `latest`. */
  function Check(t: Type, buf: seq<Byte>, from: nat, latest: nat): Checked
    requires from + FieldSize(t) <= |buf|
    decreases Rank(t), 1, 0
  {
    if Fixed(t) then
      if t.Bool? && buf[from] > 1 then Err(IncorrectBoolean(from, buf[from])) else Ok(latest)
    else
      var start, count := Word(buf, from), Word(buf, from + 4);
      var size := count * ItemSize(t);
      if start < latest then Err(OverlappingSegment(latest, start))
      else if start > latest then Err(SpaceBetweenSegments(latest, start))
      else if size >= U32 || start + size >= U32 then Err(OffsetOverflow)
      else if start + size > |buf| % U32 then Err(IncorrectSegmentSize(from + 4, count))
      else CheckData(t, buf, start, count)
  }

  /** `SegmentField::check_data`: the segment of `count` items at `start`. */
  function CheckData(t: Type, buf: seq<Byte>, start: nat, count: nat): Checked
    requires !Fixed(t) && start + count * ItemSize(t) <= |buf|
    decreases Rank(t), 0, 0
  {
    var end := start + count * ItemSize(t);
    var bytes := buf[start..end];
    if t.Str? then
      if ValidUtf8(bytes) then Ok(end) else Err(Utf8(start))
    else if t.Raw? then CheckRaw(bytes, start, end)
    else if t.Struct? then
      var first := HeaderSize(t.fields);
      if |bytes| < first then Err(UnexpectedlyShortPayload(|bytes|, first))
      else Within(CheckAll(t.fields, bytes, 0, first), end)
    else if t.Message? then
      var r := CheckRaw(bytes, start, end);
      if r.Err? then r else Within(FromRaw(t.service, t.id, t.fields, bytes), end)
    else if t.List? then
      RepeatSize(t.item, count);
      CheckAll(Repeat(t.item, count), buf, start, end)
    else Ok(end)
  }

  /** A check of bytes of their own, seen from outside. */
  function Within(inner: Checked, end: nat): Checked {
    if inner.Ok? then Ok(end) else inner
  }

  /** Fields one after another, each with the segments of the ones before it behind it. */
  function CheckAll(ts: seq<Type>, buf: seq<Byte>, from: nat, latest: nat): Checked
    requires from + HeaderSize(ts) <= |buf|
    decreases RankAll(ts), 2, |ts|
  {
    if ts == [] then Ok(latest)
    else
      match Check(ts[0], buf, from, latest)
      case Ok(next) => CheckAll(ts[1..], buf, from + FieldSize(ts[0]), next)
      case Err(e) => Err(e)
  }

  function CheckRaw(bytes: seq<Byte>, start: nat, end: nat): Checked {
    if |bytes| < HEADER_LENGTH then Err(UnexpectedlyShortRawMessage(start, |bytes|))
    else if |bytes| != Word(bytes, 6) then Err(IncorrectSizeOfRawMessage(start, |bytes|, Word(bytes, 6)))
    else Ok(end)
  }

  /** `Message::from_raw`: the identifiers, the fields, and nothing between the last segment and
      the signature. */
  function FromRaw(service: Uint16, id: Uint16, fields: seq<Type>, raw: seq<Byte>): Checked
    decreases RankAll(fields), 3, 0
  {
    var first := HEADER_LENGTH + HeaderSize(fields);
    if |raw| < first + SIGNATURE_LENGTH then Err(UnexpectedlyShortPayload(|raw|, first + SIGNATURE_LENGTH))
    else if raw[1] != PROTOCOL_MAJOR_VERSION then Err(UnsupportedProtocolVersion)
    else if raw[0] != TEST_NETWORK_ID then Err(IncorrectNetworkId)
    else if LoadLE(raw[2..4]) != id then Err(IncorrectMessageType)
    else if LoadLE(raw[4..6]) != service then Err(IncorrectServiceId)
    else
      match CheckAll(fields, Body(raw), HEADER_LENGTH, first)
      case Err(e) => Err(e)
      case Ok(end) => if end + SIGNATURE_LENGTH != |raw| then Err(IncorrectLength) else Ok(end)
  }

  function Body(raw: seq<Byte>): seq<Byte>
    requires |raw| >= SIGNATURE_LENGTH
  {
    raw[..|raw| - SIGNATURE_LENGTH]
  }

  // ----- Reading -----

  /** `Field::read`; `None` where the program stops: a slice outside the buffer, a time that
      cannot be represented, a nested message that is not one. */
  function Read(t: Type, buf: seq<Byte>, from: nat): Option<Value>
    decreases Rank(t), 1, 0
  {
    if from + FieldSize(t) > |buf| then None
    else if Fixed(t) then
      var s := buf[from..from + FieldSize(t)];
      if t.Time? && !TimeFits(s) then None else Some(LoadFixed(t, s))
    else
      var pos, count := Word(buf, from), Word(buf, from + 4);
      if t.List? then
        match ReadAll(Repeat(t.item, count), buf, pos)
        case None => None
        case Some(vs) => Some(VList(vs))
      else if pos + count * ItemSize(t) > |buf| then None
      else
        var bytes := buf[pos..pos + count * ItemSize(t)];
        match t
        case Bits => Some(VBits(FromBytes(bytes)))
        case Message(service, id, fields) =>
          if FromRaw(service, id, fields, bytes).Ok? then Some(VBytes(bytes)) else None
        case _ => Some(VBytes(bytes))
  }

  function ReadAll(ts: seq<Type>, buf: seq<Byte>, from: nat): (r: Option<seq<Value>>)
    ensures r.Some? ==> |r.value| == |ts|
    decreases RankAll(ts), 2, |ts|
  {
    if ts == [] then Some([])
    else
      match Read(ts[0], buf, from)
      case None => None
      case Some(v) =>
        match ReadAll(ts[1..], buf, from + FieldSize(ts[0]))
        case None => None
        case Some(vs) => Some([v] + vs)
  }

  // ----- Writing -----

  /** The value has the Rust type of the field. */
  ghost predicate Fits(t: Type, v: Value)
    decreases Rank(t), 1, 0
  {
    if Fixed(t) then FixedFits(t, v)
    else if t.List? then v.VList? && FitsAll(Repeat(t.item, |v.items|), v.items)
    else if t.Bits? then v.VBits?
    else v.VBytes? && |v.bytes| % ItemSize(t) == 0 && (t.Str? ==> ValidUtf8(v.bytes))
  }

  ghost predicate FitsAll(ts: seq<Type>, vs: seq<Value>)
    decreases RankAll(ts), 2, |ts|
  {
    |ts| == |vs| && (ts == [] || (Fits(ts[0], vs[0]) && FitsAll(ts[1..], vs[1..])))
  }

  /** The bytes of a segment that is not a list. */
  function Content(t: Type, v: Value): (r: seq<Byte>)
    requires !Fixed(t) && !t.List? && Fits(t, v)
    ensures |r| % ItemSize(t) == 0
  {
    if t.Bits? then ToBytes(v.bits) else v.bytes
  }

  function Count(t: Type, v: Value): nat
    requires !Fixed(t) && Fits(t, v)
  {
    if t.List? then |v.items| else |Content(t, v)| / ItemSize(t)
  }

  function Splice(buf: seq<Byte>, from: nat, bytes: seq<Byte>): (r: seq<Byte>)
    requires from + |bytes| <= |buf|
    ensures |r| == |buf|
  {
    buf[..from] + bytes + buf[from + |bytes|..]
  }

  function Zeros(n: nat): (r: seq<Byte>)
    ensures |r| == n
  {
    seq(n, _ => 0)
  }

  /** Eight bytes: where the segment starts and how many items it has, each in 32 bits. */
  function Header(pos: nat, count: nat): (r: seq<Byte>)
    ensures |r| == 8
  {
    StoreLE(pos % U32, 4) + StoreLE(count % U32, 4)
  }

  /** `Field::write`: the header in place, the segment at the end of the buffer. */
  function Write(t: Type, v: Value, buf: seq<Byte>, from: nat): (r: seq<Byte>)
    requires Fits(t, v) && from + FieldSize(t) <= |buf|
    ensures |r| >= |buf|
    decreases Rank(t), 1, 0
  {
    if Fixed(t) then Splice(buf, from, StoreFixed(t, v))
    else ExtendBuffer(t, v, Splice(buf, from, Header(|buf|, Count(t, v))))
  }

  function ExtendBuffer(t: Type, v: Value, buf: seq<Byte>): (r: seq<Byte>)
    requires !Fixed(t) && Fits(t, v)
    ensures |r| >= |buf|
    decreases Rank(t), 0, 0
  {
    if t.List? then
      var ts := Repeat(t.item, |v.items|);
      WriteAll(ts, v.items, buf + Zeros(HeaderSize(ts)), |buf|)
    else buf + Content(t, v)
  }

  function WriteAll(ts: seq<Type>, vs: seq<Value>, buf: seq<Byte>, from: nat): (r: seq<Byte>)
    requires FitsAll(ts, vs) && from + HeaderSize(ts) <= |buf|
    ensures |r| >= |buf|
    decreases RankAll(ts), 2, |ts|
  {
    if ts == [] then buf
    else WriteAll(ts[1..], vs[1..], Write(ts[0], vs[0], buf, from), from + FieldSize(ts[0]))
  }
}
