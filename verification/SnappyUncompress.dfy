/** The entry points of the decompressor. */
module SnappyUncompress {
  import opened Bytes
  import opened Wrappers
  import opened SnappyFormat
  import opened SnappySource
  import opened SnappyWriters
  import opened SnappyIOVec
  import opened SnappyScattered
  import opened SnappyWriter
  import opened SnappyDecompress
  import opened SnappyFragment
  import opened SnappyCompress

  /** The length in front of the data, if it can be read. */
  function Announced(data: seq<Byte>): Option<nat> {
    match ParseVarint(data, 0)
    case None => None
    case Some((n, k)) => Some(n)
  }

  /** The length of every region that the tags lie in fits the decoder's 32-bit counters. */
  ghost predicate Countable(source: Source)
    requires source.Valid()
    reads source
  {
    match ParseVarint(source.Rest(), 0)
    case None => true
    case Some((n, k)) => source.ShortFrom(source.pos + k)
  }

  /** A source below 2^32 bytes meets the condition, whatever regions it hands out, and so does
      one that is cut into regions below that. */
  lemma ShortIsCountable(source: Source)
    requires source.Valid()
    requires |source.Rest()| < 0x1_0000_0000 || forall p: nat :: source.regionEnd(p) < p + 0x1_0000_0000
    ensures Countable(source)
  {
  }

  /** `InternalUncompressAllTags`, after the length has been read. */
  method InternalUncompressAllTags(decompressor: Decompressor, writer: Writer, len: nat) returns (ok: bool)
    requires decompressor.Valid() && decompressor.Short() && !decompressor.eof
    requires writer.Ready(len) && decompressor.Apart(writer)
    modifies decompressor, decompressor.reader, writer.Repr()
    ensures fresh(writer.Repr() - old(writer.Repr()))
    ensures var goal := Expand(old(decompressor.Stream()), []);
            && ok == (goal.Some? && |goal.value| == len
                      && (writer.Vec? ==> len <= Start(writer.vec.iov, |writer.vec.iov|)))
            && (ok ==> writer.Valid() && writer.Out() == goal.value)
  {
    ghost var goal := Expand(decompressor.Stream(), []);
    writer.SetExpectedLength(len);
    LeadsMeans(decompressor.Stream(), [], goal);
    decompressor.DecompressAllTags(writer, goal);
    if !decompressor.eof {
      return false;
    }
    ok := writer.CheckLength();
  }

  /** The data is accepted exactly when it is valid and fits, whatever regions below 2^32 bytes
      the source hands out and wherever the output goes, and then the output is what the data
      stands for. */
  method InternalUncompress(source: Source, writer: Writer) returns (ok: bool)
    requires source.Valid() && Countable(source) && source !in writer.Repr()
    requires Announced(source.Rest()).Some? ==> writer.Ready(Announced(source.Rest()).value)
    modifies source, writer.Repr()
    ensures fresh(writer.Repr() - old(writer.Repr()))
    ensures var goal := Uncompressed(old(source.Rest()));
            && ok == (goal.Some? && (writer.Vec? ==> |goal.value| <= Start(writer.vec.iov, |writer.vec.iov|)))
            && (ok ==> writer.Valid() && writer.Out() == goal.value)
  {
    ghost var data := source.Rest();
    var result := ReadUncompressedLength(source);
    if result.None? {
      return false;
    }
    var decompressor := new Decompressor(source);
    assert source.Rest() == data[ParseVarint(data, 0).value.1..];
    ok := InternalUncompressAllTags(decompressor, writer, result.value);
  }

  method RawUncompress(source: Source, dst: array<Byte>) returns (ok: bool)
    requires source.Valid() && Countable(source)
    requires Announced(source.Rest()).Some? ==> Announced(source.Rest()).value <= dst.Length
    modifies source, dst
    ensures var goal := Uncompressed(old(source.Rest()));
            ok == goal.Some? && (ok ==> |goal.value| <= dst.Length && dst[..|goal.value|] == goal.value)
  {
    var writer := new ArrayWriter(dst);
    ok := InternalUncompress(source, Flat(writer));
  }

  /** The validator writes nothing, and accepts exactly what the other writers accept. */
  method IsValidCompressed(source: Source) returns (ok: bool)
    requires source.Valid() && Countable(source)
    modifies source
    ensures ok == Uncompressed(old(source.Rest())).Some?
  {
    var writer := new Validator();
    ok := InternalUncompress(source, Check(writer));
  }

  /** Into a list of buffers: accepted exactly when the buffers are large enough together. */
  method RawUncompressToIOVec(source: Source, iov: seq<array<Byte>>) returns (ok: bool)
    requires source.Valid() && Countable(source) && forall i, j | 0 <= i < j < |iov| :: iov[i] != iov[j]
    requires Announced(source.Rest()).Some? && iov == [] ==> Announced(source.Rest()).value == 0
    modifies source, iov
    ensures var goal := Uncompressed(old(source.Rest()));
            && ok == (goal.Some? && |goal.value| <= Start(iov, |iov|))
            && (ok ==> goal.value <= Joined(iov))
  {
    var writer := new IOVecWriter(iov);
    ok := InternalUncompress(source, Vec(writer));
    if ok {
      JoinedBegins(writer);
    }
  }

  /** The bytes of the buffers, one buffer after another. */
  ghost function Joined(iov: seq<array<Byte>>): seq<Byte>
    reads iov
  {
    if iov == [] then [] else Joined(iov[..|iov| - 1]) + iov[|iov| - 1][..]
  }

  lemma {:induction false} JoinedIsConcatenated(w: IOVecWriter, i: nat)
    requires i <= |w.iov|
    ensures w.Concatenated(i) == Joined(w.iov[..i])
    decreases i
  {
    if i == 0 {
    } else {
      JoinedIsConcatenated(w, i - 1);
      assert w.iov[..i][..i - 1] == w.iov[..i - 1];
    }
  }

  lemma JoinedBegins(w: IOVecWriter)
    requires w.Valid() && |w.out| <= Start(w.iov, |w.iov|)
    ensures w.out <= Joined(w.iov)
  {
    w.OutIsConcatenated(|w.iov|);
    JoinedIsConcatenated(w, |w.iov|);
    assert w.iov[..|w.iov|] == w.iov && w.out[..|w.out|] == w.out;
  }

  /** Into a sink that may or may not have a flat buffer of the announced length. */
  method Uncompress(source: Source, allocatedSize: nat) returns (ok: bool, sink: seq<Byte>)
    requires source.Valid() && Countable(source)
    modifies source
    ensures var goal := Uncompressed(old(source.Rest()));
            ok == goal.Some? && (ok ==> sink == goal.value)
  {
    ghost var data := source.Rest();
    sink := [];
    var result := ReadUncompressedLength(source);
    if result.None? {
      return false, [];
    }
    var decompressor := new Decompressor(source);
    assert source.Rest() == data[ParseVarint(data, 0).value.1..];
    if allocatedSize >= result.value {
      var buf := new Byte[allocatedSize];
      var writer := new ArrayWriter(buf);
      ok := InternalUncompressAllTags(decompressor, Flat(writer), result.value);
      if ok {
        sink := buf[..writer.op];
      }
    } else {
      var writer := new ScatteredWriter();
      ok := InternalUncompressAllTags(decompressor, Scatter(writer), result.value);
      if ok {
        sink := writer.Flush();
      }
    }
  }

  /** Compressing and decompressing gives the input back, however both sources are cut up and
      wherever the output goes; only an input of 2^32 bytes or more is refused.  The compressed
      bytes are small enough for any cuts, or they are cut into regions that are. */
  method RoundTrip(data: seq<Byte>, cutsIn: nat -> nat, cutsOut: nat -> nat, allocatedSize: nat)
    returns (restored: Option<seq<Byte>>)
    requires MaxCompressedLength(|data|) < 0x1_0000_0000 || forall p: nat :: cutsOut(p) < p + 0x1_0000_0000
    ensures restored == if |data| < 0x1_0000_0000 then Some(data) else None
  {
    var buf := new Byte[MaxCompressedLength(|data|)];
    var input := new Source(data, cutsIn);
    var end := Compress(input, buf);
    hide Uncompressed, MaxCompressedLength, ParseVarint, Countable;
    var compressed := new Source(buf[..end], cutsOut);
    assert compressed.Rest() == buf[..end];
    ShortIsCountable(compressed);
    var ok, sink := Uncompress(compressed, allocatedSize);
    restored := if ok then Some(sink) else None;
  }
}
