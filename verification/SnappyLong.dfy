/**
 Compressed data of 2^32 bytes and more.  The decoder counts the bytes of a region in 32 bits.
 When the bytes behind the length are a single region that is too long for that, the decoder
 never comes to the end of its input, whatever the bytes are.
 */
module SnappyLong {
  import opened Bytes
  import opened Wrappers
  import opened SnappyFormat
  import opened SnappySource
  import opened SnappyEmit
  import opened SnappyWriters
  import opened SnappyIOVec
  import opened SnappyScattered
  import opened SnappyWriter
  import opened SnappyDecompress
  import opened SnappyFragment
  import opened SnappyCompress
  import opened SnappyUncompress

  const U32 := 0x1_0000_0000

  /** The bytes behind the length are a single region. */
  ghost predicate FlatTags(source: Source)
    requires source.Valid()
    reads source
  {
    match ParseVarint(source.Rest(), 0)
    case None => true
    case Some((_, k)) => source.FlatFrom(source.pos + k)
  }

  /** Such a source can be counted exactly when fewer than 2^32 bytes are behind the length. */
  lemma FlatIsCountable(source: Source)
    requires source.Valid() && FlatTags(source)
    ensures Countable(source) <==> Behind(source.Rest()) < U32
  {
    match ParseVarint(source.Rest(), 0)
    case None =>
    case Some((_, k)) => source.FlatIsShort(source.pos + k);
  }

  /** There is room for the output; only a list of buffers can lack it. */
  ghost predicate Holds(writer: Writer, out: seq<Byte>)
    reads writer.Base()
  {
    writer.Vec? ==> |out| <= Start(writer.vec.iov, |writer.vec.iov|)
  }

  /** The data that a decoder accepts. */
  ghost predicate Acceptable(data: seq<Byte>, writer: Writer)
    reads writer.Base()
  {
    Behind(data) < U32 && Uncompressed(data).Some? && Holds(writer, Uncompressed(data).value)
  }

  /** `InternalUncompress` for a number of steps; `None` when it has not ended by then.  It accepts
      nothing else than what is valid, fits and is short enough, whatever the number of steps,
      and accepts that when the number is large enough. */
  method UncompressWithin(source: Source, writer: Writer, steps: nat) returns (r: Option<bool>)
    requires source.Valid() && FlatTags(source) && source !in writer.Repr()
    requires Announced(source.Rest()).Some? ==> writer.Ready(Announced(source.Rest()).value)
    modifies source, writer.Repr()
    ensures fresh(writer.Repr() - old(writer.Repr()))
    ensures r == Some(true) ==>
              && Acceptable(old(source.Rest()), writer)
              && writer.Valid() && writer.Out() == Uncompressed(old(source.Rest())).value
    ensures steps >= 8 * |old(source.Rest())| + 8 ==> (r == Some(true) <==> Acceptable(old(source.Rest()), writer))
    ensures Behind(old(source.Rest())) >= U32 ==> r != Some(true)
  {
    ghost var data := source.Rest();
    FlatIsCountable(source);
    var result := ReadUncompressedLength(source);
    if result.None? {
      return Some(false);
    }
    var decompressor := new Decompressor(source);
    assert source.Rest() == data[ParseVarint(data, 0).value.1..];
    r := AllTagsWithin(decompressor, writer, result.value, steps);
  }

  method AllTagsWithin(decompressor: Decompressor, writer: Writer, len: nat, steps: nat) returns (r: Option<bool>)
    requires decompressor.Valid() && !decompressor.eof && writer.Ready(len) && decompressor.Apart(writer)
    modifies decompressor, decompressor.reader, writer.Repr()
    ensures fresh(writer.Repr() - old(writer.Repr()))
    ensures !decompressor.Short() ==> r != Some(true)
    ensures var goal := Expand(old(decompressor.Stream()), []);
            var right := goal.Some? && |goal.value| == len && Holds(writer, goal.value);
            && (r == Some(true) ==> right && writer.Valid() && writer.Out() == goal.value)
            && (decompressor.Short() && r.Some? ==> r == Some(right))
            && (decompressor.Short() && steps >= 8 * |old(decompressor.Stream())| + 8 ==> r.Some?)
  {
    ghost var goal := Expand(decompressor.Stream(), []);
    writer.SetExpectedLength(len);
    LeadsMeans(decompressor.Stream(), [], goal);
    var ended := decompressor.DecompressWithin(writer, steps, goal);
    if !ended {
      return None;
    }
    if !decompressor.eof {
      return Some(false);
    }
    var ok := writer.CheckLength();
    r := Some(ok);
  }

  // ----- A valid buffer that is never accepted -----

  /** Two literals behind their length. */
  function TwoLiterals(first: seq<Byte>, second: seq<Byte>): seq<Byte>
    requires 1 <= |first| < U32 && 1 <= |second| < U32
  {
    VarintBytes(|first| + |second|) + (LiteralHeader(|first|) + first + (LiteralHeader(|second|) + second))
  }

  /** Their meaning, and how long they are. */
  lemma TwoLiteralsMean(first: seq<Byte>, second: seq<Byte>)
    requires 1 <= |first| && 1 <= |second| && |first| + |second| < U32
    ensures Uncompressed(TwoLiterals(first, second)) == Some(first + second)
    ensures Behind(TwoLiterals(first, second)) >= |first| + |second| + 2
  {
    hide LiteralHeader, VarintBytes, Expand, ParseVarint;
    var n, one, two := |first| + |second|, LiteralHeader(|first|) + first, LiteralHeader(|second|) + second;
    var data := TwoLiterals(first, second);
    ParseEncoded(n, 0, one + two);
    assert data[|VarintBytes(n)|..] == one + two;
    LiteralExpands(first, []);
    LiteralExpands(second, first);
    assert [] + first == first;
    ExpandAppend(one, two, []);
  }

  /** Two literals of 2^31 and 2^31 - 1 zeros stand for 2^32 - 1 zeros, but no number of steps makes
      the decoder accept them. */
  method NeverAccepted(steps: nat) returns (valid: seq<Byte>, r: Option<bool>)
    ensures Uncompressed(valid) == Some(seq(U32 - 1, _ => 0)) && r != Some(true)
  {
    hide TwoLiterals, Uncompressed, Behind;
    var first, second := seq(U32 / 2, _ => 0), seq(U32 / 2 - 1, _ => 0);
    valid := TwoLiterals(first, second);
    TwoLiteralsMean(first, second);
    assert first + second == seq(U32 - 1, _ => 0);
    r := ValidateWithin(valid, steps);
  }

  /** `IsValidCompressedBuffer` for a number of steps. */
  method ValidateWithin(data: seq<Byte>, steps: nat) returns (r: Option<bool>)
    ensures r == Some(true) ==> Uncompressed(data).Some? && Behind(data) < U32
    ensures steps >= 8 * |data| + 8 ==> (r == Some(true) <==> Uncompressed(data).Some? && Behind(data) < U32)
  {
    hide Uncompressed, Behind, ParseVarint;
    var source := new Source(data, _ => |data|);
    assert source.Rest() == data;
    FlatSource(source);
    var writer := new Validator();
    r := UncompressWithin(source, Check(writer), steps);
  }

  lemma FlatSource(source: Source)
    requires source.Valid() && forall p :: source.regionEnd(p) == |source.data|
    ensures FlatTags(source)
  {
  }

  // ----- An input that does not come back -----

  /** Compressing into a flat buffer and decompressing that for a number of steps.  The input comes
      back exactly when it is shorter than 2^32 bytes and so is what it is compressed to. */
  method RoundTripWithin(data: seq<Byte>, cutsIn: nat -> nat, steps: nat)
    returns (compressed: seq<Byte>, restored: Option<seq<Byte>>)
    ensures restored.Some? ==> restored == Some(data) && |data| < U32 && Behind(compressed) < U32
    ensures steps >= 8 * |compressed| + 8 ==> (restored == Some(data) <==> |data| < U32 && Behind(compressed) < U32)
    ensures Incompressible(data) ==> Behind(compressed) >= Grown(|data|)
  {
    var buf := new Byte[MaxCompressedLength(|data|)];
    var input := new Source(data, cutsIn);
    assert input.Rest() == data;
    var end := Compress(input, buf);
    hide Uncompressed, MaxCompressedLength, ParseVarint, Behind, Incompressible;
    compressed := buf[..end];
    var source := new Source(compressed, _ => |compressed|);
    assert source.Rest() == compressed;
    FlatSource(source);
    var writer := new ScatteredWriter();
    var r := UncompressWithin(source, Scatter(writer), steps);
    restored := None;
    if r == Some(true) {
      var sink := writer.Flush();
      restored := Some(sink);
    }
  }

  /** Byte `e` of record `k` of a pattern: a marker, the number of the record in two digits, and a
      zero.  Any four bytes of a block of such records tell where they are. */
  function Mark(k: nat, e: nat): Byte
    requires k < 0x4000 && e < 4
  {
    if e == 0 then 128 else if e == 1 then k % 128 else if e == 2 then k / 128 else 0
  }

  predicate Inside(k: nat, e: nat) {
    k < 0x4000 && e < 4 && (e == 0 || k < 0x3FFF)
  }

  /** Four bytes from byte `e` of record `k` on. */
  function Window(k: nat, e: nat): seq<Byte>
    requires Inside(k, e)
  {
    if e == 0 then [Mark(k, 0), Mark(k, 1), Mark(k, 2), Mark(k, 3)]
    else if e == 1 then [Mark(k, 1), Mark(k, 2), Mark(k, 3), Mark(k + 1, 0)]
    else if e == 2 then [Mark(k, 2), Mark(k, 3), Mark(k + 1, 0), Mark(k + 1, 1)]
    else [Mark(k, 3), Mark(k + 1, 0), Mark(k + 1, 1), Mark(k + 1, 2)]
  }

  lemma SameByte(k: nat, e: nat, k': nat, e': nat)
    requires Inside(k, e) && Inside(k', e') && Window(k, e) == Window(k', e')
    ensures e == e'
  {
    var w := Window(k, e);
    assert forall j | 0 <= j < 4 :: w[j] == 128 <==> j == (4 - e) % 4;
    assert forall j | 0 <= j < 4 :: Window(k', e')[j] == 128 <==> j == (4 - e') % 4;
    assert w[(4 - e) % 4] == 128;
  }

  lemma SameRecord(k: nat, k': nat, e: nat)
    requires Inside(k, e) && Inside(k', e) && Window(k, e) == Window(k', e)
    ensures k == k'
  {
    var w, w' := Window(k, e), Window(k', e);
    assert w[0] == w'[0] && w[1] == w'[1] && w[2] == w'[2] && w[3] == w'[3];
  }

  function Marked(n: nat): (s: seq<Byte>)
    ensures |s| == n
  {
    seq(n, i requires 0 <= i => Mark(i % BLOCK_SIZE / 4, i % 4))
  }

  lemma BlockMark(n: nat, s: nat, i: nat)
    requires s < n && s % BLOCK_SIZE == 0 && i < |Block(Marked(n), s)|
    ensures i < BLOCK_SIZE && Block(Marked(n), s)[i] == Mark(i / 4, i % 4)
  {
    hide Mark;
    Wraps(s, i);
    assert Block(Marked(n), s)[i] == Marked(n)[s + i];
  }

  lemma Wraps(s: nat, i: nat)
    requires s % BLOCK_SIZE == 0 && i < BLOCK_SIZE
    ensures (s + i) % BLOCK_SIZE == i && (s + i) % 4 == i % 4
  {
    var q := s / BLOCK_SIZE;
    assert s == 4 * (0x4000 * q);
  }

  lemma BlockWindow(n: nat, s: nat, i: nat)
    requires s < n && s % BLOCK_SIZE == 0 && i + 4 <= |Block(Marked(n), s)|
    ensures Inside(i / 4, i % 4) && Block(Marked(n), s)[i..i + 4] == Window(i / 4, i % 4)
  {
    hide Marked, Block, Mark;
    BlockMark(n, s, i);
    BlockMark(n, s, i + 1);
    BlockMark(n, s, i + 2);
    BlockMark(n, s, i + 3);
    var b := Block(Marked(n), s);
    assert b[i..i + 4] == [b[i], b[i + 1], b[i + 2], b[i + 3]];
  }

  /** No block of the pattern holds four bytes twice. */
  lemma MarkedIncompressible(n: nat)
    ensures Incompressible(Marked(n))
  {
    hide Marked, Block, Mark, Window;
    forall s: nat | s < n && s % BLOCK_SIZE == 0
      ensures Distinct(Block(Marked(n), s))
    {
      var block := Block(Marked(n), s);
      forall i, j | 0 <= i < j
        ensures !Matches(block, i, j, 4)
      {
        if Matches(block, i, j, 4) {
          BlockWindow(n, s, i);
          BlockWindow(n, s, j);
          SameByte(i / 4, i % 4, j / 4, j % 4);
          SameRecord(i / 4, j / 4, i % 4);
          assert false;
        }
      }
    }
  }

  /** 2^32 - 1 bytes that do not come back from a flat buffer, however many steps are taken. */
  method NeverRestored(cutsIn: nat -> nat, steps: nat) returns (data: seq<Byte>, restored: Option<seq<Byte>>)
    ensures |data| == U32 - 1 && restored == None
  {
    data := Marked(U32 - 1);
    MarkedIncompressible(U32 - 1);
    hide Marked, Incompressible;
    assert Grown(U32 - 1) >= U32;
    var _, r := RoundTripWithin(data, cutsIn, steps);
    restored := r;
  }
}
