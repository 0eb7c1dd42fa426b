/**
 The decompressor: tags are read from a chunked source through a window, stitched together in
 a five-byte scratch area when a region ends in the middle of a tag.
 */
module SnappyDecompress {
  import opened Bytes
  import opened Wrappers
  import opened SnappyFormat
  import opened SnappySource
  import opened SnappyTable
  import opened SnappyWriter

  const MAX_TAG := 5

  // ----- The tag table and the word loads -----

  /** The low `n` bytes of a word. */
  function WordMask(n: nat): nat
    requires n <= 4
  {
    if n == 0 then 1
    else if n == 1 then 0x100
    else if n == 2 then 0x1_0000
    else if n == 3 then 0x100_0000
    else 0x1_0000_0000
  }

  lemma {:induction false} MaskedLoad(s: seq<Byte>, n: nat)
    requires n <= |s| <= 4
    ensures LoadLE(s) % WordMask(n) == LoadLE(s[..n])
    decreases n
  {
    if n > 0 {
      MaskedLoad(s[1..], n - 1);
      assert s[1..][..n - 1] == s[..n][1..];
      var rest := LoadLE(s[1..]);
      assert LoadLE(s) == s[0] + 256 * rest;
      assert LoadLE(s[..n]) == s[0] + 256 * LoadLE(s[..n][1..]);
      MaskStep(s[0], rest, n);
    } else {
      assert s[..0] == [];
    }
  }

  lemma MaskStep(b: Byte, rest: nat, n: nat)
    requires 1 <= n <= 4
    ensures (b + 256 * rest) % WordMask(n) == b + 256 * (rest % WordMask(n - 1))
  {
  }

  // ----- The window -----

  /** A tag byte and a short literal in front of the window. */
  lemma FastSlice(mem: seq<Byte>, ip: nat, limit: nat, len: nat, rest: seq<Byte>)
    requires ip < limit <= |mem|
    ensures ip + 1 + len <= limit ==> (mem[ip..limit] + rest)[1..][..len] == mem[ip + 1..limit][..len]
    ensures ip + 1 + len <= limit ==> (mem[ip..limit] + rest)[1..][len..] == mem[ip + 1 + len..limit] + rest
  {
    if ip + 1 + len <= limit {
      WindowSplit(mem, ip, limit, 1, rest);
      WindowSplit(mem, ip + 1, limit, len, rest);
      assert mem[ip + 1..limit][..len] == mem[ip + 1..ip + 1 + len];
    }
  }

  lemma WholeRegion(region: seq<Byte>, rest: seq<Byte>)
    requires region <= rest
    ensures region[0..|region|] + rest[|region|..] == rest
  {
  }

  /** Bytes of a region moved behind the bytes of the scratch area. */
  lemma Stitched(scratch: seq<Byte>, limit: nat, rest: seq<Byte>, n: nat)
    requires limit + n <= |scratch| && n <= |rest|
    ensures var next := scratch[..limit] + rest[..n] + scratch[limit + n..];
            |next| == |scratch| && next[0..limit + n] + rest[n..] == scratch[0..limit] + rest
  {
    var next := scratch[..limit] + rest[..n] + scratch[limit + n..];
    assert next[0..limit + n] == scratch[..limit] + rest[..n];
  }

  lemma WindowSplit(mem: seq<Byte>, ip: nat, limit: nat, n: nat, rest: seq<Byte>)
    requires ip + n <= limit <= |mem|
    ensures (mem[ip..limit] + rest)[..n] == mem[ip..ip + n]
    ensures (mem[ip..limit] + rest)[n..] == mem[ip + n..limit] + rest
  {
    assert mem[ip..limit] == mem[ip..ip + n] + mem[ip + n..limit];
  }

  /** The length of a tag, from the table. */
  function TagLength(c: Byte): (n: nat)
    ensures n == ExtraBytes(c) + 1 <= MAX_TAG
  {
    TableIs(c);
    EntryFields(c);
    TableEntry(c) / 0x800 + 1
  }

  /** Where the decoder is between two steps: about to refill, in the loop that completes a tag in
      the scratch area, or at a tag. */
  datatype Phase = Refill | Stitching(needed: nat) | AtTag

  class Decompressor {
    const reader: Source
    // The memory the window points into, and the window.
    var mem: seq<Byte>
    var ip: nat
    var limit: nat
    // Bytes of the window that the source still has to skip.
    var peeked: nat
    var eof: bool
    var scratch: seq<Byte>
    // Where the tags begin.
    ghost const start: nat

    ghost predicate Shape()
      reads this, reader
    {
      reader.Valid() && ip <= limit <= |mem| && peeked <= |reader.Rest()| && |scratch| == MAX_TAG
    }

    /** The counters of the decoder can hold the length of every region. */
    ghost predicate Short() {
      reader.ShortFrom(start)
    }

    /** The bytes from `start` on are one region of 2^32 bytes or more.  The source is at its
        beginning, perhaps with the remainder of its length still to be skipped, or has skipped
        the remainder and will never skip more. */
    ghost predicate Looping()
      reads this, reader
    {
      && start + 0x1_0000_0000 <= |reader.data| && reader.FlatFrom(start) && !eof
      && (|| (reader.pos == start && peeked == (if mem == [] then 0 else Remainder()))
          || (reader.pos == start + Remainder() && peeked == 0))
    }

    ghost function Remainder(): nat
      requires start <= |reader.data|
    {
      (|reader.data| - start) % 0x1_0000_0000
    }

    /** Sources whose regions can be counted, and those with one region that cannot. */
    ghost predicate Valid()
      reads this, reader
    {
      && Shape() && start <= reader.pos
      && (Short() ==> |mem| < 0x1_0000_0000)
      && (!Short() ==> Looping())
    }

    /** The bytes still to be decompressed. */
    ghost function Stream(): seq<Byte>
      requires Shape()
      reads this, reader
    {
      mem[ip..limit] + reader.Rest()[peeked..]
    }

    /** A whole tag is in the window, and a word can be read after its first byte. */
    ghost predicate TagReady()
      reads this
    {
      ip < limit <= |mem| && ip + ExtraBytes(mem[ip]) < limit && ip + MAX_TAG <= |mem|
    }

    constructor (reader: Source)
      requires reader.Valid()
      ensures Shape() && Stream() == reader.Rest() && this.reader == reader && !eof
      ensures start == reader.pos && (Short() || Looping() ==> Valid())
      ensures reader.FlatFrom(start) ==> Valid() && (Short() <==> |reader.Rest()| < 0x1_0000_0000)
    {
      this.reader, start := reader, reader.pos;
      mem, ip, limit, peeked, eof := [], 0, 0, 0, false;
      scratch := [0, 0, 0, 0, 0];
      new;
      if reader.FlatFrom(start) {
        reader.FlatIsShort(start);
      }
    }

    /** The window is used up: skip it and look at the next region.  Of a region of 2^32 bytes or
        more the counter keeps the remainder, and only that will be skipped: the bytes to come are
        what they should be exactly when the length fits. */
    method NextRegion() returns (more: bool)
      requires Shape() && ip == limit
      modifies this`mem, this`ip, this`limit, this`peeked, reader
      ensures Shape() && scratch == old(scratch) && eof == old(eof)
      ensures reader.pos == old(reader.pos) + old(peeked) && mem <= old(Stream())
      ensures limit == |mem| == reader.End(reader.pos) - reader.pos && peeked == |mem| % 0x1_0000_0000
      ensures Stream() == mem + old(Stream())[peeked..]
      ensures Stream() == old(Stream()) <==> |mem| < 0x1_0000_0000
      ensures more == (old(Stream()) != []) && (more ==> ip < limit == |mem|)
    {
      ghost var rest := reader.Rest()[peeked..];
      assert Stream() == rest;
      reader.Skip(peeked);
      assert reader.Rest() == rest;
      mem := reader.Peek();
      ip, limit, peeked := 0, |mem|, |mem| % 0x1_0000_0000;
      assert mem[0..|mem|] == mem;
      WholeRegion(mem, rest);
      assert |Stream()| == |mem| + |rest| - peeked;
      more := |mem| > 0;
    }

    /** The next region of a source that is met here; one that is too long never ends. */
    method NextCounted() returns (more: bool)
      requires Valid() && ip == limit
      modifies this`mem, this`ip, this`limit, this`peeked, reader
      ensures Valid() && eof == old(eof)
      ensures Short() ==> Stream() == old(Stream()) && more == (Stream() != [])
      ensures (!Short() ==> more) && (more ==> ip < limit)
    {
      hide Stream;
      more := NextRegion();
      if !Short() {
        assert reader.End(reader.pos) == |reader.data|;
      }
    }

    /** Copies the rest of the window, as far as it was counted, to the scratch area. */
    method MoveToScratch(nbuf: nat)
      requires Valid() && ip < limit && nbuf == (limit - ip) % 0x1_0000_0000 <= MAX_TAG
      modifies this`mem, this`ip, this`limit, this`peeked, this`scratch, reader
      ensures Valid() && InScratch() && eof == old(eof) && limit == nbuf
      ensures Short() ==> Stream() == old(Stream())
      ensures nbuf > 0 ==> mem[0] == old(mem[ip])
    {
      ghost var rest := reader.Rest()[peeked..];
      ghost var window := mem[ip..ip + nbuf];
      scratch := mem[ip..ip + nbuf] + scratch[nbuf..];
      reader.Skip(peeked);
      mem, ip, limit, peeked := scratch, 0, nbuf, 0;
      assert mem[0..nbuf] == window && reader.Rest()[0..] == rest;
    }

    /** The window is the scratch area, and nothing of it is owed to the source. */
    ghost predicate InScratch()
      reads this
    {
      mem == scratch && ip == 0 && peeked == 0
    }

    /** Adds bytes of the next region.  When the region is too long nothing is added, again and
        again. */
    method StitchOn(needed: nat) returns (more: bool)
      requires Valid() && InScratch() && limit < needed <= MAX_TAG
      modifies this`mem, this`limit, this`scratch, reader
      ensures Valid() && eof == old(eof) && InScratch() && old(limit) <= limit <= needed
      ensures Short() ==> Stream() == old(Stream())
      ensures Short() ==> if more then old(limit) < limit else |Stream()| < needed
      ensures !Short() ==>
                && more && mem == old(mem) && limit == old(limit) && scratch == old(scratch)
                && reader.pos == old(reader.pos)
    {
      var src := reader.Peek();
      if src == [] {
        assert reader.Rest()[0..] == [];
        return false;
      }
      var length := |src| % 0x1_0000_0000;
      Fill(src, Min(needed - limit, length));
      return true;
    }

    /** Copies bytes of the region behind those in the scratch area. */
    method Fill(src: seq<Byte>, n: nat)
      requires Shape() && InScratch() && limit + n <= MAX_TAG && n <= |src| && src <= reader.Rest()
      modifies this`mem, this`limit, this`scratch, reader
      ensures Shape() && InScratch() && Stream() == old(Stream())
      ensures limit == old(limit) + n && reader.pos == old(reader.pos) + n && (n == 0 ==> scratch == old(scratch))
    {
      ghost var rest := reader.Rest();
      assert reader.Rest()[0..] == rest && src[..n] == rest[..n];
      Stitched(scratch, limit, rest, n);
      assert n == 0 ==> scratch[..limit] + src[..n] + scratch[limit + n..] == scratch;
      scratch := scratch[..limit] + src[..n] + scratch[limit + n..];
      reader.Skip(n);
      assert reader.Rest()[0..] == rest[n..];
      mem, limit := scratch, limit + n;
    }

    /** Adds bytes of the following regions until `needed` are in the scratch area. */
    method Stitch(needed: nat) returns (ok: bool)
      requires Valid() && Short() && InScratch() && limit < needed <= MAX_TAG
      modifies this`mem, this`limit, this`scratch, reader
      ensures Valid() && Stream() == old(Stream()) && eof == old(eof) && ip == 0 && mem == scratch
      ensures ok ==> limit == needed
      ensures !ok ==> |Stream()| < needed
    {
      ok := true;
      while limit < needed
        invariant Valid() && Stream() == old(Stream()) && eof == old(eof) && InScratch() && limit <= needed
        decreases needed - limit
      {
        ok := StitchOn(needed);
        if !ok {
          return;
        }
      }
    }

    /** Moves the next tag to the scratch area unless the window holds it safely.  The tag is then
        ready, or bytes of it are missing. */
    method SecureTag() returns (needed: nat, ready: bool)
      requires Valid() && ip < limit
      modifies this`mem, this`ip, this`limit, this`peeked, this`scratch, reader
      ensures Valid() && eof == old(eof) && needed == ExtraBytes(old(mem[ip])) + 1 <= MAX_TAG
      ensures Short() ==> Stream() == old(Stream())
      ensures if ready then TagReady() else InScratch() && limit < needed
    {
      hide TableEntry, ExtraBytes;
      needed := TagLength(mem[ip]);
      var nbuf := (limit - ip) % 0x1_0000_0000;
      ready := nbuf >= needed;
      if nbuf < needed {
        MoveToScratch(nbuf);
      } else if nbuf < MAX_TAG {
        MoveToScratch(nbuf);
      }
    }

    /** `RefillTag`: makes the next tag ready.  It fails at the end of the data, noting it, and
        when the data ends inside a tag. */
    method RefillTag() returns (ok: bool)
      requires Valid() && Short() && limit - ip < MAX_TAG && !eof
      modifies this, reader
      ensures Valid() && Stream() == old(Stream())
      ensures ok ==> TagReady() && !eof
      ensures !ok ==> eof == (Stream() == []) && (!eof ==> |Stream()| <= ExtraBytes(Stream()[0]))
    {
      if ip == limit {
        var more := NextCounted();
        eof := !more;
        if eof {
          return false;
        }
      }
      assert Stream()[0] == mem[ip];
      ok := FinishTag();
    }

    method FinishTag() returns (ok: bool)
      requires Valid() && Short() && ip < limit
      modifies this`mem, this`ip, this`limit, this`peeked, this`scratch, reader
      ensures Valid() && Stream() == old(Stream()) && eof == old(eof)
      ensures ok ==> TagReady()
      ensures !ok ==> |Stream()| <= ExtraBytes(old(mem[ip]))
    {
      hide ExtraBytes;
      assert Stream()[0] == mem[ip];
      var needed, ready := SecureTag();
      ok := ready;
      if !ready {
        ok := Stitch(needed);
        assert ok ==> Stream()[0] == mem[0];
      }
    }

    /** `MAYBE_REFILL`. */
    method MaybeRefill() returns (ok: bool)
      requires Valid() && Short() && !eof
      modifies this, reader
      ensures Valid() && Stream() == old(Stream())
      ensures ok ==> TagReady() && !eof
      ensures !ok ==> eof == (Stream() == []) && (!eof ==> |Stream()| <= ExtraBytes(Stream()[0]))
    {
      if limit - ip < MAX_TAG {
        ok := RefillTag();
      } else {
        ok := true;
      }
    }

    // ----- Tags -----

    /** The writer shares nothing with the input. */
    ghost predicate Apart(writer: Writer)
      reads writer.Base()
    {
      this !in writer.Repr() && reader !in writer.Repr()
    }

    /** The output is followed: the regions can be counted and there is room. */
    ghost predicate Exact(writer: Writer)
      reads writer.Base()
    {
      Short() && writer.Roomy()
    }

    /** What the window shows is the next tag of the stream. */
    lemma TagInWindow()
      requires Shape() && TagReady()
      ensures var n := ExtraBytes(mem[ip]);
              && Stream()[0] == mem[ip] && n < |Stream()|
              && FirstTag(Stream()) == ParseTag(mem[ip], mem[ip + 1..ip + 1 + n])
              && AfterTag(Stream()) == mem[ip + 1 + n..limit] + reader.Rest()[peeked..]
    {
      var n := ExtraBytes(mem[ip]);
      assert forall k | 0 <= k < limit - ip :: Stream()[k] == mem[ip + k];
      assert Stream()[1..n + 1] == mem[ip + 1..ip + 1 + n];
      assert Stream()[n + 1..] == mem[ip + 1 + n..limit] + reader.Rest()[peeked..];
    }

    /** The `n` bytes after the tag byte, loaded as a whole word and masked. */
    function Trailer(n: nat): (r: nat)
      requires n <= 4 && ip + MAX_TAG <= |mem|
      reads this
      ensures r == LoadLE(mem[ip + 1..ip + 1 + n])
    {
      MaskedLoad(mem[ip + 1..ip + 5], n);
      assert mem[ip + 1..ip + 5][..n] == mem[ip + 1..ip + 1 + n];
      LoadLE(mem[ip + 1..ip + 5]) % WordMask(n)
    }

    /** The rest of a literal, region by region. */
    method AppendLiteral(writer: Writer, len0: nat, ghost goal: Option<seq<Byte>>) returns (ok: bool)
      requires Valid() && !eof && writer.Valid() && Apart(writer)
      requires Exact(writer) ==> LeadsLiteral(Stream(), len0, writer.Out(), goal)
      modifies this, reader, writer.Repr()
      ensures Valid() && !eof && Apart(writer) && fresh(writer.Repr() - old(writer.Repr()))
      ensures writer.Expected() == old(writer.Expected()) && writer.Roomy() == old(writer.Roomy())
      ensures ok ==> writer.Valid() && (Short() ==> |Stream()| <= |old(Stream())|)
      ensures ok && Exact(writer) ==> Leads(Stream(), writer.Out(), goal)
      ensures !ok && Exact(writer) ==> goal.None? || |goal.value| > writer.Expected()
    {
      var len: nat := len0;
      while limit - ip < len
        invariant Valid() && !eof && writer.Valid() && Apart(writer) && fresh(writer.Repr() - old(writer.Repr()))
        invariant writer.Expected() == old(writer.Expected()) && writer.Roomy() == old(writer.Roomy())
        invariant Short() ==> |Stream()| <= |old(Stream())|
        invariant Exact(writer) ==> LeadsLiteral(Stream(), len, writer.Out(), goal)
        decreases len, if ip == limit then 1 else 0
      {
        var avail := limit - ip;
        ok := NextPiece(writer, len, goal);
        if !ok {
          return;
        }
        len := len - avail;
      }
      ok := LastPiece(writer, len, goal);
    }

    method LastPiece(writer: Writer, len: nat, ghost goal: Option<seq<Byte>>) returns (ok: bool)
      requires Valid() && writer.Valid() && Apart(writer) && len <= limit - ip
      requires Exact(writer) ==> LeadsLiteral(Stream(), len, writer.Out(), goal)
      modifies this`ip, writer.Repr()
      ensures Valid() && Apart(writer) && fresh(writer.Repr() - old(writer.Repr()))
      ensures writer.Expected() == old(writer.Expected()) && writer.Roomy() == old(writer.Roomy())
      ensures ok ==> writer.Valid() && (Short() ==> |Stream()| <= |old(Stream())|)
      ensures ok && Exact(writer) ==> Leads(Stream(), writer.Out(), goal)
      ensures !ok && Exact(writer) ==> goal.None? || |goal.value| > writer.Expected()
    {
      if Exact(writer) {
        LeadsOn(Stream(), len, writer.Out(), goal);
      }
      ok := TakeWindow(writer, len);
    }

    /** Appends the whole window, not yet all of a literal, and looks at the next region. */
    method NextPiece(writer: Writer, len: nat, ghost goal: Option<seq<Byte>>) returns (ok: bool)
      requires Valid() && !eof && writer.Valid() && Apart(writer) && limit - ip < len
      requires Exact(writer) ==> LeadsLiteral(Stream(), len, writer.Out(), goal)
      modifies this, reader, writer.Repr()
      ensures Valid() && !eof && Apart(writer) && fresh(writer.Repr() - old(writer.Repr()))
      ensures writer.Expected() == old(writer.Expected()) && writer.Roomy() == old(writer.Roomy())
      ensures ok ==> writer.Valid() && ip < limit
      ensures ok && Short() ==> |Stream()| == |old(Stream())| - old(limit - ip)
      ensures ok && Exact(writer) ==> LeadsLiteral(Stream(), len - old(limit - ip), writer.Out(), goal)
      ensures !ok && Exact(writer) ==> goal.None? || |goal.value| > writer.Expected()
    {
      hide LeadsLiteral, Leads;
      var avail := limit - ip;
      ok := AppendWindow(writer, avail, len, goal);
      if ok {
        ok := NextRegionBeside(writer);
        if !ok && Exact(writer) {
          LeadsOn(Stream(), len - avail, writer.Out(), goal);
        }
      }
    }

    /** Looks at the next region; the writer is not touched. */
    method NextRegionBeside(writer: Writer) returns (more: bool)
      requires Valid() && !eof && ip == limit && writer.Valid() && Apart(writer)
      modifies this, reader
      ensures Valid() && !eof && writer.Valid() && writer.Out() == old(writer.Out())
      ensures Short() ==> Stream() == old(Stream()) && more == (Stream() != [])
      ensures writer.Repr() == old(writer.Repr()) && writer.Roomy() == old(writer.Roomy())
              && writer.Expected() == old(writer.Expected())
      ensures more ==> ip < limit
    {
      more := NextCounted();
    }

    /** Appends the first `n` bytes of the window, a part of a literal of `len` bytes. */
    method AppendWindow(writer: Writer, n: nat, len: nat, ghost goal: Option<seq<Byte>>) returns (ok: bool)
      requires Valid() && writer.Valid() && Apart(writer) && n <= limit - ip && n <= len
      requires Exact(writer) ==> LeadsLiteral(Stream(), len, writer.Out(), goal)
      modifies this`ip, writer.Repr()
      ensures Valid() && Apart(writer) && fresh(writer.Repr() - old(writer.Repr()))
      ensures writer.Expected() == old(writer.Expected()) && writer.Roomy() == old(writer.Roomy())
      ensures ok ==> writer.Valid() && ip == old(ip) + n && Stream() == old(Stream())[n..]
      ensures ok && Exact(writer) ==> LeadsLiteral(Stream(), len - n, writer.Out(), goal)
      ensures !ok && Exact(writer) ==> goal.None? || |goal.value| > writer.Expected()
    {
      hide Leads, LeadsLiteral;
      if Exact(writer) {
        LeadsPiece(Stream(), n, len - n, writer.Out(), goal);
        LeadsOn(Stream(), len, writer.Out(), goal);
      }
      ok := TakeWindow(writer, n);
    }

    /** Hands the first `n` bytes of the window to the writer. */
    method TakeWindow(writer: Writer, n: nat) returns (ok: bool)
      requires Shape() && writer.Valid() && Apart(writer) && n <= limit - ip
      modifies this`ip, writer.Repr()
      ensures Shape() && Apart(writer) && fresh(writer.Repr() - old(writer.Repr()))
      ensures writer.Expected() == old(writer.Expected()) && writer.Roomy() == old(writer.Roomy())
      ensures ok ==> writer.Valid() && ip == old(ip) + n && Stream() == old(Stream())[n..]
      ensures writer.Roomy() ==> ok == (|old(writer.Out())| + n <= writer.Expected())
      ensures ok && writer.Roomy() ==> writer.Out() == old(writer.Out()) + old(Stream())[..n]
    {
      WindowSplit(mem, ip, limit, n, reader.Rest()[peeked..]);
      ok := writer.Append(mem[ip..ip + n]);
      if ok {
        ip := ip + n;
      }
    }

    /** The short cut for a short literal with room to spare; five bytes stay in the window, so
        that no refill is needed after it. */
    method FastLiteral(writer: Writer) returns (ok: bool)
      requires Shape() && TagReady() && writer.Valid() && Apart(writer)
      modifies this`ip, writer.Repr()
      ensures Shape() && Apart(writer) && writer.Valid() && writer.Repr() == old(writer.Repr())
      ensures writer.Expected() == old(writer.Expected()) && writer.Roomy() == old(writer.Roomy())
      ensures !ok ==> ip == old(ip) && writer.Out() == old(writer.Out())
      ensures ok ==> ip + MAX_TAG <= limit && old(mem[ip]) / 4 < 16
      ensures ok ==> old(mem[ip]) / 4 + 1 < |old(Stream())|
      ensures ok ==> writer.Out() == old(writer.Out()) + old(Stream())[1..][..old(mem[ip]) / 4 + 1]
      ensures ok ==> Stream() == old(Stream())[1..][old(mem[ip]) / 4 + 1..]
    {
      var len: nat := mem[ip] / 4 + 1;
      FastSlice(mem, ip, limit, len, reader.Rest()[peeked..]);
      ok := writer.TryFastAppend(mem[ip + 1..limit], len);
      if ok {
        ip := ip + 1 + len;
      }
    }

    /** Reads a literal tag. */
    method LiteralLength() returns (len: nat)
      requires Valid() && TagReady() && mem[ip] % 4 == 0
      modifies this`ip
      ensures Valid() && old(|Stream()| > ExtraBytes(Stream()[0]))
      ensures old(FirstTag(Stream())) == Literal(len) && Stream() == old(AfterTag(Stream()))
    {
      TagInWindow();
      len := mem[ip] / 4 + 1;
      if len >= 61 {
        var lengthLength := len - 60;
        len := (Trailer(lengthLength) + 1) % 0x1_0000_0000;
        ip := ip + lengthLength;
      }
      ip := ip + 1;
    }

    /** A literal tag: the fast way when there is ample room on both sides, otherwise in pieces. */
    method DoLiteral(writer: Writer, ghost goal: Option<seq<Byte>>) returns (ok: bool)
      requires Valid() && TagReady() && mem[ip] % 4 == 0
      requires !eof && writer.Valid() && Apart(writer)
      requires Exact(writer) ==> Leads(Stream(), writer.Out(), goal)
      modifies this, reader, writer.Repr()
      ensures Valid() && !eof && Apart(writer) && fresh(writer.Repr() - old(writer.Repr()))
      ensures writer.Expected() == old(writer.Expected()) && writer.Roomy() == old(writer.Roomy())
      ensures ok ==> writer.Valid() && (Short() ==> |Stream()| < |old(Stream())|)
      ensures ok && Exact(writer) ==> Leads(Stream(), writer.Out(), goal)
      ensures !ok && Exact(writer) ==> goal.None? || |goal.value| > writer.Expected()
    {
      hide Looping, LeadsLiteral, Leads;
      ok := TryFast(writer, goal);
      if !ok {
        TagInWindow();
        if Exact(writer) {
          LeadsTag(Stream(), writer.Out(), goal);
        }
        var len := LiteralLength();
        ok := AppendLiteral(writer, len, goal);
      }
    }

    method TryFast(writer: Writer, ghost goal: Option<seq<Byte>>) returns (ok: bool)
      requires Valid() && TagReady() && mem[ip] % 4 == 0
      requires writer.Valid() && Apart(writer)
      requires Exact(writer) ==> Leads(Stream(), writer.Out(), goal)
      modifies this`ip, writer.Repr()
      ensures Valid() && Apart(writer) && writer.Valid() && writer.Repr() == old(writer.Repr())
      ensures writer.Expected() == old(writer.Expected()) && writer.Roomy() == old(writer.Roomy())
      ensures !ok ==> ip == old(ip)
      ensures ok ==> |Stream()| < |old(Stream())|
      ensures Exact(writer) ==> Leads(Stream(), writer.Out(), goal)
    {
      hide Leads, LeadsLiteral;
      ghost var stream, out := Stream(), writer.Out();
      TagInWindow();
      ok := FastLiteral(writer);
      if ok && Exact(writer) {
        LeadsTag(stream, out, goal);
        LeadsOn(stream[1..], FirstTag(stream).len, out, goal);
      }
    }

    /** A copy tag. */
    method DoCopy(writer: Writer, ghost goal: Option<seq<Byte>>) returns (ok: bool)
      requires Valid() && TagReady() && mem[ip] % 4 != 0
      requires !eof && writer.Valid() && Apart(writer)
      requires Exact(writer) ==> Leads(Stream(), writer.Out(), goal)
      modifies this, reader, writer.Repr()
      ensures Valid() && !eof && Apart(writer) && fresh(writer.Repr() - old(writer.Repr()))
      ensures writer.Expected() == old(writer.Expected()) && writer.Roomy() == old(writer.Roomy())
      ensures ok ==> writer.Valid() && (Short() ==> |Stream()| < |old(Stream())|)
      ensures ok && Exact(writer) ==> Leads(Stream(), writer.Out(), goal)
      ensures !ok && Exact(writer) ==> goal.None? || |goal.value| > writer.Expected()
    {
      ghost var stream, out := Stream(), writer.Out();
      var offset, len := ReadCopy();
      if Exact(writer) {
        LeadsTag(stream, out, goal);
        if 1 <= offset <= |out| {
          LeadsMeans(Stream(), CopyBack(out, offset, len), goal);
        }
      }
      ok := writer.AppendFromSelf(offset, len);
    }

    /** Reads a copy tag. */
    method ReadCopy() returns (offset: nat, len: nat)
      requires Valid() && TagReady() && mem[ip] % 4 != 0
      modifies this`ip
      ensures Valid() && old(|Stream()| > ExtraBytes(Stream()[0]))
      ensures old(FirstTag(Stream())) == Copy(offset, len) && Stream() == old(AfterTag(Stream()))
    {
      TagInWindow();
      TableIs(mem[ip]);
      var entry := TableEntry(mem[ip]);
      EntryFields(mem[ip]);
      var trailer := Trailer(entry / 0x800);
      len := entry % 0x100;
      offset := entry % 0x800 / 0x100 * 0x100 + trailer;
      ip := ip + 1 + entry / 0x800;
    }

    method DoTag(writer: Writer, ghost goal: Option<seq<Byte>>) returns (ok: bool)
      requires Valid() && TagReady()
      requires !eof && writer.Valid() && Apart(writer)
      requires Exact(writer) ==> Leads(Stream(), writer.Out(), goal)
      modifies this, reader, writer.Repr()
      ensures Valid() && !eof && Apart(writer) && fresh(writer.Repr() - old(writer.Repr()))
      ensures writer.Expected() == old(writer.Expected()) && writer.Roomy() == old(writer.Roomy())
      ensures ok ==> writer.Valid() && (Short() ==> |Stream()| < |old(Stream())|)
      ensures ok && Exact(writer) ==> Leads(Stream(), writer.Out(), goal)
      ensures !ok && Exact(writer) ==> goal.None? || |goal.value| > writer.Expected()
    {
      if mem[ip] % 4 == 0 {
        ok := DoLiteral(writer, goal);
      } else {
        ok := DoCopy(writer, goal);
      }
    }

    /** Refills the window; the writer is not touched. */
    method RefillBeside(writer: Writer) returns (ok: bool)
      requires Valid() && Short() && !eof && writer.Valid() && Apart(writer)
      modifies this, reader
      ensures Valid() && Stream() == old(Stream()) && writer.Valid() && writer.Out() == old(writer.Out())
      ensures writer.Repr() == old(writer.Repr()) && writer.Roomy() == old(writer.Roomy())
              && writer.Expected() == old(writer.Expected())
      ensures ok ==> TagReady() && !eof
      ensures !ok ==> eof == (Stream() == []) && (!eof ==> |Stream()| <= ExtraBytes(Stream()[0]))
    {
      ok := MaybeRefill();
    }

    /** `DecompressAllTags`.  Tags are run until the input or the room ends. */
    method DecompressAllTags(writer: Writer, ghost goal: Option<seq<Byte>>)
      requires Valid() && Short() && !eof && writer.Valid() && Apart(writer)
      requires writer.Roomy() ==> Leads(Stream(), writer.Out(), goal)
      modifies this, reader, writer.Repr()
      ensures fresh(writer.Repr() - old(writer.Repr()))
      ensures writer.Expected() == old(writer.Expected()) && writer.Roomy() == old(writer.Roomy())
      ensures eof ==> writer.Valid()
      ensures eof && writer.Roomy() ==> goal == Some(writer.Out())
      ensures !eof && writer.Roomy() ==> goal.None? || |goal.value| > writer.Expected()
    {
      var ok := RefillBeside(writer);
      while ok
        invariant Valid() && writer.Valid() && Apart(writer) && fresh(writer.Repr() - old(writer.Repr()))
        invariant writer.Expected() == old(writer.Expected()) && writer.Roomy() == old(writer.Roomy())
        invariant writer.Roomy() ==> Leads(Stream(), writer.Out(), goal)
        invariant ok ==> TagReady() && !eof
        invariant !ok ==> eof == (Stream() == []) && (!eof ==> |Stream()| <= ExtraBytes(Stream()[0]))
        decreases |Stream()|, ok
      {
        ok := DoTag(writer, goal);
        if !ok {
          return;
        }
        ok := RefillBeside(writer);
      }
      if writer.Roomy() {
        LeadsEnd(Stream(), writer.Out(), goal);
      }
    }

    // ----- Steps -----

    /** What holds between two steps. */
    ghost predicate At(phase: Phase)
      requires Shape()
      reads this, reader
    {
      match phase
      case Refill => true
      case Stitching(needed) =>
        && InScratch() && limit < needed <= MAX_TAG
        && (Short() ==> Stream() != [] && needed == ExtraBytes(Stream()[0]) + 1)
      case AtTag => TagReady()
    }

    /** How many steps are left at most, when the regions can be counted. */
    ghost function StepsLeft(phase: Phase): nat
      requires Shape() && At(phase)
      reads this, reader
    {
      match phase
      case Refill => 8 * |Stream()| + 7
      case Stitching(needed) => 8 * |Stream()| + 1 + needed - limit
      case AtTag => 8 * |Stream()|
    }

    /** The refill up to the stitching; the writer is not touched. */
    method StepRefill(writer: Writer) returns (next: Option<Phase>)
      requires Valid() && !eof && writer.Valid() && Apart(writer)
      modifies this, reader
      ensures Valid() && writer.Valid() && writer.Out() == old(writer.Out())
      ensures writer.Repr() == old(writer.Repr()) && writer.Roomy() == old(writer.Roomy())
      ensures writer.Expected() == old(writer.Expected())
      ensures Short() ==> Stream() == old(Stream()) && eof == (Stream() == []) && eof == next.None?
      ensures next.Some? ==> !eof && At(next.value) && !next.value.Refill?
      ensures !Short() ==> next.Some?
    {
      next := FindTag();
    }

    method FindTag() returns (next: Option<Phase>)
      requires Valid() && !eof
      modifies this, reader
      ensures Valid()
      ensures Short() ==> Stream() == old(Stream()) && eof == (Stream() == []) && eof == next.None?
      ensures next.Some? ==> !eof && At(next.value) && !next.value.Refill?
      ensures !Short() ==> next.Some?
    {
      hide ExtraBytes, Looping;
      if limit - ip >= MAX_TAG {
        assert TagLength(mem[ip]) <= MAX_TAG;
        return Some(AtTag);
      }
      if ip == limit {
        var more := NextCounted();
        if !more {
          eof := true;
          return None;
        }
      }
      ghost var c := mem[ip];
      assert Stream()[0] == c;
      var needed, ready := SecureTag();
      next := Some(if ready then AtTag else Stitching(needed));
    }

    /** One turn of the stitching loop; the writer is not touched. */
    method StepStitch(writer: Writer, needed: nat) returns (next: Option<Phase>)
      requires Valid() && !eof && At(Stitching(needed)) && writer.Valid() && Apart(writer)
      modifies this, reader
      ensures Valid() && !eof && writer.Valid() && writer.Out() == old(writer.Out())
      ensures writer.Repr() == old(writer.Repr()) && writer.Roomy() == old(writer.Roomy())
      ensures writer.Expected() == old(writer.Expected())
      ensures Short() ==> Stream() == old(Stream())
      ensures Short() && next.None? ==> Stream() != [] && |Stream()| <= ExtraBytes(Stream()[0])
      ensures next.Some? ==> At(next.value) && (Short() ==> StepsLeft(next.value) < old(StepsLeft(Stitching(needed))))
      ensures !Short() ==> next == Some(Stitching(needed))
    {
      next := StitchOnce(needed);
    }

    method StitchOnce(needed: nat) returns (next: Option<Phase>)
      requires Valid() && At(Stitching(needed))
      modifies this`mem, this`limit, this`scratch, reader
      ensures Valid() && eof == old(eof)
      ensures Short() ==> Stream() == old(Stream())
      ensures Short() && next.None? ==> Stream() != [] && |Stream()| <= ExtraBytes(Stream()[0])
      ensures next.Some? ==> At(next.value) && (Short() ==> StepsLeft(next.value) < old(StepsLeft(Stitching(needed))))
      ensures !Short() ==> next == Some(Stitching(needed))
    {
      hide ExtraBytes, Looping;
      var more := StitchOn(needed);
      if !more {
        return None;
      }
      if limit < needed {
        return Some(Stitching(needed));
      }
      assert Stream()[0] == mem[0];
      return Some(AtTag);
    }

    /** One step; `None` is the return from `DecompressAllTags`. */
    method Step(writer: Writer, phase: Phase, ghost goal: Option<seq<Byte>>) returns (next: Option<Phase>)
      requires Valid() && !eof && At(phase) && writer.Valid() && Apart(writer)
      requires Exact(writer) ==> Leads(Stream(), writer.Out(), goal)
      modifies this, reader, writer.Repr()
      ensures Valid() && Apart(writer) && fresh(writer.Repr() - old(writer.Repr()))
      ensures writer.Expected() == old(writer.Expected()) && writer.Roomy() == old(writer.Roomy())
      ensures next.Some? ==> !eof && At(next.value) && writer.Valid()
      ensures next.Some? && Short() ==> StepsLeft(next.value) < old(StepsLeft(phase))
      ensures next.Some? && Exact(writer) ==> Leads(Stream(), writer.Out(), goal)
      ensures eof ==> next.None? && writer.Valid()
      ensures next.None? && Exact(writer) ==>
                if eof then goal == Some(writer.Out()) else goal.None? || |goal.value| > writer.Expected()
    {
      hide Leads, ExtraBytes, Looping, TagReady, InScratch;
      match phase
      case Refill =>
        next := StepRefill(writer);
        if eof && Exact(writer) {
          LeadsEnd(Stream(), writer.Out(), goal);
        }
      case Stitching(needed) =>
        next := StepStitch(writer, needed);
        if next.None? && Exact(writer) {
          LeadsEnd(Stream(), writer.Out(), goal);
        }
      case AtTag =>
        var ok := DoTag(writer, goal);
        next := if ok then Some(Refill) else None;
    }

    /** `DecompressAllTags` for some number of steps.  With regions that can be counted it ends, and
        ends right; with one that cannot it never comes to the end of the input. */
    method DecompressWithin(writer: Writer, steps: nat, ghost goal: Option<seq<Byte>>) returns (ended: bool)
      requires Valid() && !eof && writer.Valid() && Apart(writer)
      requires Exact(writer) ==> Leads(Stream(), writer.Out(), goal)
      modifies this, reader, writer.Repr()
      ensures fresh(writer.Repr() - old(writer.Repr()))
      ensures writer.Expected() == old(writer.Expected()) && writer.Roomy() == old(writer.Roomy())
      ensures eof ==> ended && writer.Valid()
      ensures !Short() ==> !eof
      ensures ended && Exact(writer) ==>
                if eof then goal == Some(writer.Out()) else goal.None? || |goal.value| > writer.Expected()
      ensures Short() && steps >= 8 * |old(Stream())| + 8 ==> ended
    {
      hide Leads, ExtraBytes, Looping, TagReady, InScratch;
      var phase := Refill;
      for i := 0 to steps
        invariant Valid() && !eof && At(phase) && writer.Valid() && Apart(writer)
        invariant fresh(writer.Repr() - old(writer.Repr()))
        invariant writer.Expected() == old(writer.Expected()) && writer.Roomy() == old(writer.Roomy())
        invariant Exact(writer) ==> Leads(Stream(), writer.Out(), goal)
        invariant Short() ==> StepsLeft(phase) + i <= 8 * |old(Stream())| + 7
      {
        var next := Step(writer, phase, goal);
        if next.None? {
          NeverAtEnd();
          return true;
        }
        phase := next.value;
      }
      return false;
    }

    lemma NeverAtEnd()
      requires Valid()
      ensures !Short() ==> !eof
    {
    }
  }

  lemma EntryFields(c: Byte)
    ensures CharTable(c) / 0x800 == ExtraBytes(c)
    ensures c % 4 == 1 ==> CharTable(c) % 0x100 == c / 4 % 8 + 4 && CharTable(c) % 0x800 / 0x100 == c / 32
    ensures c % 4 >= 2 ==> CharTable(c) % 0x100 == c / 4 + 1 && CharTable(c) % 0x800 / 0x100 == 0
  {
    if c % 4 == 0 {
      PackedFields(ExtraBytes(c), 0, if c / 4 < 60 then c / 4 + 1 else 1);
    } else if c % 4 == 1 {
      PackedFields(1, c / 32, c / 4 % 8 + 4);
    } else {
      PackedFields(ExtraBytes(c), 0, c / 4 + 1);
    }
  }

  lemma PackedFields(extra: nat, high: nat, len: nat)
    requires high < 8 && len < 0x100
    ensures var entry: nat := extra * 0x800 + high * 0x100 + len;
            entry / 0x800 == extra && entry % 0x100 == len && entry % 0x800 / 0x100 == high
  {
    var entry := extra * 0x800 + high * 0x100 + len;
    assert entry % 0x800 == high * 0x100 + len;
    assert entry == (extra * 8 + high) * 0x100 + len;
  }
}
