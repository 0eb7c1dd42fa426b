/**
 The three emitters of the compressor.  Each writes the bytes of its tags into the output
 buffer, sometimes a few bytes too many, and returns the new end of the output.
 */
module SnappyEmit {
  import opened Bytes
  import opened Wrappers
  import opened SnappyFormat

  /** The bytes of a positive number, least significant first, without leading zeros. */
  function MinLE(n: nat): (r: seq<Byte>)
    ensures n < 256 ==> |r| <= 1
    ensures n < 0x1_0000 ==> |r| <= 2
    ensures n < 0x100_0000 ==> |r| <= 3
    ensures n < 0x1_0000_0000 ==> |r| <= 4
    ensures n > 0 ==> |r| >= 1
  {
    if n == 0 then [] else [n % 256] + MinLE(n / 256)
  }

  lemma {:induction false} LoadMinLE(n: nat)
    ensures LoadLE(MinLE(n)) == n
  {
    if n == 0 {
    } else {
      LoadMinLE(n / 256);
      assert MinLE(n)[1..] == MinLE(n / 256);
    }
  }

  lemma MinLEStep(n: nat)
    ensures MinLE(n) == if n == 0 then [] else [n % 256] + MinLE(n / 256)
  {
  }

  function LiteralHeader(len: nat): (r: seq<Byte>)
    requires 1 <= len <= 0x1_0000_0000
    ensures 1 <= |r| <= 5
    ensures len <= 60 ==> |r| == 1
    ensures len <= 256 ==> |r| <= 2
    ensures len <= 0x1_0000 ==> |r| <= 3
  {
    var n := len - 1;
    if n < 60 then [n * 4] else [(59 + |MinLE(n)|) * 4] + MinLE(n)
  }

  /** A literal tag expands to its bytes. */
  lemma LiteralExpands(lit: seq<Byte>, out: seq<Byte>)
    requires 1 <= |lit| < 0x1_0000_0000
    ensures Expand(LiteralHeader(|lit|) + lit, out) == Some(out + lit)
  {
    hide LoadLE, MinLE;
    var header := LiteralHeader(|lit|);
    var c := header + lit;
    var n := ExtraBytes(c[0]);
    assert n + 1 == |header|;
    assert c[1..n + 1] == header[1..] && c[n + 1..] == lit;
    LoadMinLE(|lit| - 1);
    if |lit| - 1 >= 60 {
      assert header[1..] == MinLE(|lit| - 1);
    }
    assert ParseTag(c[0], c[1..n + 1]) == Literal(|lit|);
    assert lit[|lit|..] == [] && lit[..|lit|] == lit;
  }

  function CopyBytes(offset: nat, len: nat): (r: seq<Byte>)
    requires 1 <= offset < 0x1_0000 && 4 <= len <= 64
    ensures 2 <= |r| <= 3
  {
    if len < 12 && offset < 2048 then [1 + (len - 4) * 4 + offset / 256 * 32, offset % 256]
    else [2 + (len - 1) * 4, offset % 256, offset / 256]
  }

  lemma ShortCopyTag(len: nat, high: nat)
    requires 4 <= len < 12 && high < 8
    ensures var c := 1 + (len - 4) * 4 + high * 32;
            c < 256 && c % 4 == 1 && c / 32 == high && c / 4 % 8 + 4 == len
  {
    var q := len - 4;
    assert (1 + q * 4 + high * 32) / 4 == q + high * 8;
  }

  lemma LongCopyTag(len: nat)
    requires 1 <= len <= 64
    ensures var c := 2 + (len - 1) * 4; c < 256 && c % 4 == 2 && c / 4 + 1 == len
  {
  }

  lemma LoadOne(a: Byte)
    ensures LoadLE([a]) == a
  {
    assert [a][1..] == [];
  }

  lemma LoadTwo(a: Byte, b: Byte)
    ensures LoadLE([a, b]) == a + 256 * b
  {
    LoadOne(b);
    assert [a, b][1..] == [b];
  }

  lemma ParseCopy(offset: nat, len: nat)
    requires 1 <= offset < 0x1_0000 && 4 <= len <= 64
    ensures var c := CopyBytes(offset, len);
            ExtraBytes(c[0]) + 1 == |c| && ParseTag(c[0], c[1..]) == Copy(offset, len)
  {
    var c := CopyBytes(offset, len);
    if len < 12 && offset < 2048 {
      ShortCopyTag(len, offset / 256);
      LoadOne(offset % 256);
      assert c[1..] == [offset % 256];
    } else {
      LongCopyTag(len);
      LoadTwo(offset % 256, offset / 256);
      assert c[1..] == [offset % 256, offset / 256];
    }
  }

  /** A copy tag expands to the copy. */
  lemma CopyExpands(offset: nat, len: nat, out: seq<Byte>)
    requires 1 <= offset < 0x1_0000 && 4 <= len <= 64 && offset <= |out|
    ensures Expand(CopyBytes(offset, len), out) == Some(CopyBack(out, offset, len))
  {
    ParseCopy(offset, len);
    var c := CopyBytes(offset, len);
    assert c[1..|c|] == c[1..] && c[|c|..] == [];
    assert Expand([], CopyBack(out, offset, len)) == Some(CopyBack(out, offset, len));
  }

  /** The copies of one match: as many of 64 bytes as leave at least four, perhaps one of 60. */
  function CopiesBytes(offset: nat, len: nat): (r: seq<Byte>)
    requires 1 <= offset < 0x1_0000 && 4 <= len
    ensures |r| <= len - 1
    decreases len
  {
    if len >= 68 then CopyBytes(offset, 64) + CopiesBytes(offset, len - 64)
    else if len > 64 then CopyBytes(offset, 60) + CopyBytes(offset, len - 60)
    else CopyBytes(offset, len)
  }

  /** Three bytes for every 64 of a match. */
  lemma {:induction false} CopiesShort(offset: nat, len: nat)
    requires 1 <= offset < 0x1_0000 && 4 <= len
    ensures |CopiesBytes(offset, len)| <= 3 * (len / 64) + 6
    decreases len
  {
    if len >= 68 {
      CopiesShort(offset, len - 64);
      assert len / 64 == (len - 64) / 64 + 1;
    } else {
    }
  }

  /** A copy followed by tags that continue it. */
  lemma CopyThen(offset: nat, first: nat, more: nat, rest: seq<Byte>, out: seq<Byte>)
    requires 1 <= offset < 0x1_0000 && 4 <= first <= 64 && offset <= |out|
    requires Expand(rest, CopyBack(out, offset, first)) == Some(CopyBack(CopyBack(out, offset, first), offset, more))
    ensures Expand(CopyBytes(offset, first) + rest, out) == Some(CopyBack(out, offset, first + more))
  {
    CopyExpands(offset, first, out);
    ExpandAppend(CopyBytes(offset, first), rest, out);
    CopyBackSplit(out, offset, first, more);
  }

  lemma {:induction false} CopiesExpand(offset: nat, len: nat, out: seq<Byte>)
    requires 1 <= offset < 0x1_0000 && 4 <= len && offset <= |out|
    ensures Expand(CopiesBytes(offset, len), out) == Some(CopyBack(out, offset, len))
    decreases len
  {
    if len >= 68 {
      CopiesExpand(offset, len - 64, CopyBack(out, offset, 64));
      CopyThen(offset, 64, len - 64, CopiesBytes(offset, len - 64), out);
    } else if len > 64 {
      CopyExpands(offset, len - 60, CopyBack(out, offset, 60));
      CopyThen(offset, 60, len - 60, CopyBytes(offset, len - 60), out);
    } else {
      CopyExpands(offset, len, out);
    }
  }

  // ----- Writing into the buffer -----

  /** The buffer outside `[lo, hi)` is as before. */
  twostate predicate OnlyWithin(a: array<Byte>, lo: nat, hi: nat)
    reads a
  {
    forall i | 0 <= i < a.Length && !(lo <= i < hi) :: a[i] == old(a[i])
  }

  method Store(a: array<Byte>, at: nat, bytes: seq<Byte>)
    requires at + |bytes| <= a.Length
    modifies a
    ensures a[at..at + |bytes|] == bytes
    ensures OnlyWithin(a, at, at + |bytes|)
  {
    forall i | 0 <= i < |bytes| {
      a[at + i] := bytes[i];
    }
  }

  /** Writes a literal.  The fast path stores sixteen bytes whatever the length. */
  method EmitLiteral(a: array<Byte>, op: nat, input: seq<Byte>, lit: nat, len: nat, allowFastPath: bool)
    returns (end: nat)
    requires 1 <= len < 0x8000_0000 && lit + len <= |input|
    requires op + |LiteralHeader(len)| + len <= a.Length
    requires allowFastPath && len <= 16 ==> lit + 16 <= |input| && op + 17 <= a.Length
    modifies a
    ensures end == op + |LiteralHeader(len)| + len
    ensures a[op..end] == LiteralHeader(len) + input[lit..lit + len]
    ensures OnlyWithin(a, op, if allowFastPath && len <= 16 then op + 17 else end)
  {
    if allowFastPath && len <= 16 {
      end := EmitShortLiteral(a, op, input, lit, len);
    } else {
      var start := EmitHeader(a, op, len);
      end := start + len;
      StoreAfter(a, op, start, input[lit..lit + len]);
    }
  }

  method EmitShortLiteral(a: array<Byte>, op: nat, input: seq<Byte>, lit: nat, len: nat) returns (end: nat)
    requires 1 <= len <= 16 && lit + 16 <= |input| && op + 17 <= a.Length
    modifies a
    ensures end == op + 1 + len
    ensures a[op..end] == LiteralHeader(len) + input[lit..lit + len]
    ensures OnlyWithin(a, op, op + 17)
  {
    a[op] := (len - 1) * 4;
    StoreAfter(a, op, op + 1, input[lit..lit + 16]);
    end := op + 1 + len;
    assert a[op..end] == a[op..op + 17][..1 + len];
    assert (LiteralHeader(len) + input[lit..lit + 16])[..1 + len] == LiteralHeader(len) + input[lit..lit + len];
  }

  /** Stores bytes behind those written from `start` on. */
  method StoreAfter(a: array<Byte>, ghost start: nat, at: nat, bytes: seq<Byte>)
    requires start <= at && at + |bytes| <= a.Length
    modifies a
    ensures a[start..at + |bytes|] == old(a[start..at]) + bytes
    ensures OnlyWithin(a, at, at + |bytes|)
  {
    Store(a, at, bytes);
    assert a[start..at + |bytes|] == a[start..at] + a[at..at + |bytes|];
    assert a[start..at] == old(a[start..at]);
  }

  method PutAfter(a: array<Byte>, ghost start: nat, at: nat, b: Byte)
    requires start <= at < a.Length
    modifies a
    ensures a[start..at + 1] == old(a[start..at]) + [b]
    ensures OnlyWithin(a, at, at + 1)
  {
    a[at] := b;
  }

  method EmitHeader(a: array<Byte>, op: nat, len: nat) returns (start: nat)
    requires 1 <= len < 0x8000_0000 && op + |LiteralHeader(len)| <= a.Length
    modifies a
    ensures start == op + |LiteralHeader(len)| && a[op..start] == LiteralHeader(len)
    ensures OnlyWithin(a, op, start)
  {
    var n := len - 1;
    if n < 60 {
      a[op] := n * 4;
      start := op + 1;
    } else {
      start := EmitLength(a, op, n);
    }
  }

  /** The length bytes of a long literal, then the tag byte that counts them. */
  method EmitLength(a: array<Byte>, op: nat, n0: nat) returns (end: nat)
    requires 60 <= n0 < 0x1_0000_0000 && op + 1 + |MinLE(n0)| <= a.Length
    modifies a
    ensures end == op + 1 + |MinLE(n0)|
    ensures a[op..end] == [(59 + |MinLE(n0)|) * 4] + MinLE(n0)
    ensures OnlyWithin(a, op, end)
  {
    hide MinLE;
    var n, count := n0, 0;
    end := op + 1;
    while n > 0
      invariant end == op + 1 + count && count + |MinLE(n)| == |MinLE(n0)|
      invariant a[op + 1..end] + MinLE(n) == MinLE(n0)
      invariant OnlyWithin(a, op, end)
    {
      MinLEStep(n);
      AssocSplit(a[op + 1..end], [n % 256], MinLE(n / 256));
      PutAfter(a, op + 1, end, n % 256);
      end := end + 1;
      n := n / 256;
      count := count + 1;
    }
    MinLEStep(0);
    assert a[op + 1..end] == MinLE(n0);
    a[op] := (59 + count) * 4;
    assert a[op..end] == [a[op]] + a[op + 1..end];
  }

  /** Writes one copy tag.  A three-byte tag is stored as four bytes. */
  method EmitCopyAtMost64(a: array<Byte>, op: nat, offset: nat, len: nat, lenLessThan12: bool) returns (end: nat)
    requires 1 <= offset < 0x1_0000 && 4 <= len <= 64 && op + 4 <= a.Length && lenLessThan12 == (len < 12)
    modifies a
    ensures end == op + |CopyBytes(offset, len)|
    ensures a[op..end] == CopyBytes(offset, len)
    ensures OnlyWithin(a, op, op + 4)
  {
    if lenLessThan12 && offset < 2048 {
      a[op], a[op + 1] := 1 + (len - 4) * 4 + offset / 256 * 32, offset % 256;
      end := op + 2;
    } else {
      a[op], a[op + 1], a[op + 2], a[op + 3] := 2 + (len - 1) * 4, offset % 256, offset / 256, 0;
      end := op + 3;
    }
  }

  /** Writes the copies of one match. */
  method EmitCopy(a: array<Byte>, op: nat, offset: nat, len0: nat, lenLessThan12: bool) returns (end: nat)
    requires 1 <= offset < 0x1_0000 && 4 <= len0 && lenLessThan12 == (len0 < 12)
    requires op + |CopiesBytes(offset, len0)| + 2 <= a.Length
    modifies a
    ensures end == op + |CopiesBytes(offset, len0)|
    ensures a[op..end] == CopiesBytes(offset, len0)
    ensures OnlyWithin(a, op, end + 2)
  {
    if lenLessThan12 {
      end := EmitCopyAtMost64(a, op, offset, len0, true);
    } else {
      end := EmitLongCopy(a, op, offset, len0);
    }
  }

  method EmitLongCopy(a: array<Byte>, op: nat, offset: nat, len0: nat) returns (end: nat)
    requires 1 <= offset < 0x1_0000 && 12 <= len0 && op + |CopiesBytes(offset, len0)| + 2 <= a.Length
    modifies a
    ensures end == op + |CopiesBytes(offset, len0)|
    ensures a[op..end] == CopiesBytes(offset, len0)
    ensures OnlyWithin(a, op, end + 2)
  {
    end := op;
    var len := len0;
    ghost var all := CopiesBytes(offset, len0);
    while len >= 68
      invariant len >= 4 && op <= end && end + |CopiesBytes(offset, len)| == op + |all|
      invariant a[op..end] + CopiesBytes(offset, len) == all
      invariant OnlyWithin(a, op, end + 2)
    {
      ghost var before := a[op..end];
      end := EmitNext(a, op, end, offset, 64);
      len := len - 64;
      AssocSplit(before, CopyBytes(offset, 64), CopiesBytes(offset, len));
    }
    if len > 64 {
      ghost var before := a[op..end];
      end := EmitNext(a, op, end, offset, 60);
      len := len - 60;
      AssocSplit(before, CopyBytes(offset, 60), CopiesBytes(offset, len));
    }
    end := EmitNext(a, op, end, offset, len);
  }

  lemma AssocSplit(x: seq<Byte>, y: seq<Byte>, z: seq<Byte>)
    ensures x + (y + z) == x + y + z
  {
  }

  /** One more copy tag behind those already written from `start` on. */
  method EmitNext(a: array<Byte>, ghost start: nat, op: nat, offset: nat, len: nat) returns (end: nat)
    requires 1 <= offset < 0x1_0000 && 4 <= len <= 64 && start <= op && op + 4 <= a.Length
    modifies a
    ensures end == op + |CopyBytes(offset, len)|
    ensures a[start..end] == old(a[start..op]) + CopyBytes(offset, len)
    ensures OnlyWithin(a, op, op + 4)
  {
    end := EmitCopyAtMost64(a, op, offset, len, len < 12);
    assert a[start..end] == a[start..op] + a[op..end];
    assert a[start..op] == old(a[start..op]);
  }
}
