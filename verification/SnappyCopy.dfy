/**
 The overlapping copy of the decompressor, in place on an array: byte by byte, and fast with
 pattern doubling and eight-byte moves.
 */
module SnappyCopy {
  import opened Bytes
  import opened SnappyFormat

  /** Eight bytes, all read before any is written. */
  method UnalignedCopy64(a: array<Byte>, src: nat, dst: nat)
    requires src + 8 <= a.Length && dst + 8 <= a.Length
    modifies a
    ensures forall i | 0 <= i < a.Length :: a[i] == if dst <= i < dst + 8 then old(a[src + (i - dst)]) else old(a[i])
  {
    var tmp := a[src..src + 8];
    forall k | 0 <= k < 8 {
      a[dst + k] := tmp[k];
    }
  }

  /** The byte-by-byte copy: every byte repeats the one at the same distance before it. */
  method IncrementalCopySlow(a: array<Byte>, src: nat, op: nat, opLimit: nat)
    requires src < op <= a.Length && opLimit <= a.Length
    modifies a
    ensures forall i | 0 <= i < a.Length && !(op <= i < opLimit) :: a[i] == old(a[i])
    ensures forall i | op <= i < opLimit :: a[i] == a[i - (op - src)]
  {
    var s, o := src, op;
    while o < opLimit
      invariant o - s == op - src && op <= o && (o <= opLimit || o == op)
      invariant forall i | 0 <= i < a.Length && !(op <= i < o) :: a[i] == old(a[i])
      invariant forall i | op <= i < o :: a[i] == a[i - (op - src)]
    {
      a[o] := a[s];
      s, o := s + 1, o + 1;
    }
  }

  /** `p` repeats with period `d` from `start` on. */
  ghost predicate Periodic(p: seq<Byte>, start: nat, d: nat) {
    d <= start && forall i | start <= i < |p| :: p[i] == p[i - d]
  }

  /** A period can be doubled. */
  lemma PeriodTwice(p: seq<Byte>, start: nat, d: nat)
    requires Periodic(p, start, d)
    ensures Periodic(p, start + d, 2 * d)
  {
    forall i | start + d <= i < |p|
      ensures p[i] == p[i - 2 * d]
    {
      assert p[i] == p[i - d];
    }
  }

  /** Two strings that agree up to `lo` and have the same period from there agree up to `hi`. */
  lemma {:induction false} SamePeriod(a: seq<Byte>, p: seq<Byte>, d: nat, lo: nat, hi: nat)
    requires 1 <= d <= lo <= hi <= |a| && hi <= |p|
    requires a[..lo] == p[..lo]
    requires forall i | lo <= i < hi :: a[i] == a[i - d] && p[i] == p[i - d]
    ensures a[..hi] == p[..hi]
    decreases hi - lo
  {
    if lo == hi {
    } else {
      assert a[lo] == a[..lo][lo - d] == p[..lo][lo - d] == p[lo];
      assert a[..lo + 1] == a[..lo] + [a[lo]] && p[..lo + 1] == p[..lo] + [p[lo]];
      SamePeriod(a, p, d, lo + 1, hi);
    }
  }

  lemma IdealIsPeriodic(out: seq<Byte>, offset: nat, len: nat)
    requires 1 <= offset <= |out|
    ensures Periodic(CopyBack(out, offset, len), |out|, offset)
  {
    forall i | |out| <= i < |out| + len
      ensures CopyBack(out, offset, len)[i] == CopyBack(out, offset, len)[i - offset]
    {
      CopyBackAt(out, offset, len, i);
    }
  }

  lemma IdealPrefix(out: seq<Byte>, offset: nat, len: nat, len': nat)
    requires 1 <= offset <= |out| && len <= len'
    ensures CopyBack(out, offset, len')[..|out| + len] == CopyBack(out, offset, len)
  {
    CopyBackSplit(out, offset, len, len' - len);
  }

  lemma Doubled(p: seq<Byte>, before: seq<Byte>, after: seq<Byte>, op: nat, size: nat)
    requires |before| == |after| && size <= op && op + size <= |p| && op + size <= |after|
    requires before[..op] == p[..op] && Periodic(p, op, size) && after[..op] == before[..op]
    requires forall i | op <= i < op + size :: after[i] == before[i - size]
    ensures after[..op + size] == p[..op + size]
  {
    forall i | 0 <= i < op + size
      ensures after[i] == p[i]
    {
      if i < op {
        assert after[..op][i] == p[..op][i];
      } else {
        assert before[..op][i - size] == p[..op][i - size];
      }
    }
  }

  /** Doubles a pattern of fewer than eight bytes until it has at least eight. */
  method ExpandPattern(a: array<Byte>, src: nat, op0: nat, bufLimit: nat, ghost p: seq<Byte>) returns (op: nat)
    requires src < op0 < src + 8 && op0 + 14 <= bufLimit <= a.Length
    requires |p| == bufLimit && Periodic(p, op0, op0 - src) && a[..op0] == p[..op0]
    modifies a
    ensures src + 8 <= op <= bufLimit && op0 <= op && Periodic(p, op, op - src)
    ensures a[..op] == p[..op]
    ensures forall i | 0 <= i < a.Length && !(op0 <= i < bufLimit) :: a[i] == old(a[i])
  {
    hide Periodic;
    op := op0;
    var size := op0 - src;
    while size < 8
      invariant op0 <= op <= src + 14 && size == op - src && Periodic(p, op, size)
      invariant a[..op] == p[..op]
      invariant forall i | 0 <= i < a.Length && !(op0 <= i < bufLimit) :: a[i] == old(a[i])
      decreases 8 - size
    {
      ghost var before := a[..];
      UnalignedCopy64(a, src, op);
      Doubled(p, before, a[..], op, size);
      PeriodTwice(p, op, size);
      op := op + size;
      size := size * 2;
    }
  }

  /** The fast copy leaves in `a[op0..opLimit]` what the byte-by-byte copy would, and changes
      nothing outside `a[op0..bufLimit]`. */
  method IncrementalCopy(a: array<Byte>, src0: nat, op0: nat, opLimit: nat, bufLimit: nat) returns (r: nat)
    requires src0 < op0 <= opLimit <= bufLimit <= a.Length
    modifies a
    ensures r == opLimit
    ensures a[..opLimit] == CopyBack(old(a[..op0]), op0 - src0, opLimit - op0)
    ensures forall i | 0 <= i < a.Length && !(op0 <= i < bufLimit) :: a[i] == old(a[i])
  {
    ghost var p := CopyBack(a[..op0], op0 - src0, bufLimit - op0);
    IdealIsPeriodic(a[..op0], op0 - src0, bufLimit - op0);
    IdealPrefix(a[..op0], op0 - src0, opLimit - op0, bufLimit - op0);
    r := CopyPattern(a, src0, op0, opLimit, bufLimit, p);
  }

  method CopyPattern(a: array<Byte>, src: nat, op0: nat, opLimit: nat, bufLimit: nat, ghost p: seq<Byte>)
    returns (r: nat)
    requires src < op0 <= opLimit <= bufLimit <= a.Length
    requires |p| == bufLimit && Periodic(p, op0, op0 - src) && a[..op0] == p[..op0]
    modifies a
    ensures r == opLimit && a[..opLimit] == p[..opLimit]
    ensures forall i | 0 <= i < a.Length && !(op0 <= i < bufLimit) :: a[i] == old(a[i])
  {
    if op0 - src >= 8 {
      r := WideCopy(a, src, op0, op0, opLimit, bufLimit, p);
    } else if op0 + 14 <= bufLimit {
      var op := ExpandPattern(a, src, op0, bufLimit, p);
      if op >= opLimit {
        assert a[..opLimit] == a[..op][..opLimit];
        return opLimit;
      }
      r := WideCopy(a, src, op, op0, opLimit, bufLimit, p);
    } else {
      IncrementalCopySlow(a, src, op0, opLimit);
      SamePeriod(a[..], p, op0 - src, op0, opLimit);
      r := opLimit;
    }
  }

  /** The loop of two eight-byte moves, with the tail. */
  method WideCopy(a: array<Byte>, src0: nat, op1: nat, op0: nat, opLimit: nat, bufLimit: nat, ghost p: seq<Byte>)
    returns (r: nat)
    requires src0 + 8 <= op1 < opLimit || (op1 == op0 && src0 + 8 <= op1 <= opLimit)
    requires op0 <= op1 && opLimit <= bufLimit <= a.Length
    requires |p| == bufLimit && Periodic(p, op1, op1 - src0) && a[..op1] == p[..op1]
    modifies a
    ensures r == opLimit && a[..opLimit] == p[..opLimit]
    ensures forall i | 0 <= i < a.Length && !(op0 <= i < bufLimit) :: a[i] == old(a[i])
  {
    var src, op := src0, op1;
    ghost var d := op1 - src0;
    while op + 16 <= bufLimit
      invariant op - src == d && op1 <= op <= bufLimit && a[..op] == p[..op]
      invariant forall i | 0 <= i < a.Length && !(op0 <= i < bufLimit) :: a[i] == old(a[i])
      invariant op < opLimit || op == op1
      decreases bufLimit - op
    {
      MoveEight(a, src, op, bufLimit, op1, d, p);
      MoveEight(a, src + 8, op + 8, bufLimit, op1, d, p);
      src, op := src + 16, op + 16;
      if op >= opLimit {
        assert a[..opLimit] == a[..op][..opLimit];
        return opLimit;
      }
    }
    if op + 8 <= bufLimit {
      MoveEight(a, src, op, bufLimit, op1, d, p);
      src, op := src + 8, op + 8;
    }
    IncrementalCopySlow(a, src, op, opLimit);
    if op <= opLimit {
      SamePeriod(a[..], p, d, op, opLimit);
    } else {
      assert a[..opLimit] == a[..op][..opLimit];
    }
    return opLimit;
  }

  method MoveEight(a: array<Byte>, src: nat, op: nat, bufLimit: nat, ghost start: nat, ghost d: nat, ghost p: seq<Byte>)
    requires op - src == d >= 8 && start <= op && op + 8 <= bufLimit <= a.Length
    requires |p| == bufLimit && Periodic(p, start, d) && a[..op] == p[..op]
    modifies a
    ensures a[..op + 8] == p[..op + 8]
    ensures forall i | 0 <= i < a.Length && !(op <= i < op + 8) :: a[i] == old(a[i])
  {
    UnalignedCopy64(a, src, op);
    forall i | 0 <= i < op + 8
      ensures a[i] == p[i]
    {
      if i < op {
        assert old(a[..op])[i] == p[..op][i];
      } else {
        assert a[i] == old(a[..op])[i - d] == p[..op][i - d];
      }
    }
  }
}
