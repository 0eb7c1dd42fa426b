/**
 `SnappyIOVecWriter`: the output goes into a list of buffers one after another, some of which
 may be empty.
 */
module SnappyIOVec {
  import opened Bytes
  import opened SnappyFormat
  import opened SnappyCopy

  /** Where buffer `i` starts in the concatenation of the buffers. */
  function Start(iov: seq<array<Byte>>, i: nat): nat
    requires i <= |iov|
  {
    if i == 0 then 0 else Start(iov, i - 1) + iov[i - 1].Length
  }

  lemma {:induction false} StartGrows(iov: seq<array<Byte>>, i: nat, j: nat)
    requires i <= j <= |iov|
    ensures Start(iov, i) <= Start(iov, j)
    ensures i < j ==> Start(iov, i) + iov[i].Length <= Start(iov, j)
    decreases j
  {
    if i == j {
    } else {
      StartGrows(iov, i, j - 1);
    }
  }

  /** A copy that does not overlap itself appends an earlier piece of the output. */
  lemma CopyPiece(out: seq<Byte>, offset: nat, n: nat)
    requires 1 <= offset <= |out| && n <= offset
    ensures IsCopy(out, offset, n, out + out[|out| - offset..|out| - offset + n])
  {
    var r := out + out[|out| - offset..|out| - offset + n];
    CopyBackUnique(out, offset, n, r);
    IsCopyMeans(out, offset, n, r);
  }

  /** Bytes that agree with the output as far as it goes, continued by a piece that does. */
  lemma OneMore(before: seq<Byte>, piece: seq<Byte>, out: seq<Byte>)
    requires before[..Min(|before|, |out|)] == out[..Min(|before|, |out|)]
    requires forall k | 0 <= k < |piece| && |before| + k < |out| :: piece[k] == out[|before| + k]
    ensures var e := Min(|before| + |piece|, |out|); (before + piece)[..e] == out[..e]
  {
    var e := Min(|before| + |piece|, |out|);
    forall p | 0 <= p < e
      ensures (before + piece)[p] == out[p]
    {
      if p < |before| {
        assert before[p] == before[..Min(|before|, |out|)][p];
      }
    }
  }

  class IOVecWriter {
    const iov: seq<array<Byte>>
    var currIndex: nat
    var currWritten: nat
    var total: nat
    var limit: nat
    ghost var out: seq<Byte>

    /** The buffers can hold the expected length. */
    ghost predicate Roomy()
      reads this
    {
      limit <= Start(iov, |iov|)
    }

    /** The current place lies in a buffer; without buffers nothing is expected. */
    ghost predicate Shape()
      reads this
    {
      && (forall i, j | 0 <= i < j < |iov| :: iov[i] != iov[j])
      && |out| == total <= limit
      && if iov == [] then currIndex == limit == 0
         else currIndex < |iov| && currWritten <= iov[currIndex].Length && total == Start(iov, currIndex) + currWritten
    }

    /** Buffer `i` holds its piece of `bytes`. */
    ghost predicate HoldsOf(bytes: seq<Byte>, i: nat)
      requires i < |iov|
      reads iov
    {
      forall k | 0 <= k < iov[i].Length && Start(iov, i) + k < |bytes| :: iov[i][k] == bytes[Start(iov, i) + k]
    }

    ghost predicate Valid()
      reads this, iov
    {
      Shape() && forall i | 0 <= i < |iov| :: HoldsOf(out, i)
    }

    constructor (iov: seq<array<Byte>>)
      requires forall i, j | 0 <= i < j < |iov| :: iov[i] != iov[j]
      ensures Valid() && out == [] && this.iov == iov && fresh(this)
    {
      this.iov := iov;
      currIndex, currWritten, total, limit, out := 0, 0, 0, 0, [];
    }

    method SetExpectedLength(len: nat)
      requires Valid() && out == [] && (iov == [] ==> len == 0)
      modifies this`limit
      ensures Valid() && limit == len
    {
      limit := len;
    }

    /** The bytes of the buffers, one buffer after another. */
    ghost function Concatenated(i: nat): seq<Byte>
      requires i <= |iov|
      reads iov
    {
      if i == 0 then [] else Concatenated(i - 1) + iov[i - 1][..]
    }

    /** The concatenated buffers begin with the output. */
    lemma {:induction false} OutIsConcatenated(i: nat)
      requires Valid() && i <= |iov|
      ensures |Concatenated(i)| == Start(iov, i)
      ensures Concatenated(i)[..Min(Start(iov, i), |out|)] == out[..Min(Start(iov, i), |out|)]
      decreases i
    {
      if i == 0 {
      } else {
        OutIsConcatenated(i - 1);
        assert HoldsOf(out, i - 1);
        OneMore(Concatenated(i - 1), iov[i - 1][..], out);
      }
    }

    /** Writing `more` at the current place of the current buffer. */
    lemma Appended(before: seq<Byte>, more: seq<Byte>)
      requires Shape() && iov != [] && out == before + more && |more| <= currWritten
      requires forall i | 0 <= i < |iov| :: HoldsOf(before, i)
      requires iov[currIndex][currWritten - |more|..currWritten] == more
      ensures Valid()
    {
      forall i | 0 <= i < |iov|
        ensures HoldsOf(out, i)
      {
        if i < currIndex {
          StartGrows(iov, i, currIndex);
        } else if i > currIndex {
          StartGrows(iov, currIndex, i);
        }
        assert HoldsOf(before, i);
        forall k | 0 <= k < iov[i].Length && Start(iov, i) + k < |out|
          ensures iov[i][k] == out[Start(iov, i) + k]
        {
          if Start(iov, i) + k >= |before| {
            assert i == currIndex;
            assert iov[i][k] == iov[currIndex][currWritten - |more|..currWritten][k - (currWritten - |more|)];
          }
        }
      }
    }

    /** `memcpy` to the current place. */
    method Put(data: seq<Byte>)
      requires Valid() && iov != [] && currWritten + |data| <= iov[currIndex].Length && total + |data| <= limit
      modifies this`currWritten, this`total, this`out, iov[currIndex]
      ensures Valid() && out == old(out) + data && currIndex == old(currIndex) && total == old(total) + |data|
      ensures forall i | 0 <= i < |iov| && i != currIndex :: iov[i][..] == old(iov[i][..])
    {
      var buffer := iov[currIndex];
      forall i | 0 <= i < |data| {
        buffer[currWritten + i] := data[i];
      }
      currWritten, total := currWritten + |data|, total + |data|;
      out := out + data;
      forall i | 0 <= i < |iov|
        ensures HoldsOf(old(out), i)
      {
        assert old(HoldsOf(out, i));
        BeforeCurrent(i);
      }
      Appended(old(out), data);
    }

    /** Output in another buffer lies before the current one. */
    lemma BeforeCurrent(i: nat)
      requires Shape() && i < |iov|
      ensures i < currIndex ==> Start(iov, i) + iov[i].Length <= Start(iov, currIndex)
      ensures i > currIndex ==> total <= Start(iov, i)
    {
      if i < currIndex {
        StartGrows(iov, i, currIndex);
      } else if i > currIndex {
        StartGrows(iov, currIndex, i);
      }
    }

    /** The current buffer is full: go to the next one, if there is one. */
    method NextBuffer() returns (ok: bool)
      requires Valid() && iov != [] && currWritten == iov[currIndex].Length
      modifies this`currIndex, this`currWritten
      ensures Valid() && out == old(out)
      ensures ok ==> currIndex == old(currIndex) + 1 && currWritten == 0
      ensures !ok ==> currIndex == old(currIndex) && currWritten == old(currWritten) && total == Start(iov, |iov|)
    {
      if currIndex + 1 >= |iov| {
        return false;
      }
      currIndex, currWritten := currIndex + 1, 0;
      return true;
    }

    /** As many of the bytes as the current buffer holds. */
    method PutMost(data: seq<Byte>, ip: nat) returns (end: nat)
      requires Valid() && iov != [] && ip < |data| && total + |data| - ip <= limit
      modifies this`currWritten, this`total, this`out, iov[currIndex]
      ensures Valid() && currIndex == old(currIndex) && ip <= end <= |data|
      ensures out == old(out) + data[ip..end]
              && (forall out0 | old(out) == out0 + data[..ip] :: out == out0 + data[..end])
      ensures old(currWritten) < iov[currIndex].Length ==> ip < end
    {
      var n := Min(|data| - ip, iov[currIndex].Length - currWritten);
      Put(data[ip..ip + n]);
      end := ip + n;
      assert data[..end] == data[..ip] + data[ip..end];
    }

    /** Nothing is written past the buffers: when they are full, the rest is dropped. */
    method Append(data: seq<Byte>) returns (ok: bool)
      requires Valid()
      modifies this`currIndex, this`currWritten, this`total, this`out, iov[currIndex..]
      ensures Valid() && old(currIndex) <= currIndex
      ensures total + 0 >= old(total) && old(out) <= out
      ensures ok ==> |old(out)| + |data| <= limit && out == old(out) + data
      ensures !ok ==> |old(out)| + |data| > limit || (!Roomy() && total == Start(iov, |iov|))
      ensures data == [] ==> ok && currIndex == old(currIndex)
      ensures forall i | 0 <= i < old(currIndex) :: iov[i][..] == old(iov[i][..])
    {
      if total + |data| > limit {
        return false;
      }
      var ip := 0;
      while ip < |data|
        invariant 0 <= ip <= |data| && Valid() && old(currIndex) <= currIndex
        invariant out == old(out) + data[..ip]
        invariant data == [] ==> currIndex == old(currIndex)
        invariant forall i | 0 <= i < old(currIndex) :: iov[i][..] == old(iov[i][..])
        decreases |data| - ip, |iov| - currIndex
      {
        if currWritten >= iov[currIndex].Length {
          var more := NextBuffer();
          if !more {
            return false;
          }
        }
        ip := PutMost(data, ip);
      }
      assert data[..ip] == data;
      return true;
    }

    method TryFastAppend(window: seq<Byte>, len: nat) returns (ok: bool)
      requires Valid()
      modifies this`currWritten, this`total, this`out, iov[currIndex..]
      ensures Valid()
      ensures ok ==> len <= 16 && |window| >= 21 && |old(out)| + len <= limit && out == old(out) + window[..len]
      ensures ok <==> && len <= 16 && |window| >= 21 && |old(out)| + 16 <= limit
                      && old(currWritten) + 16 <= iov[old(currIndex)].Length
      ensures !ok ==> out == old(out)
    {
      if len <= 16 && |window| >= 21 && limit - total >= 16 && iov[currIndex].Length - currWritten >= 16 {
        var buffer := iov[currIndex];
        forall i | 0 <= i < 16 {
          buffer[currWritten + i] := window[i];
        }
        currWritten, total := currWritten + len, total + len;
        out := out + window[..len];
        forall i | 0 <= i < |iov|
          ensures HoldsOf(old(out), i)
        {
          assert old(HoldsOf(out, i));
          BeforeCurrent(i);
        }
        Appended(old(out), window[..len]);
        return true;
      }
      return false;
    }

    /** The buffer and the place in it that hold byte `total - offset` of the output. */
    method Locate(offset: nat) returns (index: nat, at: nat)
      requires Valid() && 1 <= offset <= total
      ensures index <= currIndex && at <= iov[index].Length && Start(iov, index) + at == total - offset
    {
      index, at := currIndex, currWritten;
      var left := offset;
      while at < left
        invariant index <= currIndex && at <= iov[index].Length && 0 < left
        invariant Start(iov, index) + at == total - offset + left
        decreases index
      {
        left := left - at;
        index := index - 1;
        at := iov[index].Length;
      }
      at := at - left;
    }

    method AppendFromSelf(offset: nat, len: nat) returns (ok: bool)
      requires Valid()
      modifies this`currIndex, this`currWritten, this`total, this`out, iov
      ensures Valid()
      ensures ok ==> 1 <= offset <= |old(out)| && |old(out)| + len <= limit
      ensures Roomy() ==> ok == (1 <= offset <= |old(out)| && |old(out)| + len <= limit)
      ensures Roomy() && ok ==> out == CopyBack(old(out), offset, len)
    {
      if offset > total || offset == 0 || len > limit - total {
        return false;
      }
      var index, at := Locate(offset);
      ok := CopyFrom(index, at, offset, len);
      IsCopyMeans(old(out), offset, len, out);
    }

    /** In the middle of a copy: `len` of `len0` bytes are left, to be read from place `at` of
        buffer `index`.  `exact` says that no inner append has failed so far; one can fail only
        when the buffers are full. */
    ghost predicate Copying(out0: seq<Byte>, offset: nat, len0: nat, index: nat, at: nat, len: nat, exact: bool)
      reads this, iov
    {
      && Valid() && iov != [] && index <= currIndex && at <= iov[index].Length && len <= len0 && 1 <= offset <= |out|
      && (exact ==> IsCopy(out0, offset, len0 - len, out) && total + len <= limit)
      && (exact && len > 0 ==> Start(iov, index) + at == total - offset)
      && (!exact ==> !Roomy() && total == Start(iov, |iov|))
    }

    /** The copy loop. */
    method CopyFrom(index0: nat, at0: nat, ghost offset: nat, len0: nat) returns (ok: bool)
      requires Valid() && 1 <= offset <= total && total + len0 <= limit
      requires index0 <= currIndex && at0 <= iov[index0].Length && Start(iov, index0) + at0 == total - offset
      modifies this`currIndex, this`currWritten, this`total, this`out, iov
      ensures Valid()
      ensures Roomy() ==> ok && IsCopy(old(out), offset, len0, out)
    {
      var index: nat, at: nat, len: nat := index0, at0, len0;
      ghost var exact := true;
      IsCopyMeans(out, offset, 0, out);
      while len > 0
        invariant Copying(old(out), offset, len0, index, at, len, exact)
        decreases len, |iov| - currIndex, |iov| - index
      {
        if index != currIndex {
          index, at, len, exact := CopyFromOlder(old(out), offset, len0, index, at, len, exact);
        } else if currWritten == iov[currIndex].Length {
          var more := NextBuffer();
          if !more {
            return false;
          }
        } else {
          at, len := CopyFromCurrent(old(out), offset, len0, at, len, exact);
        }
      }
      return true;
    }

    method CopyFromOlder(ghost out0: seq<Byte>, ghost offset: nat, ghost len0: nat, index0: nat, at0: nat, len1: nat,
        ghost exact0: bool)
      returns (index: nat, at: nat, len: nat, ghost exact: bool)
      requires Copying(out0, offset, len0, index0, at0, len1, exact0) && index0 < currIndex && len1 > 0
      modifies this`currIndex, this`currWritten, this`total, this`out, iov
      ensures Copying(out0, offset, len0, index, at, len, exact) && currIndex >= old(currIndex)
      ensures len < len1 || (len == len1 && currIndex == old(currIndex) && index > index0)
    {
      var n;
      n, exact := CopyOlder(index0, at0, len1, offset, exact0);
      if exact {
        CopyTwice(out0, old(out), out, offset, len0 - len1, n);
      }
      len := len1 - n;
      if len > 0 {
        index, at := index0 + 1, 0;
      } else {
        index, at := index0, at0;
      }
    }

    method CopyFromCurrent(ghost out0: seq<Byte>, ghost offset: nat, ghost len0: nat, at0: nat, len1: nat,
        ghost exact: bool)
      returns (at: nat, len: nat)
      requires Copying(out0, offset, len0, currIndex, at0, len1, exact) && currWritten < iov[currIndex].Length
               && len1 > 0
      modifies this`currWritten, this`total, this`out, iov[currIndex]
      ensures Copying(out0, offset, len0, currIndex, at, len, exact) && currIndex == old(currIndex) && len < len1
    {
      StartGrows(iov, currIndex, |iov|);
      var n := CopyCurrent(at0, len1, offset);
      CopyTwice(out0, old(out), out, offset, len0 - len1, n);
      at, len := at0 + n, len1 - n;
    }

    /** A piece from an earlier buffer, to its end at most; whether `Append` succeeds is not
        looked at. */
    method CopyOlder(index: nat, at: nat, len: nat, ghost offset: nat, ghost exact0: bool)
      returns (n: nat, ghost exact: bool)
      requires Valid() && iov != [] && index < currIndex && at <= iov[index].Length && 1 <= offset <= |out|
      requires exact0 ==> Start(iov, index) + at == total - offset && total + len <= limit
      requires !exact0 ==> !Roomy() && total == Start(iov, |iov|)
      modifies this`currIndex, this`currWritten, this`total, this`out, iov
      ensures Valid() && old(currIndex) <= currIndex && old(out) <= out
      ensures n == Min(iov[index].Length - at, len) && (n == 0 ==> currIndex == old(currIndex))
      ensures exact ==> exact0 && total == old(total) + n && IsCopy(old(out), offset, n, out)
      ensures !exact ==> !Roomy() && total == Start(iov, |iov|)
    {
      n := Min(iov[index].Length - at, len);
      var piece := iov[index][at..at + n];
      BeforeCurrent(index);
      assert HoldsOf(out, index);
      if exact0 {
        assert piece == out[|out| - offset..|out| - offset + n];
        CopyPiece(out, offset, n);
      }
      var ok := Append(piece);
      Bounded();
      exact := exact0 && ok;
    }

    lemma Bounded()
      requires Shape()
      ensures total <= Start(iov, |iov|)
    {
      StartGrows(iov, currIndex, |iov|);
    }

    /** A piece from the current buffer to its end, possibly overlapping itself. */
    method CopyCurrent(at: nat, len: nat, ghost offset: nat) returns (n: nat)
      requires Valid() && iov != [] && 1 <= offset && at + offset == currWritten < iov[currIndex].Length
               && total + len <= limit
      modifies this`currWritten, this`total, this`out, iov[currIndex]
      ensures Valid() && old(out) <= out && offset <= |old(out)| && currIndex == old(currIndex)
              && total == old(total) + n
      ensures n == Min(iov[currIndex].Length - old(currWritten), len)
      ensures IsCopy(old(out), offset, n, out)
    {
      n := Min(iov[currIndex].Length - currWritten, len);
      var buffer := iov[currIndex];
      IncrementalCopySlow(buffer, at, currWritten, currWritten + n);
      ghost var more := buffer[currWritten..currWritten + n];
      assert old(HoldsOf(out, currIndex));
      RepeatsOutput(old(out), buffer[..], Start(iov, currIndex), currWritten, offset, n);
      currWritten, total := currWritten + n, total + n;
      out := out + more;
      forall i | 0 <= i < |iov|
        ensures HoldsOf(old(out), i)
      {
        assert old(HoldsOf(out, i));
        BeforeCurrent(i);
      }
      Appended(old(out), more);
    }
  }

  /** A buffer that continues the output and repeats with a period continues it by a copy. */
  lemma RepeatsOutput(out: seq<Byte>, buffer: seq<Byte>, start: nat, used: nat, offset: nat, n: nat)
    requires |out| == start + used && 1 <= offset <= used && used + n <= |buffer|
    requires forall k | 0 <= k < used :: buffer[k] == out[start + k]
    requires forall k | used <= k < used + n :: buffer[k] == buffer[k - offset]
    ensures IsCopy(out, offset, n, out + buffer[used..used + n])
  {
    var r := out + buffer[used..used + n];
    forall i | |out| <= i < |r|
      ensures r[i] == r[i - offset]
    {
      var k := i - start;
      assert r[i] == buffer[k] == buffer[k - offset];
    }
    CopyBackUnique(out, offset, n, r);
    IsCopyMeans(out, offset, n, r);
  }
}
