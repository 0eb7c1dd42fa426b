/**
 `SnappyScatteredWriter` with its allocator: the output is kept in blocks, all of the same
 size but the last, and handed to a sink at the end.
 */
module SnappyScattered {
  import opened Bytes
  import opened SnappyFormat
  import opened SnappyCopy

  const BLOCK := 0x1_0000

  /** What a copy appends depends only on the part of the output it reaches back into. */
  lemma CopySuffix(pre: seq<Byte>, last: seq<Byte>, offset: nat, len: nat) returns (more: seq<Byte>)
    requires 1 <= offset <= |last|
    ensures more == CopyBack(last, offset, len)[|last|..]
    ensures CopyBack(pre + last, offset, len) == pre + last + more
  {
    CopyBackShift(pre, last, offset, len);
    var copied := CopyBack(last, offset, len);
    more := copied[|last|..];
    assert copied == last + more;
    assert pre + copied == pre + last + more;
  }

  /** A copy inside one block: what it appends there, it appends to the whole output. */
  method CopyTail(ghost pre: seq<Byte>, block: array<Byte>, used: nat, offset: nat, len: nat)
    returns (ghost more: seq<Byte>)
    requires 1 <= offset <= used && used + len <= block.Length
    modifies block
    ensures |more| == len && block[used..used + len] == more
    ensures CopyBack(pre + old(block[..used]), offset, len) == pre + old(block[..used]) + more
    ensures forall i | 0 <= i < used :: block[i] == old(block[i])
  {
    more := CopySuffix(pre, block[..used], offset, len);
    var end := IncrementalCopy(block, used - offset, used, used + len, block.Length);
    assert block[used..end] == block[..end][used..];
  }

  class ScatteredWriter {
    var blocks: seq<array<Byte>>
    var expected: nat
    var fullSize: nat
    // Bytes used of the last block.
    var opPtr: nat
    ghost var out: seq<Byte>

    function Capacity(): nat
      reads this
    {
      if blocks == [] then 0 else blocks[|blocks| - 1].Length
    }

    ghost predicate Shape()
      reads this
    {
      && opPtr <= Capacity()
      && |out| == fullSize + opPtr <= expected
      && fullSize == (if blocks == [] then 0 else BLOCK * (|blocks| - 1))
      && (blocks != [] ==> Capacity() == Min(BLOCK, expected - fullSize) && fullSize < expected)
      && (forall i | 0 <= i < |blocks| - 1 :: blocks[i].Length == BLOCK)
      && (forall i, j | 0 <= i < j < |blocks| :: blocks[i] != blocks[j])
    }

    /** Byte `p` of the output is byte `p % BLOCK` of block `p / BLOCK`. */
    ghost predicate Holds(p: nat)
      requires p < |out|
      reads this, blocks
    {
      p / BLOCK < |blocks| && p % BLOCK < blocks[p / BLOCK].Length && blocks[p / BLOCK][p % BLOCK] == out[p]
    }

    ghost predicate Valid()
      reads this, blocks
    {
      Shape() && forall p | 0 <= p < |out| :: Holds(p)
    }

    constructor ()
      ensures Valid() && out == [] && fresh(blocks) && blocks == []
    {
      blocks, expected, fullSize, opPtr, out := [], 0, 0, 0, [];
    }

    method SetExpectedLength(len: nat)
      requires Valid() && blocks == []
      modifies this
      ensures Valid() && expected == len && out == old(out) == [] && blocks == []
    {
      expected := len;
      assert out == [];
    }

    /** Blocks are only added, and added blocks are new. */
    twostate predicate Grown()
      reads this
    {
      old(blocks) <= blocks && forall i | |old(blocks)| <= i < |blocks| :: fresh(blocks[i])
    }

    /** The last block holds the output from `fullSize` on. */
    lemma LastBlock(last: array<Byte>)
      requires Valid() && blocks != [] && last == blocks[|blocks| - 1]
      ensures last[..opPtr] == out[fullSize..]
    {
      forall k | 0 <= k < opPtr
        ensures last[k] == out[fullSize + k]
      {
        assert Holds(fullSize + k);
      }
    }

    /** The output is complete when the old part is still there and `more` follows it in the
        last block. */
    lemma Appended(before: seq<Byte>, last: array<Byte>, more: seq<Byte>)
      requires Shape() && blocks != [] && last == blocks[|blocks| - 1]
      requires out == before + more && fullSize <= |before|
      requires forall p | 0 <= p < |before| :: Holds(p)
      requires last[|before| - fullSize..opPtr] == more
      ensures Valid()
    {
      forall p | |before| <= p < |out|
        ensures Holds(p)
      {
        assert last[|before| - fullSize..opPtr][p - |before|] == more[p - |before|];
      }
    }

    /** `memcpy` into the current block. */
    method Put(data: seq<Byte>)
      requires Valid() && opPtr + |data| <= Capacity()
      modifies this`opPtr, this`out, blocks
      ensures Valid() && out == old(out) + data && opPtr == old(opPtr) + |data| && fullSize == old(fullSize)
    {
      if data == [] {
        assert out + data == out;
        return;
      }
      var block := blocks[|blocks| - 1];
      forall i | 0 <= i < |data| {
        block[opPtr + i] := data[i];
      }
      opPtr := opPtr + |data|;
      out := out + data;
      forall p | 0 <= p < |old(out)|
        ensures Holds(p)
      {
        assert old(Holds(p));
      }
      Appended(old(out), block, data);
    }

    /** A new block for the output that is still expected. */
    method NewBlock()
      requires Valid() && opPtr == Capacity() && |out| < expected
      modifies this`blocks, this`opPtr, this`fullSize
      ensures Valid() && out == old(out) && opPtr == 0 && Capacity() > 0
      ensures Grown()
    {
      fullSize := fullSize + opPtr;
      var block := new Byte[Min(BLOCK, expected - fullSize)];
      blocks := blocks + [block];
      opPtr := 0;
      forall p | 0 <= p < |out|
        ensures Holds(p)
      {
        assert old(Holds(p));
      }
    }

    method Append(data: seq<Byte>) returns (ok: bool)
      requires Valid()
      modifies this, blocks
      ensures ok == (|old(out)| + |data| <= expected) && expected == old(expected)
      ensures ok ==> Valid() && out == old(out) + data
      ensures Grown()
    {
      if |data| <= Capacity() - opPtr {
        Put(data);
        return true;
      }
      ok := SlowAppend(data);
    }

    method SlowAppend(data: seq<Byte>) returns (ok: bool)
      requires Valid() && |data| > Capacity() - opPtr
      modifies this, blocks
      ensures ok == (|old(out)| + |data| <= expected) && expected == old(expected)
      ensures ok ==> Valid() && out == old(out) + data
      ensures Grown()
    {
      hide Holds;
      var ip := 0;
      var avail := Capacity() - opPtr;
      while |data| - ip > avail
        invariant 0 <= ip <= |data| && Valid() && expected == old(expected) && avail == Capacity() - opPtr
        invariant out == old(out) + data[..ip]
        invariant Grown()
        decreases |data| - ip, if avail == 0 then 1 else 0
      {
        assert data[..ip + avail] == data[..ip] + data[ip..ip + avail];
        ok := FillBlock(data[ip..ip + avail], |data| - ip);
        if !ok {
          return;
        }
        ip := ip + avail;
        avail := Capacity();
      }
      assert data[..ip] + data[ip..] == data;
      Put(data[ip..]);
      return true;
    }

    /** Fills the current block with a part of `left` bytes and, if the rest is still expected,
        starts the next one. */
    method FillBlock(part: seq<Byte>, left: nat) returns (ok: bool)
      requires Valid() && |part| == Capacity() - opPtr < left
      modifies this, blocks
      ensures ok == (|old(out)| + left <= expected) && expected == old(expected) && Grown()
      ensures ok ==> Valid() && out == old(out) + part && opPtr == 0 && Capacity() > 0
      ensures !ok ==> blocks == old(blocks)
    {
      hide Holds;
      Put(part);
      if fullSize + opPtr + (left - |part|) > expected {
        fullSize := fullSize + opPtr;
        return false;
      }
      NewBlock();
      ok := true;
    }

    method TryFastAppend(window: seq<Byte>, len: nat) returns (ok: bool)
      requires Valid()
      modifies this`opPtr, this`out, blocks
      ensures Valid()
      ensures ok ==> len <= 16 && |window| >= 21 && |old(out)| + len <= expected && out == old(out) + window[..len]
      ensures ok <==> len <= 16 && |window| >= 21 && old(Capacity()) >= old(opPtr) + 16
      ensures !ok ==> out == old(out)
    {
      if len <= 16 && |window| >= 21 && Capacity() - opPtr >= 16 {
        var block := blocks[|blocks| - 1];
        forall i | 0 <= i < 16 {
          block[opPtr + i] := window[i];
        }
        opPtr := opPtr + len;
        out := out + window[..len];
        forall p | 0 <= p < |old(out)|
          ensures Holds(p)
        {
          assert old(Holds(p));
        }
        Appended(old(out), block, window[..len]);
        return true;
      }
      return false;
    }

    method AppendFromSelf(offset: nat, len: nat) returns (ok: bool)
      requires Valid()
      modifies this, blocks
      ensures ok == (1 <= offset <= |old(out)| && |old(out)| + len <= expected) && expected == old(expected)
      ensures ok ==> Valid() && out == CopyBack(old(out), offset, len)
      ensures Grown()
    {
      if 1 <= offset <= opPtr && opPtr + len <= Capacity() {
        CopyInBlock(offset, len);
        return true;
      }
      ok := SlowAppendFromSelf(offset, len);
    }

    /** Source and destination in the current block. */
    method CopyInBlock(offset: nat, len: nat)
      requires Valid() && 1 <= offset <= opPtr && opPtr + len <= Capacity()
      modifies this`opPtr, this`out, blocks
      ensures Valid() && out == CopyBack(old(out), offset, len)
    {
      hide CopyBack;
      var block := blocks[|blocks| - 1];
      LastBlock(block);
      ghost var more := CopyTail(out[..fullSize], block, opPtr, offset, len);
      assert out == out[..fullSize] + out[fullSize..];
      opPtr := opPtr + len;
      out := out + more;
      OldBytesStay();
      Appended(old(out), block, more);
    }

    /** Nothing that counts as output changed. */
    twostate lemma OldBytesStay()
      requires old(Valid())
      requires blocks == old(blocks) && old(out) <= out
      requires forall i, k | 0 <= i < |blocks| && 0 <= k < blocks[i].Length && i * BLOCK + k < |old(out)| ::
                 blocks[i][k] == old(blocks[i][k])
      ensures forall p | 0 <= p < |old(out)| :: Holds(p)
    {
      forall p | 0 <= p < |old(out)|
        ensures Holds(p)
      {
        assert old(Holds(p));
        assert p / BLOCK * BLOCK + p % BLOCK == p;
      }
    }

    /** Byte by byte, from wherever the source lies. */
    method SlowAppendFromSelf(offset: nat, len: nat) returns (ok: bool)
      requires Valid()
      modifies this, blocks
      ensures ok == (1 <= offset <= |old(out)| && |old(out)| + len <= expected) && expected == old(expected)
      ensures ok ==> Valid() && out == CopyBack(old(out), offset, len)
      ensures Grown()
    {
      var cur := fullSize + opPtr;
      if offset == 0 || offset > cur || expected - cur < len {
        return false;
      }
      hide Holds, CopyBack;
      CopyNothing(out, offset);
      var src := cur - offset;
      for i := 0 to len
        invariant Valid() && expected == old(expected) && src == cur - offset + i
        invariant out == CopyBack(old(out), offset, i) && |out| == cur + i
        invariant Grown()
      {
        CopyOneMore(old(out), offset, i);
        CopyByte(src);
        src := src + 1;
      }
      return true;
    }

    lemma CopyNothing(before: seq<Byte>, offset: nat)
      requires 1 <= offset <= |before|
      ensures CopyBack(before, offset, 0) == before
    {
    }

    lemma CopyOneMore(before: seq<Byte>, offset: nat, i: nat)
      requires 1 <= offset <= |before|
      ensures var so := CopyBack(before, offset, i);
              |so| == |before| + i && CopyBack(before, offset, i + 1) == so + [so[|so| - offset]]
    {
      CopyBackSplit(before, offset, i, 1);
      var so := CopyBack(before, offset, i);
      assert CopyBack(so, offset, 1) == so + [so[|so| - offset]];
    }

    /** Appends one byte of the output to it. */
    method CopyByte(src: nat)
      requires Valid() && src < |out| < expected
      modifies this, blocks
      ensures Valid() && out == old(out) + [old(out)[src]] && expected == old(expected) && Grown()
    {
      assert Holds(src);
      var _ := Append([blocks[src / BLOCK][src % BLOCK]]);
    }

    /** `Flush`: the blocks, cut to the size that was written, one after another. */
    method Flush() returns (sink: seq<Byte>)
      requires Valid()
      ensures sink == out
    {
      var size := fullSize + opPtr;
      sink := [];
      var written := 0;
      for i := 0 to |blocks|
        invariant written == Min(i * BLOCK, size) && sink == out[..written]
      {
        var blockSize := Min(blocks[i].Length, size - written);
        PieceOfOut(i, written, blockSize);
        sink := sink + blocks[i][..blockSize];
        assert out[..written + blockSize] == out[..written] + out[written..written + blockSize];
        written := written + blockSize;
      }
    }

    lemma PieceOfOut(i: nat, written: nat, blockSize: nat)
      requires Valid() && i < |blocks| && written == Min(i * BLOCK, |out|)
               && blockSize == Min(blocks[i].Length, |out| - written)
      ensures blocks[i][..blockSize] == out[written..written + blockSize]
      ensures written + blockSize == Min((i + 1) * BLOCK, |out|)
    {
      forall k | 0 <= k < blockSize
        ensures blocks[i][k] == out[written + k]
      {
        assert Holds(written + k);
      }
    }
  }
}
