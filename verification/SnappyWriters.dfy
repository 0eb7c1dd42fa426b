/**
 The two simple writers of the decompressor: a flat buffer, and a validator that only counts.
 `Out()` is the output so far; it grows exactly when an operation reports success.
 */
module SnappyWriters {
  import opened Bytes
  import opened SnappyFormat
  import opened SnappyCopy

  /** `SnappyArrayWriter`: writes to a flat array of at least the expected length. */
  class ArrayWriter {
    const dst: array<Byte>
    var op: nat
    var opLimit: nat

    ghost predicate Valid()
      reads this
    {
      op <= opLimit <= dst.Length
    }

    function Out(): seq<Byte>
      requires Valid()
      reads this, dst
    {
      dst[..op]
    }

    constructor (dst: array<Byte>)
      ensures Valid() && this.dst == dst && Out() == []
    {
      this.dst, op, opLimit := dst, 0, 0;
    }

    method SetExpectedLength(len: nat)
      requires Valid() && op + len <= dst.Length
      modifies this`opLimit
      ensures Valid() && opLimit == op + len && Out() == old(Out())
    {
      opLimit := op + len;
    }

    method Append(data: seq<Byte>) returns (ok: bool)
      requires Valid()
      modifies this`op, dst
      ensures Valid() && ok == (|old(Out())| + |data| <= opLimit)
      ensures Out() == if ok then old(Out()) + data else old(Out())
    {
      if opLimit - op < |data| {
        return false;
      }
      forall i | 0 <= i < |data| {
        dst[op + i] := data[i];
      }
      op := op + |data|;
      return true;
    }

    /** Sixteen bytes are stored whatever the length. */
    method TryFastAppend(window: seq<Byte>, len: nat) returns (ok: bool)
      requires Valid()
      modifies this`op, dst
      ensures Valid()
      ensures ok ==> len <= 16 && |window| >= 21 && |old(Out())| + len <= opLimit && Out() == old(Out()) + window[..len]
      ensures ok <==> len <= 16 && |window| >= 21 && |old(Out())| + 16 <= opLimit
      ensures !ok ==> Out() == old(Out())
    {
      if len <= 16 && |window| >= 21 && opLimit - op >= 16 {
        forall i | 0 <= i < 16 {
          dst[op + i] := window[i];
        }
        op := op + len;
        return true;
      }
      return false;
    }

    method AppendFromSelf(offset: nat, len: nat) returns (ok: bool)
      requires Valid()
      modifies this`op, dst
      ensures Valid() && ok == (1 <= offset <= |old(Out())| && |old(Out())| + len <= opLimit)
      ensures Out() == if ok then CopyBack(old(Out()), offset, len) else old(Out())
    {
      if offset == 0 || op < offset || op + len > opLimit {
        return false;
      }
      op := IncrementalCopy(dst, op - offset, op, op + len, opLimit);
      return true;
    }
  }

  /** `SnappyDecompressionValidator`: counts the output without keeping it. */
  class Validator {
    var expected: nat
    var produced: nat
    ghost var out: seq<Byte>

    ghost predicate Valid()
      reads this
    {
      |out| == produced <= expected
    }

    constructor ()
      ensures Valid() && out == []
    {
      expected, produced, out := 0, 0, [];
    }

    method SetExpectedLength(len: nat)
      requires Valid() && out == []
      modifies this`expected
      ensures Valid() && expected == len
    {
      expected := len;
    }

    method Append(ghost data: seq<Byte>, len: nat) returns (ok: bool)
      requires Valid() && |data| == len
      modifies this`produced, this`out
      ensures ok == (|old(out)| + len <= expected)
      ensures ok ==> Valid() && out == old(out) + data
    {
      produced := produced + len;
      out := out + data;
      return produced <= expected;
    }

    method AppendFromSelf(offset: nat, len: nat) returns (ok: bool)
      requires Valid()
      modifies this`produced, this`out
      ensures ok == (1 <= offset <= |old(out)| && |old(out)| + len <= expected)
      ensures ok ==> Valid() && out == CopyBack(old(out), offset, len)
    {
      if offset == 0 || produced < offset {
        return false;
      }
      produced := produced + len;
      out := CopyBack(out, offset, len);
      return produced <= expected;
    }
  }
}
