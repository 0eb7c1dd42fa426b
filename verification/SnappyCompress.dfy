/** Compression of a whole input: the length prefix, then one block after another. */
module SnappyCompress {
  import opened Bytes
  import opened Wrappers
  import opened SnappyFormat
  import opened SnappySource
  import opened SnappyFragment

  /** The next `count` bytes, stitched together when no region holds them all; `pending` of
      them are still to be skipped. */
  method ReadBlock(reader: Source, count: nat) returns (fragment: seq<Byte>, pending: nat)
    requires reader.Valid() && 0 < count <= |reader.Rest()|
    modifies reader
    ensures reader.Valid() && fragment == old(reader.Rest())[..count]
    ensures pending <= count && reader.pos + pending == old(reader.pos) + count
  {
    ghost var rest := reader.Rest();
    var region := reader.Peek();
    if |region| >= count {
      assert region[..count] == rest[..count];
      return region[..count], count;
    }
    fragment, pending := region, 0;
    reader.Skip(|region|);
    while |fragment| < count
      invariant reader.Valid() && |fragment| <= count && fragment == rest[..|fragment|]
      invariant reader.pos == old(reader.pos) + |fragment|
    {
      region := reader.Peek();
      assert reader.Rest() == rest[|fragment|..];
      var n := Min(|region|, count - |fragment|);
      assert region[..n] == rest[|fragment|..][..n];
      assert rest[..|fragment| + n] == rest[..|fragment|] + rest[|fragment|..][..n];
      fragment := fragment + region[..n];
      reader.Skip(n);
    }
  }

  /** Tags of one block after the tags of the blocks before it. */
  lemma JoinBlocks(c1: seq<Byte>, c2: seq<Byte>, data: seq<Byte>, i: nat, j: nat)
    requires Encodes(c1, data, i) && i <= j <= |data| && Encodes(c2, data[i..j], j - i)
    ensures Encodes(c1 + c2, data, j)
  {
    assert Expanded(c1, []) == Some(data[..i]);
    assert data[i..j][..j - i] == data[i..j];
    assert Expanded(c2, []) == Some(data[i..j]);
    ExpandAppend(c1, c2, []);
    ExpandShift(data[..i], c2, []);
    assert data[..i] + [] == data[..i] && data[..i] + data[i..j] == data[..j];
  }

  function Block(data: seq<Byte>, i: nat): seq<Byte>
    requires i <= |data|
  {
    data[i..i + Min(|data| - i, BLOCK_SIZE)]
  }

  /** No block holds four bytes twice. */
  ghost predicate Incompressible(data: seq<Byte>) {
    forall i: nat | i < |data| && i % BLOCK_SIZE == 0 :: Distinct(Block(data, i))
  }

  /** At least so many bytes are made of the first `done`. */
  function Grown(done: nat): nat {
    done + done / BLOCK_SIZE
  }

  lemma GrowsByBlock(done: nat, count: nat)
    requires done % BLOCK_SIZE == 0 && count <= BLOCK_SIZE
    ensures Grown(done + count) <= Grown(done) + count + 1
    ensures count == BLOCK_SIZE ==> (done + count) % BLOCK_SIZE == 0
    ensures Grown(0) == 0
  {
  }

  /** At most so many bytes are made of whole blocks of one byte, and of others twenty more. */
  function AllShrunk(done: nat): nat {
    3 * (done / 64) + 20 * (done / BLOCK_SIZE)
  }

  lemma ShrinksByBlock(done: nat, count: nat)
    requires done % BLOCK_SIZE == 0 && count <= BLOCK_SIZE
    ensures AllShrunk(done) + Shrunk(count) <= AllShrunk(done + count) + if count == BLOCK_SIZE then 0 else 20
  {
  }

  lemma BlockIsDistinct(data: seq<Byte>, i: nat)
    requires i < |data| && i % BLOCK_SIZE == 0
    ensures Incompressible(data) ==> Distinct(Block(data, i))
  {
  }

  /** One block: read it, clear the table, compress it behind the output so far. */
  method CompressBlock(reader: Source, a: array<Byte>, prefix: nat, op0: nat, ghost data: seq<Byte>, done: nat)
    returns (op: nat, done': nat)
    requires reader.Valid() && done < |data| && reader.Rest() == data[done..]
    requires prefix <= 5 && a.Length == MaxCompressedLength(|data|)
    requires prefix <= op0 <= a.Length && Encodes(a[prefix..op0], data, done) && op0 - prefix <= done + done / 6
    modifies a, reader
    ensures reader.Valid() && done' == done + Min(|data| - done, BLOCK_SIZE) && reader.Rest() == data[done'..]
    ensures prefix <= op <= a.Length && Encodes(a[prefix..op], data, done')
    ensures op - prefix <= done' + done' / 6 + (if done' == |data| then 1 else 0)
    ensures a[..prefix] == old(a[..prefix])
    ensures Incompressible(data) && done % BLOCK_SIZE == 0 ==> op > op0 + (done' - done)
    ensures Constant(data) ==> op - op0 <= Shrunk(done' - done)
  {
    hide Encodes, Incompressible, Distinct, Constant;
    if done % BLOCK_SIZE == 0 {
      BlockIsDistinct(data, done);
    }
    var count := Min(|reader.Rest()|, BLOCK_SIZE);
    done' := done + count;
    var fragment, pending := ReadBlock(reader, count);
    assert fragment == data[done..done'] == Block(data, done);
    PartIsConstant(data, done, done');
    var size := TableSize(count);
    var table := new int[size](_ => 0);
    op := CompressFragment(fragment, a, op0, table);
    BlockCost(done, count, op - op0, |data|);
    JoinBlocks(old(a[prefix..op0]), a[op0..op], data, done, done');
    OutputStays(old(a[..]), a[..], prefix, op0, op);
    reader.Skip(pending);
  }

  lemma PartIsConstant(data: seq<Byte>, i: nat, j: nat)
    requires i <= j <= |data|
    ensures Constant(data) ==> Constant(data[i..j])
  {
  }

  /** What is written behind the output leaves it alone. */
  lemma OutputStays(before: seq<Byte>, after: seq<Byte>, prefix: nat, op0: nat, op: nat)
    requires prefix <= op0 <= op <= |before| == |after| && after[..op0] == before[..op0]
    ensures after[prefix..op] == before[prefix..op0] + after[op0..op] && after[..prefix] == before[..prefix]
  {
    assert after[prefix..op0] == after[..op0][prefix..] == before[..op0][prefix..] == before[prefix..op0];
    assert after[..prefix] == after[..op0][..prefix];
  }

  lemma BlockCost(done: nat, count: nat, cost: nat, total: nat)
    requires cost <= count + count / 61 + 1 && done + count <= total
    requires count == BLOCK_SIZE || done + count == total
    ensures done + done / 6 + cost <= done + count + (done + count) / 6 + (if done + count == total then 1 else 0)
  {
  }

  /** Round trip and size bound: the output never grows past the bound, and it expands to
      the input, provided the length fits the 32 bits of the prefix; a longer input is
      compressed into something that no reader accepts.  An input that does not compress grows
      with every block; one of a single byte all over shrinks to little more than a
      twenty-first. */
  method Compress(reader: Source, a: array<Byte>) returns (end: nat)
    requires reader.Valid() && a.Length == MaxCompressedLength(|reader.Rest()|)
    modifies a, reader
    ensures end <= a.Length
    ensures var data := old(reader.Rest());
            Uncompressed(a[..end]) == if |data| < 0x1_0000_0000 then Some(data) else None
    ensures var data := old(reader.Rest());
            Incompressible(data) ==> Behind(a[..end]) >= Grown(|data|)
    ensures Constant(old(reader.Rest())) ==> end <= AllShrunk(old(|reader.Rest()|)) + 25
  {
    hide Incompressible, Constant, AllShrunk, Behind, Grown, Encodes, Uncompressed, VarintBytes;
    GrowsByBlock(0, 0);
    var total := |reader.Rest()|;
    ghost var data := reader.Rest();
    var prefix := Encode32(a, total % 0x1_0000_0000);
    EncodesAll([], data);
    assert a[prefix..prefix] == [] && data[0..] == data;
    end := prefix;
    var done := 0;
    while done < total
      invariant reader.Valid() && done <= total && reader.Rest() == data[done..]
      invariant a[..prefix] == VarintBytes(total % 0x1_0000_0000)
      invariant prefix <= end <= a.Length && Encodes(a[prefix..end], data, done)
      invariant end - prefix <= done + done / 6 || done == total
      invariant done % BLOCK_SIZE == 0 || done == total
      invariant Incompressible(data) ==> end - prefix >= Grown(done)
      invariant Constant(data) ==> end - prefix <= AllShrunk(done) + if done == total then 20 else 0
      decreases total - done
    {
      GrowsByBlock(done, Min(total - done, BLOCK_SIZE));
      ShrinksByBlock(done, Min(total - done, BLOCK_SIZE));
      end, done := CompressBlock(reader, a, prefix, end, data, done);
    }
    CompressedExpands(a[..end], prefix, total % 0x1_0000_0000, data);
  }

  lemma CompressedExpands(c: seq<Byte>, prefix: nat, v: nat, data: seq<Byte>)
    requires prefix <= |c| && v < 0x1_0000_0000 && c[..prefix] == VarintBytes(v)
    requires Encodes(c[prefix..], data, |data|)
    ensures Uncompressed(c) == (if |data| == v then Some(data) else None) && Behind(c) == |c| - prefix
  {
    ParsePrefix(c, prefix, v);
    EncodesAll(c[prefix..], data);
    UncompressedParts(c, v, prefix, data);
  }

  lemma ParsePrefix(c: seq<Byte>, k: nat, v: nat)
    requires k <= |c| && c[..k] == VarintBytes(v) && v < 0x1_0000_0000
    ensures ParseVarint(c, 0) == Some((v, k))
  {
    ParseEncoded(v, 0, c[k..]);
    assert c == VarintBytes(v) + c[k..];
  }

  lemma UncompressedParts(c: seq<Byte>, n: nat, k: nat, out: seq<Byte>)
    requires k <= |c| && ParseVarint(c, 0) == Some((n, k)) && Expand(c[k..], []) == Some(out)
    ensures Uncompressed(c) == if |out| == n then Some(out) else None
  {
  }
}
