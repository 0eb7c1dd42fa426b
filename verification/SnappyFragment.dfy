/**
 Compression of one block: look for earlier occurrences of the next four bytes with a hash
 table of positions, emit what lies in between as literals and the matches as copies.
 */
module SnappyFragment {
  import opened Bits
  import opened Bytes
  import opened Wrappers
  import opened SnappyFormat
  import opened SnappyEmit

  const BLOCK_SIZE := 0x1_0000
  const INPUT_MARGIN := 15

  function MaxCompressedLength(n: nat): nat {
    32 + n + n / 6
  }

  // ----- The hash table -----

  predicate IsTableSize(n: nat) {
    n == 0x100 || n == 0x200 || n == 0x400 || n == 0x800 || n == 0x1000 || n == 0x2000 || n == 0x4000
  }

  /** Two to the power of the shift that leaves the top bits. */
  function Scale(tableSize: nat): (r: nat)
    requires IsTableSize(tableSize)
    ensures r * tableSize == 0x1_0000_0000
  {
    if tableSize == 0x100 then 0x100_0000
    else if tableSize == 0x200 then 0x80_0000
    else if tableSize == 0x400 then 0x40_0000
    else if tableSize == 0x800 then 0x20_0000
    else if tableSize == 0x1000 then 0x10_0000
    else if tableSize == 0x2000 then 0x8_0000
    else 0x4_0000
  }

  lemma TopBits(x: nat, tableSize: nat)
    requires x < 0x1_0000_0000 && IsTableSize(tableSize)
    ensures Scale(tableSize) > 0 && x / Scale(tableSize) < tableSize
  {
    var scale := Scale(tableSize);
    assert x == scale * (x / scale) + x % scale;
  }

  /** The hash of four bytes: the top bits of a 32-bit product. */
  function HashBytes(bytes: nat, tableSize: nat): (h: nat)
    requires IsTableSize(tableSize)
    ensures h < tableSize
  {
    var product := bytes * 0x1e35a7bd % 0x1_0000_0000;
    TopBits(product, tableSize);
    product / Scale(tableSize)
  }

  function Hash(input: seq<Byte>, i: nat, tableSize: nat): (h: nat)
    requires i + 4 <= |input| && IsTableSize(tableSize)
    ensures h < tableSize
  {
    HashBytes(LoadLE(input[i..i + 4]), tableSize)
  }

  /** The table size for an input: a power of two between 256 and 16384. */
  method TableSize(inputSize: nat) returns (size: nat)
    ensures IsTableSize(size)
    ensures size >= inputSize || size == 0x4000
    ensures size == 0x100 || size / 2 < inputSize
  {
    size := 0x100;
    while size < 0x4000 && size < inputSize
      invariant IsTableSize(size) && (size == 0x100 || size / 2 < inputSize)
      decreases 0x4000 - size
    {
      size := size * 2;
    }
  }

  /** Every table entry is a position before `i`. */
  ghost predicate Below(table: array<int>, i: nat)
    reads table
  {
    forall k | 0 <= k < table.Length :: 0 <= table[k] < i
  }

  /** A position and the one before it are in the table, the later one last. */
  ghost predicate Entered(input: seq<Byte>, table: array<int>, i: nat)
    reads table
  {
    && 1 <= i && i + 4 <= |input| && IsTableSize(table.Length) && table[Hash(input, i, table.Length)] == i
    && (Hash(input, i - 1, table.Length) != Hash(input, i, table.Length) ==>
          table[Hash(input, i - 1, table.Length)] == i - 1)
  }

  // ----- Matches -----

  /** The first place where two words differ: the lowest set bit of their exclusive or, divided by
      eight. */
  function FirstMismatch(a: seq<Byte>, b: seq<Byte>): (r: nat)
    requires |a| == |b| && a != b
    ensures r < |a| && a[r] != b[r] && a[..r] == b[..r]
  {
    FirstByteDiffers(a, b);
    FirstByte(LoadLE(a), LoadLE(b))
  }

  ghost predicate Matches(input: seq<Byte>, s1: nat, s2: nat, n: nat) {
    s1 <= s2 && s2 + n <= |input| && input[s1..s1 + n] == input[s2..s2 + n]
  }

  /** No four bytes occur twice. */
  ghost predicate Distinct(input: seq<Byte>) {
    forall i, j | 0 <= i < j :: !Matches(input, i, j, 4)
  }

  /** One byte all over. */
  ghost predicate Constant(input: seq<Byte>) {
    forall i | 0 <= i < |input| :: input[i] == input[0]
  }

  /** Room for a constant block. */
  function Shrunk(n: nat): nat {
    3 * (n / 64) + 20
  }

  lemma ConstantMatches(input: seq<Byte>, s1: nat, s2: nat, n: nat)
    requires Constant(input) && s1 <= s2 && s2 + n <= |input|
    ensures Matches(input, s1, s2, n)
  {
  }

  /** The positions match to the end of the input. */
  ghost predicate MatchesToEnd(input: seq<Byte>, s1: nat, s2: nat) {
    s1 <= s2 <= |input| && Matches(input, s1, s2, |input| - s2)
  }

  lemma MatchesExtend(input: seq<Byte>, s1: nat, s2: nat, n: nat, m: nat)
    requires Matches(input, s1, s2, n) && Matches(input, s1 + n, s2 + n, m)
    ensures Matches(input, s1, s2, n + m)
  {
    assert input[s1..s1 + n + m] == input[s1..s1 + n] + input[s1 + n..s1 + n + m];
    assert input[s2..s2 + n + m] == input[s2..s2 + n] + input[s2 + n..s2 + n + m];
  }

  lemma MatchesAt(input: seq<Byte>, s1: nat, s2: nat, n: nat, k: nat)
    requires Matches(input, s1, s2, n) && k < n
    ensures input[s1 + k] == input[s2 + k]
  {
    assert input[s1..s1 + n][k] == input[s2..s2 + n][k];
  }

  /** The length of the longest match, eight bytes at a time, and whether it is below eight. */
  method FindMatchLength(input: seq<Byte>, s1: nat, s2: nat, limit: nat) returns (n: nat, lessThan8: bool)
    requires s1 <= s2 <= limit <= |input|
    ensures s2 + n <= limit && Matches(input, s1, s2, n)
    ensures s2 + n < limit ==> input[s1 + n] != input[s2 + n]
    ensures lessThan8 == (n < 8)
  {
    n := 0;
    if s2 + 8 <= limit {
      if input[s1..s1 + 8] != input[s2..s2 + 8] {
        n := NextWord(input, s1, s2, 0);
        return n, true;
      }
      n := 8;
    }
    var ended;
    n, ended := MatchWords(input, s1, s2, limit, n);
    if !ended {
      n := MatchBytes(input, s1, s2, limit, n);
    }
    return n, n < 8;
  }

  /** Whole words, and the place of the first difference in a word that differs. */
  method MatchWords(input: seq<Byte>, s1: nat, s2: nat, limit: nat, n0: nat) returns (n: nat, ended: bool)
    requires s1 <= s2 && s2 + n0 <= limit <= |input| && Matches(input, s1, s2, n0)
    ensures n0 <= n && s2 + n <= limit && Matches(input, s1, s2, n)
    ensures ended ==> s2 + n < limit && input[s1 + n] != input[s2 + n]
  {
    n := n0;
    while s2 + n + 8 <= limit
      invariant n0 <= n && s2 + n <= limit && Matches(input, s1, s2, n)
    {
      if input[s2 + n..s2 + n + 8] != input[s1 + n..s1 + n + 8] {
        n := NextWord(input, s1, s2, n);
        return n, true;
      }
      MatchesExtend(input, s1, s2, n, 8);
      n := n + 8;
    }
    return n, false;
  }

  method MatchBytes(input: seq<Byte>, s1: nat, s2: nat, limit: nat, n0: nat) returns (n: nat)
    requires s1 <= s2 && s2 + n0 <= limit <= |input| && Matches(input, s1, s2, n0)
    ensures n0 <= n && s2 + n <= limit && Matches(input, s1, s2, n)
    ensures s2 + n < limit ==> input[s1 + n] != input[s2 + n]
  {
    n := n0;
    while s2 + n < limit
      invariant n0 <= n && s2 + n <= limit && Matches(input, s1, s2, n)
    {
      if input[s1 + n] != input[s2 + n] {
        return n;
      }
      MatchesExtend(input, s1, s2, n, 1);
      n := n + 1;
    }
  }

  /** Where a match ends inside the next word. */
  method NextWord(input: seq<Byte>, s1: nat, s2: nat, n: nat) returns (end: nat)
    requires s1 <= s2 && s2 + n + 8 <= |input| && Matches(input, s1, s2, n)
    requires input[s1 + n..s1 + n + 8] != input[s2 + n..s2 + n + 8]
    ensures n <= end < n + 8 && Matches(input, s1, s2, end) && input[s1 + end] != input[s2 + end]
  {
    var a, b := input[s1 + n..s1 + n + 8], input[s2 + n..s2 + n + 8];
    var m := FirstMismatch(a, b);
    end := n + m;
    assert input[s1 + n..s1 + n + m] == a[..m] && input[s2 + n..s2 + n + m] == b[..m];
    MatchesExtend(input, s1, s2, n, m);
    assert a[m] == input[s1 + end] && b[m] == input[s2 + end];
  }

  /** Positions of the input that are being looked at. */
  ghost predicate Positions(input: seq<Byte>, seen: seq<nat>) {
    forall i | 0 <= i < |seen| :: seen[i] + 4 <= |input|
  }

  ghost function HashAt(input: seq<Byte>, seen: seq<nat>, i: nat, size: nat): nat
    requires IsTableSize(size) && Positions(input, seen) && i < |seen|
  {
    Hash(input, seen[i], size)
  }

  /** Number `i` is the last position before number `j` with the same hash. */
  ghost predicate LastBefore(input: seq<Byte>, seen: seq<nat>, i: nat, j: nat, size: nat)
    requires IsTableSize(size) && Positions(input, seen) && i < j < |seen|
  {
    && HashAt(input, seen, i, size) == HashAt(input, seen, j, size)
    && forall k | i < k < j :: HashAt(input, seen, k, size) != HashAt(input, seen, j, size)
  }

  /** No position repeats the four bytes of the last one before it with the same hash. */
  ghost predicate NoRepeat(input: seq<Byte>, seen: seq<nat>, size: nat)
    requires IsTableSize(size) && Positions(input, seen)
  {
    forall i, j | 0 <= i < j < |seen| && LastBefore(input, seen, i, j, size) ::
      input[seen[i]..seen[i] + 4] != input[seen[j]..seen[j] + 4]
  }

  /** Number `i` is the last position with its hash. */
  ghost predicate Last(input: seq<Byte>, seen: seq<nat>, i: nat, size: nat)
    requires IsTableSize(size) && Positions(input, seen) && i < |seen|
  {
    forall k | i < k < |seen| :: HashAt(input, seen, k, size) != HashAt(input, seen, i, size)
  }

  /** The table holds the last position with each hash. */
  ghost predicate Latest(input: seq<Byte>, seen: seq<nat>, table: seq<int>)
    requires IsTableSize(|table|) && Positions(input, seen)
  {
    forall i | 0 <= i < |seen| && Last(input, seen, i, |table|) :: table[HashAt(input, seen, i, |table|)] == seen[i]
  }

  lemma LookAt(input: seq<Byte>, seen: seq<nat>, table: seq<int>, p: nat)
    requires IsTableSize(|table|) && Positions(input, seen) && p + 4 <= |input|
    requires NoRepeat(input, seen, |table|) && Latest(input, seen, table)
    requires var c := table[Hash(input, p, |table|)];
             0 <= c && c + 4 <= |input| && input[c..c + 4] != input[p..p + 4]
    ensures Positions(input, seen + [p]) && NoRepeat(input, seen + [p], |table|)
  {
    hide Hash;
    var more, size := seen + [p], |table|;
    assert Positions(input, more);
    hide LastBefore, HashAt, Last;
    forall i, j | 0 <= i < j < |more| && LastBefore(input, more, i, j, size)
      ensures input[more[i]..more[i] + 4] != input[more[j]..more[j] + 4]
    {
      if j < |seen| {
        StillLastBefore(input, seen, p, i, j, size);
      } else {
        IsLast(input, seen, p, i, size);
      }
    }
  }

  lemma StillLastBefore(input: seq<Byte>, seen: seq<nat>, p: nat, i: nat, j: nat, size: nat)
    requires IsTableSize(size) && Positions(input, seen) && p + 4 <= |input| && i < j < |seen|
    requires Positions(input, seen + [p]) && LastBefore(input, seen + [p], i, j, size)
    ensures LastBefore(input, seen, i, j, size)
  {
    hide Hash;
    assert forall k | i <= k <= j :: HashAt(input, seen + [p], k, size) == HashAt(input, seen, k, size);
  }

  lemma IsLast(input: seq<Byte>, seen: seq<nat>, p: nat, i: nat, size: nat)
    requires IsTableSize(size) && Positions(input, seen) && p + 4 <= |input| && i < |seen|
    requires Positions(input, seen + [p]) && LastBefore(input, seen + [p], i, |seen|, size)
    ensures Last(input, seen, i, size) && HashAt(input, seen, i, size) == Hash(input, p, size)
  {
    hide Hash;
    assert forall k | i <= k < |seen| :: HashAt(input, seen + [p], k, size) == HashAt(input, seen, k, size);
    assert HashAt(input, seen + [p], |seen|, size) == Hash(input, p, size);
  }

  lemma Enter(input: seq<Byte>, seen: seq<nat>, table: seq<int>, p: nat)
    requires IsTableSize(|table|) && Positions(input, seen) && p + 4 <= |input| && Latest(input, seen, table)
    ensures Positions(input, seen + [p]) && Latest(input, seen + [p], table[Hash(input, p, |table|) := p])
  {
    hide Hash;
    var more, size := seen + [p], |table|;
    var after := table[Hash(input, p, |table|) := p];
    assert Positions(input, more) && |after| == size;
    assert forall k | 0 <= k < |seen| :: HashAt(input, more, k, size) == HashAt(input, seen, k, size);
    forall i | 0 <= i < |more| && Last(input, more, i, size)
      ensures after[HashAt(input, more, i, size)] == more[i]
    {
      if i < |seen| {
        assert Last(input, seen, i, size) && HashAt(input, more, |seen|, size) != HashAt(input, more, i, size);
      }
    }
  }

  /** Step 1: the next position whose four bytes occurred before, looking at fewer and fewer
      positions the longer the search; not found when the input is nearly exhausted.  No
      position looked at before repeats the last one with its hash; these are the first 32
      positions from the start on, as far as the limit, and some further ones. */
  method ScanForMatch(input: seq<Byte>, table: array<int>, start: nat, ipLimit: nat)
    returns (found: bool, ip: nat, candidate: nat, ghost seen: seq<nat>)
    requires |input| <= BLOCK_SIZE && ipLimit + INPUT_MARGIN == |input| && 1 <= start && start + 4 <= |input|
    requires IsTableSize(table.Length) && Below(table, start)
    modifies table
    ensures found ==> start <= ip < ipLimit && candidate < ip && Matches(input, candidate, ip, 4)
    ensures found ==> Below(table, ip + 1) && table[Hash(input, ip, table.Length)] == ip
    ensures Positions(input, seen) && NoRepeat(input, seen, table.Length)
    ensures forall i | 0 <= i < |seen| :: start <= seen[i] < ip && (i < 32 ==> seen[i] == start + i)
    ensures !found ==> |seen| >= 32 || start + |seen| >= ipLimit
    ensures var first := old(table[Hash(input, start, table.Length)]);
            start < ipLimit && Matches(input, first, start, 4) ==> found && ip == start && candidate == first
  {
    hide Hash;
    ghost var first := table[Hash(input, start, table.Length)];
    ghost var hit := start < ipLimit && Matches(input, first, start, 4);
    var skip := 32;
    var nextIp := start;
    var nextHash := Hash(input, start, table.Length);
    seen := [];
    while true
      invariant start <= nextIp && nextIp + 4 <= |input| && skip >= 32
      invariant nextHash == Hash(input, nextIp, table.Length)
      invariant Below(table, nextIp)
      invariant Positions(input, seen)
      invariant forall i | 0 <= i < |seen| :: start <= seen[i] < nextIp && (i < 32 ==> seen[i] == start + i)
      invariant NoRepeat(input, seen, table.Length) && Latest(input, seen, table[..])
      invariant |seen| <= 32 ==> skip == 32 + |seen| && nextIp == start + |seen|
      invariant if seen == [] then table[..] == old(table[..]) else !hit
      decreases |input| - nextIp
    {
      ip := nextIp;
      var hash := nextHash;
      var between := skip / 32;
      skip := skip + between;
      nextIp := ip + between;
      if nextIp > ipLimit {
        return false, ip, 0, seen;
      }
      nextHash := Hash(input, nextIp, table.Length);
      candidate := table[hash];
      ghost var before := table[..];
      table[hash] := ip;
      if input[ip..ip + 4] == input[candidate..candidate + 4] {
        return true, ip, candidate, seen;
      }
      LookAt(input, seen, before, ip);
      Enter(input, seen, before, ip);
      seen := seen + [ip];
      assert table[..] == before[hash := ip];
    }
  }

  // ----- What has been written -----

  /** The tags `c` stand for the first `i` bytes of the input.  (The quantifier keeps the
      verifier from running the tags where only the fact is needed.) */
  ghost predicate Encodes(c: seq<Byte>, input: seq<Byte>, i: nat) {
    i <= |input| && forall out {:trigger Expanded(c, out)} | out == [] :: Expanded(c, out) == Some(input[..i])
  }

  lemma EncodesAll(c: seq<Byte>, input: seq<Byte>)
    ensures Encodes(c, input, |input|) <==> Expand(c, []) == Some(input)
    ensures Encodes([], input, 0)
  {
    assert Expanded(c, []) == Expand(c, []);
    assert input[..|input|] == input && input[..0] == [];
  }

  lemma AddLiteral(c: seq<Byte>, input: seq<Byte>, i: nat, j: nat)
    requires Encodes(c, input, i) && i < j <= |input| && j - i <= BLOCK_SIZE
    ensures Encodes(c + (LiteralHeader(j - i) + input[i..j]), input, j)
  {
    var tags := LiteralHeader(j - i) + input[i..j];
    assert Expanded(c, []) == Some(input[..i]);
    ExpandAppend(c, tags, []);
    LiteralExpands(input[i..j], input[..i]);
    assert input[..i] + input[i..j] == input[..j];
  }

  lemma MatchIsCopy(input: seq<Byte>, i: nat, offset: nat, len: nat)
    requires 1 <= offset <= i && Matches(input, i - offset, i, len)
    ensures CopyBack(input[..i], offset, len) == input[..i + len]
  {
    var r := input[..i + len];
    forall k | i <= k < |r|
      ensures r[k] == r[k - offset]
    {
      MatchesAt(input, i - offset, i, len, k - i);
    }
    CopyBackUnique(input[..i], offset, len, r);
  }

  lemma AddCopies(c: seq<Byte>, input: seq<Byte>, i: nat, offset: nat, len: nat)
    requires Encodes(c, input, i) && 1 <= offset < 0x1_0000 && offset <= i && 4 <= len
    requires Matches(input, i - offset, i, len)
    ensures Encodes(c + CopiesBytes(offset, len), input, i + len)
  {
    assert Expanded(c, []) == Some(input[..i]);
    ExpandAppend(c, CopiesBytes(offset, len), []);
    CopiesExpand(offset, len, input[..i]);
    MatchIsCopy(input, i, offset, len);
  }

  /** Bytes that may have been written after `i` bytes of input, and how many of them at most. */
  ghost predicate Written(a: array<Byte>, start: nat, op: nat, input: seq<Byte>, i: nat)
    reads a
  {
    && start <= op <= a.Length
    && Encodes(a[start..op], input, i)
    && op - start <= i + i / 65
  }

  /** The room a block needs in the output buffer. */
  function Room(n: nat): nat {
    n + n / 6 + 27
  }

  /** Steps 2 and 3: the literal before a match, then copies as long as matches follow each other. */
  method EmitLiteralAndCopies(input: seq<Byte>, a: array<Byte>, start: nat, op0: nat, table: array<int>,
      nextEmit0: nat, ip0: nat, candidate0: nat, ipLimit: nat)
    returns (op: nat, nextEmit: nat, more: bool)
    requires |input| <= BLOCK_SIZE && ipLimit + INPUT_MARGIN == |input| && IsTableSize(table.Length)
    requires start + Room(|input|) <= a.Length && Written(a, start, op0, input, nextEmit0)
    requires nextEmit0 < ip0 < ipLimit && candidate0 < ip0 && Matches(input, candidate0, ip0, 4)
             && Below(table, ip0 + 1)
    requires a as object != table as object
    modifies a, table
    ensures Written(a, start, op, input, nextEmit) && ip0 < nextEmit
    ensures OnlyWithin(a, start, start + Room(|input|))
    ensures more ==> nextEmit < ipLimit && Below(table, nextEmit + 1) && Entered(input, table, nextEmit)
    ensures MatchesToEnd(input, candidate0, ip0) ==>
              && !more && nextEmit == |input|
              && op == op0 + |LiteralHeader(ip0 - nextEmit0)| + (ip0 - nextEmit0)
                     + |CopiesBytes(ip0 - candidate0, |input| - ip0)|
  {
    LiteralRoom(nextEmit0, ip0, op0 - start, |input|);
    hide Encodes, Below, IsTableSize, Room, LiteralHeader, MatchesToEnd, CopiesBytes, Entered;
    op := EmitLiteral(a, op0, input, nextEmit0, ip0 - nextEmit0, true);
    AddLiteral(old(a[start..op0]), input, nextEmit0, ip0);
    assert a[start..op] == old(a[start..op0]) + a[op0..op];
    op, nextEmit, more := EmitCopies(input, a, start, op, table, ip0, candidate0, ipLimit);
  }

  /** A literal is paid for by the copy that follows it. */
  lemma LiteralRoom(nextEmit: nat, ip: nat, written: nat, size: nat)
    requires nextEmit < ip && ip + INPUT_MARGIN <= size <= BLOCK_SIZE && written <= nextEmit + nextEmit / 65
    ensures var cost := written + |LiteralHeader(ip - nextEmit)| + (ip - nextEmit);
            cost <= ip + 1 + (ip + 4) / 65 && cost <= Room(size) && written + 17 <= Room(size)
  {
  }

  /** Step 3. */
  method EmitCopies(input: seq<Byte>, a: array<Byte>, start: nat, op0: nat, table: array<int>, ip0: nat,
      candidate0: nat, ipLimit: nat)
    returns (op: nat, nextEmit: nat, more: bool)
    requires |input| <= BLOCK_SIZE && ipLimit + INPUT_MARGIN == |input| && IsTableSize(table.Length)
    requires start + Room(|input|) <= a.Length && start <= op0 <= a.Length
    requires Encodes(a[start..op0], input, ip0) && op0 - start <= ip0 + 1 + (ip0 + 4) / 65
    requires ip0 < ipLimit && candidate0 < ip0 && Matches(input, candidate0, ip0, 4) && Below(table, ip0 + 1)
    requires a as object != table as object
    modifies a, table
    ensures Written(a, start, op, input, nextEmit) && ip0 < nextEmit
    ensures OnlyWithin(a, start, start + Room(|input|))
    ensures more ==> nextEmit < ipLimit && Below(table, nextEmit + 1) && Entered(input, table, nextEmit)
    ensures MatchesToEnd(input, candidate0, ip0) ==>
              !more && nextEmit == |input| && op == op0 + |CopiesBytes(ip0 - candidate0, |input| - ip0)|
  {
    hide Encodes, MatchesToEnd, CopiesBytes, Room, Hash;
    op := op0;
    var ip, candidate: nat := ip0, candidate0;
    while true
      invariant start <= op <= a.Length && ip0 <= ip < ipLimit && candidate < ip
      invariant Encodes(a[start..op], input, ip) && op - start <= ip + 1 + (ip + 4) / 65
      invariant Matches(input, candidate, ip, 4) && Below(table, ip + 1)
      invariant OnlyWithin(a, start, start + Room(|input|))
      invariant if ip == ip0 then op == op0 && candidate == candidate0 else !MatchesToEnd(input, candidate0, ip0)
      decreases |input| - ip
    {
      ghost var from, base := candidate, ip;
      op, ip := EmitMatch(input, a, start, op, ip, candidate);
      EndOfMatch(input, from, base, ip);
      nextEmit := ip;
      if ip >= ipLimit {
        return op, nextEmit, false;
      }
      var prevHash, curHash := Hash(input, ip - 1, table.Length), Hash(input, ip, table.Length);
      table[prevHash] := ip - 1;
      candidate := table[curHash];
      table[curHash] := ip;
      if input[ip..ip + 4] != input[candidate..candidate + 4] {
        return op, nextEmit, true;
      }
    }
  }

  /** A match that goes to the end of the input is taken to the end. */
  lemma EndOfMatch(input: seq<Byte>, candidate: nat, base: nat, ip: nat)
    requires candidate <= base <= ip <= |input| && (ip < |input| ==> input[candidate + (ip - base)] != input[ip])
    ensures MatchesToEnd(input, candidate, base) ==> ip == |input|
  {
    if MatchesToEnd(input, candidate, base) && ip < |input| {
      MatchesAt(input, candidate, base, |input| - base, ip - base);
    }
  }

  lemma CopyCost(base: nat, matched: nat, written: nat, copies: nat, size: nat)
    requires written <= base + 1 + (base + 4) / 65 && 4 <= matched && copies <= matched - 1 && base + matched <= size
    ensures written + copies <= base + matched + (base + matched) / 65
    ensures written + copies + 2 <= Room(size)
  {
  }

  /** One match: find how far it goes and emit its copies. */
  method EmitMatch(input: seq<Byte>, a: array<Byte>, start: nat, op0: nat, base: nat, candidate: nat)
    returns (op: nat, ip: nat)
    requires |input| <= BLOCK_SIZE && start + Room(|input|) <= a.Length && start <= op0 <= a.Length
    requires Encodes(a[start..op0], input, base) && op0 - start <= base + 1 + (base + 4) / 65
    requires candidate < base && base + 4 <= |input| && Matches(input, candidate, base, 4)
    modifies a
    ensures base + 4 <= ip <= |input| && Written(a, start, op, input, ip)
    ensures op == op0 + |CopiesBytes(base - candidate, ip - base)|
    ensures ip < |input| ==> input[candidate + (ip - base)] != input[ip]
    ensures OnlyWithin(a, start, start + Room(|input|))
  {
    hide Encodes, CopiesBytes, Room;
    var n, lessThan8 := FindMatchLength(input, candidate + 4, base + 4, |input|);
    MatchesExtend(input, candidate, base, 4, n);
    var matched, offset := 4 + n, base - candidate;
    CopyCost(base, matched, op0 - start, |CopiesBytes(offset, matched)|, |input|);
    op := EmitCopy(a, op0, offset, matched, lessThan8);
    ip := base + matched;
    AddCopies(old(a[start..op0]), input, base, offset, matched);
    assert a[start..op0] == old(a[start..op0]);
    assert a[start..op] == old(a[start..op0]) + a[op0..op];
  }

  /** Compresses one block: the bytes written stand for the input, they fit the bound, and
      nothing outside the block's room is touched.  Where no four bytes occur twice they are a
      single literal, and where all bytes are the same they take little more than three bytes for
      every 64. */
  method CompressFragment(input: seq<Byte>, a: array<Byte>, start: nat, table: array<int>) returns (op: nat)
    requires |input| <= BLOCK_SIZE && IsTableSize(table.Length) && start + Room(|input|) <= a.Length
    requires forall k | 0 <= k < table.Length :: table[k] == 0
    requires a as object != table as object
    modifies a, table
    ensures start <= op <= a.Length && Encodes(a[start..op], input, |input|)
    ensures op - start <= |input| + |input| / 61 + 1 && (input == [] ==> op == start)
    ensures Distinct(input) && input != [] ==> op == start + |LiteralHeader(|input|)| + |input|
    ensures Constant(input) ==> op - start <= Shrunk(|input|)
    ensures OnlyWithin(a, start, start + Room(|input|))
  {
    hide Constant;
    op := start;
    var nextEmit := 0;
    assert a[start..op] == [];
    EncodesAll([], input);
    if |input| >= INPUT_MARGIN {
      op, nextEmit := CompressMain(input, a, start, table);
    }
    if nextEmit < |input| {
      op := EmitRemainder(input, a, start, op, nextEmit);
    }
  }

  /** The rest of the input as one literal. */
  method EmitRemainder(input: seq<Byte>, a: array<Byte>, start: nat, op0: nat, nextEmit: nat) returns (op: nat)
    requires |input| <= BLOCK_SIZE && start + Room(|input|) <= a.Length
    requires Written(a, start, op0, input, nextEmit) && nextEmit < |input|
    modifies a
    ensures start <= op <= a.Length && Encodes(a[start..op], input, |input|)
    ensures op - start <= |input| + |input| / 61 + 1
    ensures op == op0 + |LiteralHeader(|input| - nextEmit)| + (|input| - nextEmit)
    ensures OnlyWithin(a, start, start + Room(|input|))
  {
    hide Encodes, LiteralHeader, Room;
    RemainderCost(nextEmit, |input|, op0 - start);
    op := EmitLiteral(a, op0, input, nextEmit, |input| - nextEmit, false);
    AddLiteral(old(a[start..op0]), input, nextEmit, |input|);
    assert a[start..op0] == old(a[start..op0]);
    assert a[start..op] == old(a[start..op0]) + a[op0..op];
  }

  lemma RemainderCost(nextEmit: nat, size: nat, written: nat)
    requires nextEmit < size <= BLOCK_SIZE && written <= nextEmit + nextEmit / 65
    ensures var cost := written + |LiteralHeader(size - nextEmit)| + (size - nextEmit);
            cost <= size + size / 61 + 1 && cost <= Room(size)
  {
  }

  lemma ConstantCost(input: seq<Byte>)
    requires Constant(input) && INPUT_MARGIN <= |input| <= BLOCK_SIZE
    ensures Matches(input, 0, 1, 4) && MatchesToEnd(input, 0, 1)
    ensures 2 + |CopiesBytes(1, |input| - 1)| <= Shrunk(|input|) && |LiteralHeader(1)| == 1
  {
    ConstantMatches(input, 0, 1, 4);
    ConstantMatches(input, 0, 1, |input| - 1);
    CopiesShort(1, |input| - 1);
  }

  /** The main loop, for inputs with a margin. */
  method CompressMain(input: seq<Byte>, a: array<Byte>, start: nat, table: array<int>) returns (op: nat, nextEmit: nat)
    requires INPUT_MARGIN <= |input| <= BLOCK_SIZE && IsTableSize(table.Length) && start + Room(|input|) <= a.Length
    requires forall k | 0 <= k < table.Length :: table[k] == 0
    requires a as object != table as object
    modifies a, table
    ensures Written(a, start, op, input, nextEmit) && (Distinct(input) ==> op == start && nextEmit == 0)
    ensures Constant(input) ==>
              if |input| < INPUT_MARGIN + 2 then op == start && nextEmit == 0
              else nextEmit == |input| && op - start <= Shrunk(|input|)
    ensures OnlyWithin(a, start, start + Room(|input|))
  {
    hide Constant, MatchesToEnd;
    op, nextEmit := start, 0;
    assert a[start..op] == [];
    EncodesAll([], input);
    var ipLimit := |input| - INPUT_MARGIN;
    var ip := 1;
    while true
      invariant Written(a, start, op, input, nextEmit) && nextEmit < ip && ip + 4 <= |input|
      invariant Below(table, ip) && (Distinct(input) ==> op == start && nextEmit == 0)
      invariant OnlyWithin(a, start, start + Room(|input|))
      invariant if ip == 1 then op == start && nextEmit == 0 && forall k | 0 <= k < table.Length :: table[k] == 0
                else !Constant(input)
      decreases |input| - ip
    {
      if Constant(input) {
        ConstantCost(input);
      }
      var found, at, candidate, _ := ScanForMatch(input, table, ip, ipLimit);
      if !found {
        return;
      }
      var more;
      op, nextEmit, more := EmitLiteralAndCopies(input, a, start, op, table, nextEmit, at, candidate, ipLimit);
      if !more {
        return;
      }
      ip := nextEmit + 1;
    }
  }
}
