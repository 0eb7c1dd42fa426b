/**
 The Snappy format as one function from bytes to bytes.  A compressed string is a length
 prefix (section 1 of the Snappy format description) followed by tags: literals (section
 2.1) and copies (section 2.2).  `Expand` runs the tags; it knows nothing about buffers,
 chunks or writers, and everything else is proved against it.
 */
module SnappyFormat {
  import opened Bytes
  import opened Wrappers

  // ----- Copies -----

  /** Appends `len` bytes, each a copy of the byte `offset` places before it. */
  function CopyBack(out: seq<Byte>, offset: nat, len: nat): (r: seq<Byte>)
    requires 1 <= offset <= |out|
    ensures |r| == |out| + len && out <= r
    decreases len
  {
    if len == 0 then out else CopyBack(out + [out[|out| - offset]], offset, len - 1)
  }

  /** The defining equations of a copy: the old bytes, then every byte repeats the one
      `offset` places before it. */
  lemma {:induction false} CopyBackAt(out: seq<Byte>, offset: nat, len: nat, i: nat)
    requires 1 <= offset <= |out| && i < |out| + len
    ensures CopyBack(out, offset, len)[i] == if i < |out| then out[i] else CopyBack(out, offset, len)[i - offset]
    decreases len
  {
    if len == 0 {
    } else {
      var next := out + [out[|out| - offset]];
      CopyBackAt(next, offset, len - 1, i);
      if i == |out| {
        CopyBackAt(next, offset, len - 1, i - offset);
      }
    }
  }

  /** Those equations determine the result. */
  lemma {:induction false} CopyBackUnique(out: seq<Byte>, offset: nat, len: nat, r: seq<Byte>)
    requires 1 <= offset <= |out| && |r| == |out| + len && out <= r
    requires forall i | |out| <= i < |r| :: r[i] == r[i - offset]
    ensures r == CopyBack(out, offset, len)
    decreases len
  {
    if len == 0 {
    } else {
      var next := out + [out[|out| - offset]];
      assert r[|out|] == r[|out| - offset] == out[|out| - offset];
      assert next == r[..|out| + 1];
      CopyBackUnique(next, offset, len - 1, r);
    }
  }

  lemma {:induction false} CopyBackSplit(out: seq<Byte>, offset: nat, a: nat, b: nat)
    requires 1 <= offset <= |out|
    ensures CopyBack(out, offset, a + b) == CopyBack(CopyBack(out, offset, a), offset, b)
    decreases a
  {
    if a == 0 {
    } else {
      CopyBackSplit(out + [out[|out| - offset]], offset, a - 1, b);
    }
  }

  /** A copy does not look further back than its offset. */
  lemma {:induction false} CopyBackShift(pre: seq<Byte>, out: seq<Byte>, offset: nat, len: nat)
    requires 1 <= offset <= |out|
    ensures CopyBack(pre + out, offset, len) == pre + CopyBack(out, offset, len)
    decreases len
  {
    if len == 0 {
    } else {
      var next := out + [out[|out| - offset]];
      CopyBackShift(pre, next, offset, len - 1);
      assert pre + next == pre + out + [(pre + out)[|pre + out| - offset]];
    }
  }

  ghost function Copied(out: seq<Byte>, offset: nat, len: nat): seq<Byte>
    requires 1 <= offset <= |out|
  {
    CopyBack(out, offset, len)
  }

  /** `r` is `out` followed by a copy.  (The quantifier keeps the verifier from unrolling the
      copy where only the fact is needed.) */
  ghost predicate IsCopy(out: seq<Byte>, offset: nat, len: nat, r: seq<Byte>) {
    1 <= offset <= |out| && forall n {:trigger Copied(out, offset, n)} | n == len :: Copied(out, offset, n) == r
  }

  lemma IsCopyMeans(out: seq<Byte>, offset: nat, len: nat, r: seq<Byte>)
    requires 1 <= offset <= |out|
    ensures IsCopy(out, offset, len, r) <==> r == CopyBack(out, offset, len)
    ensures IsCopy(out, offset, len, r) ==> |r| == |out| + len && out <= r
    ensures IsCopy(out, offset, 0, out)
  {
    assert Copied(out, offset, len) == CopyBack(out, offset, len);
  }

  lemma CopyTwice(a: seq<Byte>, b: seq<Byte>, c: seq<Byte>, offset: nat, m: nat, n: nat)
    requires IsCopy(a, offset, m, b) && IsCopy(b, offset, n, c)
    ensures IsCopy(a, offset, m + n, c)
  {
    IsCopyMeans(a, offset, m, b);
    IsCopyMeans(b, offset, n, c);
    CopyBackSplit(a, offset, m, n);
  }

  // ----- Tags -----

  /** Bytes that belong to a tag after its first byte. */
  function ExtraBytes(c: Byte): nat {
    if c % 4 == 0 then (if c / 4 < 60 then 0 else c / 4 - 59)
    else if c % 4 == 1 then 1
    else if c % 4 == 2 then 2
    else 4
  }

  datatype Tag = Literal(len: nat) | Copy(offset: nat, len: nat)

  /** The length of a long literal, computed in 32 bits. */
  function LongLength(extra: seq<Byte>): nat {
    (LoadLE(extra) + 1) % 0x1_0000_0000
  }

  function ParseTag(c: Byte, extra: seq<Byte>): Tag
    requires |extra| == ExtraBytes(c)
  {
    if c % 4 == 0 then Literal(if c / 4 < 60 then c / 4 + 1 else LongLength(extra))
    else if c % 4 == 1 then Copy(c / 32 * 256 + LoadLE(extra), c / 4 % 8 + 4)
    else Copy(LoadLE(extra), c / 4 + 1)
  }

  /** The format gives a long literal one byte more than its length bytes say.  The decoder
      agrees except for the largest length, which it takes for an empty literal. */
  lemma LongLengthMeans(extra: seq<Byte>)
    requires |extra| <= 4
    ensures LongLength(extra) == LoadLE(extra) + 1 <==> extra != [255, 255, 255, 255]
    ensures extra == [255, 255, 255, 255] ==> LongLength(extra) == 0
  {
    hide LoadLE;
    LoadBound(extra);
    if |extra| == 4 {
      LoadFour(extra);
      assert extra == [extra[0], extra[1], extra[2], extra[3]];
    }
  }

  lemma {:induction false} LoadBound(s: seq<Byte>)
    requires |s| <= 4
    ensures |s| < 4 ==> LoadLE(s) < 0x100_0000
    ensures |s| < 3 ==> LoadLE(s) < 0x1_0000
    ensures |s| < 2 ==> LoadLE(s) < 0x100
    ensures LoadLE(s) < 0x1_0000_0000
  {
    if s == [] {
    } else {
      LoadBound(s[1..]);
    }
  }

  lemma LoadFour(s: seq<Byte>)
    requires |s| == 4
    ensures LoadLE(s) == s[0] as int + 0x100 * (s[1] as int) + 0x1_0000 * (s[2] as int) + 0x100_0000 * (s[3] as int)
  {
    assert s[1..][1..] == s[2..] && s[2..][1..] == s[3..] && s[3..][1..] == [];
    assert LoadLE(s[3..]) == s[3];
    assert LoadLE(s[2..]) == s[2] as int + 256 * LoadLE(s[3..]);
    assert LoadLE(s[1..]) == s[1] as int + 256 * LoadLE(s[2..]);
  }

  /** Runs the tags of `c` on top of the output `out`; `None` when a tag or a literal is cut
      short or a copy reaches outside the output. */
  function Expand(c: seq<Byte>, out: seq<Byte>): Option<seq<Byte>>
    decreases |c|
  {
    if c == [] then Some(out)
    else
      var n := ExtraBytes(c[0]);
      if |c| <= n then None
      else
        var rest := c[n + 1..];
        match ParseTag(c[0], c[1..n + 1])
        case Literal(len) => if |rest| < len then None else Expand(rest[len..], out + rest[..len])
        case Copy(offset, len) =>
          if offset == 0 || offset > |out| then None else Expand(rest, CopyBack(out, offset, len))
  }

  /** What is left to do in the middle of a literal. */
  function ExpandLiteral(c: seq<Byte>, len: nat, out: seq<Byte>): Option<seq<Byte>> {
    if |c| < len then None else Expand(c[len..], out + c[..len])
  }

  /** A literal can be taken in pieces. */
  lemma ExpandLiteralSplit(c: seq<Byte>, a: nat, b: nat, out: seq<Byte>)
    requires a <= |c|
    ensures ExpandLiteral(c, a + b, out) == ExpandLiteral(c[a..], b, out + c[..a])
  {
    if a + b <= |c| {
      assert c[a..][b..] == c[a + b..];
      assert out + c[..a + b] == out + c[..a] + c[a..][..b];
    }
  }

  lemma {:induction false} ExpandGrows(c: seq<Byte>, out: seq<Byte>)
    ensures Expand(c, out).Some? ==> out <= Expand(c, out).value
    decreases |c|
  {
    if c == [] || |c| <= ExtraBytes(c[0]) {
    } else {
      var n := ExtraBytes(c[0]);
      var rest := c[n + 1..];
      match ParseTag(c[0], c[1..n + 1])
      case Literal(len) =>
        if len <= |rest| {
          ExpandGrows(rest[len..], out + rest[..len]);
        }
      case Copy(offset, len) =>
        if 1 <= offset <= |out| {
          ExpandGrows(rest, CopyBack(out, offset, len));
        }
    }
  }

  /** A complete run of tags can be followed by more tags. */
  lemma {:induction false} ExpandAppend(c1: seq<Byte>, c2: seq<Byte>, out: seq<Byte>)
    requires Expand(c1, out).Some?
    ensures Expand(c1 + c2, out) == Expand(c2, Expand(c1, out).value)
    decreases |c1|
  {
    hide ParseTag, CopyBack;
    var c := c1 + c2;
    if c1 == [] {
      assert c == c2;
    } else {
      var n := ExtraBytes(c1[0]);
      var rest := c1[n + 1..];
      assert c[0] == c1[0] && c[1..n + 1] == c1[1..n + 1] && c[n + 1..] == rest + c2;
      match ParseTag(c1[0], c1[1..n + 1])
      case Literal(len) =>
        assert (rest + c2)[len..] == rest[len..] + c2 && (rest + c2)[..len] == rest[..len];
        ExpandAppend(rest[len..], c2, out + rest[..len]);
      case Copy(offset, len) =>
        ExpandAppend(rest, c2, CopyBack(out, offset, len));
    }
  }

  /** Output that was there before does not change what the tags append. */
  lemma {:induction false} ExpandShift(pre: seq<Byte>, c: seq<Byte>, out: seq<Byte>)
    requires Expand(c, out).Some?
    ensures Expand(c, pre + out) == Some(pre + Expand(c, out).value)
    decreases |c|
  {
    if c == [] {
    } else {
      var n := ExtraBytes(c[0]);
      var rest := c[n + 1..];
      match ParseTag(c[0], c[1..n + 1])
      case Literal(len) =>
        assert pre + out + rest[..len] == pre + (out + rest[..len]);
        ExpandShift(pre, rest[len..], out + rest[..len]);
      case Copy(offset, len) =>
        CopyBackShift(pre, out, offset, len);
        ExpandShift(pre, rest, CopyBack(out, offset, len));
    }
  }

  function Expanded(c: seq<Byte>, out: seq<Byte>): Option<seq<Byte>> {
    Expand(c, out)
  }

  /** Running the tags `c` on top of `out` will give `goal`.  (As above, the quantifiers keep
      the verifier from running them.) */
  ghost predicate Leads(c: seq<Byte>, out: seq<Byte>, goal: Option<seq<Byte>>) {
    forall o {:trigger Expanded(c, o)} | o == out :: Expanded(c, o) == goal
  }

  function ExpandedLiteral(c: seq<Byte>, len: nat, out: seq<Byte>): Option<seq<Byte>> {
    ExpandLiteral(c, len, out)
  }

  /** The same in the middle of a literal. */
  ghost predicate LeadsLiteral(c: seq<Byte>, len: nat, out: seq<Byte>, goal: Option<seq<Byte>>) {
    forall o {:trigger ExpandedLiteral(c, len, o)} | o == out :: ExpandedLiteral(c, len, o) == goal
  }

  lemma LeadsMeans(c: seq<Byte>, out: seq<Byte>, goal: Option<seq<Byte>>)
    ensures Leads(c, out, goal) <==> Expand(c, out) == goal
    ensures Leads(c, out, goal) && goal.Some? ==> |out| <= |goal.value|
    ensures Leads(c, out, goal) && c == [] ==> goal == Some(out)
  {
    assert Expanded(c, out) == Expand(c, out);
    ExpandGrows(c, out);
  }

  /** The first tag of `c`, and what follows it. */
  function FirstTag(c: seq<Byte>): Tag
    requires c != [] && |c| > ExtraBytes(c[0])
  {
    ParseTag(c[0], c[1..ExtraBytes(c[0]) + 1])
  }

  function AfterTag(c: seq<Byte>): seq<Byte>
    requires c != [] && |c| > ExtraBytes(c[0])
  {
    c[ExtraBytes(c[0]) + 1..]
  }

  /** Where no whole tag is left. */
  lemma LeadsEnd(c: seq<Byte>, out: seq<Byte>, goal: Option<seq<Byte>>)
    requires Leads(c, out, goal) && (c == [] || |c| <= ExtraBytes(c[0]))
    ensures goal == if c == [] then Some(out) else None
  {
    assert Expanded(c, out) == goal;
  }

  /** A copy that reaches outside the output leads nowhere. */
  lemma LeadsTag(c: seq<Byte>, out: seq<Byte>, goal: Option<seq<Byte>>)
    requires Leads(c, out, goal) && c != [] && |c| > ExtraBytes(c[0])
    ensures FirstTag(c).Literal? ==> LeadsLiteral(AfterTag(c), FirstTag(c).len, out, goal)
    ensures FirstTag(c).Copy? && !(1 <= FirstTag(c).offset <= |out|) ==> goal == None
    ensures FirstTag(c).Copy? && 1 <= FirstTag(c).offset <= |out| ==>
              Leads(AfterTag(c), CopyBack(out, FirstTag(c).offset, FirstTag(c).len), goal)
  {
    assert Expanded(c, out) == goal;
  }

  lemma LeadsPiece(c: seq<Byte>, a: nat, b: nat, out: seq<Byte>, goal: Option<seq<Byte>>)
    requires LeadsLiteral(c, a + b, out, goal) && a <= |c|
    ensures LeadsLiteral(c[a..], b, out + c[..a], goal)
  {
    assert ExpandedLiteral(c, a + b, out) == goal;
    ExpandLiteralSplit(c, a, b, out);
  }

  /** The end of a literal; one that is cut short leads nowhere. */
  lemma LeadsOn(c: seq<Byte>, len: nat, out: seq<Byte>, goal: Option<seq<Byte>>)
    requires LeadsLiteral(c, len, out, goal)
    ensures len <= |c| ==> Leads(c[len..], out + c[..len], goal)
    ensures len > |c| ==> goal == None
    ensures goal.Some? ==> |out| + len <= |goal.value|
  {
    assert ExpandedLiteral(c, len, out) == goal;
    if len <= |c| {
      ExpandGrows(c[len..], out + c[..len]);
    }
  }

  // ----- The length prefix -----

  /** The value of the varint that starts with the byte for bits `7 * i` and up, and the
      number of its bytes; at most five bytes and at most 32 bits. */
  function ParseVarint(c: seq<Byte>, i: nat): (r: Option<(nat, nat)>)
    requires i <= 5
    ensures r.Some? ==> 1 <= r.value.1 <= |c| && r.value.1 <= 5 - i && r.value.0 < VarintLimit(i)
    decreases 5 - i
  {
    if i == 5 || c == [] then None
    else if i == 4 && c[0] % 128 >= 16 then None
    else if c[0] < 128 then Some((c[0], 1))
    else
      match ParseVarint(c[1..], i + 1)
      case None => None
      case Some((v, n)) => Some((c[0] - 128 + 128 * v, n + 1))
  }

  /** The number of bytes behind the length. */
  function Behind(data: seq<Byte>): (n: nat)
    ensures n <= |data|
  {
    match ParseVarint(data, 0)
    case None => 0
    case Some((_, k)) => |data| - k
  }

  /** What a compressed string stands for, if it is valid. */
  function Uncompressed(data: seq<Byte>): Option<seq<Byte>> {
    match ParseVarint(data, 0)
    case None => None
    case Some((n, k)) =>
      match Expand(data[k..], [])
      case None => None
      case Some(out) => if |out| == n then Some(out) else None
  }

  /** The number of values that fit in a 32-bit word above its `7 * i` lowest bits. */
  function VarintLimit(i: nat): nat
    requires i <= 5
  {
    if i == 0 then 0x1_0000_0000
    else if i == 1 then 0x200_0000
    else if i == 2 then 0x4_0000
    else if i == 3 then 0x800
    else if i == 4 then 0x10
    else 1
  }
}
