/** Byte sources that hand out their data region by region, and the length prefix. */
module SnappySource {
  import opened Bytes
  import opened Wrappers
  import opened SnappyFormat

  /** A source of bytes.  `regionEnd` decides how the data is cut into regions: a peek at
      position `p` sees the bytes up to `regionEnd(p)`, at least one unless the data is over. */
  class Source {
    const data: seq<Byte>
    const regionEnd: nat -> nat
    var pos: nat

    constructor (data: seq<Byte>, regionEnd: nat -> nat)
      ensures this.data == data && this.regionEnd == regionEnd && pos == 0 && Valid()
    {
      this.data, this.regionEnd, pos := data, regionEnd, 0;
    }

    ghost predicate Valid()
      reads this
    {
      pos <= |data|
    }

    /** The bytes that have not been skipped. */
    function Rest(): seq<Byte>
      requires Valid()
      reads this
    {
      data[pos..]
    }

    /** Where the region that begins at a position ends. */
    function End(p: nat): (e: nat)
      requires p <= |data|
      ensures p <= e <= |data| && (e == p <==> p == |data|)
    {
      if regionEnd(p) > |data| then |data|
      else if regionEnd(p) > p then regionEnd(p)
      else if p < |data| then p + 1
      else p
    }

    /** From a position on, the length of every region fits 32 bits. */
    ghost predicate ShortFrom(start: nat) {
      forall p | start <= p < |data| :: End(p) < p + 0x1_0000_0000
    }

    /** From a position on, every region goes to the end of the data. */
    ghost predicate FlatFrom(start: nat) {
      forall p | start <= p < |data| :: End(p) == |data|
    }

    lemma FlatIsShort(start: nat)
      requires start <= |data| && FlatFrom(start)
      ensures ShortFrom(start) <==> |data| - start < 0x1_0000_0000
    {
      if start < |data| {
        assert End(start) == |data|;
      }
    }

    /** The next region; empty exactly when the data is over. */
    method Peek() returns (region: seq<Byte>)
      requires Valid()
      ensures region == data[pos..End(pos)] && region <= Rest()
      ensures region == [] <==> Rest() == []
    {
      region := data[pos..End(pos)];
    }

    method Skip(n: nat)
      requires Valid() && n <= |Rest()|
      modifies this
      ensures Valid() && pos == old(pos) + n
    {
      pos := pos + n;
    }
  }

  // ----- The length prefix -----

  function VarintBytes(v: nat): (r: seq<Byte>)
    ensures |r| >= 1
    ensures v < VarintLimit(0) ==> |r| <= 5
    ensures v < VarintLimit(1) ==> |r| <= 4
    ensures v < VarintLimit(2) ==> |r| <= 3
    ensures v < VarintLimit(3) ==> |r| <= 2
    ensures v < VarintLimit(4) ==> |r| <= 1
  {
    if v < 128 then [v] else [v % 128 + 128] + VarintBytes(v / 128)
  }

  /** Parsing inverts encoding, whatever follows. */
  lemma {:induction false} ParseEncoded(v: nat, i: nat, rest: seq<Byte>)
    requires i < 5 && v < VarintLimit(i)
    ensures ParseVarint(VarintBytes(v) + rest, i) == Some((v, |VarintBytes(v)|))
    decreases 5 - i
  {
    LimitStep(v, i);
    hide ParseVarint, VarintLimit;
    if v < 128 {
      ParseLast(v, i, rest);
    } else {
      ParseEncoded(v / 128, i + 1, rest);
      ParseMore(v % 128, i, VarintBytes(v / 128) + rest);
      assert VarintBytes(v) + rest == [v % 128 + 128] + (VarintBytes(v / 128) + rest);
    }
  }

  lemma LimitStep(v: nat, i: nat)
    requires i < 5 && v < VarintLimit(i)
    ensures i == 4 ==> v < 16
    ensures v >= 128 ==> i < 4 && v / 128 < VarintLimit(i + 1)
  {
  }

  lemma ParseLast(v: nat, i: nat, rest: seq<Byte>)
    requires i < 5 && v < 128 && (i == 4 ==> v < 16)
    ensures ParseVarint([v] + rest, i) == Some((v, 1))
  {
  }

  lemma ParseMore(low: nat, i: nat, tail: seq<Byte>)
    requires i < 4 && low < 128 && ParseVarint(tail, i + 1).Some?
    ensures var (v, n) := ParseVarint(tail, i + 1).value;
            ParseVarint([low + 128] + tail, i) == Some((low + 128 * v, n + 1))
  {
    assert ([low + 128] + tail)[1..] == tail;
  }

  /** `Encode32`. */
  method Encode32(a: array<Byte>, v: nat) returns (end: nat)
    requires v < 0x1_0000_0000 && a.Length >= 5
    modifies a
    ensures end == |VarintBytes(v)| && a[..end] == VarintBytes(v)
    ensures forall i | end <= i < a.Length :: a[i] == old(a[i])
  {
    if v < 0x80 {
      a[0] := v;
      end := 1;
    } else if v < 0x4000 {
      a[0], a[1] := v % 128 + 128, v / 0x80;
      end := 2;
    } else if v < 0x20_0000 {
      a[0], a[1], a[2] := v % 128 + 128, v / 0x80 % 128 + 128, v / 0x4000;
      end := 3;
    } else if v < 0x1000_0000 {
      a[0], a[1], a[2], a[3] := v % 128 + 128, v / 0x80 % 128 + 128, v / 0x4000 % 128 + 128, v / 0x20_0000;
      end := 4;
    } else {
      a[0], a[1], a[2], a[3] := v % 128 + 128, v / 0x80 % 128 + 128, v / 0x4000 % 128 + 128, v / 0x20_0000 % 128 + 128;
      a[4] := v / 0x1000_0000;
      end := 5;
    }
    VarintDigits(v);
    assert a[..end] == VarintBytes(v);
  }

  lemma VarintDigits(v: nat)
    requires v < 0x1_0000_0000
    ensures 0x80 <= v < 0x4000 ==> VarintBytes(v) == [v % 128 + 128, v / 0x80]
    ensures 0x4000 <= v < 0x20_0000 ==> VarintBytes(v) == [v % 128 + 128, v / 0x80 % 128 + 128, v / 0x4000]
    ensures 0x20_0000 <= v < 0x1000_0000 ==>
              VarintBytes(v) == [v % 128 + 128, v / 0x80 % 128 + 128, v / 0x4000 % 128 + 128, v / 0x20_0000]
    ensures 0x1000_0000 <= v ==>
              VarintBytes(v) == [v % 128 + 128, v / 0x80 % 128 + 128, v / 0x4000 % 128 + 128,
                v / 0x20_0000 % 128 + 128, v / 0x1000_0000]
  {
    if v < 0x4000 {
    } else {
      VarintDigits(v / 0x80);
      DivDiv(v);
    }
  }

  lemma DivDiv(v: nat)
    ensures v / 0x80 / 0x80 == v / 0x4000
    ensures v / 0x80 / 0x4000 == v / 0x20_0000
    ensures v / 0x80 / 0x20_0000 == v / 0x1000_0000
  {
  }

  function Pow128(k: nat): nat
    requires k <= 5
  {
    if k == 0 then 1
    else if k == 1 then 0x80
    else if k == 2 then 0x4000
    else if k == 3 then 0x20_0000
    else if k == 4 then 0x1000_0000
    else 0x8_0000_0000
  }

  /** The seven low bits of a byte, shifted to their place. */
  function Digit(b: Byte, k: nat): nat
    requires k <= 5
  {
    b as int % 128 * Pow128(k)
  }

  /** The result of a parse that has read `k` bytes worth `sum`. */
  ghost function Continued(c: seq<Byte>, k: nat, sum: nat): Option<(nat, nat)>
    requires k <= 5 && k <= |c|
  {
    match ParseVarint(c[k..], k)
    case None => None
    case Some((v, n)) => Some((sum + Pow128(k) * v, n + k))
  }

  /** After `k` bytes worth `sum`, the whole parse of `c` will give `r`.  (The quantifier keeps
      the verifier from unrolling the parser.) */
  ghost predicate Pends(c: seq<Byte>, k: nat, sum: nat, r: Option<(nat, nat)>) {
    k <= 5 && k <= |c| && forall x {:trigger Continued(c, k, x)} | x == sum :: Continued(c, k, x) == r
  }

  lemma VarintStart(c: seq<Byte>)
    ensures Pends(c, 0, 0, ParseVarint(c, 0))
  {
    assert c[0..] == c;
  }

  lemma VarintEnd(c: seq<Byte>, k: nat, sum: nat, r: Option<(nat, nat)>)
    requires Pends(c, k, sum, r) && (k == 5 || k == |c|)
    ensures r == None
  {
    assert Continued(c, k, sum) == r;
  }

  /** One more byte of a varint. */
  lemma VarintAdvance(c: seq<Byte>, k: nat, sum: nat, r: Option<(nat, nat)>)
    requires Pends(c, k, sum, r) && k < 5 && k < |c|
    ensures k == 4 && c[k] % 128 >= 16 ==> r == None
    ensures !(k == 4 && c[k] % 128 >= 16) && c[k] < 128 ==> r == Some((sum + Digit(c[k], k), k + 1))
    ensures !(k == 4 && c[k] % 128 >= 16) && c[k] >= 128 ==> Pends(c, k + 1, sum + Digit(c[k], k), r)
  {
    assert Continued(c, k, sum) == r;
    var rest := c[k..];
    assert rest[0] == c[k] && rest[1..] == c[k + 1..];
    if c[k] >= 128 {
      match ParseVarint(c[k + 1..], k + 1)
      case None =>
      case Some((v, n)) =>
        HigherDigits(c[k] - 128, k, v);
    }
  }

  lemma HigherDigits(low: int, k: nat, v: nat)
    requires k < 5
    ensures Pow128(k) * (low + 128 * v) == low * Pow128(k) + Pow128(k + 1) * v
  {
    assert Pow128(k + 1) == 128 * Pow128(k);
    assert Pow128(k) * (128 * v) == 128 * Pow128(k) * v;
  }

  /** One byte of `Parse32WithLimit`: the end of the input and a value of more than 32 bits
      stop it without a result. */
  method Parse32Byte(c: seq<Byte>, k: nat, sum0: nat, ghost goal: Option<(nat, nat)>)
    returns (stop: bool, r: Option<(nat, nat)>, sum: nat)
    requires k < 5 && Pends(c, k, sum0, goal)
    ensures stop ==> r == goal
    ensures !stop ==> k < 4 && Pends(c, k + 1, sum, goal)
  {
    r, sum := None, sum0;
    if |c| <= k {
      VarintEnd(c, k, sum0, goal);
      return true, None, sum;
    }
    VarintAdvance(c, k, sum0, goal);
    sum := sum0 + Digit(c[k], k);
    if k < 4 {
      stop := c[k] < 128;
      r := Some((sum, k + 1));
    } else if c[k] < 16 {
      stop, r := true, Some((sum, k + 1));
    } else {
      if c[k] % 128 < 16 {
        VarintEnd(c, 5, sum, goal);
      }
      stop, r := true, None;
    }
  }

  /** `Parse32WithLimit`: the unrolled parser of a flat buffer. */
  method Parse32WithLimit(c: seq<Byte>) returns (r: Option<(nat, nat)>)
    ensures r == ParseVarint(c, 0)
  {
    ghost var goal := ParseVarint(c, 0);
    VarintStart(c);
    var stop, sum;
    stop, r, sum := Parse32Byte(c, 0, 0, goal);
    if stop { return; }
    stop, r, sum := Parse32Byte(c, 1, sum, goal);
    if stop { return; }
    stop, r, sum := Parse32Byte(c, 2, sum, goal);
    if stop { return; }
    stop, r, sum := Parse32Byte(c, 3, sum, goal);
    if stop { return; }
    stop, r, sum := Parse32Byte(c, 4, sum, goal);
  }

  /** `ReadUncompressedLength`: the same prefix, one byte at a time from a chunked source.  The
      test for lost bits compares the value with itself shifted up and down in 32 bits. */
  method ReadUncompressedLength(reader: Source) returns (result: Option<nat>)
    requires reader.Valid()
    modifies reader
    ensures reader.Valid()
    ensures var r := ParseVarint(old(reader.Rest()), 0);
            && result.Some? == r.Some?
            && (r.Some? ==> result.value == r.value.0 && reader.pos == old(reader.pos) + r.value.1)
  {
    ghost var c := reader.Rest();
    ghost var goal := ParseVarint(c, 0);
    VarintStart(c);
    var sum: nat, k := 0, 0;
    while true
      invariant 0 <= k <= 5 && k <= |c| && reader.Valid() && reader.Rest() == c[k..]
                && reader.pos == old(reader.pos) + k
      invariant Pends(c, k, sum, goal)
      decreases 5 - k
    {
      if 7 * k >= 32 {
        VarintEnd(c, k, sum, goal);
        return None;
      }
      var region := reader.Peek();
      if region == [] {
        VarintEnd(c, k, sum, goal);
        return None;
      }
      VarintAdvance(c, k, sum, goal);
      var b := region[0];
      assert b == c[k];
      reader.Skip(1);
      LostBits(b, k);
      if Digit(b, k) % 0x1_0000_0000 / Pow128(k) != b % 128 {
        return None;
      }
      sum := sum + Digit(b, k);
      if b < 128 {
        return Some(sum);
      }
      k := k + 1;
    }
  }

  lemma LostBits(b: Byte, k: nat)
    requires k < 5
    ensures Pow128(k) != 0
    ensures Digit(b, k) % 0x1_0000_0000 / Pow128(k) == b % 128 <==> !(k == 4 && b % 128 >= 16)
  {
    var val: int := b % 128;
    if k == 4 {
      assert val * 0x1000_0000 % 0x1_0000_0000 == val % 16 * 0x1000_0000;
    } else if k == 3 {
      assert val * 0x20_0000 < 0x1_0000_0000;
    } else if k == 2 {
      assert val * 0x4000 < 0x1_0000_0000;
    } else if k == 1 {
      assert val * 0x80 < 0x1_0000_0000;
    }
  }
}
