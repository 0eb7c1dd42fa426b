/** Bytes and little-endian numbers. */
module Bytes {
  import opened Division

  type Byte = b: int | 0 <= b < 256

  function Min(a: nat, b: nat): nat {
    if a < b then a else b
  }

  /** Little-endian value of a few bytes. */
  function LoadLE(s: seq<Byte>): nat {
    if s == [] then 0 else s[0] + 256 * LoadLE(s[1..])
  }

  function Pow256(n: nat): (r: nat)
    ensures r >= 1 && (n >= 1 ==> r % 2 == 0)
  {
    if n == 0 then 1 else 256 * Pow256(n - 1)
  }

  /** The lowest `size` bytes of a number. */
  function StoreLE(n: nat, size: nat): (r: seq<Byte>)
    ensures |r| == size
  {
    if size == 0 then [] else [n % 256] + StoreLE(n / 256, size - 1)
  }

  /** Byte `k` is the digit of weight 256 to the power `k`. */
  lemma {:induction false} StoreLEAt(n: nat, size: nat, k: nat)
    requires k < size
    ensures StoreLE(n, size)[k] == n / Pow256(k) % 256
  {
    if k == 0 {
      assert Pow256(0) == 1;
    } else {
      StoreLEAt(n / 256, size - 1, k - 1);
      DivideTwice(n, 256, Pow256(k - 1));
    }
  }

  /** Loading inverts storing for the numbers that fit. */
  lemma {:induction false} LoadStore(n: nat, size: nat)
    requires n < Pow256(size)
    ensures LoadLE(StoreLE(n, size)) == n
  {
    if size == 0 {
    } else {
      LoadStore(n / 256, size - 1);
      assert StoreLE(n, size)[1..] == StoreLE(n / 256, size - 1);
    }
  }

  /** Storing inverts loading. */
  lemma {:induction false} StoreLoad(s: seq<Byte>)
    ensures LoadLE(s) < Pow256(|s|) && StoreLE(LoadLE(s), |s|) == s
  {
    if s == [] {
    } else {
      StoreLoad(s[1..]);
      assert s == [s[0]] + s[1..];
      assert LoadLE(s) % 256 == s[0] && LoadLE(s) / 256 == LoadLE(s[1..]);
    }
  }

  lemma Pow256Values()
    ensures Pow256(1) == 0x100 && Pow256(2) == 0x1_0000 && Pow256(4) == 0x1_0000_0000
    ensures Pow256(8) == 0x1_0000_0000_0000_0000
  {
    assert Pow256(3) == 0x100_0000;
    assert Pow256(6) == 0x1_0000_0000_0000;
  }
}
