/** The bit operations on unsigned numbers. */
module Bits {
  import opened Bytes
  import opened Division

  function Xor(a: nat, b: nat): nat
    decreases a + b
  {
    if a == 0 && b == 0 then 0
    else 2 * Xor(a / 2, b / 2) + if a % 2 == b % 2 then 0 else 1
  }

  function Or(a: nat, b: nat): nat
    decreases a + b
  {
    if a == 0 && b == 0 then 0
    else 2 * Or(a / 2, b / 2) + if a % 2 == 0 && b % 2 == 0 then 0 else 1
  }

  /** The place of the lowest bit that is set. */
  function TrailingZeros(x: nat): nat
    requires x > 0
  {
    if x % 2 == 1 then 0 else 1 + TrailingZeros(x / 2)
  }

  function Pow2(k: nat): (r: nat)
    ensures r >= 1
  {
    if k == 0 then 1 else 2 * Pow2(k - 1)
  }

  lemma {:induction false} OrZero(a: nat)
    ensures Or(a, 0) == Or(0, a) == a
  {
    if a == 0 {
    } else {
      OrZero(a / 2);
    }
  }

  lemma OrHalf(x: nat, y: nat, b: nat, d: nat)
    requires b < 2 && d < 2
    ensures Or(2 * x + b, 2 * y + d) == 2 * Or(x, y) + Or(b, d) && Or(b, d) < 2
  {
    assert (2 * x + b) / 2 == x && (2 * y + d) / 2 == y;
    assert Or(b, d) == (if b == 0 && d == 0 then 0 else 1);
  }

  /** The last four bits of an or, bit by bit. */
  function LastFour(c: nat, d: nat): nat {
    8 * Or(c / 8 % 2, d / 8 % 2) + 4 * Or(c / 4 % 2, d / 4 % 2) + 2 * Or(c / 2 % 2, d / 2 % 2) + Or(c % 2, d % 2)
  }

  lemma OrFour(x: nat, y: nat, c: nat, d: nat)
    requires c < 16 && d < 16
    ensures Or(16 * x + c, 16 * y + d) == 16 * Or(x, y) + LastFour(c, d) && LastFour(c, d) < 16
  {
    hide Or;
    OrHalf(x, y, c / 8, d / 8);
    OrHalf(2 * x + c / 8, 2 * y + d / 8, c / 4 % 2, d / 4 % 2);
    OrHalf(4 * x + c / 4, 4 * y + d / 4, c / 2 % 2, d / 2 % 2);
    OrHalf(8 * x + c / 2, 8 * y + d / 2, c % 2, d % 2);
    Nibble(x, c);
    Nibble(y, d);
  }

  lemma Nibble(x: nat, c: nat)
    requires c < 16
    ensures 2 * (2 * x + c / 8) + c / 4 % 2 == 4 * x + c / 4 && 2 * (4 * x + c / 4) + c / 2 % 2 == 8 * x + c / 2
    ensures 2 * (8 * x + c / 2) + c % 2 == 16 * x + c && c / 8 % 2 == c / 8
  {
  }

  /** An or works on each four bits alone. */
  lemma OrNibble(x: nat, y: nat, c: nat, d: nat)
    requires c < 16 && d < 16
    ensures Or(16 * x + c, 16 * y + d) == 16 * Or(x, y) + Or(c, d) && Or(c, d) < 16
  {
    OrFour(x, y, c, d);
    OrFour(0, 0, c, d);
    assert Or(0, 0) == 0;
  }

  lemma {:induction false} XorZero(a: nat, b: nat)
    ensures Xor(a, b) == 0 <==> a == b
    decreases a + b
  {
    if a == 0 && b == 0 {
    } else {
      XorZero(a / 2, b / 2);
    }
  }

  lemma Shifted(x: nat, y: nat, bit: nat)
    requires bit < 2 && x != y
    ensures Xor(x, y) > 0 && Xor(2 * x + bit, 2 * y + bit) > 0
    ensures TrailingZeros(Xor(2 * x + bit, 2 * y + bit)) == 1 + TrailingZeros(Xor(x, y))
  {
    XorZero(x, y);
    assert (2 * x + bit) / 2 == x && (2 * y + bit) / 2 == y;
    assert Xor(2 * x + bit, 2 * y + bit) == 2 * Xor(x, y);
  }

  /** The numbers end in the same four bits. */
  lemma SameNibble(x: nat, y: nat, c: nat)
    requires c < 16 && x != y
    ensures Xor(x, y) > 0 && Xor(16 * x + c, 16 * y + c) > 0
    ensures TrailingZeros(Xor(16 * x + c, 16 * y + c)) == 4 + TrailingZeros(Xor(x, y))
  {
    hide Xor, TrailingZeros;
    Shifted(x, y, c / 8);
    Shifted(2 * x + c / 8, 2 * y + c / 8, c / 4 % 2);
    Shifted(4 * x + c / 4, 4 * y + c / 4, c / 2 % 2);
    Shifted(8 * x + c / 2, 8 * y + c / 2, c % 2);
    Nibble(x, c);
    Nibble(y, c);
  }

  /** The numbers end in the same byte. */
  lemma SameByte(x: nat, y: nat, c: Byte)
    requires x != y
    ensures Xor(x, y) > 0 && Xor(c + 256 * x, c + 256 * y) > 0
    ensures TrailingZeros(Xor(c + 256 * x, c + 256 * y)) == 8 + TrailingZeros(Xor(x, y))
  {
    hide Xor, TrailingZeros;
    SameNibble(x, y, c / 16);
    SameNibble(16 * x + c / 16, 16 * y + c / 16, c % 16);
    assert 16 * (16 * x + c / 16) + c % 16 == c + 256 * x && 16 * (16 * y + c / 16) + c % 16 == c + 256 * y;
  }

  /** The numbers differ in their last `k` bits. */
  lemma {:induction false} DifferentEnd(k: nat, a: nat, b: nat)
    requires a % Pow2(k) != b % Pow2(k)
    ensures Xor(a, b) > 0 && TrailingZeros(Xor(a, b)) < k
  {
    XorZero(a, b);
    if k == 0 {
    } else if a % 2 == b % 2 {
      Halves(a, k);
      Halves(b, k);
      DifferentEnd(k - 1, a / 2, b / 2);
    }
  }

  lemma Halves(a: nat, k: nat)
    requires k > 0
    ensures a % Pow2(k) == 2 * (a / 2 % Pow2(k - 1)) + a % 2
  {
    var p := Pow2(k - 1);
    var q, r := a / 2 / p, a / 2 % p;
    assert a / 2 == p * q + r;
    assert a == q * (2 * p) + (2 * r + a % 2) by {
      assert 2 * (p * q) == q * (2 * p);
    }
    Quotient(a, 2 * p, q, 2 * r + a % 2);
  }

  lemma LoadsDiffer(a: seq<Byte>, b: seq<Byte>)
    requires |a| == |b| && a != b
    ensures LoadLE(a) != LoadLE(b)
  {
    StoreLoad(a);
    StoreLoad(b);
  }

  /** The place that the lowest bit of the exclusive or names. */
  function FirstByte(x: nat, y: nat): nat
    requires x != y
  {
    XorZero(x, y);
    TrailingZeros(Xor(x, y)) / 8
  }

  lemma FirstByteStep(c: Byte, d: Byte, x: nat, y: nat)
    requires c + 256 * x != d + 256 * y
    ensures c != d ==> FirstByte(c + 256 * x, d + 256 * y) == 0
    ensures c == d ==> FirstByte(c + 256 * x, d + 256 * y) == 1 + FirstByte(x, y)
  {
    assert Pow2(8) == 256;
    hide Xor, TrailingZeros, Pow2;
    if c != d {
      assert (c + 256 * x) % 256 == c && (d + 256 * y) % 256 == d;
      DifferentEnd(8, c + 256 * x, d + 256 * y);
    } else {
      SameByte(x, y, c);
    }
  }

  /** On two little-endian words it is the first byte in which they differ. */
  lemma {:induction false} FirstByteDiffers(a: seq<Byte>, b: seq<Byte>)
    requires |a| == |b| && a != b
    ensures LoadLE(a) != LoadLE(b)
    ensures var r := FirstByte(LoadLE(a), LoadLE(b));
            r < |a| && a[r] != b[r] && a[..r] == b[..r]
  {
    hide FirstByte;
    LoadsDiffer(a, b);
    FirstByteStep(a[0], b[0], LoadLE(a[1..]), LoadLE(b[1..]));
    if a[0] != b[0] {
    } else {
      assert a == [a[0]] + a[1..] && b == [b[0]] + b[1..];
      FirstByteDiffers(a[1..], b[1..]);
      OneFurther(a, b, FirstByte(LoadLE(a[1..]), LoadLE(b[1..])));
    }
  }

  lemma OneFurther(a: seq<Byte>, b: seq<Byte>, r: nat)
    requires |a| == |b| && r + 1 < |a| && a[0] == b[0] && a[1..][r] != b[1..][r] && a[1..][..r] == b[1..][..r]
    ensures a[r + 1] != b[r + 1] && a[..r + 1] == b[..r + 1]
  {
    assert a[..r + 1] == [a[0]] + a[1..][..r] && b[..r + 1] == [b[0]] + b[1..][..r];
  }
}
