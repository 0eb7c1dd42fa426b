/**
 `UFract64`: a decimal fraction of sixteen places, one place in each four bits of a 64-bit
 word, the most significant place in the highest bits.
 */
module Decimal {
  import opened Bits
  import opened Division

  const DIGITS := 16
  const WORD := 0x1_0000_0000_0000_0000

  type Word = n: nat | n < WORD

  function Pow(base: nat, n: nat): (r: nat)
    requires base >= 1
    ensures r >= 1
  {
    if n == 0 then 1 else base * Pow(base, n - 1)
  }

  /** The number that digits spell in a base. */
  function Number(base: nat, ds: seq<nat>): nat {
    if ds == [] then 0 else base * Number(base, ds[..|ds| - 1]) + ds[|ds| - 1]
  }

  function Unpack(f: nat, n: nat): (ds: seq<nat>)
    ensures |ds| == n && forall d | d in ds :: d < 16
  {
    if n == 0 then [] else Unpack(f / 16, n - 1) + [f % 16]
  }

  predicate Below(ds: seq<nat>, base: nat) {
    forall d | d in ds :: d < base
  }

  function Zeros(n: nat): (ds: seq<nat>)
    ensures |ds| == n && Below(ds, 1)
  {
    seq(n, _ => 0)
  }

  // ----- Packing -----

  lemma {:induction false} UnpackNumber(ds: seq<nat>)
    requires Below(ds, 16)
    ensures Unpack(Number(16, ds), |ds|) == ds
  {
    if ds == [] {
    } else {
      var init := ds[..|ds| - 1];
      assert ds[|ds| - 1] in ds && ds == init + [ds[|ds| - 1]];
      assert forall d | d in init :: d in ds;
      UnpackNumber(init);
    }
  }

  lemma {:induction false} NumberUnpack(f: nat, n: nat)
    requires f < Pow(16, n)
    ensures Number(16, Unpack(f, n)) == f
  {
    if n == 0 {
    } else {
      NumberUnpack(f / 16, n - 1);
      assert Unpack(f, n)[..n - 1] == Unpack(f / 16, n - 1);
    }
  }

  lemma {:induction false} NumberBound(base: nat, ds: seq<nat>)
    requires base >= 1 && Below(ds, base)
    ensures Number(base, ds) < Pow(base, |ds|)
  {
    if ds == [] {
    } else {
      var init := ds[..|ds| - 1];
      assert ds[|ds| - 1] in ds && forall d | d in init :: d in ds;
      NumberBound(base, init);
      BoundStep(base, Number(base, init), ds[|ds| - 1], Pow(base, |init|));
    }
  }

  lemma BoundStep(base: nat, m: nat, d: nat, p: nat)
    requires m < p && d < base
    ensures base * m + d < base * p
  {
    MulMono(base, m + 1, p);
  }

  lemma MulMono(a: nat, x: nat, y: nat)
    requires x <= y
    ensures a * x <= a * y
  {
    assert a * y == a * x + a * (y - x);
  }

  lemma WordIsSixteenDigits()
    ensures Pow(16, DIGITS) == WORD
  {
    assert Pow(16, 4) == 0x1_0000;
    assert Pow(16, 8) == 0x1_0000_0000;
    assert Pow(16, 12) == 0x1_0000_0000_0000;
  }

  /** `digit`: the place at an index, counted from the most significant. */
  function Digit(f: nat, i: nat): nat
    requires i < DIGITS
  {
    f / Pow(16, DIGITS - 1 - i) % 16
  }

  lemma {:induction false} UnpackAt(f: nat, n: nat, i: nat)
    requires i < n
    ensures Unpack(f, n)[i] == f / Pow(16, n - 1 - i) % 16
    decreases n
  {
    if i == n - 1 {
    } else {
      UnpackAt(f / 16, n - 1, i);
      var p := Pow(16, n - 2 - i);
      DivDiv(f, p);
      assert Pow(16, n - 1 - i) == 16 * p;
    }
  }

  /** Dividing twice is dividing once. */
  lemma DivDiv(f: nat, p: nat)
    requires p >= 1
    ensures f / 16 / p == f / (16 * p)
  {
    var q, s := f / 16 / p, f / 16 % p;
    assert f / 16 == p * q + s;
    var r := 16 * s + f % 16;
    assert f == 16 * (p * q) + r;
    assert 16 * (p * q) == q * (16 * p);
    Quotient(f, 16 * p, q, r);
  }

  /** The low four bits of each digit. */
  function Masked(digits: seq<nat>): (ds: seq<nat>)
    ensures |ds| == |digits| && Below(ds, 16)
    ensures ds == digits <==> Below(digits, 16)
  {
    var ds := seq(|digits|, i requires 0 <= i < |digits| => digits[i] % 16);
    assert Below(digits, 16) ==> ds == digits by {
      assert forall i | 0 <= i < |digits| :: digits[i] in digits;
    }
    ds
  }

  /** `from_digits`: each digit masked and shifted into its four bits; the digits come back
      exactly when none needed the mask. */
  method FromDigits(digits: seq<nat>) returns (f: Word)
    requires |digits| == DIGITS
    ensures Unpack(f, DIGITS) == Masked(digits) && f == Number(16, Masked(digits))
    ensures Unpack(f, DIGITS) == digits <==> Below(digits, 16)
  {
    hide Number, Pow, Unpack;
    ghost var ds := Masked(digits);
    var fract, shift := 0, DIGITS;
    Ends(ds);
    for i := 0 to DIGITS
      invariant shift == DIGITS - i && fract == Number(16, ds[..i]) * Pow(16, shift)
    {
      shift := shift - 1;
      ShiftDigit(ds, i);
      fract := fract + digits[i] % 16 * Pow(16, shift);
    }
    assert ds[..DIGITS] == ds;
    NumberBound(16, ds);
    WordIsSixteenDigits();
    UnpackNumber(ds);
    f := fract;
  }

  lemma Ends(digits: seq<nat>)
    ensures Number(16, digits[..0]) == 0 && Pow(16, 0) == 1
  {
  }

  lemma ShiftDigit(digits: seq<nat>, i: nat)
    requires i < DIGITS == |digits|
    ensures Number(16, digits[..i]) * Pow(16, DIGITS - i) + digits[i] * Pow(16, DIGITS - i - 1)
         == Number(16, digits[..i + 1]) * Pow(16, DIGITS - i - 1)
  {
    var p, m := Pow(16, DIGITS - i - 1), Number(16, digits[..i]);
    assert digits[..i + 1][..i] == digits[..i];
    assert Number(16, digits[..i + 1]) == 16 * m + digits[i];
    assert m * (16 * p) == (16 * m) * p;
    assert (16 * m + digits[i]) * p == (16 * m) * p + digits[i] * p;
  }

  /** `to_digits`. */
  method ToDigits(f: Word) returns (digits: seq<nat>)
    ensures digits == Unpack(f, DIGITS) && Number(16, digits) == f
  {
    digits := [];
    for i := 0 to DIGITS
      invariant |digits| == i && digits == Unpack(f, DIGITS)[..i]
    {
      UnpackAt(f, DIGITS, i);
      digits := digits + [Digit(f, i)];
    }
    WordIsSixteenDigits();
    NumberUnpack(f, DIGITS);
  }

  // ----- One digit -----

  /** `set_digit`: the four bits of the place are masked out and the digit is or-ed in, shifted to
      its place; what is beyond the word is lost.  The index counts from the other end. */
  function SetDigit(f: Word, i: nat, digit: nat): nat
    requires i < DIGITS && digit < 256
  {
    DigitFits(f, Pow(16, i));
    Or(f - f / Pow(16, i) % 16 * Pow(16, i), digit * Pow(16, i) % WORD)
  }

  lemma DigitFits(f: nat, p: nat)
    requires p >= 1
    ensures f / p % 16 * p <= f
  {
    var q := f / p;
    assert p * q <= f;
    MulMono(p, q % 16, q);
  }

  lemma {:induction false} NumberUpdate(ds: seq<nat>, k: nat, d: nat)
    requires k < |ds|
    ensures Number(16, ds[k := d]) == Number(16, ds) + (d - ds[k]) * Pow(16, |ds| - 1 - k)
  {
    var init := ds[..|ds| - 1];
    if k < |ds| - 1 {
      NumberUpdate(init, k, d);
      assert ds[k := d][..|ds| - 1] == init[k := d];
      var p := Pow(16, |init| - 1 - k);
      assert 16 * ((d - ds[k]) * p) == (d - ds[k]) * (16 * p);
    } else {
      assert ds[k := d][..|ds| - 1] == init;
    }
  }

  /** The places after a digit has been set: its low four bits are in the place, its high four
      bits have spilled into the next higher place, if there is one. */
  function Spilled(ds: seq<nat>, k: nat, digit: nat): (after: seq<nat>)
    requires k < |ds| && digit < 256 && Below(ds, 16)
    ensures |after| == |ds|
  {
    if k == 0 then ds[0 := digit % 16]
    else ds[k - 1 := Or(ds[k - 1], digit / 16)][k := digit % 16]
  }

  /** Setting a digit changes its place, and the one above it exactly when the digit does not fit
      and that place lacks one of its high bits.  But it is not the place that `digit` reads at
      that index: there a decimal digit is read exactly when it was there before. */
  lemma SetDigitMeans(f: Word, i: nat, digit: nat)
    requires i < DIGITS && digit < 256
    ensures SetDigit(f, i, digit) < WORD
    ensures Unpack(SetDigit(f, i, digit), DIGITS) == Spilled(Unpack(f, DIGITS), DIGITS - 1 - i, digit)
    ensures digit < 16 ==> Unpack(SetDigit(f, i, digit), DIGITS) == Unpack(f, DIGITS)[DIGITS - 1 - i := digit]
    ensures digit < 16 ==> Digit(SetDigit(f, i, digit), DIGITS - 1 - i) == digit
    ensures digit < 16 ==> (Digit(SetDigit(f, i, digit), i) == digit <==> Digit(f, i) == digit)
  {
    hide Number, Pow, Unpack, SetDigit, Or;
    var ds, k := Unpack(f, DIGITS), DIGITS - 1 - i;
    var after := Spilled(ds, k, digit);
    SetDigitNumber(f, i, digit);
    SpilledFits(ds, k, digit);
    WordIsSixteenDigits();
    UnpackAt(f, DIGITS, i);
    UnpackNumber(after);
    NumberBound(16, after);
    UnpackAt(Number(16, after), DIGITS, k);
    UnpackAt(Number(16, after), DIGITS, i);
  }

  lemma SpilledFits(ds: seq<nat>, k: nat, digit: nat)
    requires k < |ds| && digit < 256 && Below(ds, 16)
    ensures Below(Spilled(ds, k, digit), 16)
    ensures digit < 16 ==> Spilled(ds, k, digit) == ds[k := digit]
  {
    hide Or;
    var after := Spilled(ds, k, digit);
    if k > 0 {
      assert ds[k - 1] in ds;
      OrNibble(0, 0, ds[k - 1], digit / 16);
    }
    forall d | d in after ensures d < 16 {
      var j :| 0 <= j < |after| && after[j] == d;
      assert ds[j] in ds;
    }
    if k > 0 {
      OrZero(ds[k - 1]);
      assert ds[k - 1 := ds[k - 1]] == ds;
    }
  }

  lemma SetDigitNumber(f: Word, i: nat, digit: nat)
    requires i < DIGITS && digit < 256
    ensures SetDigit(f, i, digit) == Number(16, Spilled(Unpack(f, DIGITS), DIGITS - 1 - i, digit))
  {
    hide Number, Pow, Unpack, Or;
    var ds, k := Unpack(f, DIGITS), DIGITS - 1 - i;
    MaskedNumber(f, i);
    PlacedNumber(i, digit);
    var kept, placed := ds[k := 0], Placed(k, digit);
    OrNumber(kept, placed);
    OrPlaces(ds, k, digit);
  }

  lemma MaskedNumber(f: Word, i: nat)
    requires i < DIGITS
    ensures f / Pow(16, i) % 16 * Pow(16, i) <= f
    ensures f - f / Pow(16, i) % 16 * Pow(16, i) == Number(16, Unpack(f, DIGITS)[DIGITS - 1 - i := 0])
    ensures Below(Unpack(f, DIGITS)[DIGITS - 1 - i := 0], 16)
  {
    hide Number, Pow, Unpack;
    var ds, k := Unpack(f, DIGITS), DIGITS - 1 - i;
    DigitFits(f, Pow(16, i));
    WordIsSixteenDigits();
    NumberUnpack(f, DIGITS);
    UnpackAt(f, DIGITS, k);
    NumberUpdate(ds, k, 0);
    Subtract(0, ds[k], Pow(16, i));
    var kept := ds[k := 0];
    forall d | d in kept ensures d < 16 {
      var j :| 0 <= j < |kept| && kept[j] == d;
      assert ds[j] in ds;
    }
  }

  /** The digit alone, at its place. */
  function Placed(k: nat, digit: nat): (ds: seq<nat>)
    requires k < DIGITS && digit < 256
    ensures |ds| == DIGITS && Below(ds, 16)
  {
    if k == 0 then Zeros(DIGITS)[0 := digit % 16] else Zeros(DIGITS)[k - 1 := digit / 16][k := digit % 16]
  }

  lemma PlacedNumber(i: nat, digit: nat)
    requires i < DIGITS && digit < 256
    ensures digit * Pow(16, i) % WORD == Number(16, Placed(DIGITS - 1 - i, digit))
  {
    hide Number, Pow, Below, Placed;
    WordIsSixteenDigits();
    NumberBound(16, Placed(DIGITS - 1 - i, digit));
    SplitDigit(digit, Pow(16, i));
    NextPower(i);
    if i == DIGITS - 1 {
      PlacedTop(digit);
      Quotient(digit * Pow(16, i), WORD, digit / 16, digit % 16 * Pow(16, i));
    } else {
      PlacedInside(i, digit);
    }
  }

  lemma NextPower(i: nat)
    ensures Pow(16, i + 1) == 16 * Pow(16, i)
  {
  }

  lemma PlacedTop(digit: nat)
    requires digit < 256
    ensures Number(16, Placed(0, digit)) == digit % 16 * Pow(16, DIGITS - 1)
  {
    hide Number, Pow, Below;
    ZerosNumber(DIGITS);
    NumberUpdate(Zeros(DIGITS), 0, digit % 16);
  }

  lemma PlacedInside(i: nat, digit: nat)
    requires i < DIGITS - 1 && digit < 256
    ensures Number(16, Placed(DIGITS - 1 - i, digit)) == digit / 16 * Pow(16, i + 1) + digit % 16 * Pow(16, i)
  {
    hide Number, Pow, Below;
    var k, zeros := DIGITS - 1 - i, Zeros(DIGITS);
    ZerosNumber(DIGITS);
    NumberUpdate(zeros, k - 1, digit / 16);
    var once := zeros[k - 1 := digit / 16];
    assert once[k] == 0;
    NumberUpdate(once, k, digit % 16);
  }

  lemma SplitDigit(digit: nat, p: nat)
    ensures digit * p == digit % 16 * p + digit / 16 * (16 * p)
  {
    var low, high := digit % 16, digit / 16;
    assert (16 * high + low) * p == high * (16 * p) + low * p;
  }

  lemma {:induction false} ZerosNumber(n: nat)
    ensures Number(16, Zeros(n)) == 0
  {
    if n == 0 {
    } else {
      ZerosNumber(n - 1);
      assert Zeros(n)[..n - 1] == Zeros(n - 1);
    }
  }

  function OrAll(a: seq<nat>, b: seq<nat>): (ds: seq<nat>)
    requires |a| == |b|
    ensures |ds| == |a| && forall j | 0 <= j < |a| :: ds[j] == Or(a[j], b[j])
  {
    seq(|a|, j requires 0 <= j < |a| => Or(a[j], b[j]))
  }

  /** The or of two packed words, place by place. */
  lemma {:induction false} OrNumber(a: seq<nat>, b: seq<nat>)
    requires |a| == |b| && Below(a, 16) && Below(b, 16)
    ensures Or(Number(16, a), Number(16, b)) == Number(16, OrAll(a, b))
  {
    if a == [] {
      OrZero(0);
    } else {
      var n := |a| - 1;
      InitBelow(a);
      InitBelow(b);
      NumberLast(a);
      NumberLast(b);
      NumberLast(OrAll(a, b));
      OrAllInit(a, b);
      hide Number, Or, OrAll, Below;
      OrNumber(a[..n], b[..n]);
      OrNibble(Number(16, a[..n]), Number(16, b[..n]), a[n], b[n]);
    }
  }

  lemma InitBelow(ds: seq<nat>)
    requires ds != [] && Below(ds, 16)
    ensures Below(ds[..|ds| - 1], 16) && ds[|ds| - 1] < 16
  {
    var init := ds[..|ds| - 1];
    assert ds[|ds| - 1] in ds;
    forall d | d in init ensures d < 16 {
      assert d in ds;
    }
  }

  lemma OrAllInit(a: seq<nat>, b: seq<nat>)
    requires |a| == |b| > 0
    ensures OrAll(a, b)[..|a| - 1] == OrAll(a[..|a| - 1], b[..|a| - 1])
    ensures OrAll(a, b)[|a| - 1] == Or(a[|a| - 1], b[|a| - 1])
  {
    hide Or;
  }

  lemma NumberLast(ds: seq<nat>)
    requires ds != []
    ensures Number(16, ds) == 16 * Number(16, ds[..|ds| - 1]) + ds[|ds| - 1]
  {
  }

  lemma OrPlaces(ds: seq<nat>, k: nat, digit: nat)
    requires k < DIGITS == |ds| && Below(ds, 16) && digit < 256
    ensures OrAll(ds[k := 0], Placed(k, digit)) == Spilled(ds, k, digit)
  {
    hide Or;
    var kept, placed := ds[k := 0], Placed(k, digit);
    forall j | 0 <= j < DIGITS ensures OrAll(kept, placed)[j] == Spilled(ds, k, digit)[j] {
      OrZero(ds[j]);
      OrZero(placed[j]);
    }
  }

  lemma Subtract(a: nat, b: nat, p: nat)
    ensures (a - b) * p == a * p - b * p
  {
  }

  // ----- Multiplication -----

  const WIDE := WORD * WORD

  /** What the places spell, in units of the last one; a whole is ten to the sixteenth. */
  ghost function Spelled(f: Word): nat {
    Number(10, Unpack(f, DIGITS))
  }

  const ONE := 10_000_000_000_000_000

  /** The integer part of the exact product. */
  ghost function Product(f: Word, other: Word): nat {
    Scaled(other, Spelled(f))
  }

  function Scaled(other: nat, v: nat): nat {
    other * v / ONE
  }

  /** What the loop has summed up after `i` places. */
  ghost function Sum(ds: seq<nat>, other: nat, i: nat): nat
    requires i <= DIGITS == |ds|
  {
    other * Number(10, ds[..i]) * Pow(10, DIGITS + 1 - i)
  }

  /** `mul`: the product is the integer part of the exact one, as far as it fits 64 bits.  The
      sum fits the 128 bits it is computed in. */
  method Mul(f: Word, other: Word) returns (r: Word)
    ensures r == Product(f, other) % WORD
  {
    if f == 0 || other == 0 {
      ZeroProduct(f, other);
      return 0;
    }
    hide Number, Pow, Unpack, Sum, Digit, Scaled;
    ghost var ds := Unpack(f, DIGITS);
    var result := 0;
    SumStart(ds, other);
    for i := 0 to DIGITS
      invariant result == Sum(ds, other, i) < WIDE
    {
      DigitIs(f, i);
      SumNext(ds, other, i);
      SumFits(ds, other, i + 1);
      if Digit(f, i) != 0 {
        result := result + other * Digit(f, i) * Pow(10, DIGITS - i);
      }
    }
    SumEnd(ds, other);
    r := result / Pow(10, DIGITS + 1) % WORD;
  }

  lemma DigitIs(f: nat, i: nat)
    requires i < DIGITS
    ensures Digit(f, i) == Unpack(f, DIGITS)[i]
  {
    UnpackAt(f, DIGITS, i);
  }

  lemma ZeroProduct(f: Word, other: Word)
    requires f == 0 || other == 0
    ensures Product(f, other) == 0
  {
    if f == 0 {
      ZeroDigits(DIGITS);
    }
  }

  lemma {:induction false} ZeroDigits(n: nat)
    ensures Number(10, Unpack(0, n)) == 0
  {
    if n == 0 {
    } else {
      ZeroDigits(n - 1);
      assert Unpack(0, n)[..n - 1] == Unpack(0, n - 1);
    }
  }

  lemma SumStart(ds: seq<nat>, other: nat)
    requires |ds| == DIGITS
    ensures Sum(ds, other, 0) == 0
  {
    assert Number(10, ds[..0]) == 0;
  }

  lemma SumNext(ds: seq<nat>, other: nat, i: nat)
    requires i < DIGITS == |ds|
    ensures Sum(ds, other, i + 1) == Sum(ds, other, i) + other * ds[i] * Pow(10, DIGITS - i)
    ensures ds[i] == 0 ==> Sum(ds, other, i + 1) == Sum(ds, other, i)
  {
    var m, p := Number(10, ds[..i]), Pow(10, DIGITS - i);
    assert ds[..i + 1][..i] == ds[..i];
    assert Number(10, ds[..i + 1]) == 10 * m + ds[i] && Pow(10, DIGITS + 1 - i) == 10 * p;
    Distribute(other, m, ds[i], p);
  }

  lemma SumEnd(ds: seq<nat>, other: nat)
    requires |ds| == DIGITS
    ensures Sum(ds, other, DIGITS) / Pow(10, DIGITS + 1) == Scaled(other, Number(10, ds))
  {
    assert ds[..DIGITS] == ds && Pow(10, 1) == 10;
    PowersOfTen();
  }

  lemma Distribute(a: nat, m: nat, d: nat, p: nat)
    ensures a * m * (10 * p) + a * d * p == a * (10 * m + d) * p
  {
    assert a * m * (10 * p) == 10 * (a * m) * p;
    assert a * (10 * m + d) == 10 * (a * m) + a * d;
  }

  lemma SumFits(ds: seq<nat>, other: Word, i: nat)
    requires |ds| == DIGITS && Below(ds, 16) && i <= DIGITS
    ensures Sum(ds, other, i) < WIDE
  {
    PlacesFit(ds, i);
    PowersOfTen();
    hide Number, Pow;
    Associate(other, Number(10, ds[..i]), Pow(10, DIGITS + 1 - i));
    MulMono(other, Number(10, ds[..i]) * Pow(10, DIGITS + 1 - i), 200_000_000_000_000_000);
  }

  lemma Associate(a: nat, b: nat, c: nat)
    ensures a * b * c == a * (b * c)
  {
  }

  lemma PowersOfTen()
    ensures Pow(10, 4) == 10_000 && Pow(10, DIGITS) == 10_000_000_000_000_000
    ensures Pow(10, DIGITS + 1) == 100_000_000_000_000_000 && Pow(10, DIGITS - 1) == 1_000_000_000_000_000
  {
    assert Pow(10, 8) == 100_000_000;
    assert Pow(10, 12) == 1_000_000_000_000;
  }

  lemma OnePlace(d: nat, n: nat)
    requires d < 16
    ensures 1 * d * Pow(10, n) <= 15 * Pow(10, n) && Pow(10, n + 1) == 10 * Pow(10, n)
  {
    MulMono(Pow(10, n), d, 15);
  }

  /** Sixteen places of at most fifteen each are less than two in units of the first place. */
  lemma {:induction false} PlacesFit(ds: seq<nat>, i: nat)
    requires |ds| == DIGITS && Below(ds, 16) && i <= DIGITS
    ensures Sum(ds, 1, i) <= 2 * Pow(10, DIGITS + 1) - 2 * Pow(10, DIGITS + 1 - i)
  {
    hide Number, Pow, Sum;
    if i > 0 {
      PlacesFit(ds, i - 1);
      SumNext(ds, 1, i - 1);
      assert ds[i - 1] in ds;
      OnePlace(ds[i - 1], DIGITS + 1 - i);
    } else {
      SumStart(ds, 1);
    }
  }

  /** What is returned is smaller than the factor exactly when the places spell less than one, or
      the product does not fit and is cut.  Decimal places always spell less than one. */
  lemma MulShrinks(f: Word, other: Word)
    requires other > 0
    ensures Product(f, other) < other <==> Spelled(f) < ONE
    ensures Product(f, other) % WORD < other <==> Spelled(f) < ONE || Product(f, other) >= WORD
    ensures Below(Unpack(f, DIGITS), 10) ==> Spelled(f) < ONE
  {
    if Below(Unpack(f, DIGITS), 10) {
      NumberBound(10, Unpack(f, DIGITS));
      PowersOfTen();
    }
    LessThanTwo(f);
    hide Spelled;
    ScaledBounds(other, Spelled(f));
    Cut(Product(f, other), other);
  }

  lemma ScaledBounds(other: nat, v: nat)
    requires other > 0 && v < 2 * ONE
    ensures Scaled(other, v) < 2 * other && (Scaled(other, v) < other <==> v < ONE)
  {
    MulMono(other, v + 1, 2 * ONE);
    if v < ONE {
      MulMono(other, v + 1, ONE);
    } else {
      MulMono(other, ONE, v);
    }
  }

  lemma Cut(q: nat, other: Word)
    requires q < 2 * other
    ensures q < WORD ==> q % WORD == q
    ensures q >= WORD ==> q % WORD == q - WORD < other
  {
  }

  lemma LessThanTwo(f: Word)
    ensures Spelled(f) < 2 * ONE
  {
    hide Number, Unpack;
    var ds := Unpack(f, DIGITS);
    PlacesFit(ds, DIGITS);
    PowersOfTen();
    assert Pow(10, 1) == 10 && ds[..DIGITS] == ds;
  }

  /** A fraction whose only place is ten gives every number back. */
  lemma NotShrinking(other: Word)
    ensures 10 * Pow(16, DIGITS - 1) < WORD && Product(10 * Pow(16, DIGITS - 1), other) == other
  {
    FirstPlace(10);
    hide Spelled;
  }

  /** A fraction whose only place is fifteen makes one and a half of a number, and less than the
      largest one of that. */
  lemma CutShrinks()
    ensures 15 * Pow(16, DIGITS - 1) < WORD
    ensures Product(15 * Pow(16, DIGITS - 1), WORD - 1) % WORD < WORD - 1
    ensures Spelled(15 * Pow(16, DIGITS - 1)) == ONE + ONE / 2
  {
    FirstPlace(15);
    hide Spelled, Pow;
  }

  lemma FirstPlace(d: nat)
    requires d < 16
    ensures d * Pow(16, DIGITS - 1) < WORD
    ensures Spelled(d * Pow(16, DIGITS - 1)) == d * (ONE / 10)
  {
    AppendZeros([d], DIGITS - 1);
    WordIsSixteenDigits();
    UnpackNumber([d] + Zeros(DIGITS - 1));
    NumberBound(16, [d] + Zeros(DIGITS - 1));
    assert Number(10, [d]) == 10 * Number(10, []) + d;
    assert Number(16, [d]) == 16 * Number(16, []) + d;
    PowersOfTen();
  }

  lemma {:induction false} AppendZeros(ds: seq<nat>, n: nat)
    ensures forall base: nat | base >= 1 :: Number(base, ds + Zeros(n)) == Number(base, ds) * Pow(base, n)
  {
    if n == 0 {
      assert ds + Zeros(0) == ds;
    } else {
      AppendZeros(ds, n - 1);
      assert (ds + Zeros(n))[..|ds| + n - 1] == ds + Zeros(n - 1);
      forall base: nat | base >= 1
        ensures Number(base, ds + Zeros(n)) == Number(base, ds) * Pow(base, n)
      {
        Associate(Number(base, ds), base, Pow(base, n - 1));
      }
    }
  }

  // ----- Text -----

  datatype Parsed = Ok(f: Word) | Err | Panic

  predicate IsDigit(c: char) {
    '0' <= c <= '9'
  }

  predicate AllDigits(s: string) {
    forall i | 0 <= i < |s| :: IsDigit(s[i])
  }

  /** `to_string`: a place above nine gives one of the characters after the digits. */
  function ToText(f: Word): string {
    var ds := Unpack(f, DIGITS);
    "0." + seq(DIGITS, i requires 0 <= i < DIGITS => ('0' as int + (assert ds[i] in ds; ds[i])) as char)
  }

  function Stripped(s: string): string {
    if |s| > 2 && s[..2] == "0." then s[2..] else s
  }

  /** The digits of a text, with zeros for the missing places. */
  function Places(s: string): (ds: seq<nat>)
    requires |s| <= DIGITS && AllDigits(s)
    ensures |ds| == DIGITS && Below(ds, 10)
  {
    seq(DIGITS, i requires 0 <= i < DIGITS => if i < |s| then s[i] as int - '0' as int else 0)
  }

  /** What a text stands for.  Up to sixteen digits are read; a seventeenth digit is written
      past the end of the array, which panics. */
  ghost function Parse(text: string): Parsed {
    var s := Stripped(text);
    if |s| <= DIGITS && AllDigits(s) then Ok(PackPlaces(Places(s)))
    else if |s| > DIGITS && AllDigits(s[..DIGITS + 1]) then Panic
    else Err
  }

  function PackPlaces(ds: seq<nat>): (f: Word)
    requires |ds| == DIGITS && Below(ds, 16)
    ensures f == Number(16, ds)
  {
    NumberBound(16, ds);
    WordIsSixteenDigits();
    Number(16, ds)
  }

  /** Seventeen digits panic instead of being an error. */
  lemma SeventeenDigits()
    ensures Parse("0.00000000000000000") == Panic
  {
    var s := Stripped("0.00000000000000000");
    assert s == "00000000000000000";
  }

  /** `from_str`. */
  method FromStr(text: string) returns (r: Parsed)
    ensures r == Parse(text)
  {
    hide Number, Pow, Unpack;
    var s := text;
    if |s| > 2 && s[..2] == "0." {
      s := s[2..];
    }
    var digits := seq(DIGITS, _ => 0);
    for i := 0 to |s|
      invariant i <= DIGITS && AllDigits(s[..i])
      invariant |digits| == DIGITS
      invariant forall k | 0 <= k < DIGITS :: digits[k] == if k < i then s[k] as int - '0' as int else 0
    {
      if i > DIGITS || !IsDigit(s[i]) {
        assert i <= DIGITS && !IsDigit(s[..i + 1][i]);
        NotDigits(s, i);
        return Err;
      }
      if i == DIGITS {
        return Panic;
      }
      digits := digits[i := s[i] as int - '0' as int];
    }
    assert s[..|s|] == s && digits == Places(s);
    var f := FromDigits(digits);
    r := Ok(f);
  }

  lemma NotDigits(s: string, i: nat)
    requires i < |s| && i <= DIGITS && !IsDigit(s[i])
    ensures !AllDigits(s) && (|s| > DIGITS ==> !AllDigits(s[..DIGITS + 1]))
  {
    if |s| > DIGITS {
      assert !IsDigit(s[..DIGITS + 1][i]);
    }
  }

  /** A fraction is read back from its text exactly when all its places are decimal. */
  lemma ParseText(f: Word)
    ensures Parse(ToText(f)) == Ok(f) <==> Below(Unpack(f, DIGITS), 10)
  {
    hide Number, Pow, Unpack;
    var ds, s := Unpack(f, DIGITS), ToText(f)[2..];
    assert Stripped(ToText(f)) == s;
    forall i | 0 <= i < DIGITS ensures s[i] as int == '0' as int + ds[i] {
      assert ds[i] in ds && s[i] == ToText(f)[i + 2];
    }
    WordIsSixteenDigits();
    NumberUnpack(f, DIGITS);
    if Below(ds, 10) {
      assert forall i | 0 <= i < DIGITS :: ds[i] in ds;
      assert Places(s) == ds;
    } else {
      var d :| d in ds && d >= 10;
      var i :| 0 <= i < DIGITS && ds[i] == d;
      assert !IsDigit(s[i]);
    }
  }

  /** The text of what was read is what was read, with the zero in front and the missing places
      filled in. */
  lemma TextParse(text: string)
    requires Parse(text).Ok?
    ensures var s := Stripped(text);
            |s| <= DIGITS && ToText(Parse(text).f) == "0." + s + seq(DIGITS - |s|, _ => '0')
  {
    hide Number, Pow, Unpack;
    var s := Stripped(text);
    UnpackNumber(Places(s));
    var shown := ToText(Parse(text).f);
    var wanted := "0." + s + seq(DIGITS - |s|, _ => '0');
    assert Unpack(Parse(text).f, DIGITS) == Places(s);
    forall i | 2 <= i < DIGITS + 2 ensures shown[i] == wanted[i] {
      assert shown[i] as int == '0' as int + Places(s)[i - 2];
      assert wanted[i] == if i - 2 < |s| then s[i - 2] else '0';
    }
    assert shown[..2] == wanted[..2];
  }
}
