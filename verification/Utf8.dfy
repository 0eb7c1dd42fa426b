/** Text in the encoding UTF-8 (RFC 3629). */
module Utf8 {
  import opened Bytes

  // ----- The encoding (section 3) -----

  /** A character number; the surrogates are not characters. */
  type Scalar = c: int | 0 <= c < 0x11_0000 && !(0xD800 <= c < 0xE000)

  /** The low six bits of a number, marked as a continuation. */
  function Continuation(n: nat): Byte {
    0x80 + n % 0x40
  }

  function Encode(c: Scalar): (r: seq<Byte>)
    ensures 1 <= |r| <= 4
  {
    if c < 0x80 then [c]
    else if c < 0x800 then [0xC0 + c / 0x40, Continuation(c)]
    else if c < 0x1_0000 then [0xE0 + c / 0x1000, Continuation(c / 0x40), Continuation(c)]
    else [0xF0 + c / 0x4_0000, Continuation(c / 0x1000), Continuation(c / 0x40), Continuation(c)]
  }

  function EncodeAll(text: seq<Scalar>): seq<Byte> {
    if text == [] then [] else Encode(text[0]) + EncodeAll(text[1..])
  }

  // ----- The check (section 4) -----

  predicate Continues(s: seq<Byte>, n: nat) {
    n < |s| && forall k | 1 <= k <= n :: 0x80 <= s[k] < 0xC0
  }

  /** The length of the character at the front, zero when it is malformed. */
  function CharLength(s: seq<Byte>): (n: nat)
    requires s != []
    ensures n <= |s|
  {
    var b := s[0];
    if b < 0x80 then 1
    else if 0xC2 <= b < 0xE0 && Continues(s, 1) then 2
    else if 0xE0 <= b < 0xF0 && Continues(s, 2) && (b == 0xE0 ==> s[1] >= 0xA0) && (b == 0xED ==> s[1] < 0xA0) then 3
    else if 0xF0 <= b < 0xF5 && Continues(s, 3) && (b == 0xF0 ==> s[1] >= 0x90) && (b == 0xF4 ==> s[1] < 0x90) then 4
    else 0
  }

  predicate ValidUtf8(s: seq<Byte>)
    decreases |s|
  {
    s == [] || (var n := CharLength(s); n > 0 && ValidUtf8(s[n..]))
  }

  // ----- The check accepts what the encoding makes -----

  /** The character at the front. */
  lemma CharAtFront(s: seq<Byte>) returns (c: Scalar)
    requires s != [] && CharLength(s) > 0
    ensures Encode(c) == s[..CharLength(s)]
  {
    var n := CharLength(s);
    var lead: int := s[0];
    if n == 1 {
      c := lead;
    } else {
      var x: int := s[1] - 0x80;
      if n == 2 {
        c := Group(lead - 0xC0, x);
      } else {
        var y: int := s[2] - 0x80;
        if n == 3 {
          c := Group(Group(lead - 0xE0, x), y);
          Shifts(c);
        } else {
          c := Group(Group(Group(lead - 0xF0, x), y), s[3] - 0x80);
          Shifts(c);
        }
      }
    }
  }

  /** Six more bits. */
  function Group(high: nat, low: nat): (r: nat)
    requires low < 0x40
    ensures r == 0x40 * high + low && r / 0x40 == high && r % 0x40 == low
  {
    0x40 * high + low
  }

  lemma Shifts(c: nat)
    ensures c / 0x1000 == c / 0x40 / 0x40 && c / 0x4_0000 == c / 0x40 / 0x40 / 0x40
  {
    var a := c / 0x40;
    var b := a / 0x40;
    assert c / 0x1000 == b;
    assert c / 0x4_0000 == b / 0x40;
  }

  lemma EncodedLength(c: Scalar, rest: seq<Byte>)
    ensures CharLength(Encode(c) + rest) == |Encode(c)|
  {
    var s := Encode(c) + rest;
    assert forall k | 0 <= k < |Encode(c)| :: s[k] == Encode(c)[k];
  }

  lemma {:induction false} ValidIsEncoded(s: seq<Byte>) returns (text: seq<Scalar>)
    requires ValidUtf8(s)
    ensures EncodeAll(text) == s
    decreases |s|
  {
    hide CharLength, Encode;
    if s == [] {
      text := [];
    } else {
      var c := CharAtFront(s);
      var rest := ValidIsEncoded(s[CharLength(s)..]);
      text := [c] + rest;
      assert text[1..] == rest;
    }
  }

  lemma {:induction false} EncodedIsValid(text: seq<Scalar>)
    ensures ValidUtf8(EncodeAll(text))
  {
    hide CharLength, Encode;
    if text == [] {
    } else {
      var first, rest := Encode(text[0]), EncodeAll(text[1..]);
      EncodedLength(text[0], rest);
      EncodedIsValid(text[1..]);
      assert (first + rest)[|first|..] == rest;
    }
  }

  /** The check accepts exactly the bytes that encode some text. */
  lemma ValidUtf8Exactly(s: seq<Byte>)
    ensures ValidUtf8(s) <==> exists text: seq<Scalar> :: EncodeAll(text) == s
  {
    if ValidUtf8(s) {
      var text := ValidIsEncoded(s);
    }
    forall text: seq<Scalar> | EncodeAll(text) == s ensures ValidUtf8(s) {
      EncodedIsValid(text);
    }
  }

  /** Different texts have different bytes. */
  lemma {:induction false} EncodeAllInjective(a: seq<Scalar>, b: seq<Scalar>)
    requires EncodeAll(a) == EncodeAll(b)
    ensures a == b
  {
    hide CharLength, Encode;
    if a == [] || b == [] {
    } else {
      var x, y := Encode(a[0]), Encode(b[0]);
      EncodedLength(a[0], EncodeAll(a[1..]));
      EncodedLength(b[0], EncodeAll(b[1..]));
      assert EncodeAll(a)[..|x|] == x && EncodeAll(b)[..|y|] == y;
      assert EncodeAll(a)[|x|..] == EncodeAll(a[1..]) && EncodeAll(b)[|y|..] == EncodeAll(b[1..]);
      EncodeInjective(a[0], b[0]);
      EncodeAllInjective(a[1..], b[1..]);
      assert a == [a[0]] + a[1..] && b == [b[0]] + b[1..];
    }
  }

  lemma EncodeInjective(c: Scalar, d: Scalar)
    requires Encode(c) == Encode(d)
    ensures c == d
  {
    var x, y := Encode(c), Encode(d);
    var n := |x|;
    assert x[0] == y[0] && x[n - 1] == y[n - 1] && (n > 2 ==> x[1] == y[1]) && (n > 3 ==> x[2] == y[2]);
    Shifts(c);
    Shifts(d);
  }
}
