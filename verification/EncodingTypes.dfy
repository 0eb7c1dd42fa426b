/**
 Field types of the binary format and the values they hold.  Fixed-size fields are written in
 place.  Every other field is an eight-byte header, the position and the item count of a
 segment that lies further on in the buffer.
 */
module EncodingTypes {
  import opened Bits
  import opened Bytes
  import opened Division

  type Size = n: nat | 1 <= n witness 1
  type Uint16 = n: nat | n < 0x1_0000

  const U32 := 0x1_0000_0000
  const NANOS := 1_000_000_000
  const MAX_SECONDS := 0x8000_0000_0000_0000

  datatype Type =
    | Bool
    | Uint(size: Size)
    | Int(size: Size)
    | Pod(size: Size)
    | Time
    | Addr
    | Str
    | Blob(itemSize: Size)
    | Bits
    | Raw
    | Struct(fields: seq<Type>)
    | Message(service: Uint16, id: Uint16, fields: seq<Type>)
    | List(item: Type)

  /** A structure or a message is held as its bytes; its fields are read from them. */
  datatype Value =
    | VBool(b: bool)
    | VUint(n: nat)
    | VInt(i: int)
    | VTime(secs: nat, nanos: nat)
    | VAddr(octets: seq<Byte>, port: nat)
    | VBytes(bytes: seq<Byte>)
    | VBits(bits: seq<bool>)
    | VList(items: seq<Value>)

  predicate Fixed(t: Type) {
    t.Bool? || t.Uint? || t.Int? || t.Pod? || t.Time? || t.Addr?
  }

  function FieldSize(t: Type): (r: nat)
    ensures r >= 1
  {
    match t
    case Bool => 1
    case Uint(size) => size
    case Int(size) => size
    case Pod(size) => size
    case Time => 12
    case Addr => 6
    case _ => 8
  }

  /** Bytes per item of a segment. */
  function ItemSize(t: Type): (r: nat)
    ensures r >= 1
  {
    match t
    case Blob(size) => size
    case List(item) => FieldSize(item)
    case _ => 1
  }

  /** Bytes of the headers of a list of fields. */
  function HeaderSize(ts: seq<Type>): nat {
    if ts == [] then 0 else FieldSize(ts[0]) + HeaderSize(ts[1..])
  }

  function Rank(t: Type): nat {
    match t
    case Struct(fields) => 1 + RankAll(fields)
    case Message(_, _, fields) => 1 + RankAll(fields)
    case List(item) => 1 + Rank(item)
    case _ => 0
  }

  function RankAll(ts: seq<Type>): nat {
    if ts == [] then 0
    else if Rank(ts[0]) < RankAll(ts[1..]) then RankAll(ts[1..])
    else Rank(ts[0])
  }

  /** The items of a list are fields of one type. */
  function Repeat(item: Type, n: nat): (ts: seq<Type>)
    ensures |ts| == n && RankAll(ts) <= Rank(item)
  {
    if n == 0 then [] else
      var rest := Repeat(item, n - 1);
      assert ([item] + rest)[1..] == rest;
      [item] + rest
  }

  lemma {:induction false} RepeatSize(item: Type, n: nat)
    ensures HeaderSize(Repeat(item, n)) == n * FieldSize(item)
  {
    if n == 0 {
    } else {
      RepeatSize(item, n - 1);
      assert Repeat(item, n) == [item] + Repeat(item, n - 1);
    }
  }

  // ----- Fixed-size fields -----

  ghost predicate FixedFits(t: Type, v: Value)
    requires Fixed(t)
  {
    match t
    case Bool => v.VBool?
    case Uint(size) => v.VUint? && v.n < Pow256(size)
    case Int(size) => v.VInt? && 0 <= v.i + Pow256(size) / 2 < Pow256(size)
    case Pod(size) => v.VBytes? && |v.bytes| == size
    case Time => v.VTime? && v.secs < MAX_SECONDS && v.nanos < NANOS
    case Addr => v.VAddr? && |v.octets| == 4 && v.port < 0x1_0000
  }

  /** `Field::write` of the fixed-size types; signed numbers in two's complement. */
  function StoreFixed(t: Type, v: Value): (r: seq<Byte>)
    requires Fixed(t) && FixedFits(t, v)
    ensures |r| == FieldSize(t)
  {
    match t
    case Bool => [if v.b then 1 else 0]
    case Uint(size) => StoreLE(v.n, size)
    case Int(size) => StoreLE(if v.i < 0 then v.i + Pow256(size) else v.i, size)
    case Pod(size) => v.bytes
    case Time => StoreLE(v.secs, 8) + StoreLE(v.nanos, 4)
    case Addr => v.octets + StoreLE(v.port, 2)
  }

  /** `Field::read` of the fixed-size types.  A time is the sum of its two parts. */
  function LoadFixed(t: Type, s: seq<Byte>): Value
    requires Fixed(t) && |s| == FieldSize(t)
  {
    match t
    case Bool => VBool(s[0] == 1)
    case Uint(size) => VUint(LoadLE(s))
    case Int(size) => VInt(if LoadLE(s) < Pow256(size) / 2 then LoadLE(s) else LoadLE(s) - Pow256(size))
    case Pod(size) => VBytes(s)
    case Time => VTime(LoadLE(s[..8]) + LoadLE(s[8..]) / NANOS, LoadLE(s[8..]) % NANOS)
    case Addr => VAddr(s[..4], LoadLE(s[4..]))
  }

  lemma FixedRoundTrip(t: Type, v: Value)
    requires Fixed(t) && FixedFits(t, v)
    ensures LoadFixed(t, StoreFixed(t, v)) == v
  {
    Pow256Values();
    match t
    case Bool =>
    case Uint(size) => LoadStore(v.n, size);
    case Int(size) => LoadStore(if v.i < 0 then v.i + Pow256(size) else v.i, size);
    case Pod(size) =>
    case Time =>
      LoadStore(v.secs, 8);
      LoadStore(v.nanos, 4);
      assert StoreFixed(t, v)[..8] == StoreLE(v.secs, 8) && StoreFixed(t, v)[8..] == StoreLE(v.nanos, 4);
    case Addr =>
      LoadStore(v.port, 2);
      assert StoreFixed(t, v)[..4] == v.octets && StoreFixed(t, v)[4..] == StoreLE(v.port, 2);
  }

  /** The bytes on the wire: truth values are one and zero, numbers are little-endian, signed ones
      reduced modulo two to the power of their width, a time is its seconds and then its
      nanoseconds, an address is its octets and then its port. */
  lemma FixedOnWire(t: Type, v: Value, k: nat)
    requires Fixed(t) && FixedFits(t, v) && k < FieldSize(t)
    ensures StoreFixed(t, v)[k] ==
            match t
            case Bool => if v.b then 1 else 0
            case Uint(size) => v.n / Pow256(k) % 256
            case Int(size) => v.i % Pow256(size) / Pow256(k) % 256
            case Pod(size) => v.bytes[k]
            case Time => if k < 8 then v.secs / Pow256(k) % 256 else v.nanos / Pow256(k - 8) % 256
            case Addr => if k < 4 then v.octets[k] else v.port / Pow256(k - 4) % 256
  {
    match t
    case Bool =>
    case Uint(size) => StoreLEAt(v.n, size, k);
    case Int(size) =>
      Quotient(v.i, Pow256(size), if v.i < 0 then -1 else 0, if v.i < 0 then v.i + Pow256(size) else v.i);
      StoreLEAt(v.i % Pow256(size), size, k);
    case Pod(size) =>
    case Time =>
      if k < 8 {
        StoreLEAt(v.secs, 8, k);
      } else {
        StoreLEAt(v.nanos, 4, k - 8);
      }
    case Addr =>
      if k >= 4 {
        StoreLEAt(v.port, 2, k - 4);
      }
  }

  /** The time can be represented. */
  predicate TimeFits(s: seq<Byte>) {
    |s| == 12 ==> LoadLE(s[..8]) + LoadLE(s[8..]) / NANOS < MAX_SECONDS
  }

  /** The nanoseconds are less than a second. */
  predicate TimeNormal(s: seq<Byte>) {
    |s| == 12 ==> LoadLE(s[8..]) < NANOS
  }

  /** Writing what was read gives the bytes back, except for a time that is not normal and a
      truth value that is neither zero nor one. */
  lemma FixedCanonical(t: Type, s: seq<Byte>)
    requires Fixed(t) && |s| == FieldSize(t)
    ensures FixedFits(t, LoadFixed(t, s)) <==> (t.Time? ==> TimeFits(s))
    ensures (t.Time? ==> TimeFits(s)) ==>
              (StoreFixed(t, LoadFixed(t, s)) == s <==> (t.Bool? ==> s[0] <= 1) && (t.Time? ==> TimeNormal(s)))
  {
    StoreLoad(s);
    Pow256Values();
    if t.Time? {
      if TimeFits(s) {
        TimeCanonical(s);
      }
    } else if t.Addr? {
      StoreLoad(s[4..]);
      assert s == s[..4] + s[4..];
    }
  }

  /** No seconds and a thousand million nanoseconds are read as one second and written as such. */
  lemma LateTime()
    ensures var s := StoreLE(0, 8) + StoreLE(NANOS, 4);
            LoadFixed(Time, s) == VTime(1, 0) && StoreFixed(Time, LoadFixed(Time, s)) != s
  {
    var s := StoreLE(0, 8) + StoreLE(NANOS, 4);
    hide StoreLE, LoadLE;
    Pow256Values();
    LoadStore(0, 8);
    LoadStore(NANOS, 4);
    assert s[..8] == StoreLE(0, 8) && s[8..] == StoreLE(NANOS, 4);
    TimeCanonical(s);
  }

  lemma TimeCanonical(s: seq<Byte>)
    requires |s| == 12 && TimeFits(s)
    ensures StoreFixed(Time, LoadFixed(Time, s)) == s <==> TimeNormal(s)
  {
    hide StoreLE, LoadLE, Pow256;
    var nanos := LoadLE(s[8..]);
    var r := StoreFixed(Time, LoadFixed(Time, s));
    StoreLoad(s[..8]);
    StoreLoad(s[8..]);
    assert s == s[..8] + s[8..];
    Pow256Values();
    LoadStore(nanos % NANOS, 4);
    assert r[8..] == StoreLE(nanos % NANOS, 4);
  }

  // ----- Bit vectors -----

  /** The number that the bits spell, the first one the highest. */
  function NumberOf(bits: seq<bool>): (r: nat)
    ensures r < Pow2(|bits|)
  {
    if bits == [] then 0
    else 2 * NumberOf(bits[..|bits| - 1]) + (if bits[|bits| - 1] then 1 else 0)
  }

  function BitsOf(b: nat, n: nat): (r: seq<bool>)
    ensures |r| == n
  {
    if n == 0 then [] else BitsOf(b / 2, n - 1) + [b % 2 == 1]
  }

  lemma {:induction false} NumberOfBitsOf(b: nat, n: nat)
    requires b < Pow2(n)
    ensures NumberOf(BitsOf(b, n)) == b
  {
    if n == 0 {
    } else {
      NumberOfBitsOf(b / 2, n - 1);
      assert BitsOf(b, n)[..n - 1] == BitsOf(b / 2, n - 1);
    }
  }

  lemma {:induction false} BitsOfNumberOf(bits: seq<bool>)
    ensures BitsOf(NumberOf(bits), |bits|) == bits
  {
    if bits == [] {
    } else {
      BitsOfNumberOf(bits[..|bits| - 1]);
      assert bits == bits[..|bits| - 1] + [bits[|bits| - 1]];
    }
  }

  /** Eight bits; missing bits are zero. */
  function ByteOf(bits: seq<bool>): Byte
    requires |bits| <= 8
  {
    assert Pow2(4) == 16 && Pow2(8) == 256;
    NumberOf(bits + seq(8 - |bits|, _ => false))
  }

  function ToBytes(bits: seq<bool>): seq<Byte> {
    if bits == [] then []
    else if |bits| <= 8 then [ByteOf(bits)]
    else [ByteOf(bits[..8])] + ToBytes(bits[8..])
  }

  /** Counted from the highest digit, digit `i` of the number is bit `i`. */
  lemma {:induction false} DigitIsBit(bits: seq<bool>, i: nat)
    requires i < |bits|
    ensures NumberOf(bits) / Pow2(|bits| - 1 - i) % 2 == 1 <==> bits[i]
  {
    var last := |bits| - 1;
    var rest := bits[..last];
    if i == last {
      assert Pow2(0) == 1;
    } else {
      DigitIsBit(rest, i);
      assert NumberOf(bits) / 2 == NumberOf(rest);
      DivideTwice(NumberOf(bits), 2, Pow2(last - 1 - i));
      assert Pow2(last - i) == 2 * Pow2(last - 1 - i);
    }
  }

  /** Bit `i` is in byte `i / 8`, the first bits the highest, and the last byte is filled up. */
  lemma {:induction false} BitsOnWire(bits: seq<bool>, i: nat)
    requires i < |bits|
    ensures |ToBytes(bits)| == (|bits| + 7) / 8
    ensures ToBytes(bits)[i / 8] / Pow2(7 - i % 8) % 2 == 1 <==> bits[i]
    decreases |bits|
  {
    if |bits| <= 8 {
      DigitIsBit(bits + seq(8 - |bits|, _ => false), i);
    } else {
      assert |bits[8..]| == |bits| - 8;
      BitsOnWire(bits[8..], if i < 8 then 0 else i - 8);
      if i < 8 {
        DigitIsBit(bits[..8] + seq(0, _ => false), i);
        assert |bits[..8]| == 8 && 8 - |bits[..8]| == 0;
      } else {
        assert bits[8..][i - 8] == bits[i] && i / 8 == (i - 8) / 8 + 1 && i % 8 == (i - 8) % 8;
      }
    }
  }

  function FromBytes(s: seq<Byte>): (r: seq<bool>)
    ensures |r| == 8 * |s|
  {
    if s == [] then [] else BitsOf(s[0], 8) + FromBytes(s[1..])
  }

  lemma FirstByte(bits: seq<bool>)
    requires |bits| >= 8
    ensures ToBytes(bits) == [ByteOf(bits[..8])] + ToBytes(bits[8..]) && BitsOf(ByteOf(bits[..8]), 8) == bits[..8]
  {
    var first := bits[..8];
    assert first + seq(8 - |first|, _ => false) == first;
    BitsOfNumberOf(first);
    if |bits| == 8 {
      assert first == bits && bits[8..] == [];
    }
  }

  /** A bit vector comes back exactly when its length is a whole number of bytes; the format
      does not keep the length in bits. */
  lemma {:induction false} BitsRoundTrip(bits: seq<bool>)
    ensures FromBytes(ToBytes(bits)) == bits <==> |bits| % 8 == 0
    decreases |bits|
  {
    var r := FromBytes(ToBytes(bits));
    assert |r| == 8 * |ToBytes(bits)|;
    if bits == [] || |bits| % 8 != 0 {
    } else {
      FirstByte(bits);
      BitsRoundTrip(bits[8..]);
      assert bits == bits[..8] + bits[8..];
    }
  }

  lemma {:induction false} BytesRoundTrip(s: seq<Byte>)
    ensures ToBytes(FromBytes(s)) == s
    decreases |s|
  {
    if s == [] {
    } else {
      assert Pow2(4) == 16 && Pow2(8) == 256;
      NumberOfBitsOf(s[0], 8);
      BytesRoundTrip(s[1..]);
      var bits := FromBytes(s);
      FirstByte(bits);
      assert bits[..8] == BitsOf(s[0], 8) && bits[8..] == FromBytes(s[1..]);
      assert bits[..8] + seq(8 - |bits[..8]|, _ => false) == bits[..8];
      assert s == [s[0]] + s[1..];
    }
  }
}
