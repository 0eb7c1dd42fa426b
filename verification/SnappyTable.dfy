/** The lookup table of the decompressor. */
module SnappyTable {
  import opened Bytes

  /** What an entry means for a tag byte: length in bits 0 to 7, the high bits of a short copy's
      offset in bits 8 to 10, the number of further bytes from bit 11. */
  function CharTable(c: Byte): nat {
    Entry(c % 4, c / 4, c / 32)
  }

  function Entry(kind: nat, six: nat, three: nat): nat {
    if kind == 0 then (if six < 60 then six + 1 else (six - 59) * 0x800 + 1)
    else if kind == 1 then 0x800 + three * 0x100 + six % 8 + 4
    else if kind == 2 then 0x1000 + six + 1
    else 0x2000 + six + 1
  }

  /** The lookup table, in rows of eight entries. */
  function TableRow(r: nat): (row: seq<nat>)
    requires r < 32
    ensures |row| == 8
  {
    if r < 8 then FirstRows(r) else if r < 16 then SecondRows(r) else if r < 24 then ThirdRows(r) else FourthRows(r)
  }

  function FirstRows(r: nat): (row: seq<nat>)
    requires 0 <= r < 8
    ensures |row| == 8
  {
    if r == 0 then [0x0001, 0x0804, 0x1001, 0x2001, 0x0002, 0x0805, 0x1002, 0x2002]
    else if r == 1 then [0x0003, 0x0806, 0x1003, 0x2003, 0x0004, 0x0807, 0x1004, 0x2004]
    else if r == 2 then [0x0005, 0x0808, 0x1005, 0x2005, 0x0006, 0x0809, 0x1006, 0x2006]
    else if r == 3 then [0x0007, 0x080a, 0x1007, 0x2007, 0x0008, 0x080b, 0x1008, 0x2008]
    else if r == 4 then [0x0009, 0x0904, 0x1009, 0x2009, 0x000a, 0x0905, 0x100a, 0x200a]
    else if r == 5 then [0x000b, 0x0906, 0x100b, 0x200b, 0x000c, 0x0907, 0x100c, 0x200c]
    else if r == 6 then [0x000d, 0x0908, 0x100d, 0x200d, 0x000e, 0x0909, 0x100e, 0x200e]
    else [0x000f, 0x090a, 0x100f, 0x200f, 0x0010, 0x090b, 0x1010, 0x2010]
  }

  function SecondRows(r: nat): (row: seq<nat>)
    requires 8 <= r < 16
    ensures |row| == 8
  {
    if r == 8 then [0x0011, 0x0a04, 0x1011, 0x2011, 0x0012, 0x0a05, 0x1012, 0x2012]
    else if r == 9 then [0x0013, 0x0a06, 0x1013, 0x2013, 0x0014, 0x0a07, 0x1014, 0x2014]
    else if r == 10 then [0x0015, 0x0a08, 0x1015, 0x2015, 0x0016, 0x0a09, 0x1016, 0x2016]
    else if r == 11 then [0x0017, 0x0a0a, 0x1017, 0x2017, 0x0018, 0x0a0b, 0x1018, 0x2018]
    else if r == 12 then [0x0019, 0x0b04, 0x1019, 0x2019, 0x001a, 0x0b05, 0x101a, 0x201a]
    else if r == 13 then [0x001b, 0x0b06, 0x101b, 0x201b, 0x001c, 0x0b07, 0x101c, 0x201c]
    else if r == 14 then [0x001d, 0x0b08, 0x101d, 0x201d, 0x001e, 0x0b09, 0x101e, 0x201e]
    else [0x001f, 0x0b0a, 0x101f, 0x201f, 0x0020, 0x0b0b, 0x1020, 0x2020]
  }

  function ThirdRows(r: nat): (row: seq<nat>)
    requires 16 <= r < 24
    ensures |row| == 8
  {
    if r == 16 then [0x0021, 0x0c04, 0x1021, 0x2021, 0x0022, 0x0c05, 0x1022, 0x2022]
    else if r == 17 then [0x0023, 0x0c06, 0x1023, 0x2023, 0x0024, 0x0c07, 0x1024, 0x2024]
    else if r == 18 then [0x0025, 0x0c08, 0x1025, 0x2025, 0x0026, 0x0c09, 0x1026, 0x2026]
    else if r == 19 then [0x0027, 0x0c0a, 0x1027, 0x2027, 0x0028, 0x0c0b, 0x1028, 0x2028]
    else if r == 20 then [0x0029, 0x0d04, 0x1029, 0x2029, 0x002a, 0x0d05, 0x102a, 0x202a]
    else if r == 21 then [0x002b, 0x0d06, 0x102b, 0x202b, 0x002c, 0x0d07, 0x102c, 0x202c]
    else if r == 22 then [0x002d, 0x0d08, 0x102d, 0x202d, 0x002e, 0x0d09, 0x102e, 0x202e]
    else [0x002f, 0x0d0a, 0x102f, 0x202f, 0x0030, 0x0d0b, 0x1030, 0x2030]
  }

  function FourthRows(r: nat): (row: seq<nat>)
    requires 24 <= r < 32
    ensures |row| == 8
  {
    if r == 24 then [0x0031, 0x0e04, 0x1031, 0x2031, 0x0032, 0x0e05, 0x1032, 0x2032]
    else if r == 25 then [0x0033, 0x0e06, 0x1033, 0x2033, 0x0034, 0x0e07, 0x1034, 0x2034]
    else if r == 26 then [0x0035, 0x0e08, 0x1035, 0x2035, 0x0036, 0x0e09, 0x1036, 0x2036]
    else if r == 27 then [0x0037, 0x0e0a, 0x1037, 0x2037, 0x0038, 0x0e0b, 0x1038, 0x2038]
    else if r == 28 then [0x0039, 0x0f04, 0x1039, 0x2039, 0x003a, 0x0f05, 0x103a, 0x203a]
    else if r == 29 then [0x003b, 0x0f06, 0x103b, 0x203b, 0x003c, 0x0f07, 0x103c, 0x203c]
    else if r == 30 then [0x0801, 0x0f08, 0x103d, 0x203d, 0x1001, 0x0f09, 0x103e, 0x203e]
    else [0x1801, 0x0f0a, 0x103f, 0x203f, 0x2001, 0x0f0b, 0x1040, 0x2040]
  }

  function TableEntry(c: Byte): nat {
    TableRow(c / 8)[c % 8]
  }

  /** What the entries of a row mean. */
  function MeantRow(r: nat): seq<nat>
    requires r < 32
  {
    var high := 0x800 + r / 4 * 0x100;
    var low := 2 * r % 8 + 4;
    [if r < 30 then 2 * r + 1 else (2 * r - 59) * 0x800 + 1, high + low, 0x1000 + 2 * r + 1, 0x2000 + 2 * r + 1,
     if r < 30 then 2 * r + 2 else (2 * r - 58) * 0x800 + 1, high + low + 1, 0x1000 + 2 * r + 2, 0x2000 + 2 * r + 2]
  }

  lemma FirstRowsMeant(r: nat)
    requires 0 <= r < 8
    ensures FirstRows(r) == MeantRow(r)
  {
  }

  lemma SecondRowsMeant(r: nat)
    requires 8 <= r < 16
    ensures SecondRows(r) == MeantRow(r)
  {
  }

  lemma ThirdRowsMeant(r: nat)
    requires 16 <= r < 24
    ensures ThirdRows(r) == MeantRow(r)
  {
  }

  lemma FourthRowsMeant(r: nat)
    requires 24 <= r < 32
    ensures FourthRows(r) == MeantRow(r)
  {
  }

  lemma MeantEntry(r: nat, k: nat)
    requires r < 32 && k < 8
    ensures MeantRow(r)[k] == CharTable(8 * r + k)
  {
    OctetFields(r, k);
    Odd(r);
    hide CharTable;
    assert CharTable(8 * r + k) == Entry(k % 4, 2 * r + k / 4, r / 4) by {
      CharTableIs(8 * r + k);
    }
  }

  lemma CharTableIs(c: Byte)
    ensures CharTable(c) == Entry(c % 4, c / 4, c / 32)
  {
  }

  lemma OctetFields(r: nat, k: nat)
    requires k < 8
    ensures (8 * r + k) % 4 == k % 4 && (8 * r + k) / 4 == 2 * r + k / 4 && (8 * r + k) / 32 == r / 4
  {
  }

  lemma Odd(r: nat)
    ensures (2 * r + 1) % 8 == 2 * r % 8 + 1
  {
    var q, k := r / 4, r % 4;
    assert 2 * r == 8 * q + 2 * k;
    ModEight(q, 2 * k);
    ModEight(q, 2 * k + 1);
  }

  lemma ModEight(q: nat, k: nat)
    requires k < 8
    ensures (8 * q + k) % 8 == k
  {
  }

  /** The table says what the tag byte says. */
  lemma TableIs(c: Byte)
    ensures TableEntry(c) == CharTable(c)
  {
    hide FirstRows, SecondRows, ThirdRows, FourthRows, MeantRow, CharTable;
    var r, k := c / 8, c % 8;
    assert c == 8 * r + k;
    if r < 8 {
      FirstRowsMeant(r);
    } else if r < 16 {
      SecondRowsMeant(r);
    } else if r < 24 {
      ThirdRowsMeant(r);
    } else {
      FourthRowsMeant(r);
    }
    MeantEntry(r, k);
  }
}
