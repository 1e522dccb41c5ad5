/** The table-driven CRC of crc64.c and the bitwise CRC it stands for. */
module Crc64 {
  import opened Bytes
  import opened Crc64Table

  function Xor(x: bv64, y: bv64): bv64 { x ^ y }
  function Half(x: bv64): bv64 { x >> 1 }
  function Bit(x: bv64): bv64 { x & 1 }
  function Narrow(b: byte): bv8 { b as bv8 }
  function Wide(b: byte): bv64 { Narrow(b) as bv64 }

  /** The n low bits of a byte go in one at a time, the least significant first. */
  function Bits(c: bv64, b: bv64, n: nat): bv64
    decreases n
  {
    if n == 0 then c else Bits(Shift(Xor(c, Bit(b))), Half(b), n - 1)
  }

  /** The reflected CRC of a message, bit by bit, from an initial value. */
  function Crc(c: bv64, s: seq<byte>): bv64 {
    if s == [] then c else Bits(Crc(c, s[..|s| - 1]), Wide(s[|s| - 1]), 8)
  }

  /** Feeding a message in two parts is feeding the whole. */
  lemma {:induction false} CrcConcat(c: bv64, a: seq<byte>, b: seq<byte>)
    ensures Crc(c, a + b) == Crc(Crc(c, a), b)
  {
    hide Bits;
    if b == [] {
      assert a + b == a;
    } else {
      CrcConcat(c, a, b[..|b| - 1]);
      assert (a + b)[..|a + b| - 1] == a + b[..|b| - 1];
    }
  }

  // ---- a byte at a time

  lemma XorHalf(x: bv64, y: bv64)
    ensures (x ^ y) >> 1 == (x >> 1) ^ (y >> 1)
  {
  }

  lemma XorBit(x: bv64, y: bv64)
    ensures (x ^ y) & 1 == (x & 1) ^ (y & 1)
  {
  }

  lemma OneBit(x: bv64)
    ensures x & 1 == 0 || x & 1 == 1
  {
  }

  lemma XorBoth(a: bv64, b: bv64, p: bv64)
    ensures (a ^ p) ^ (b ^ p) == a ^ b && (a ^ p) ^ b == (a ^ b) ^ p
  {
  }

  lemma XorRight(a: bv64, b: bv64, p: bv64)
    ensures (a ^ b) ^ p == a ^ (b ^ p)
  {
  }

  /** A step of the register is linear. */
  lemma ShiftXor(x: bv64, y: bv64)
    ensures Shift(x ^ y) == Shift(x) ^ Shift(y)
  {
    XorHalf(x, y);
    XorBit(x, y);
    OneBit(x);
    OneBit(y);
    XorBoth(x >> 1, y >> 1, POLY);
    XorRight(x >> 1, y >> 1, POLY);
    if x & 1 == 1 && y & 1 == 1 { assert (x ^ y) & 1 == 0; }
  }

  function ShiftN(c: bv64, n: nat): bv64
    decreases n
  {
    if n == 0 then c else ShiftN(Shift(c), n - 1)
  }

  function HalfN(w: bv64, n: nat): bv64
    decreases n
  {
    if n == 0 then w else HalfN(Half(w), n - 1)
  }

  function Rest(w: bv64): bv64 { w & 0xffff_ffff_ffff_fffe }

  lemma LastBitOut(w: bv64)
    ensures w == Xor(Bit(w), Rest(w)) && Shift(Rest(w)) == Half(w)
  {
    hide Shift;
    BitAndRest(w);
    EvenShift(w);
    EvenOnly(w & 0xffff_ffff_ffff_fffe);
  }

  lemma BitAndRest(w: bv64)
    ensures (w & 1) ^ (w & 0xffff_ffff_ffff_fffe) == w
  {
  }

  lemma EvenShift(w: bv64)
    ensures (w & 0xffff_ffff_ffff_fffe) & 1 == 0 && (w & 0xffff_ffff_ffff_fffe) >> 1 == w >> 1
  {
  }

  lemma EvenOnly(w: bv64)
    ensures w & 1 == 0 ==> Shift(w) == w >> 1
  {
  }

  lemma XorAssoc(x: bv64, y: bv64, z: bv64)
    ensures Xor(Xor(x, y), z) == Xor(x, Xor(y, z))
  {
    XorRight(x, y, z);
  }

  lemma ShiftBit(c: bv64, w: bv64)
    ensures Shift(Xor(c, w)) == Xor(Shift(Xor(c, Bit(w))), Half(w))
  {
    hide Xor, Bit, Half, Rest, Shift;
    LastBitOut(w);
    XorAssoc(c, Bit(w), Rest(w));
    ShiftsXor(Xor(c, Bit(w)), Rest(w));
  }

  /** Letting all bits in at once and shifting is letting them in one by one. */
  lemma {:induction false} BitsAtOnce(c: bv64, w: bv64, n: nat)
    ensures ShiftN(Xor(c, w), n) == Xor(Bits(c, w, n), HalfN(w, n))
    decreases n
  {
    hide Xor, Bit, Half, Shift;
    if n > 0 {
      ShiftBit(c, w);
      BitsAtOnce(Shift(Xor(c, Bit(w))), Half(w), n - 1);
    }
  }

  lemma Unrolled(c: bv64)
    ensures ShiftN(c, 8) == Shift8(c)
  {
    hide Shift;
    assert ShiftN(c, 8) == ShiftN(Shift(Shift(Shift(Shift(c)))), 4);
    assert ShiftN(Shift(Shift(Shift(Shift(c)))), 4) == Shift8(c);
  }

  lemma ByteShiftsOut(b: byte)
    ensures HalfN(Wide(b), 8) == 0
  {
    var w := Wide(b);
    assert HalfN(w, 8) == HalfN(Half(Half(Half(Half(w)))), 4);
    assert HalfN(w, 8) == Half(Half(Half(Half(Half(Half(Half(Half(w))))))));
    EightHalves(w);
  }

  lemma EightHalves(w: bv64)
    requires w < 256
    ensures w >> 1 >> 1 >> 1 >> 1 >> 1 >> 1 >> 1 >> 1 == 0
  {
  }

  lemma BitsIsShift8(c: bv64, b: byte)
    ensures Bits(c, Wide(b), 8) == Shift8(Xor(c, Wide(b)))
  {
    hide Bits, HalfN, ShiftN, Shift8, Wide;
    BitsAtOnce(c, Wide(b), 8);
    Unrolled(Xor(c, Wide(b)));
    ByteShiftsOut(b);
    XorZero(Bits(c, Wide(b), 8));
  }

  lemma XorZero(x: bv64)
    ensures Xor(x, 0) == x
  {
  }

  // ---- by table

  lemma Shift8Xor(x: bv64, y: bv64)
    ensures Shift8(Xor(x, y)) == Xor(Shift8(x), Shift8(y))
  {
    hide Shift, Xor;
    ShiftsXor(x, y);
    ShiftsXor(Shift(x), Shift(y));
    ShiftsXor(Shift(Shift(x)), Shift(Shift(y)));
    ShiftsXor(Shift(Shift(Shift(x))), Shift(Shift(Shift(y))));
    var x4, y4 := Shift(Shift(Shift(Shift(x)))), Shift(Shift(Shift(Shift(y))));
    ShiftsXor(x4, y4);
    ShiftsXor(Shift(x4), Shift(y4));
    ShiftsXor(Shift(Shift(x4)), Shift(Shift(y4)));
    ShiftsXor(Shift(Shift(Shift(x4))), Shift(Shift(Shift(y4))));
  }

  lemma ShiftsXor(x: bv64, y: bv64)
    ensures Shift(Xor(x, y)) == Xor(Shift(x), Shift(y))
  {
    ShiftXor(x, y);
  }

  function High(c: bv64): bv64 { c & 0xffff_ffff_ffff_ff00 }
  function Index(c: bv64, x: bv8): bv8 { ((c & 0xff) as bv8) ^ x }
  function Shr8(c: bv64): bv64 { c >> 8 }

  /** One step of crc64: a table entry and the register moved by a byte. */
  function TableStep(c: bv64, b: byte): bv64 { Xor(Table(Index(c, Narrow(b))), Shr8(c)) }

  lemma HighBytesShift(c: bv64)
    ensures Shift8(High(c)) == Shr8(c)
  {
    ShiftsAway(c & 0xffff_ffff_ffff_ff00);
    assert (c & 0xffff_ffff_ffff_ff00) >> 8 == c >> 8;
  }

  lemma ShiftsAway(c: bv64)
    requires c & 0xff == 0
    ensures Shift8(c) == c >> 8
  {
  }

  lemma SplitIndex(c: bv64, x: bv8)
    ensures Xor(c, x as bv64) == Xor(Index(c, x) as bv64, High(c))
  {
    assert c ^ (x as bv64) == ((((c & 0xff) as bv8) ^ x) as bv64) ^ (c & 0xffff_ffff_ffff_ff00);
  }

  lemma TableStepIsBits(c: bv64, b: byte)
    ensures TableStep(c, b) == Bits(c, Wide(b), 8)
  {
    hide Bits, Shift8, Table, Xor, Index, High, Shr8, Narrow;
    BitsIsShift8(c, b);
    SplitIndex(c, Narrow(b));
    Shift8Xor(Index(c, Narrow(b)) as bv64, High(c));
    HighBytesShift(c);
    TableOk(Index(c, Narrow(b)));
  }

  /** crc64: the table-driven loop computes the bitwise CRC. */
  method Compute(crc: bv64, s: seq<byte>) returns (r: bv64)
    ensures r == Crc(crc, s)
  {
    hide Bits, TableStep;
    r := crc;
    for j := 0 to |s|
      invariant r == Crc(crc, s[..j])
    {
      assert s[..j + 1][..j] == s[..j];
      TableStepIsBits(r, s[j]);
      r := TableStep(r, s[j]);
    }
    assert s[..|s|] == s;
  }

  // ---- what the checksum tells apart

  lemma ShiftInjective(x: bv64, y: bv64)
    requires Shift(x) == Shift(y)
    ensures x == y
  {
  }

  lemma Shift8Injective(x: bv64, y: bv64)
    requires Shift8(x) == Shift8(y)
    ensures x == y
  {
    hide Shift;
    var x4, y4 := Shift(Shift(Shift(Shift(x)))), Shift(Shift(Shift(Shift(y))));
    ShiftInjective(Shift(Shift(Shift(x4))), Shift(Shift(Shift(y4))));
    ShiftInjective(Shift(Shift(x4)), Shift(Shift(y4)));
    ShiftInjective(Shift(x4), Shift(y4));
    ShiftInjective(x4, y4);
    ShiftInjective(Shift(Shift(Shift(x))), Shift(Shift(Shift(y))));
    ShiftInjective(Shift(Shift(x)), Shift(Shift(y)));
    ShiftInjective(Shift(x), Shift(y));
    ShiftInjective(x, y);
  }

  lemma NarrowInjective(b: byte, d: byte)
    requires Narrow(b) == Narrow(d)
    ensures b == d
  {
    NarrowBack(b);
    NarrowBack(d);
  }

  /** A byte and its bit vector determine each other: counting up reaches both at once. */
  lemma NarrowBack(b: byte)
    ensures Narrow(b) as int == b
  {
    CountsUp(b);
  }

  function Up(n: nat): bv8 { if n == 0 then 0 else Up(n - 1) + 1 }

  lemma {:induction false} CountsUp(n: nat)
    requires n < 256
    ensures (n as bv8) as int == n && Up(n) as int == n
  {
    if n > 0 {
      CountsUp(n - 1);
      OneMore(Up(n - 1));
    }
    ThereAndBack(Up(n));
  }

  lemma OneMore(x: bv8)
    requires x < 255
    ensures (x + 1) as int == x as int + 1
  {
  }

  lemma ThereAndBack(x: bv8)
    ensures (x as int) as bv8 == x
  {
  }

  lemma WideNarrow(x: bv8, y: bv8)
    ensures x as bv64 == y as bv64 ==> x == y
  {
  }

  lemma XorCancels(c: bv64, x: bv64, y: bv64)
    ensures Xor(c, x) == Xor(c, y) ==> x == y
    ensures Xor(x, c) == Xor(y, c) ==> x == y
  {
    assert c ^ (c ^ x) == x && c ^ (c ^ y) == y && c ^ (x ^ c) == x && c ^ (y ^ c) == y;
  }

  /** Different registers stay different under the same byte, and different bytes tell apart. */
  lemma StepInjective(c: bv64, d: bv64, b: byte, e: byte)
    requires Bits(c, Wide(b), 8) == Bits(d, Wide(e), 8)
    ensures b == e ==> c == d
    ensures c == d ==> b == e
  {
    hide Bits, Shift8, Narrow, Xor;
    BitsIsShift8(c, b);
    BitsIsShift8(d, e);
    Shift8Injective(Xor(c, Wide(b)), Xor(d, Wide(e)));
    XorCancels(Wide(b), c, d);
    XorCancels(c, Wide(b), Wide(e));
    WideNarrow(Narrow(b), Narrow(e));
    if c == d { NarrowInjective(b, e); }
  }

  lemma {:induction false} CrcInjective(c: bv64, d: bv64, s: seq<byte>)
    requires Crc(c, s) == Crc(d, s)
    ensures c == d
  {
    hide Bits;
    if s != [] {
      var n := |s| - 1;
      StepInjective(Crc(c, s[..n]), Crc(d, s[..n]), s[n], s[n]);
      CrcInjective(c, d, s[..n]);
    }
  }

  /** Messages that differ in one byte have different checksums. */
  lemma OneByteMatters(c: bv64, s: seq<byte>, k: nat, b: byte)
    requires k < |s| && s[k] != b
    ensures Crc(c, s[k := b]) != Crc(c, s)
  {
    hide Bits, Crc;
    var pre, post := s[..k], s[k + 1..];
    assert s == (pre + [s[k]]) + post && s[k := b] == (pre + [b]) + post;
    CrcConcat(c, pre + [s[k]], post);
    CrcConcat(c, pre + [b], post);
    if Crc(c, s[k := b]) == Crc(c, s) {
      CrcInjective(Crc(c, pre + [s[k]]), Crc(c, pre + [b]), post);
      CrcLast(c, pre, s[k]);
      CrcLast(c, pre, b);
      StepInjective(Crc(c, pre), Crc(c, pre), s[k], b);
    }
  }

  lemma CrcLast(c: bv64, s: seq<byte>, b: byte)
    ensures Crc(c, s + [b]) == Bits(Crc(c, s), Wide(b), 8)
  {
    assert (s + [b])[..|s|] == s;
  }

  /** One more byte of a message whose checksum is known. */
  lemma OneByte(s: seq<byte>, b: byte, w: bv64, c: bv64)
    requires Wide(b) == w && Shift8(Xor(Crc(0, s), w)) == c
    ensures Crc(0, s + [b]) == c
  {
    hide Crc, Bits, Shift8, Xor, Wide;
    CrcLast(0, s, b);
    BitsIsShift8(Crc(0, s), b);
  }

  /** The check value that crc64.c documents, and prints in its test: that of "123456789". */
  lemma CheckValue()
    ensures Crc(0, [49, 50, 51, 52, 53, 54, 55, 56, 57]) == 0xe9c6d914c4b8d9ca
  {
    hide Crc, Bits;
    CrcNone();
    OneByte([], 49, 0x31, 0xfdc17184a9f739fa);
    assert [] + [49] == [49];
    OneByte([49], 50, 0x32, 0xe10364513a98ed96);
    assert [49] + [50] == [49, 50];
    OneByte([49, 50], 51, 0x33, 0xd5bcfb814479b1ac);
    assert [49, 50] + [51] == [49, 50, 51];
    OneByte([49, 50, 51], 52, 0x34, 0x43593c5dcda521f0);
    assert [49, 50, 51] + [52] == [49, 50, 51, 52];
    OneByte([49, 50, 51, 52], 53, 0x35, 0xf0758513239c7e0d);
    assert [49, 50, 51, 52] + [53] == [49, 50, 51, 52, 53];
    OneByte([49, 50, 51, 52, 53], 54, 0x36, 0xa3a90925b2ab4903);
    assert [49, 50, 51, 52, 53] + [54] == [49, 50, 51, 52, 53, 54];
    OneByte([49, 50, 51, 52, 53, 54], 55, 0x37, 0x47824d362431ad45);
    assert [49, 50, 51, 52, 53, 54] + [55] == [49, 50, 51, 52, 53, 54, 55];
    OneByte([49, 50, 51, 52, 53, 54, 55], 56, 0x38, 0x49ec20b315e86dc2);
    assert [49, 50, 51, 52, 53, 54, 55] + [56] == [49, 50, 51, 52, 53, 54, 55, 56];
    OneByte([49, 50, 51, 52, 53, 54, 55, 56], 57, 0x39, 0xe9c6d914c4b8d9ca);
    assert [49, 50, 51, 52, 53, 54, 55, 56] + [57] == [49, 50, 51, 52, 53, 54, 55, 56, 57];
  }

  lemma CrcNone()
    ensures Crc(0, []) == 0
  {
  }
}
