/** Bit counting, word-wise BITOP, and single bits (bitops.c). */
module Bitops {
  type octet = bv8
  type bits = seq<octet>

  // ---- counting, bit by bit

  function One(b: octet, mask: octet): nat { if b & mask != 0 then 1 else 0 }

  function CountByte(b: octet): nat {
    One(b, 0x80) + One(b, 0x40) + One(b, 0x20) + One(b, 0x10) + One(b, 0x08) + One(b, 0x04) + One(b, 0x02)
        + One(b, 0x01)
  }

  function Count(s: bits): nat {
    if s == [] then 0 else Count(s[..|s| - 1]) + CountByte(s[|s| - 1])
  }

  // ---- counting, 32 bits at a time

  /** Four bytes as the machine loads them; the order makes no difference to a count. */
  function Word32(b0: octet, b1: octet, b2: octet, b3: octet): bv32 {
    (b0 as bv32) | ((b1 as bv32) << 8) | ((b2 as bv32) << 16) | ((b3 as bv32) << 24)
  }

  function Pairs(x: bv32): bv32 { x - ((x >> 1) & 0x55555555) }
  function Nibbles(x: bv32): bv32 { (x & 0x33333333) + ((x >> 2) & 0x33333333) }
  function Octets(x: bv32): bv32 { (x + (x >> 4)) & 0x0F0F0F0F }
  function Sum(x: bv32): bv32 { (x * 0x01010101) >> 24 }

  /** The steps for one 32-bit word. */
  function Swar(x: bv32): bv32 { Sum(Octets(Nibbles(Pairs(x)))) }

  /** The same steps inside one byte. */
  function Pairs8(b: octet): octet { (b & 0x55) + ((b >> 1) & 0x55) }
  function Nibbles8(b: octet): octet { (b & 0x33) + ((b >> 2) & 0x33) }
  function Octet8(b: octet): octet { (b + (b >> 4)) & 0x0F }
  function Swar8(b: octet): octet { Octet8(Nibbles8(Pairs8(b))) }

  function PairSums(x: bv32): bv32 { (x & 0x55555555) + ((x >> 1) & 0x55555555) }

  function Even(x: bv32): bv32 { x & 0x55555555 }
  function Odd(x: bv32): bv32 { (x >> 1) & 0x55555555 }
  lemma EvenAndOdd(x: bv32)
    ensures Even(x) + (Odd(x) << 1) == x
  {
    OddBack(x);
    MaskSum(x);
  }

  lemma OddBack(x: bv32)
    ensures ((x >> 1) & 0x55555555) << 1 == x & 0xAAAAAAAA
  {
  }

  lemma MaskSum(x: bv32)
    ensures (x & 0x55555555) + (x & 0xAAAAAAAA) == x
  {
  }

  predicate IsDifference(x: bv32, h: bv32, r: bv32) { x - h == r }

  lemma TakeOneHalf(l: bv32, h: bv32)
    ensures IsDifference(l + (h << 1), h, l + h)
  {
  }

  lemma HalfTaken(x: bv32)
    ensures IsDifference(x, Odd(x), Even(x) + Odd(x))
  {
    hide Even, Odd, IsDifference;
    EvenAndOdd(x);
    TakeOneHalf(Even(x), Odd(x));
  }

  /** The subtraction of the first step adds neighbouring bits. */
  lemma PairsAdd(x: bv32)
    ensures Pairs(x) == PairSums(x)
  {
    HalfTaken(x);
  }

  lemma PairsByByte(b0: octet, b1: octet, b2: octet, b3: octet)
    ensures PairSums(Word32(b0, b1, b2, b3)) == Word32(Pairs8(b0), Pairs8(b1), Pairs8(b2), Pairs8(b3))
  {
  }

  lemma NibblesByByte(b0: octet, b1: octet, b2: octet, b3: octet)
    ensures Nibbles(Word32(b0, b1, b2, b3)) == Word32(Nibbles8(b0), Nibbles8(b1), Nibbles8(b2), Nibbles8(b3))
  {
  }

  predicate Small(b: octet) { b & 0x88 == 0 }

  lemma OctetsByByte(b0: octet, b1: octet, b2: octet, b3: octet)
    requires Small(b0) && Small(b1) && Small(b2) && Small(b3)
    ensures Octets(Word32(b0, b1, b2, b3)) == Word32(Octet8(b0), Octet8(b1), Octet8(b2), Octet8(b3))
  {
  }

  function FourSum(b0: octet, b1: octet, b2: octet, b3: octet): bv32 {
    (b0 as bv32) + (b1 as bv32) + (b2 as bv32) + (b3 as bv32)
  }

  lemma SumOfBytes(b0: octet, b1: octet, b2: octet, b3: octet)
    requires b0 <= 8 && b1 <= 8 && b2 <= 8 && b3 <= 8
    ensures Sum(Word32(b0, b1, b2, b3)) == FourSum(b0, b1, b2, b3)
  {
  }

  function Bit8(b: octet, mask: octet): octet { if b & mask != 0 then 1 else 0 }

  function BitSum8(b: octet): octet {
    Bit8(b, 0x80) + Bit8(b, 0x40) + Bit8(b, 0x20) + Bit8(b, 0x10) + Bit8(b, 0x08) + Bit8(b, 0x04) + Bit8(b, 0x02)
        + Bit8(b, 0x01)
  }

  lemma SwarByte(b: octet)
    ensures Swar8(b) == BitSum8(b) && Swar8(b) <= 8 && Small(Nibbles8(Pairs8(b)))
  {
  }

  lemma AddBit(x: octet, y: octet)
    requires x < 16 && y <= 1
    ensures (x + y) as int == x as int + y as int
  {
  }

  lemma BitAsInt(b: octet, mask: octet)
    ensures Bit8(b, mask) as int == One(b, mask) && Bit8(b, mask) <= 1
  {
  }

  lemma BitSumCounts(b: octet)
    ensures BitSum8(b) as int == CountByte(b)
  {
    hide Bit8, One;
    var x7, x6, x5, x4 := Bit8(b, 0x80), Bit8(b, 0x40), Bit8(b, 0x20), Bit8(b, 0x10);
    var x3, x2, x1, x0 := Bit8(b, 0x08), Bit8(b, 0x04), Bit8(b, 0x02), Bit8(b, 0x01);
    BitAsInt(b, 0x80);
    BitAsInt(b, 0x40);
    BitAsInt(b, 0x20);
    BitAsInt(b, 0x10);
    BitAsInt(b, 0x08);
    BitAsInt(b, 0x04);
    BitAsInt(b, 0x02);
    BitAsInt(b, 0x01);
    EightBits(x7, x6, x5, x4, x3, x2, x1, x0);
  }

  lemma EightBits(x7: octet, x6: octet, x5: octet, x4: octet, x3: octet, x2: octet, x1: octet, x0: octet)
    requires x7 <= 1 && x6 <= 1 && x5 <= 1 && x4 <= 1 && x3 <= 1 && x2 <= 1 && x1 <= 1 && x0 <= 1
    ensures (x7 + x6 + x5 + x4 + x3 + x2 + x1 + x0) as int ==
      x7 as int + x6 as int + x5 as int + x4 as int + x3 as int + x2 as int + x1 as int + x0 as int
  {
    AddBit(x7, x6);
    AddBit(x7 + x6, x5);
    AddBit(x7 + x6 + x5, x4);
    AddBit(x7 + x6 + x5 + x4, x3);
    AddBit(x7 + x6 + x5 + x4 + x3, x2);
    AddBit(x7 + x6 + x5 + x4 + x3 + x2, x1);
    AddBit(x7 + x6 + x5 + x4 + x3 + x2 + x1, x0);
  }

  lemma AddCount(x: bv32, y: octet)
    requires x <= 24 && y <= 8
    ensures (x + (y as bv32)) as int == x as int + y as int
  {
  }

  lemma WidenCount(y: octet)
    requires y <= 8
    ensures (y as bv32) as int == y as int && (y as bv32) <= 8
  {
  }

  lemma FourCounts(n0: octet, n1: octet, n2: octet, n3: octet)
    requires n0 <= 8 && n1 <= 8 && n2 <= 8 && n3 <= 8
    ensures FourSum(n0, n1, n2, n3) as int ==
      n0 as int + n1 as int + n2 as int + n3 as int
  {
    WidenCount(n0);
    AddCount(n0 as bv32, n1);
    AddCount((n0 as bv32) + (n1 as bv32), n2);
    AddCount((n0 as bv32) + (n1 as bv32) + (n2 as bv32), n3);
  }

  lemma SwarByByte(b0: octet, b1: octet, b2: octet, b3: octet)
    ensures Swar(Word32(b0, b1, b2, b3)) == FourSum(Swar8(b0), Swar8(b1), Swar8(b2), Swar8(b3))
  {
    hide Word32, Pairs, Nibbles, Octets, Sum, PairSums, Pairs8, Nibbles8, Octet8, BitSum8, Small, FourSum;
    PairsAdd(Word32(b0, b1, b2, b3));
    PairsByByte(b0, b1, b2, b3);
    NibblesByByte(Pairs8(b0), Pairs8(b1), Pairs8(b2), Pairs8(b3));
    SwarByte(b0);
    SwarByte(b1);
    SwarByte(b2);
    SwarByte(b3);
    OctetsByByte(Nibbles8(Pairs8(b0)), Nibbles8(Pairs8(b1)), Nibbles8(Pairs8(b2)), Nibbles8(Pairs8(b3)));
    SumOfBytes(Swar8(b0), Swar8(b1), Swar8(b2), Swar8(b3));
  }

  /** The parallel count of a word is the number of its bits. */
  lemma SwarCounts(b0: octet, b1: octet, b2: octet, b3: octet)
    ensures Swar(Word32(b0, b1, b2, b3)) as int == CountByte(b0) + CountByte(b1) + CountByte(b2) + CountByte(b3)
  {
    hide Word32, Swar, Swar8, BitSum8, Small, CountByte, FourSum;
    SwarByByte(b0, b1, b2, b3);
    SwarByte(b0);
    SwarByte(b1);
    SwarByte(b2);
    SwarByte(b3);
    FourCounts(Swar8(b0), Swar8(b1), Swar8(b2), Swar8(b3));
    BitSumCounts(b0);
    BitSumCounts(b1);
    BitSumCounts(b2);
    BitSumCounts(b3);
  }

  // ---- counting, by table

  /** bitsinbyte, in rows of sixteen. */
  function BitsInByteRow(high: octet): seq<nat> {
    if high == 0x0 then [0, 1, 1, 2, 1, 2, 2, 3, 1, 2, 2, 3, 2, 3, 3, 4]
    else if high == 0x1 then [1, 2, 2, 3, 2, 3, 3, 4, 2, 3, 3, 4, 3, 4, 4, 5]
    else if high == 0x2 then [1, 2, 2, 3, 2, 3, 3, 4, 2, 3, 3, 4, 3, 4, 4, 5]
    else if high == 0x3 then [2, 3, 3, 4, 3, 4, 4, 5, 3, 4, 4, 5, 4, 5, 5, 6]
    else if high == 0x4 then [1, 2, 2, 3, 2, 3, 3, 4, 2, 3, 3, 4, 3, 4, 4, 5]
    else if high == 0x5 then [2, 3, 3, 4, 3, 4, 4, 5, 3, 4, 4, 5, 4, 5, 5, 6]
    else if high == 0x6 then [2, 3, 3, 4, 3, 4, 4, 5, 3, 4, 4, 5, 4, 5, 5, 6]
    else if high == 0x7 then [3, 4, 4, 5, 4, 5, 5, 6, 4, 5, 5, 6, 5, 6, 6, 7]
    else if high == 0x8 then [1, 2, 2, 3, 2, 3, 3, 4, 2, 3, 3, 4, 3, 4, 4, 5]
    else if high == 0x9 then [2, 3, 3, 4, 3, 4, 4, 5, 3, 4, 4, 5, 4, 5, 5, 6]
    else if high == 0xa then [2, 3, 3, 4, 3, 4, 4, 5, 3, 4, 4, 5, 4, 5, 5, 6]
    else if high == 0xb then [3, 4, 4, 5, 4, 5, 5, 6, 4, 5, 5, 6, 5, 6, 6, 7]
    else if high == 0xc then [2, 3, 3, 4, 3, 4, 4, 5, 3, 4, 4, 5, 4, 5, 5, 6]
    else if high == 0xd then [3, 4, 4, 5, 4, 5, 5, 6, 4, 5, 5, 6, 5, 6, 6, 7]
    else if high == 0xe then [3, 4, 4, 5, 4, 5, 5, 6, 4, 5, 5, 6, 5, 6, 6, 7]
    else [4, 5, 5, 6, 5, 6, 6, 7, 5, 6, 6, 7, 6, 7, 7, 8]
  }

  function BitsInByte(b: octet): nat {
    NibbleIndex(b);
    BitsInByteRow(b >> 4)[(b & 0xf) as int]
  }

  lemma NibbleIndex(b: octet)
    ensures 0 <= (b & 0xf) as int < 16 && |BitsInByteRow(b >> 4)| == 16
  {
  }

  /** The entry of a byte is the number of its bits. */
  lemma TableCounts(b: octet)
    ensures BitsInByte(b) == CountByte(b)
  {
  }

  lemma CountFour(s: bits, pos: nat)
    requires pos + 4 <= |s|
    ensures Count(s[..pos + 4]) == Count(s[..pos])
      + CountByte(s[pos]) + CountByte(s[pos + 1]) + CountByte(s[pos + 2]) + CountByte(s[pos + 3])
  {
    hide CountByte;
    CountOneMore(s, pos);
    CountOneMore(s, pos + 1);
    CountOneMore(s, pos + 2);
    CountOneMore(s, pos + 3);
  }

  lemma CountOneMore(s: bits, pos: nat)
    requires pos < |s|
    ensures Count(s[..pos + 1]) == Count(s[..pos]) + CountByte(s[pos])
  {
    assert s[..pos + 1][..pos] == s[..pos];
  }

  /** One 32-bit word of the fast loop. */
  function SwarAt(s: bits, pos: nat): (n: nat)
    requires pos + 4 <= |s|
    ensures Count(s[..pos + 4]) == Count(s[..pos]) + n
  {
    SwarCounts(s[pos], s[pos + 1], s[pos + 2], s[pos + 3]);
    CountFour(s, pos);
    Swar(Word32(s[pos], s[pos + 1], s[pos + 2], s[pos + 3])) as int
  }

  /** popcount: sixteen bytes at a time, and the rest by table. */
  method Popcount(s: bits) returns (n: nat)
    ensures n == Count(s)
  {
    hide Count, SwarAt, BitsInByte, CountByte;
    var p: nat, count: nat := 0, |s|;
    n := 0;
    NoBits(s[..0]);
    while count >= 16
      invariant p + count == |s| && n == Count(s[..p])
    {
      n := n + SwarAt(s, p) + SwarAt(s, p + 4) + SwarAt(s, p + 8) + SwarAt(s, p + 12);
      p := p + 16;
      count := count - 16;
    }
    while count > 0
      invariant p + count == |s| && n == Count(s[..p])
    {
      TableCounts(s[p]);
      CountOneMore(s, p);
      n := n + BitsInByte(s[p]);
      p := p + 1;
      count := count - 1;
    }
    assert s[..p] == s;
  }

  lemma NoBits(s: bits)
    ensures s == [] ==> Count(s) == 0
  {
  }

  // ---- BITOP, byte by byte

  datatype BitOp = And | Or | Xor | Not

  function Op(op: BitOp, a: octet, b: octet): octet {
    match op case And => a & b case Or => a | b case Xor => a ^ b case Not => a
  }

  /** A source is as if padded with zeros. */
  function ByteAt(src: bits, j: nat): octet { if j < |src| then src[j] else 0 }

  /** Byte j of the first n sources, combined. */
  function Combined(op: BitOp, srcs: seq<bits>, j: nat, n: nat): octet
    requires 1 <= n <= |srcs|
  {
    if n == 1 then (if op == Not then !ByteAt(srcs[0], j) else ByteAt(srcs[0], j))
    else Op(op, Combined(op, srcs, j, n - 1), ByteAt(srcs[n - 1], j))
  }

  // ---- BITOP, word by word

  function Word64(b: bits): bv64
    requires |b| == 8
  {
    Join8(b[0], b[1], b[2], b[3], b[4], b[5], b[6], b[7])
  }

  function Join8(b0: octet, b1: octet, b2: octet, b3: octet, b4: octet, b5: octet, b6: octet, b7: octet): bv64 {
    (b0 as bv64) | ((b1 as bv64) << 8) | ((b2 as bv64) << 16) | ((b3 as bv64) << 24)
    | ((b4 as bv64) << 32) | ((b5 as bv64) << 40) | ((b6 as bv64) << 48) | ((b7 as bv64) << 56)
  }

  /** A word as it is stored. */
  function Bytes64(w: bv64): (b: bits)
    ensures |b| == 8
  {
    [(w & 0xff) as bv8, ((w >> 8) & 0xff) as bv8, ((w >> 16) & 0xff) as bv8, ((w >> 24) & 0xff) as bv8,
     ((w >> 32) & 0xff) as bv8, ((w >> 40) & 0xff) as bv8, ((w >> 48) & 0xff) as bv8, ((w >> 56) & 0xff) as bv8]
  }

  function OpWord(op: BitOp, a: bv64, b: bv64): bv64 {
    match op case And => a & b case Or => a | b case Xor => a ^ b case Not => !a
  }

  /** What one word operation does to one byte. */
  function WordByte(op: BitOp, a: octet, b: octet): octet {
    match op case And => a & b case Or => a | b case Xor => a ^ b case Not => !a
  }

  lemma JoinAnd(a0: octet, a1: octet, a2: octet, a3: octet, a4: octet, a5: octet, a6: octet, a7: octet,
               b0: octet, b1: octet, b2: octet, b3: octet, b4: octet, b5: octet, b6: octet, b7: octet)
    ensures OpWord(And, Join8(a0, a1, a2, a3, a4, a5, a6, a7), Join8(b0, b1, b2, b3, b4, b5, b6, b7))
      == Join8(WordByte(And, a0, b0), WordByte(And, a1, b1), WordByte(And, a2, b2), WordByte(And, a3, b3),
               WordByte(And, a4, b4), WordByte(And, a5, b5), WordByte(And, a6, b6), WordByte(And, a7, b7))
  {
  }

  lemma JoinOr(a0: octet, a1: octet, a2: octet, a3: octet, a4: octet, a5: octet, a6: octet, a7: octet,
               b0: octet, b1: octet, b2: octet, b3: octet, b4: octet, b5: octet, b6: octet, b7: octet)
    ensures OpWord(Or, Join8(a0, a1, a2, a3, a4, a5, a6, a7), Join8(b0, b1, b2, b3, b4, b5, b6, b7))
      == Join8(WordByte(Or, a0, b0), WordByte(Or, a1, b1), WordByte(Or, a2, b2), WordByte(Or, a3, b3),
               WordByte(Or, a4, b4), WordByte(Or, a5, b5), WordByte(Or, a6, b6), WordByte(Or, a7, b7))
  {
  }

  lemma JoinXor(a0: octet, a1: octet, a2: octet, a3: octet, a4: octet, a5: octet, a6: octet, a7: octet,
               b0: octet, b1: octet, b2: octet, b3: octet, b4: octet, b5: octet, b6: octet, b7: octet)
    ensures OpWord(Xor, Join8(a0, a1, a2, a3, a4, a5, a6, a7), Join8(b0, b1, b2, b3, b4, b5, b6, b7))
      == Join8(WordByte(Xor, a0, b0), WordByte(Xor, a1, b1), WordByte(Xor, a2, b2), WordByte(Xor, a3, b3),
               WordByte(Xor, a4, b4), WordByte(Xor, a5, b5), WordByte(Xor, a6, b6), WordByte(Xor, a7, b7))
  {
  }

  lemma JoinNot(a0: octet, a1: octet, a2: octet, a3: octet, a4: octet, a5: octet, a6: octet, a7: octet,
               b0: octet, b1: octet, b2: octet, b3: octet, b4: octet, b5: octet, b6: octet, b7: octet)
    ensures OpWord(Not, Join8(a0, a1, a2, a3, a4, a5, a6, a7), Join8(b0, b1, b2, b3, b4, b5, b6, b7))
      == Join8(WordByte(Not, a0, b0), WordByte(Not, a1, b1), WordByte(Not, a2, b2), WordByte(Not, a3, b3),
               WordByte(Not, a4, b4), WordByte(Not, a5, b5), WordByte(Not, a6, b6), WordByte(Not, a7, b7))
  {
    hide Join8, OpWord, WordByte;
    JoinXor(a0, a1, a2, a3, a4, a5, a6, a7, 0xff, 0xff, 0xff, 0xff, 0xff, 0xff, 0xff, 0xff);
    AllOnes();
    NotIsXor(Join8(a0, a1, a2, a3, a4, a5, a6, a7), Join8(b0, b1, b2, b3, b4, b5, b6, b7));
    NotIsXorByte(a0, b0);
    NotIsXorByte(a1, b1);
    NotIsXorByte(a2, b2);
    NotIsXorByte(a3, b3);
    NotIsXorByte(a4, b4);
    NotIsXorByte(a5, b5);
    NotIsXorByte(a6, b6);
    NotIsXorByte(a7, b7);
  }

  lemma AllOnes()
    ensures Join8(0xff, 0xff, 0xff, 0xff, 0xff, 0xff, 0xff, 0xff) == 0xffff_ffff_ffff_ffff
  {
  }

  lemma NotIsXor(w: bv64, v: bv64)
    ensures OpWord(Not, w, v) == OpWord(Xor, w, 0xffff_ffff_ffff_ffff)
  {
  }

  lemma NotIsXorByte(b: octet, d: octet)
    ensures WordByte(Not, b, d) == WordByte(Xor, b, 0xff)
  {
  }

  lemma JoinOp(op: BitOp, a0: octet, a1: octet, a2: octet, a3: octet, a4: octet, a5: octet, a6: octet, a7: octet,
               b0: octet, b1: octet, b2: octet, b3: octet, b4: octet, b5: octet, b6: octet, b7: octet)
    ensures OpWord(op, Join8(a0, a1, a2, a3, a4, a5, a6, a7), Join8(b0, b1, b2, b3, b4, b5, b6, b7))
      == Join8(WordByte(op, a0, b0), WordByte(op, a1, b1), WordByte(op, a2, b2), WordByte(op, a3, b3),
               WordByte(op, a4, b4), WordByte(op, a5, b5), WordByte(op, a6, b6), WordByte(op, a7, b7))
  {
    hide Join8, OpWord, WordByte;
    match op
    case And => JoinAnd(a0, a1, a2, a3, a4, a5, a6, a7, b0, b1, b2, b3, b4, b5, b6, b7);
    case Or => JoinOr(a0, a1, a2, a3, a4, a5, a6, a7, b0, b1, b2, b3, b4, b5, b6, b7);
    case Xor => JoinXor(a0, a1, a2, a3, a4, a5, a6, a7, b0, b1, b2, b3, b4, b5, b6, b7);
    case Not => JoinNot(a0, a1, a2, a3, a4, a5, a6, a7, b0, b1, b2, b3, b4, b5, b6, b7);
  }

  lemma SplitJoin(b0: octet, b1: octet, b2: octet, b3: octet, b4: octet, b5: octet, b6: octet, b7: octet)
    ensures Bytes64(Join8(b0, b1, b2, b3, b4, b5, b6, b7)) == [b0, b1, b2, b3, b4, b5, b6, b7]
  {
  }

  /** A word operation is the operation on each of its bytes. */
  lemma WordIsBytes(op: BitOp, a: bits, b: bits)
    requires |a| == |b| == 8
    ensures forall k :: 0 <= k < 8 ==> Bytes64(OpWord(op, Word64(a), Word64(b)))[k] == WordByte(op, a[k], b[k])
  {
    hide Join8, Bytes64, OpWord, WordByte;
    JoinOp(op, a[0], a[1], a[2], a[3], a[4], a[5], a[6], a[7], b[0], b[1], b[2], b[3], b[4], b[5], b[6], b[7]);
    SplitJoin(WordByte(op, a[0], b[0]), WordByte(op, a[1], b[1]), WordByte(op, a[2], b[2]), WordByte(op, a[3], b[3]),
              WordByte(op, a[4], b[4]), WordByte(op, a[5], b[5]), WordByte(op, a[6], b[6]), WordByte(op, a[7], b[7]));
  }

  /** lres[k] op= lp[i][k]: one word of the result takes in one word of a source. */
  method WordStep(res: array<octet>, pos: nat, op: BitOp, src: bits)
    requires pos + 8 <= res.Length && pos + 8 <= |src|
    modifies res
    ensures forall k :: pos <= k < pos + 8 ==> res[k] == WordByte(op, old(res[k]), src[k])
    ensures forall k :: 0 <= k < res.Length && !(pos <= k < pos + 8) ==> res[k] == old(res[k])
  {
    hide WordByte, Word64, Bytes64, OpWord;
    ghost var before := res[pos..pos + 8];
    var word := Bytes64(OpWord(op, Word64(res[pos..pos + 8]), Word64(src[pos..pos + 8])));
    WordIsBytes(op, before, src[pos..pos + 8]);
    assert forall k :: pos <= k < pos + 8 ==> before[k - pos] == res[k] && src[pos..pos + 8][k - pos] == src[k];
    forall k | 0 <= k < 8 { res[pos + k] := word[k]; }
  }

  /** The four words of one round of the fast path. */
  method FourWords(res: array<octet>, pos: nat, op: BitOp, src: bits)
    requires pos + 32 <= res.Length && pos + 32 <= |src|
    modifies res
    ensures forall k :: pos <= k < pos + 32 ==> res[k] == WordByte(op, old(res[k]), src[k])
    ensures forall k :: 0 <= k < res.Length && !(pos <= k < pos + 32) ==> res[k] == old(res[k])
  {
    hide WordByte;
    WordStep(res, pos, op, src);
    WordStep(res, pos + 8, op, src);
    WordStep(res, pos + 16, op, src);
    WordStep(res, pos + 24, op, src);
  }

  /** Bytes lo to hi of the result hold the first n sources combined. */
  ghost predicate Holds(res: seq<octet>, lo: nat, hi: nat, op: BitOp, srcs: seq<bits>, n: nat)
    requires 1 <= n <= |srcs| && hi <= |res|
  {
    forall k :: lo <= k < hi ==> res[k] == Combined(op, srcs, k, n)
  }

  /** One round: 32 bytes of every source. NOT has one source, and turns the copy of it round. */
  method FastRound(res: array<octet>, j: nat, op: BitOp, srcs: seq<bits>)
    requires srcs != [] && (op == Not ==> |srcs| == 1) && j + 32 <= res.Length
    requires forall i :: 0 <= i < |srcs| ==> j + 32 <= |srcs[i]|
    requires forall k :: j <= k < j + 32 ==> res[k] == srcs[0][k]
    modifies res
    ensures Holds(res[..], j, j + 32, op, srcs, |srcs|)
    ensures forall k :: 0 <= k < res.Length && !(j <= k < j + 32) ==> res[k] == old(res[k])
  {
    if op == Not {
      FourWords(res, j, op, srcs[0]);
    } else {
      var i := 1;
      while i < |srcs|
        invariant 1 <= i <= |srcs| && Holds(res[..], j, j + 32, op, srcs, i)
        invariant forall k :: 0 <= k < res.Length && !(j <= k < j + 32) ==> res[k] == old(res[k])
      {
        FourWords(res, j, op, srcs[i]);
        i := i + 1;
      }
    }
  }

  const WORD_ROUND := 32
  const MAX_FAST_KEYS := 16

  /** The fast path, as far as all sources reach; j is where it stops. */
  method FastPath(res: array<octet>, op: BitOp, srcs: seq<bits>, minlen: nat) returns (j: nat)
    requires srcs != [] && (op == Not ==> |srcs| == 1) && minlen <= res.Length
    requires forall i :: 0 <= i < |srcs| ==> minlen <= |srcs[i]|
    modifies res
    ensures j <= res.Length && Holds(res[..], 0, j, op, srcs, |srcs|)
  {
    hide Combined;
    forall k | 0 <= k < minlen { res[k] := srcs[0][k]; }
    j := 0;
    var left: nat := minlen;
    while left >= WORD_ROUND
      invariant j + left == minlen && Holds(res[..], 0, j, op, srcs, |srcs|)
      invariant forall k :: j <= k < minlen ==> res[k] == srcs[0][k]
    {
      FastRound(res, j, op, srcs);
      j := j + WORD_ROUND;
      left := left - WORD_ROUND;
    }
  }

  /** One byte of the general path. */
  method SlowByte(op: BitOp, srcs: seq<bits>, j: nat) returns (output: octet)
    requires srcs != []
    ensures output == Combined(op, srcs, j, |srcs|)
  {
    output := ByteAt(srcs[0], j);
    if op == Not { output := !output; }
    var i := 1;
    while i < |srcs|
      invariant 1 <= i <= |srcs| && output == Combined(op, srcs, j, i)
    {
      output := Op(op, output, ByteAt(srcs[i], j));
      i := i + 1;
    }
  }

  /** The lengths the lookup loop of bitopCommand finds; a missing key counts as an empty string. */
  method Lengths(srcs: seq<bits>) returns (maxlen: nat, minlen: nat)
    requires srcs != []
    ensures forall i :: 0 <= i < |srcs| ==> minlen <= |srcs[i]| <= maxlen
    ensures (exists i :: 0 <= i < |srcs| && |srcs[i]| == maxlen) && exists i :: 0 <= i < |srcs| && |srcs[i]| == minlen
  {
    maxlen, minlen := 0, 0;
    for j := 0 to |srcs|
      invariant forall i :: 0 <= i < j ==> minlen <= |srcs[i]| <= maxlen
      invariant j == 0 ==> maxlen == 0
      invariant j > 0 ==> exists i :: 0 <= i < j && |srcs[i]| == maxlen
      invariant j > 0 ==> exists i :: 0 <= i < j && |srcs[i]| == minlen
    {
      if |srcs[j]| > maxlen { maxlen := |srcs[j]|; }
      if j == 0 || |srcs[j]| < minlen { minlen := |srcs[j]|; }
    }
  }

  /** The compute part of bitopCommand: every byte combines all sources, whichever path wrote it. */
  method Bitop(op: BitOp, srcs: seq<bits>) returns (res: bits)
    requires srcs != [] && (op == Not ==> |srcs| == 1)
    ensures forall i :: 0 <= i < |srcs| ==> |srcs[i]| <= |res|
    ensures exists i :: 0 <= i < |srcs| && |srcs[i]| == |res|
    ensures forall j :: 0 <= j < |res| ==> res[j] == Combined(op, srcs, j, |srcs|)
    ensures forall p :: 0 <= p < 8 * |res| ==> (GetBit(res, p) <==> Bit(op, srcs, p))
  {
    hide Combined, Bit, GetBit;
    var maxlen, minlen := Lengths(srcs);
    var out := new octet[maxlen](_ => 0);
    var j := 0;
    if minlen > 0 && |srcs| <= MAX_FAST_KEYS {
      j := FastPath(out, op, srcs, minlen);
    }
    while j < maxlen
      invariant j <= maxlen && Holds(out[..], 0, j, op, srcs, |srcs|)
    {
      out[j] := SlowByte(op, srcs, j);
      j := j + 1;
    }
    res := out[..];
    forall p | 0 <= p < 8 * |res| ensures GetBit(res, p) <==> Bit(op, srcs, p) {
      ResultBit(op, srcs, res, p);
    }
  }

  // ---- BITOP, bit by bit, as GETBIT sees it

  /** How many of the sources have the bit. */
  function Having(srcs: seq<bits>, p: nat): nat {
    if srcs == [] then 0 else Having(srcs[..|srcs| - 1], p) + if GetBit(srcs[|srcs| - 1], p) then 1 else 0
  }

  /** What bit p of the result is to be: in all sources, in some, in an odd number of them, not in the one. */
  predicate Bit(op: BitOp, srcs: seq<bits>, p: nat)
    requires srcs != []
  {
    match op
    case And => forall i :: 0 <= i < |srcs| ==> GetBit(srcs[i], p)
    case Or => exists i :: 0 <= i < |srcs| && GetBit(srcs[i], p)
    case Xor => Having(srcs, p) % 2 == 1
    case Not => !GetBit(srcs[0], p)
  }

  lemma ResultBit(op: BitOp, srcs: seq<bits>, res: bits, p: nat)
    requires srcs != [] && (op == Not ==> |srcs| == 1) && p < 8 * |res|
    requires res[p / 8] == Combined(op, srcs, p / 8, |srcs|)
    ensures GetBit(res, p) <==> Bit(op, srcs, p)
  {
    hide Combined, Bit, Mask;
    CombinedBit(op, srcs, p, |srcs|);
    assert srcs[..|srcs|] == srcs;
  }

  lemma {:induction false} CombinedBit(op: BitOp, srcs: seq<bits>, p: nat, n: nat)
    requires 1 <= n <= |srcs| && (op == Not ==> n == 1)
    ensures Has(Combined(op, srcs, p / 8, n), Mask(p)) <==> Bit(op, srcs[..n], p)
  {
    hide Mask, Has, Op;
    SourceBit(srcs[n - 1], p);
    if n == 1 {
      OneSource(op, srcs[..1], p);
      NotBit(ByteAt(srcs[0], p / 8), Mask(p));
      MaskOneBit(p);
    } else {
      CombinedBit(op, srcs, p, n - 1);
      OpBit(op, Combined(op, srcs, p / 8, n - 1), ByteAt(srcs[n - 1], p / 8), p);
      MoreSources(op, srcs[..n - 1], srcs[n - 1], p);
      assert srcs[..n] == srcs[..n - 1] + [srcs[n - 1]];
    }
  }

  lemma OneSource(op: BitOp, srcs: seq<bits>, p: nat)
    requires |srcs| == 1
    ensures Bit(op, srcs, p) <==> (op == Not) != GetBit(srcs[0], p)
  {
    hide GetBit;
    assert srcs[..0] == [] && Having([], p) == 0;
  }

  lemma MoreSources(op: BitOp, srcs: seq<bits>, src: bits, p: nat)
    requires srcs != [] && op != Not
    ensures Bit(op, srcs + [src], p) <==>
      match op
      case And => Bit(op, srcs, p) && GetBit(src, p)
      case Or => Bit(op, srcs, p) || GetBit(src, p)
      case Xor => Bit(op, srcs, p) != GetBit(src, p)
      case Not => false
  {
    hide GetBit;
    var all := srcs + [src];
    assert all[..|srcs|] == srcs && all[|srcs|] == src;
    assert forall i :: 0 <= i < |srcs| ==> all[i] == srcs[i];
  }

  /** A byte of a source that has ended has no bits. */
  lemma SourceBit(src: bits, p: nat)
    ensures Has(ByteAt(src, p / 8), Mask(p)) <==> GetBit(src, p)
  {
    hide Mask;
    NoBit(Mask(p));
  }

  lemma NoBit(m: octet)
    ensures !Has(0, m)
  {
  }

  /** A mask with exactly one bit. */
  predicate SingleBit(m: octet) { m != 0 && m & (m - 1) == 0 }

  lemma MaskOneBit(p: nat)
    ensures SingleBit(Mask(p))
  {
  }

  lemma NotBit(b: octet, m: octet)
    ensures SingleBit(m) ==> (Has(!b, m) <==> !Has(b, m))
  {
  }

  lemma AndBit(a: octet, b: octet, m: octet)
    ensures SingleBit(m) ==> (Has(a & b, m) <==> Has(a, m) && Has(b, m))
  {
  }

  lemma OrBit(a: octet, b: octet, m: octet)
    ensures Has(a | b, m) <==> Has(a, m) || Has(b, m)
  {
  }

  lemma XorBit(a: octet, b: octet, m: octet)
    ensures SingleBit(m) ==> (Has(a ^ b, m) <==> Has(a, m) != Has(b, m))
  {
  }

  lemma OpBit(op: BitOp, a: octet, b: octet, p: nat)
    requires op != Not
    ensures Has(Op(op, a, b), Mask(p)) <==>
      match op
      case And => Has(a, Mask(p)) && Has(b, Mask(p))
      case Or => Has(a, Mask(p)) || Has(b, Mask(p))
      case Xor => Has(a, Mask(p)) != Has(b, Mask(p))
      case Not => false
  {
    hide Mask, Has, SingleBit;
    MaskOneBit(p);
    AndBit(a, b, Mask(p));
    OrBit(a, b, Mask(p));
    XorBit(a, b, Mask(p));
  }

  // ---- single bits

  /** The mask of a bit offset inside its byte: offset 0 is the most significant bit. */
  function Mask(offset: nat): octet {
    var k := offset % 8;
    if k == 0 then 0x80 else if k == 1 then 0x40 else if k == 2 then 0x20 else if k == 3 then 0x10
    else if k == 4 then 0x08 else if k == 5 then 0x04 else if k == 6 then 0x02 else 0x01
  }

  predicate Has(b: octet, m: octet) { b & m != 0 }

  /** A byte with one bit set or cleared. */
  function With(b: octet, m: octet, on: bool): octet { if on then (b & !m) | m else b & !m }

  /** As the code computes it: a shift by what the three low bits of the offset leave of seven. */
  lemma MaskIsShift(offset: nat)
    ensures Mask(offset) == (1 as octet) << (7 - offset % 8)
  {
    var bit := offset % 8;
    assert bit == 0 || bit == 1 || bit == 2 || bit == 3 || bit == 4 || bit == 5 || bit == 6 || bit == 7;
  }

  lemma LowBits(offset: bv64)
    ensures offset & 7 == offset % 8 && offset >> 3 == offset / 8
  {
  }

  /** The bit read of getbitCommand; beyond the end all bits are zero. */
  function GetBit(s: bits, offset: nat): bool { offset / 8 < |s| && Has(s[offset / 8], Mask(offset)) }

  /** sdsgrowzero. */
  function GrowZero(s: bits, len: nat): bits { if len <= |s| then s else s + seq(len - |s|, _ => 0) }

  /** The bit update of setbitCommand, with the bit that was there before. */
  function SetBit(s: bits, offset: nat, on: bool): (bits, bool) {
    var grown := GrowZero(s, offset / 8 + 1);
    var byteval := grown[offset / 8];
    (grown[offset / 8 := With(byteval, Mask(offset), on)], Has(byteval, Mask(offset)))
  }

  /** The string a key holds, while setbitCommand works on it. */
  class StringValue {
    var s: bits

    constructor (s: bits)
      ensures this.s == s
    {
      this.s := s;
    }

    method SetBitCommand(offset: nat, on: bool) returns (was: bool)
      modifies this
      ensures (s, was) == SetBit(old(s), offset, on)
    {
      hide Has, With, Mask;
      var i := offset / 8;
      s := GrowZero(s, i + 1);
      var byteval := s[i];
      was := Has(byteval, Mask(offset));
      s := s[i := With(byteval, Mask(offset), on)];
    }
  }

  lemma OtherBit(b: octet, m: octet, n: octet, on: bool)
    requires m & n == 0
    ensures Has(With(b, m, on), n) == Has(b, n)
  {
    ClearOther(b, m, n);
  }

  lemma ClearOther(b: octet, m: octet, n: octet)
    requires m & n == 0
    ensures ((b & !m) | m) & n == b & n && (b & !m) & n == b & n
  {
  }

  lemma OwnBit(b: octet, m: octet, on: bool)
    requires m != 0
    ensures Has(With(b, m, on), m) == on
  {
    ClearOwn(b, m);
  }

  lemma ClearOwn(b: octet, m: octet)
    ensures ((b & !m) | m) & m == m && (b & !m) & m == 0
  {
  }

  lemma MasksApart(p: nat, q: nat)
    ensures p % 8 != q % 8 ==> Mask(p) & Mask(q) == 0
    ensures Mask(p) != 0
  {
  }

  lemma ZeroByte(m: octet)
    ensures !Has(0, m)
  {
  }

  lemma SameMask(p: nat, q: nat)
    requires p % 8 == q % 8
    ensures Mask(p) == Mask(q)
  {
  }

  /** Growing a string does not change a bit of it. */
  lemma GrownBits(s: bits, len: nat, p: nat)
    ensures GetBit(GrowZero(s, len), p) == GetBit(s, p)
  {
    hide Has, Mask;
    ZeroByte(Mask(p));
  }

  /** SETBIT changes the bit it names and no other, and answers with what GETBIT would have said. */
  lemma SetBitThenGet(s: bits, offset: nat, on: bool, p: nat)
    ensures var (t, was) := SetBit(s, offset, on);
      && was == GetBit(s, offset)
      && GetBit(t, p) == (if p == offset then on else GetBit(s, p))
      && |t| == if offset / 8 < |s| then |s| else offset / 8 + 1
  {
    hide Has, Mask, With;
    var grown := GrowZero(s, offset / 8 + 1);
    GrownBits(s, offset / 8 + 1, offset);
    GrownBits(s, offset / 8 + 1, p);
    MasksApart(offset, p);
    MasksApart(p, offset);
    if p == offset {
      OwnBit(grown[offset / 8], Mask(offset), on);
    } else if p / 8 == offset / 8 {
      OtherBit(grown[offset / 8], Mask(offset), Mask(p), on);
    }
  }

  /** BITCOUNT is the number of offsets at which GETBIT answers one. */
  function OnesBelow(s: bits, n: nat): nat {
    if n == 0 then 0 else OnesBelow(s, n - 1) + if GetBit(s, n - 1) then 1 else 0
  }

  lemma {:induction false} CountIsOnes(s: bits)
    ensures Count(s) == OnesBelow(s, 8 * |s|)
  {
    hide GetBit;
    if s != [] {
      var init := s[..|s| - 1];
      CountIsOnes(init);
      OnesOfPrefix(init, s, 8 * |init|);
      OnesOfByte(s, |init|);
    }
  }

  lemma {:induction false} OnesOfPrefix(a: bits, s: bits, n: nat)
    requires |a| <= |s| && a == s[..|a|] && n <= 8 * |a|
    ensures OnesBelow(a, n) == OnesBelow(s, n)
  {
    hide Mask;
    if n > 0 {
      OnesOfPrefix(a, s, n - 1);
      assert a[(n - 1) / 8] == s[(n - 1) / 8];
    }
  }

  lemma OnesOfByte(s: bits, i: nat)
    requires i < |s|
    ensures OnesBelow(s, 8 * i + 8) == OnesBelow(s, 8 * i) + CountByte(s[i])
  {
    hide One, OnesBelow, Mask;
    EightMasks();
    OneBit(s, i, 0);
    OneBit(s, i, 1);
    OneBit(s, i, 2);
    OneBit(s, i, 3);
    OneBit(s, i, 4);
    OneBit(s, i, 5);
    OneBit(s, i, 6);
    OneBit(s, i, 7);
  }

  lemma EightMasks()
    ensures Mask(0) == 0x80 && Mask(1) == 0x40 && Mask(2) == 0x20 && Mask(3) == 0x10
    ensures Mask(4) == 0x08 && Mask(5) == 0x04 && Mask(6) == 0x02 && Mask(7) == 0x01
  {
  }

  lemma OneBit(s: bits, i: nat, k: nat)
    requires i < |s| && k < 8
    ensures OnesBelow(s, 8 * i + k + 1) == OnesBelow(s, 8 * i + k) + One(s[i], Mask(k))
  {
    hide Mask;
    assert (8 * i + k) / 8 == i && (8 * i + k) % 8 == k % 8;
    SameMask(8 * i + k, k);
  }
}
