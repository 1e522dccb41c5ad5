/** SHA-1: the definition of FIPS 180-4 and the streaming, in-place form of sha1.c. */
module Sha1 {
  type octet = bv8

  // ---- FIPS 180-4, sections 4.1.1, 4.2.1, 5.1.1 and 6.1.2

  datatype Vars = Vars(a: bv32, b: bv32, c: bv32, d: bv32, e: bv32)

  const INITIAL := Vars(0x67452301, 0xEFCDAB89, 0x98BADCFE, 0x10325476, 0xC3D2E1F0)

  function Rotl1(x: bv32): bv32 { (x << 1) | (x >> 31) }
  function Rotl5(x: bv32): bv32 { (x << 5) | (x >> 27) }
  function Rotl30(x: bv32): bv32 { (x << 30) | (x >> 2) }

  function Ch(x: bv32, y: bv32, z: bv32): bv32 { (x & y) ^ ((!x) & z) }
  function Parity(x: bv32, y: bv32, z: bv32): bv32 { x ^ y ^ z }
  function Maj(x: bv32, y: bv32, z: bv32): bv32 { (x & y) ^ (x & z) ^ (y & z) }

  function F(t: nat, x: bv32, y: bv32, z: bv32): bv32 {
    if t < 20 then Ch(x, y, z) else if t < 40 then Parity(x, y, z) else if t < 60 then Maj(x, y, z) else Parity(x, y, z)
  }

  function Xor4(x: bv32, y: bv32, z: bv32, w: bv32): bv32 { x ^ y ^ z ^ w }
  function Sum5(r: bv32, f: bv32, e: bv32, k: bv32, w: bv32): bv32 { r + f + e + k + w }

  function K(t: nat): bv32 {
    if t < 20 then 0x5A827999 else if t < 40 then 0x6ED9EBA1 else if t < 60 then 0x8F1BBCDC else 0xCA62C1D6
  }

  function BigEndian(b0: octet, b1: octet, b2: octet, b3: octet): bv32 {
    ((b0 as bv32) << 24) | ((b1 as bv32) << 16) | ((b2 as bv32) << 8) | (b3 as bv32)
  }

  /** Word t of the 80-word message schedule of a block. */
  function W(block: seq<octet>, t: nat): bv32
    requires |block| == 64
  {
    if t < 16 then BigEndian(block[4 * t], block[4 * t + 1], block[4 * t + 2], block[4 * t + 3])
    else Rotl1(Xor4(W(block, t - 3), W(block, t - 8), W(block, t - 14), W(block, t - 16)))
  }

  function Round(v: Vars, t: nat, w: bv32): Vars {
    Vars(Sum5(Rotl5(v.a), F(t, v.b, v.c, v.d), v.e, K(t), w), v.a, Rotl30(v.b), v.c, v.d)
  }

  function Rounds(h: Vars, block: seq<octet>, t: nat): Vars
    requires |block| == 64
  {
    if t == 0 then h else Round(Rounds(h, block, t - 1), t - 1, W(block, t - 1))
  }

  function Plus(x: bv32, y: bv32): bv32 { x + y }

  function AddVars(h: Vars, v: Vars): Vars {
    Vars(Plus(h.a, v.a), Plus(h.b, v.b), Plus(h.c, v.c), Plus(h.d, v.d), Plus(h.e, v.e))
  }

  function HashBlock(h: Vars, block: seq<octet>): Vars
    requires |block| == 64
  {
    AddVars(h, Rounds(h, block, 80))
  }

  function HashBlocks(data: seq<octet>): Vars
    requires |data| % 64 == 0
  {
    if data == [] then INITIAL else HashBlock(HashBlocks(data[..|data| - 64]), data[|data| - 64..])
  }

  const WORD := 0x1_0000_0000

  /** The four bytes of a word, most significant first. */
  function WordOctets(v: nat): seq<octet> {
    [(v / 0x100_0000 % 256) as bv8, (v / 0x1_0000 % 256) as bv8, (v / 0x100 % 256) as bv8, (v % 256) as bv8]
  }

  /** The length in bits, modulo 2 to the 64, as two words, the high one first. */
  function Length64(n: nat): (s: seq<octet>)
    ensures |s| == 8
  {
    WordOctets(8 * n / WORD % WORD) + WordOctets(8 * n % WORD)
  }

  function Zeros(n: nat): seq<octet> { seq(n, _ => 0) }

  /** The number of zero bytes that take message, marker and zeros to 56 bytes modulo 64. */
  function ZeroCount(n: nat): (k: nat)
    ensures (n + 1 + k) % 64 == 56 && k < 64
  {
    (55 - n) % 64
  }

  function Pad(message: seq<octet>): (p: seq<octet>)
    ensures |p| % 64 == 0
  {
    hide ZeroCount, Length64;
    Aligned(|message|, ZeroCount(|message|));
    message + [0x80] + Zeros(ZeroCount(|message|)) + Length64(|message|)
  }

  lemma Aligned(n: nat, k: nat)
    requires (n + 1 + k) % 64 == 56
    ensures (n + 1 + k + 8) % 64 == 0
  {
  }

  function WordBytes(w: bv32): seq<octet> {
    [((w >> 24) & 0xff) as bv8, ((w >> 16) & 0xff) as bv8, ((w >> 8) & 0xff) as bv8, (w & 0xff) as bv8]
  }

  function DigestOf(h: Vars): seq<octet> {
    WordBytes(h.a) + WordBytes(h.b) + WordBytes(h.c) + WordBytes(h.d) + WordBytes(h.e)
  }

  function Digest(message: seq<octet>): seq<octet> { DigestOf(HashBlocks(Pad(message))) }

  // ---- the forms the code uses

  function LittleEndian(b0: octet, b1: octet, b2: octet, b3: octet): bv32 {
    ((b3 as bv32) << 24) | ((b2 as bv32) << 16) | ((b1 as bv32) << 8) | (b0 as bv32)
  }

  /** blk0 on a little-endian machine: two rotations and two masks turn a word round. */
  function Swap(l: bv32): bv32 {
    (((l << 24) | (l >> 8)) & 0xFF00FF00) | (((l << 8) | (l >> 24)) & 0x00FF00FF)
  }

  lemma SwapTurns(b0: octet, b1: octet, b2: octet, b3: octet)
    ensures Swap(LittleEndian(b0, b1, b2, b3)) == BigEndian(b0, b1, b2, b3)
  {
  }

  /** The logical functions and the sum as R0 to R4 write them. */
  function FastCh(w: bv32, x: bv32, y: bv32): bv32 { (w & (x ^ y)) ^ y }
  function FastMaj(w: bv32, x: bv32, y: bv32): bv32 { ((w | x) & y) | (w & x) }
  function FastSum(z: bv32, f: bv32, word: bv32, k: bv32, r: bv32): bv32 { z + (f + word + k + r) }

  function Fast(t: nat, w: bv32, x: bv32, y: bv32): bv32 {
    if t < 20 then FastCh(w, x, y) else if t < 40 then Parity(w, x, y)
    else if t < 60 then FastMaj(w, x, y) else Parity(w, x, y)
  }

  lemma FastIsF(t: nat, w: bv32, x: bv32, y: bv32)
    ensures Fast(t, w, x, y) == F(t, w, x, y)
  {
    hide Ch, FastCh, Parity, Maj, FastMaj;
    Choose(w, x, y);
    Majority(w, x, y);
  }

  lemma Choose(x: bv32, y: bv32, z: bv32)
    ensures FastCh(x, y, z) == Ch(x, y, z)
  {
    ChooseBits(x, y, z);
  }

  lemma ChooseBits(x: bv32, y: bv32, z: bv32)
    ensures (x & (y ^ z)) ^ z == (x & y) ^ ((!x) & z)
  {
  }

  lemma Majority(x: bv32, y: bv32, z: bv32)
    ensures FastMaj(x, y, z) == Maj(x, y, z)
  {
    MajorityBits(x, y, z);
  }

  lemma MajorityBits(x: bv32, y: bv32, z: bv32)
    ensures ((x | y) & z) | (x & y) == (x & y) ^ (x & z) ^ (y & z)
  {
  }

  lemma SumOrder(z: bv32, f: bv32, word: bv32, k: bv32, r: bv32)
    ensures FastSum(z, f, word, k, r) == Sum5(r, f, z, k, word)
  {
  }

  /** The 16 words as they lie in memory, and as they are after t rounds have replaced some of them. */
  ghost predicate Circular(block: seq<octet>, l: seq<bv32>, t: nat)
    requires |block| == 64 && |l| == 16
  {
    && (forall i :: t <= i < 16 ==> l[i] == Raw(block, i))
    && (forall k :: 0 <= k < t && t - 16 <= k ==> l[k % 16] == W(block, k))
  }

  function Raw(block: seq<octet>, i: nat): bv32
    requires |block| == 64 && i < 16
  {
    LittleEndian(block[4 * i], block[4 * i + 1], block[4 * i + 2], block[4 * i + 3])
  }

  /** Section 6.1.3: one word of sixteen, made of four others, is the next of the 80-word schedule. */
  lemma CircularWord(block: seq<octet>, l: seq<bv32>, t: nat)
    requires |block| == 64 && |l| == 16 && Circular(block, l, t)
    ensures t < 16 ==> Swap(l[t]) == W(block, t)
    ensures t >= 16 ==> Rotl1(Xor4(l[(t + 13) % 16], l[(t + 8) % 16], l[(t + 2) % 16], l[t % 16])) == W(block, t)
  {
    hide Rotl1, Swap, LittleEndian, BigEndian, Xor4, W;
    ScheduleWord(block, t);
    if t < 16 {
      SwapTurns(block[4 * t], block[4 * t + 1], block[4 * t + 2], block[4 * t + 3]);
    } else {
      assert l[(t - 3) % 16] == W(block, t - 3) && (t - 3) % 16 == (t + 13) % 16;
      assert l[(t - 8) % 16] == W(block, t - 8) && (t - 8) % 16 == (t + 8) % 16;
      assert l[(t - 14) % 16] == W(block, t - 14) && (t - 14) % 16 == (t + 2) % 16;
      assert l[(t - 16) % 16] == W(block, t - 16) && (t - 16) % 16 == t % 16;
    }
  }

  lemma ScheduleWord(block: seq<octet>, t: nat)
    requires |block| == 64
    ensures t < 16 ==>
              W(block, t) == BigEndian(block[4 * t], block[4 * t + 1], block[4 * t + 2], block[4 * t + 3])
    ensures t >= 16 ==>
              W(block, t) == Rotl1(Xor4(W(block, t - 3), W(block, t - 8), W(block, t - 14), W(block, t - 16)))
  {
    hide Rotl1, BigEndian, Xor4;
  }

  lemma CircularStep(block: seq<octet>, l: seq<bv32>, t: nat)
    requires |block| == 64 && |l| == 16 && Circular(block, l, t)
    ensures Circular(block, l[t % 16 := W(block, t)], t + 1)
  {
    hide W, Raw;
    var m := l[t % 16 := W(block, t)];
    forall k | 0 <= k < t + 1 && t + 1 - 16 <= k ensures m[k % 16] == W(block, k) {
      if k < t { assert k % 16 != t % 16; }
    }
  }

  /** The macros R0 to R4 with blk0 or blk: one round, in place on the word array and on z and w. */
  method R(v: bv32, w: bv32, x: bv32, y: bv32, z: bv32, t: nat, l: array<bv32>, ghost block: seq<octet>)
    returns (w': bv32, z': bv32)
    requires t < 80 && l.Length == 16 && |block| == 64 && Circular(block, l[..], t)
    modifies l
    ensures Circular(block, l[..], t + 1)
    ensures Vars(z', v, w', x, y) == Round(Vars(v, w, x, y, z), t, W(block, t))
  {
    hide Rotl1, Rotl5, Rotl30, Swap, F, Fast, K, Circular, W, Sum5, FastSum, Xor4;
    CircularWord(block, l[..], t);
    CircularStep(block, l[..], t);
    ghost var before := l[..];
    var word: bv32;
    if t < 16 {
      word := Swap(l[t]);
      l[t] := word;
    } else {
      word := Rotl1(Xor4(l[(t + 13) % 16], l[(t + 8) % 16], l[(t + 2) % 16], l[t % 16]));
      l[t % 16] := word;
    }
    assert l[..] == before[t % 16 := W(block, t)];
    FastIsF(t, w, x, y);
    SumOrder(z, F(t, w, x, y), word, K(t), Rotl5(v));
    z' := FastSum(z, Fast(t, w, x, y), word, K(t), Rotl5(v));
    w' := Rotl30(w);
  }

  /** Five rounds, after which the five variables are back in their places. */
  method FiveRounds(a: bv32, b: bv32, c: bv32, d: bv32, e: bv32, t: nat, l: array<bv32>,
                    ghost h: Vars, ghost block: seq<octet>)
    returns (a': bv32, b': bv32, c': bv32, d': bv32, e': bv32)
    requires t <= 75 && l.Length == 16 && |block| == 64 && Circular(block, l[..], t)
    requires Vars(a, b, c, d, e) == Rounds(h, block, t)
    modifies l
    ensures Circular(block, l[..], t + 5) && Vars(a', b', c', d', e') == Rounds(h, block, t + 5)
  {
    hide Circular, Round, W;
    a', b', c', d', e' := a, b, c, d, e;
    b', e' := R(a', b', c', d', e', t, l, block);
    a', d' := R(e', a', b', c', d', t + 1, l, block);
    e', c' := R(d', e', a', b', c', t + 2, l, block);
    d', b' := R(c', d', e', a', b', t + 3, l, block);
    c', a' := R(b', c', d', e', a', t + 4, l, block);
    assert Rounds(h, block, t + 2) == Round(Rounds(h, block, t + 1), t + 1, W(block, t + 1));
    assert Rounds(h, block, t + 4) == Round(Rounds(h, block, t + 3), t + 3, W(block, t + 3));
  }

  /** SHA1Transform on 64 bytes of a buffer: the hash of one block, with a schedule of 16 words. */
  method Transform(state: array<bv32>, buffer: seq<octet>)
    requires state.Length == 5 && |buffer| == 64
    modifies state
    ensures VarsOf(state[..]) == HashBlock(old(VarsOf(state[..])), buffer)
  {
    hide Circular, Round, W, Rounds, LittleEndian, Plus;
    var l := new bv32[16](i requires 0 <= i < 16 => Raw(buffer, i));
    Loaded(buffer, l[..]);
    ghost var h := VarsOf(state[..]);
    var a, b, c, d, e := state[0], state[1], state[2], state[3], state[4];
    var t := 0;
    NoRounds(h, buffer);
    while t < 80
      modifies l
      invariant 0 <= t <= 80 && t % 5 == 0 && l.Length == 16 && Circular(buffer, l[..], t)
      invariant Vars(a, b, c, d, e) == Rounds(h, buffer, t)
    {
      a, b, c, d, e := FiveRounds(a, b, c, d, e, t, l, h, buffer);
      t := t + 5;
    }
    state[0] := Plus(state[0], a);
    state[1] := Plus(state[1], b);
    state[2] := Plus(state[2], c);
    state[3] := Plus(state[3], d);
    state[4] := Plus(state[4], e);
  }

  lemma NoRounds(h: Vars, block: seq<octet>)
    requires |block| == 64
    ensures Rounds(h, block, 0) == h
  {
  }

  lemma Loaded(block: seq<octet>, l: seq<bv32>)
    requires |block| == 64 && |l| == 16 && forall i :: 0 <= i < 16 ==> l[i] == Raw(block, i)
    ensures Circular(block, l, 0)
  {
  }

  function VarsOf(s: seq<bv32>): Vars
    requires |s| == 5
  {
    Vars(s[0], s[1], s[2], s[3], s[4])
  }

  // ---- streaming

  /** The blocks of a message that are complete, and the bytes behind them. */
  function Full(m: seq<octet>): (r: seq<octet>)
    ensures |r| % 64 == 0
  {
    m[..|m| - |m| % 64]
  }

  function Tail(m: seq<octet>): (r: seq<octet>)
    ensures |r| == |m| % 64 && m == Full(m) + r
  {
    m[|m| - |m| % 64..]
  }

  lemma NextBlock(m: seq<octet>, n: nat)
    requires n % 64 == 0 && n + 64 <= |m|
    ensures HashBlocks(m[..n + 64]) == HashBlock(HashBlocks(m[..n]), m[n..n + 64])
  {
    hide HashBlock;
    assert m[..n + 64][..n] == m[..n] && m[..n + 64][n..] == m[n..n + 64];
  }

  lemma NoNewBlock(m: seq<octet>, data: seq<octet>)
    requires |Tail(m)| + |data| < 64
    ensures Full(m + data) == Full(m) && Tail(m + data) == Tail(m) + data
  {
    var n := |m| - |m| % 64;
    assert |m + data| == n + (|Tail(m)| + |data|);
    AlignedMod(n, |Tail(m)| + |data|);
  }

  lemma NewBlocks(m: seq<octet>, data: seq<octet>, i: nat)
    requires i <= |data| && (|m| + i) % 64 == 0 && |data| - i < 64
    ensures Full(m + data) == (m + data)[..|m| + i] && Tail(m + data) == data[i..]
  {
    assert |m + data| == |m| + i + (|data| - i);
    AlignedMod(|m| + i, |data| - i);
  }

  lemma AlignedMod(n: nat, r: nat)
    requires n % 64 == 0 && r < 64
    ensures (n + r) % 64 == r
  {
  }

  /** The two halves of the bit counter after len more bytes, the carry found by comparing. */
  function Count0(count0: nat, len: nat): nat { (count0 + len * 8 % WORD) % WORD }

  function Count1(count0: nat, count1: nat, len: nat): nat {
    ((if Count0(count0, len) < count0 then (count1 + 1) % WORD else count1) + len / 0x2000_0000) % WORD
  }

  predicate Counts(count0: nat, count1: nat, n: nat) {
    count0 == 8 * n % WORD && count1 == 8 * n / WORD % WORD
  }

  lemma WordParts(v: nat, q: nat, r: nat)
    requires v == q * WORD + r && r < WORD
    ensures v / WORD == q && v % WORD == r
  {
  }

  lemma CountOk(count0: nat, count1: nat, n: nat, len: nat)
    requires Counts(count0, count1, n) && len < WORD
    ensures Counts(Count0(count0, len), Count1(count0, count1, len), n + len)
  {
    var q, p := 8 * n / WORD, len / 0x2000_0000;
    var low := len * 8 - p * WORD;
    WordParts(len * 8, p, low);
    var carry := if count0 + low >= WORD then 1 else 0;
    var r := count0 + low - carry * WORD;
    WordParts(count0 + low, carry, r);
    WordParts(8 * (n + len), q + p + carry, r);
    Wraps(q, carry, p);
  }

  lemma Wraps(q: nat, carry: nat, p: nat)
    requires carry <= 1
    ensures ((if carry == 1 then (q % WORD + 1) % WORD else q % WORD) + p) % WORD == (q + p + carry) % WORD
  {
    var a := q / WORD;
    if q % WORD + carry == WORD {
      assert (q % WORD + 1) % WORD == 0;
      assert q + p + carry == p + (a + 1) * WORD;
      WrapAway(p, a + 1);
    } else {
      assert (q % WORD + carry) % WORD == q % WORD + carry;
      assert q + p + carry == (q % WORD + carry + p) + a * WORD;
      WrapAway(q % WORD + carry + p, a);
    }
  }

  lemma WrapAway(x: nat, k: nat)
    ensures (x + k * WORD) % WORD == x % WORD
  {
    WordParts(x + k * WORD, x / WORD + k, x % WORD);
  }

  /** The position in the buffer is read off the low half of the counter. */
  lemma BufferIndex(count0: nat, count1: nat, n: nat)
    requires Counts(count0, count1, n)
    ensures count0 / 8 % 64 == n % 64
  {
    var q := 8 * n / WORD;
    var d := n - q * 0x2000_0000;
    assert count0 == 8 * d;
    assert n == d + 64 * (q * 0x80_0000);
    Mod64(d, q * 0x80_0000);
  }

  lemma Mod64(d: nat, k: nat)
    ensures (d + 64 * k) % 64 == d % 64
  {
  }

  class Context {
    const state: array<bv32>
    const buffer: array<octet>
    var count0: nat
    var count1: nat
    /** Everything that has been run through this context. */
    ghost var message: seq<octet>

    ghost predicate Valid()
      reads this, state, buffer
    {
      && state.Length == 5 && buffer.Length == 64
      && Counts(count0, count1, |message|)
      && VarsOf(state[..]) == HashBlocks(Full(message))
      && buffer[..|message| % 64] == Tail(message)
    }

    /** SHA1Init. */
    constructor ()
      ensures Valid() && message == [] && fresh(state) && fresh(buffer)
    {
      state := new bv32[5];
      buffer := new octet[64];
      count0, count1, message := 0, 0, [];
      new;
      state[0], state[1], state[2], state[3], state[4] :=
        0x67452301, 0xEFCDAB89, 0x98BADCFE, 0x10325476, 0xC3D2E1F0;
    }

    /** memcpy into the buffer. */
    method Copy(j: nat, src: seq<octet>)
      requires j + |src| <= buffer.Length
      modifies buffer
      ensures buffer[..j + |src|] == old(buffer[..j]) + src
    {
      var i := 0;
      while i < |src|
        invariant 0 <= i <= |src|
        invariant buffer[..j] == old(buffer[..j]) && buffer[j..j + i] == src[..i]
      {
        buffer[j + i] := src[i];
        i := i + 1;
      }
      assert buffer[..j + i] == buffer[..j] + buffer[j..j + i];
    }

    /** The first bytes complete the block in the buffer, and whole blocks follow straight from the data. */
    method Consume(data: seq<octet>, j: nat) returns (i: nat)
      requires state.Length == 5 && buffer.Length == 64 && j == |message| % 64 && j + |data| > 63
      requires VarsOf(state[..]) == HashBlocks(Full(message)) && buffer[..j] == Tail(message)
      modifies state, buffer
      ensures i <= |data| && |data| - i < 64 && (|message| + i) % 64 == 0
      ensures VarsOf(state[..]) == HashBlocks((message + data)[..|message| + i])
    {
      hide HashBlock, HashBlocks, Full, Tail, VarsOf;
      i := 64 - j;
      Copy(j, data[..i]);
      assert buffer[..] == buffer[..j + i];
      FirstBlock(message, data, i);
      Transform(state, buffer[..]);
      i := WholeBlocks(data, i);
    }

    method WholeBlocks(data: seq<octet>, start: nat) returns (i: nat)
      requires state.Length == 5 && start <= |data| && (|message| + start) % 64 == 0
      requires VarsOf(state[..]) == HashBlocks((message + data)[..|message| + start])
      modifies state
      ensures start <= i <= |data| && |data| - i < 64 && (|message| + i) % 64 == 0
      ensures VarsOf(state[..]) == HashBlocks((message + data)[..|message| + i])
    {
      hide HashBlock, HashBlocks, VarsOf;
      i := start;
      while i + 63 < |data|
        invariant start <= i <= |data| && (|message| + i) % 64 == 0
        invariant VarsOf(state[..]) == HashBlocks((message + data)[..|message| + i])
      {
        DataBlock(message, data, i);
        Transform(state, data[i..i + 64]);
        i := i + 64;
      }
    }

    /** Blocks that are complete go through the transform, and what is left is in the buffer. */
    method Absorb(data: seq<octet>, j: nat)
      requires state.Length == 5 && buffer.Length == 64 && j == |message| % 64
      requires VarsOf(state[..]) == HashBlocks(Full(message)) && buffer[..j] == Tail(message)
      modifies state, buffer
      ensures VarsOf(state[..]) == HashBlocks(Full(message + data))
      ensures buffer[..|message + data| % 64] == Tail(message + data)
    {
      hide HashBlocks, Full, Tail, VarsOf;
      if j + |data| > 63 {
        var i := Consume(data, j);
        NewBlocks(message, data, i);
        Copy(0, data[i..]);
      } else {
        NoNewBlock(message, data);
        Copy(j, data);
      }
    }

    /** SHA1Update: the data may be cut anywhere; only the whole of what went in counts. */
    method Update(data: seq<octet>)
      requires Valid() && |data| <= WORD - 64
      modifies this, state, buffer
      ensures Valid() && message == old(message) + data
    {
      hide HashBlocks, Counts, Count0, Count1, Full, Tail, VarsOf;
      var len := |data|;
      BufferIndex(count0, count1, |message|);
      CountOk(count0, count1, |message|, len);
      var j := count0 / 8 % 64;
      count0, count1 := Count0(count0, len), Count1(count0, count1, len);
      Absorb(data, j);
      message := message + data;
    }

    /** SHA1Final: the padding goes through Update like any other data. */
    method Final() returns (digest: seq<octet>)
      requires Valid()
      modifies this, state, buffer
      ensures digest == Digest(old(message))
    {
      hide HashBlocks, WordBytes, WordOctets, Counts, Tail;
      ghost var m := message;
      var finalcount := FinalCount(count0, count1, |message|);
      Update([0x80]);
      PadZeros(m);
      Update(finalcount);
      PadsUp(m, message);
      digest := WordBytes(state[0]) + WordBytes(state[1]) + WordBytes(state[2])
                + WordBytes(state[3]) + WordBytes(state[4]);
    }

    method PadZeros(ghost m: seq<octet>)
      requires Valid() && message == m + [0x80]
      modifies this, state, buffer
      ensures Valid() && message == m + [0x80] + Zeros(ZeroCount(|m|))
    {
      hide HashBlocks, Counts, Full, Tail, Zeros, ZeroCount;
      ghost var k := 0;
      SomeZeros(|m|, 0);
      BufferIndex(count0, count1, |message|);
      // The bit position inside the block, which MaskedPosition shows to be the masked count.
      while count0 / 8 % 64 * 8 != 448
        invariant Valid() && message == m + [0x80] + Zeros(k) && k <= ZeroCount(|m|) && |Zeros(k)| == k
        invariant count0 / 8 % 64 == |message| % 64
        decreases ZeroCount(|m|) - k
      {
        SomeZeros(|m|, k);
        Update([0]);
        assert m + [0x80] + Zeros(k) + [0] == m + [0x80] + (Zeros(k) + [0]);
        k := k + 1;
        BufferIndex(count0, count1, |message|);
      }
      SomeZeros(|m|, k);
    }
  }

  /** The mask of the padding loop keeps the number of whole bytes in the block, in bits. */
  lemma MaskedPosition(count: bv32)
    ensures count & 504 == count / 8 % 64 * 8
  {
  }

  lemma SomeZeros(n: nat, k: nat)
    requires k <= ZeroCount(n)
    ensures |Zeros(k)| == k && (k == 0 ==> Zeros(k) == []) && Zeros(k + 1) == Zeros(k) + [0]
    ensures (n + 1 + k) % 64 == 56 <==> k == ZeroCount(n)
  {
  }

  lemma FirstBlock(m: seq<octet>, data: seq<octet>, i: nat)
    requires i == 64 - |m| % 64 && i <= |data|
    ensures (|m| + i) % 64 == 0
    ensures HashBlocks((m + data)[..|m| + i]) == HashBlock(HashBlocks(Full(m)), Tail(m) + data[..i])
  {
    hide HashBlock, HashBlocks;
    var n := |m| - |m| % 64;
    NextBlock(m + data, n);
    assert (m + data)[..n] == Full(m);
    assert (m + data)[n..n + 64] == Tail(m) + data[..i];
  }

  lemma DataBlock(m: seq<octet>, data: seq<octet>, i: nat)
    requires (|m| + i) % 64 == 0 && i + 64 <= |data|
    ensures HashBlocks((m + data)[..|m| + i + 64])
         == HashBlock(HashBlocks((m + data)[..|m| + i]), data[i..i + 64])
  {
    hide HashBlock, HashBlocks;
    NextBlock(m + data, |m| + i);
    assert (m + data)[|m| + i..|m| + i + 64] == data[i..i + 64];
  }

  lemma PadsUp(m: seq<octet>, message: seq<octet>)
    requires message == m + [0x80] + Zeros(ZeroCount(|m|)) + Length64(|m|)
    ensures message == Pad(m) && Full(message) == message
  {
  }

  /** The eight bytes of the counter: byte i of the high half for i < 4, and of the low half after that. */
  method FinalCount(count0: nat, count1: nat, ghost n: nat) returns (finalcount: seq<octet>)
    requires Counts(count0, count1, n)
    ensures finalcount == Length64(n)
  {
    hide WordOctets;
    finalcount := [];
    ghost var bytes := WordOctets(count1) + WordOctets(count0);
    HasFour(count0);
    HasFour(count1);
    for i := 0 to 8
      invariant finalcount == bytes[..i]
    {
      finalcount := finalcount + [WordOctets(if i >= 4 then count0 else count1)[i % 4]];
      assert bytes[..i + 1] == bytes[..i] + [bytes[i]];
    }
  }

  lemma HasFour(v: nat)
    ensures |WordOctets(v)| == 4
  {
  }

  /** Any way of cutting a message into updates gives the digest of the whole message. */
  method DigestInPieces(pieces: seq<seq<octet>>) returns (digest: seq<octet>)
    requires forall i :: 0 <= i < |pieces| ==> |pieces[i]| <= WORD - 64
    ensures digest == Digest(Concat(pieces))
  {
    hide Digest, Context.Valid;
    var context := new Context();
    assert pieces[..|pieces|] == pieces;
    for i := 0 to |pieces|
      invariant context.Valid() && context.message == Concat(pieces[..i])
      invariant fresh(context) && fresh(context.state) && fresh(context.buffer)
    {
      assert pieces[..i + 1][..i] == pieces[..i];
      context.Update(pieces[i]);
    }
    digest := context.Final();
  }

  function Concat(pieces: seq<seq<octet>>): seq<octet> {
    if pieces == [] then [] else Concat(pieces[..|pieces| - 1]) + pieces[|pieces| - 1]
  }
}
