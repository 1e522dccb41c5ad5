/** Integers as little-endian bytes. */
module Little {
  import opened Bytes

  function LittleBytes(n: nat, k: nat): seq<byte> {
    if k == 0 then [] else [n % 256] + LittleBytes(n / 256, k - 1)
  }

  function LittleValue(s: seq<byte>): nat {
    if s == [] then 0 else s[0] as int + 256 * LittleValue(s[1..])
  }

  function Power256(k: nat): nat { if k == 0 then 1 else 256 * Power256(k - 1) }

  lemma {:induction false} LittleRoundTrip(n: nat, k: nat)
    requires n < Power256(k)
    ensures |LittleBytes(n, k)| == k && LittleValue(LittleBytes(n, k)) == n
    decreases k
  {
    if k > 0 {
      LittleRoundTrip(n / 256, k - 1);
      assert LittleBytes(n, k)[1..] == LittleBytes(n / 256, k - 1);
    }
  }

  /** The signed number a word stands for. */
  function Signed(n: nat, modulus: nat): int { if n < modulus / 2 then n else n - modulus }

  const INT64_END := 0x8000_0000_0000_0000

  lemma Power256Of8()
    ensures Power256(8) == 2 * INT64_END
  {
    assert Power256(4) == 0x1_0000_0000;
    assert Power256(8) == 0x1_0000_0000 * Power256(4);
  }
}
