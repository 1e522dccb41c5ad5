/** ll2string and string2ll of util.c, and the prefix parse of strtol: decimal numbers as bytes. */
module Decimal {
  import opened Bytes

  const MINUS: byte := 45
  const PLUS: byte := 43
  const ZERO: byte := 48

  const LLONG_MIN := -0x8000_0000_0000_0000
  const LLONG_MAX := 0x7fff_ffff_ffff_ffff

  predicate IsDigit(c: byte) { 48 <= c <= 57 }

  predicate AllDigits(s: seq<byte>) { forall i :: 0 <= i < |s| ==> IsDigit(s[i]) }

  function Digits(n: nat): (s: seq<byte>)
    ensures s != [] && AllDigits(s) && (n > 0 ==> s[0] != ZERO)
  {
    if n < 10 then [48 + n] else Digits(n / 10) + [48 + n % 10]
  }

  /** ll2string, for a buffer that is large enough. */
  function Print(v: int): (s: seq<byte>)
    ensures s != []
  {
    if v < 0 then [MINUS] + Digits(-v) else Digits(v)
  }

  /** The value of a string of digits. */
  function Value(s: seq<byte>): nat
    requires AllDigits(s)
  {
    if s == [] then 0 else Value(s[..|s| - 1]) * 10 + (s[|s| - 1] as int - 48)
  }

  lemma {:induction false} ValueOfDigits(n: nat)
    ensures Value(Digits(n)) == n
  {
    if n >= 10 {
      ValueOfDigits(n / 10);
      assert Digits(n)[..|Digits(n)| - 1] == Digits(n / 10);
    } else {
      assert Digits(n)[..0] == [];
    }
  }

  /** A number of at most k decimal places is printed in at most k digits. */
  lemma {:induction false} DigitsLength(n: nat, k: nat)
    requires 1 <= k && n < Power10(k)
    ensures |Digits(n)| <= k
  {
    if n >= 10 { DigitsLength(n / 10, k - 1); }
  }

  function Power10(k: nat): nat { if k == 0 then 1 else 10 * Power10(k - 1) }

  /** string2ll: an optional minus sign and digits without a leading zero, in range. */
  function Parse(s: seq<byte>): Option<int> {
    if s == [] then None
    else if s == [ZERO] then Some(0)
    else
      var digits := if s[0] == MINUS then s[1..] else s;
      if digits == [] || digits[0] == ZERO || !AllDigits(digits) then None
      else
        var v: int := if s[0] == MINUS then 0 - Value(digits) else Value(digits);
        if LLONG_MIN <= v <= LLONG_MAX then Some(v) else None
  }

  /** Reading back what was printed, for every 64-bit integer. */
  lemma ParsePrint(v: int)
    requires LLONG_MIN <= v <= LLONG_MAX
    ensures Parse(Print(v)) == Some(v)
  {
    ValueOfDigits(if v < 0 then -v else v);
    if v < 0 {
      assert Print(v)[1..] == Digits(-v);
    }
  }

  /** And the other way round: only the printed form of a number is accepted. */
  lemma PrintParse(s: seq<byte>)
    ensures Parse(s).Some? ==> Print(Parse(s).value) == s
  {
    if Parse(s).Some? {
      if s == [ZERO] {
        assert Digits(0) == [ZERO];
      } else {
        DigitsOfValue(if s[0] == MINUS then s[1..] else s);
      }
    }
  }

  lemma {:induction false} DigitsOfValue(s: seq<byte>)
    requires s != [] && AllDigits(s) && s[0] != ZERO
    ensures Value(s) > 0 && Digits(Value(s)) == s
  {
    var n := |s| - 1;
    if n == 0 {
      assert s == [s[0]] && Value(s[..0]) == 0;
    } else {
      DigitsOfValue(s[..n]);
      assert s == s[..n] + [s[n]];
    }
  }

  // ---- strtol(s, &end, 10) on a byte string followed by its terminating NUL

  datatype Scan = Scan(value: int, end: nat, overflow: bool)

  predicate IsSpace(c: byte) { c == 32 || 9 <= c <= 13 }

  function SkipSpaces(s: seq<byte>, i: nat): (j: nat)
    requires i <= |s|
    ensures i <= j <= |s|
    decreases |s| - i
  {
    if i < |s| && IsSpace(s[i]) then SkipSpaces(s, i + 1) else i
  }

  function SkipDigits(s: seq<byte>, i: nat): (j: nat)
    requires i <= |s|
    ensures i <= j <= |s| && AllDigits(s[i..j]) && (j < |s| ==> !IsDigit(s[j]))
    decreases |s| - i
  {
    if i < |s| && IsDigit(s[i]) then SkipDigits(s, i + 1) else i
  }

  /** White space, a sign, digits; whatever follows is ignored. Out of range values are clamped. */
  function StrToL(s: seq<byte>): (r: Scan)
    ensures LLONG_MIN <= r.value <= LLONG_MAX && r.end <= |s|
  {
    var i := SkipSpaces(s, 0);
    var start := if i < |s| && (s[i] == MINUS || s[i] == PLUS) then i + 1 else i;
    var end := SkipDigits(s, start);
    if end == start then Scan(0, 0, false)
    else
      var v: int := if start > i && s[i] == MINUS then 0 - Value(s[start..end]) else Value(s[start..end]);
      if v > LLONG_MAX then Scan(LLONG_MAX, end, true)
      else if v < LLONG_MIN then Scan(LLONG_MIN, end, true)
      else Scan(v, end, false)
  }

  lemma {:induction false} SkipExactly(s: seq<byte>, i: nat, j: nat)
    requires i <= j <= |s| && AllDigits(s[i..j]) && (j < |s| ==> !IsDigit(s[j]))
    ensures SkipDigits(s, i) == j
    decreases j - i
  {
    if i < j {
      assert s[i] == s[i..j][0] && s[i + 1..j] == s[i..j][1..];
      SkipExactly(s, i + 1, j);
    }
  }

  /** strtol reads a printed non-negative number up to the first byte that is not a digit. */
  lemma ScanPrint(n: nat, rest: seq<byte>)
    requires n <= LLONG_MAX && (rest == [] || !IsDigit(rest[0]))
    ensures StrToL(Print(n) + rest) == Scan(n, |Print(n)|, false)
  {
    var s := Print(n) + rest;
    var k := |Print(n)|;
    assert s[0] == Print(n)[0] && IsDigit(s[0]);
    assert s[0..k] == Print(n);
    SkipExactly(s, 0, k);
    ValueOfDigits(n);
  }

  /** And every number that stands alone. */
  lemma ScanPrinted(v: int)
    requires LLONG_MIN <= v <= LLONG_MAX
    ensures StrToL(Print(v)) == Scan(v, |Print(v)|, false)
  {
    hide Digits;
    var s := Print(v);
    if v >= 0 {
      ScanPrint(v, []);
      assert s + [] == s;
    } else {
      assert s[0] == MINUS && s[1..] == Digits(-v) && s[1..|s|] == s[1..];
      SkipExactly(s, 1, |s|);
      ValueOfDigits(-v);
    }
  }
}
