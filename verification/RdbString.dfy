/** The string encodings of rdb.c: lengths, small integers, LZF and verbatim bytes. */
module RdbString {
  import opened Bytes
  import D = Decimal
  import Lzf
  import opened Little
  import opened Rio

  const UINT_MAX := 0xffff_ffff

  // ---- lengths

  function BigEndian32(n: nat): seq<byte>
    requires n <= UINT_MAX
  {
    [n / 0x100_0000, n / 0x1_0000 % 256, n / 256 % 256, n % 256]
  }

  function LenBytes(n: nat): seq<byte>
    requires n <= UINT_MAX
  {
    if n < 64 then [n]
    else if n < 0x4000 then [n / 256 + 64, n % 256]
    else [128] + BigEndian32(n)
  }

  /** A length, or with `encoded` the number of a special encoding. */
  datatype Len = Len(encoded: bool, n: nat, rest: seq<byte>)

  /** rdbLoadLen; None also stands for the one length that is its error code. */
  function LoadLen(b: seq<byte>): (r: Option<Len>)
    ensures r.Some? ==> r.value.n < UINT_MAX && |r.value.rest| < |b|
  {
    if b == [] then None
    else
      var low := b[0] as int % 64;
      if b[0] >= 192 then Some(Len(true, low, b[1..]))
      else if b[0] < 64 then Some(Len(false, low, b[1..]))
      else if b[0] < 128 then
        (if |b| < 2 then None else Some(Len(false, low * 256 + b[1] as int, b[2..])))
      else if |b| < 5 then None
      else
        var n := ((b[1] as int * 256 + b[2] as int) * 256 + b[3] as int) * 256 + b[4] as int;
        if n == UINT_MAX then None else Some(Len(false, n, b[5..]))
  }

  lemma LoadSavedLen(n: nat, rest: seq<byte>)
    requires n < UINT_MAX
    ensures LoadLen(LenBytes(n) + rest) == Some(Len(false, n, rest))
  {
    var b := LenBytes(n) + rest;
    var k := |LenBytes(n)|;
    assert b[k..] == rest;
    assert forall i :: 0 <= i < k ==> b[i] == LenBytes(n)[i];
    if n >= 0x4000 { Digits256(n); }
  }

  lemma Digits256(n: nat)
    ensures n == ((n / 0x100_0000 * 256 + n / 0x1_0000 % 256) * 256 + n / 256 % 256) * 256 + n % 256
  {
    assert n / 0x1_0000 == n / 0x100_0000 * 256 + n / 0x1_0000 % 256 by { assert n / 0x1_0000 / 256 == n / 0x100_0000; }
    assert n / 256 == n / 0x1_0000 * 256 + n / 256 % 256 by { assert n / 256 / 256 == n / 0x1_0000; }
  }

  // ---- integers

  const INT8 := 0
  const INT16 := 1
  const INT32 := 2
  const LZF := 3

  /** rdbEncodeInteger: two's complement, least significant byte first. */
  function IntBytes(v: int): Option<seq<byte>> {
    if -0x80 <= v < 0x80 then Some([192 + INT8, v % 256])
    else if -0x8000 <= v < 0x8000 then Some([192 + INT16, v % 256, v / 256 % 256])
    else if -0x8000_0000 <= v < 0x8000_0000 then
      Some([192 + INT32, v % 256, v / 256 % 256, v / 0x1_0000 % 256, v / 0x100_0000 % 256])
    else None
  }

  /** rdbLoadIntegerObject. */
  function LoadInteger(enctype: nat, b: seq<byte>): (r: Option<(seq<byte>, seq<byte>)>)
    requires enctype <= INT32
    ensures r.Some? ==> |r.value.1| <= |b|
  {
    if enctype == INT8 then
      (if |b| < 1 then None else Some((D.Print(Signed(b[0] as int, 0x100)), b[1..])))
    else if enctype == INT16 then
      (if |b| < 2 then None else Some((D.Print(Signed(b[0] as int + b[1] as int * 256, 0x1_0000)), b[2..])))
    else if |b| < 4 then None
    else
      var n: nat := b[0] as int + b[1] as int * 256 + b[2] as int * 0x1_0000 + b[3] as int * 0x100_0000;
      Some((D.Print(Signed(n, 0x1_0000_0000)), b[4..]))
  }

  /** rdbTryIntegerEncoding: what strtoll reads must print as exactly the same bytes. */
  function TryInteger(s: seq<byte>): (r: Option<seq<byte>>)
    ensures r.Some? ==> exists v :: s == D.Print(v) && IntBytes(v) == r
  {
    var scan := D.StrToL(s);
    if scan.end < |s| && s[scan.end] != 0 then None
    else if D.Print(scan.value) != s then None
    else IntBytes(scan.value)
  }

  /** Every number of up to 32 bits is found out from its decimal form, and takes two, three or five bytes. */
  lemma IntegersFound(v: int)
    requires -0x8000_0000 <= v < 0x8000_0000
    ensures TryInteger(D.Print(v)) == IntBytes(v) && IntBytes(v).Some?
    ensures |IntBytes(v).value| == if -0x80 <= v < 0x80 then 2 else if -0x8000 <= v < 0x8000 then 3 else 5
  {
    hide D.Print, D.StrToL;
    D.ScanPrinted(v);
  }

  // ---- strings

  function Verbatim(s: seq<byte>): seq<byte>
    requires |s| < UINT_MAX
  {
    LenBytes(|s|) + s
  }

  function Zeros(n: nat): seq<byte> { seq(n, _ => 0) }

  /** rdbLoadLzfStringObject. The buffer for the string is zeroed before it is filled. */
  function LoadLzf(b: seq<byte>): (r: Option<(seq<byte>, seq<byte>)>)
    ensures r.Some? ==> |r.value.1| <= |b|
  {
    match LoadLen(b)
    case None => None
    case Some(c) =>
      match LoadLen(c.rest)
      case None => None
      case Some(l) =>
        if c.n == 0 || c.n > |l.rest| then None
        else match Lzf.Decompress(l.rest[..c.n], l.n)
          case None => None
          case Some(s) =>
            if s == [] || |s| > l.n then None else Some((s + Zeros(l.n - |s|), l.rest[c.n..]))
  }

  /** rdbGenericLoadStringObject. */
  function LoadString(b: seq<byte>): (r: Option<(seq<byte>, seq<byte>)>)
    ensures r.Some? ==> |r.value.1| < |b|
  {
    match LoadLen(b)
    case None => None
    case Some(l) =>
      if l.encoded then
        (if l.n <= INT32 then LoadInteger(l.n, l.rest) else if l.n == LZF then LoadLzf(l.rest) else None)
      else if l.n > |l.rest| then None
      else Some((l.rest[..l.n], l.rest[l.n..]))
  }

  /** These bytes load as this string, whatever follows them. */
  ghost predicate Reads(out: seq<byte>, s: seq<byte>) {
    forall rest :: LoadString(out + rest) == Some((s, rest))
  }

  lemma VerbatimReads(s: seq<byte>)
    requires |s| < UINT_MAX
    ensures Reads(Verbatim(s), s)
  {
    hide LoadLen, LenBytes;
    forall rest ensures LoadString(Verbatim(s) + rest) == Some((s, rest)) {
      assert Verbatim(s) + rest == LenBytes(|s|) + (s + rest);
      LoadSavedLen(|s|, s + rest);
      assert (s + rest)[..|s|] == s && (s + rest)[|s|..] == rest;
    }
  }

  lemma LoadEncodingByte(k: nat, body: seq<byte>)
    requires k < 64
    ensures LoadLen([192 + k] + body) == Some(Len(true, k, body))
  {
    assert ([192 + k] + body)[1..] == body;
  }

  lemma IntegerLoads(v: int, rest: seq<byte>)
    requires IntBytes(v).Some?
    ensures LoadString(IntBytes(v).value + rest) == Some((D.Print(v), rest))
  {
    hide D.Print, LoadLen, LoadLzf;
    var out := IntBytes(v).value;
    var body := out[1..] + rest;
    assert out + rest == [out[0]] + body;
    LoadEncodingByte(out[0] as int - 192, body);
    assert body[|out| - 1..] == rest;
    if -0x80 <= v < 0x80 {
      assert Signed(v % 256, 0x100) == v;
    } else if -0x8000 <= v < 0x8000 {
      assert Signed(v % 256 + v / 256 % 256 * 256, 0x1_0000) == v;
    } else {
      Signed32(v);
    }
  }

  lemma Signed32(v: int)
    requires -0x8000_0000 <= v < 0x8000_0000
    ensures Signed(v % 256 + v / 256 % 256 * 256 + v / 0x1_0000 % 256 * 0x1_0000 + v / 0x100_0000 % 256 * 0x100_0000,
                   0x1_0000_0000) == v
  {
    assert v / 256 / 256 == v / 0x1_0000 && v / 0x1_0000 / 256 == v / 0x100_0000;
  }

  lemma IntegerReads(v: int)
    requires IntBytes(v).Some?
    ensures Reads(IntBytes(v).value, D.Print(v))
  {
    hide IntBytes, LoadString;
    forall rest ensures LoadString(IntBytes(v).value + rest) == Some((D.Print(v), rest)) {
      IntegerLoads(v, rest);
    }
  }

  /** The LZF form: both lengths, then the compressed bytes. */
  function LzfForm(c: seq<byte>, n: nat): seq<byte>
    requires |c| < UINT_MAX && n < UINT_MAX
  {
    [192 + LZF] + LenBytes(|c|) + LenBytes(n) + c
  }

  lemma LzfLoads(c: seq<byte>, s: seq<byte>, rest: seq<byte>)
    requires c != [] && |c| < UINT_MAX && s != [] && |s| < UINT_MAX && Lzf.Decompress(c, |s|) == Some(s)
    ensures LoadString(LzfForm(c, |s|) + rest) == Some((s, rest))
  {
    hide LenBytes, LoadLen, LoadLzf, LoadInteger, Lzf.Decompress;
    var body := LenBytes(|c|) + (LenBytes(|s|) + (c + rest));
    assert LzfForm(c, |s|) + rest == [192 + LZF] + body;
    LoadEncodingByte(LZF, body);
    LzfBody(c, s, rest);
  }

  lemma LzfReads(c: seq<byte>, s: seq<byte>)
    requires c != [] && |c| < UINT_MAX && s != [] && |s| < UINT_MAX && Lzf.Compressed(c, s)
    ensures Reads(LzfForm(c, |s|), s)
  {
    hide LzfForm, LoadString, Lzf.Compressed, Lzf.Decompress;
    Lzf.DecompressExact(c, s, |s|);
    forall rest ensures LoadString(LzfForm(c, |s|) + rest) == Some((s, rest)) {
      LzfLoads(c, s, rest);
    }
  }

  lemma LzfBody(c: seq<byte>, s: seq<byte>, rest: seq<byte>)
    requires c != [] && |c| < UINT_MAX && s != [] && |s| < UINT_MAX && Lzf.Decompress(c, |s|) == Some(s)
    ensures LoadLzf(LenBytes(|c|) + (LenBytes(|s|) + (c + rest))) == Some((s, rest))
  {
    hide LenBytes, LoadLen, Lzf.Decompress;
    LoadSavedLen(|c|, LenBytes(|s|) + (c + rest));
    LoadSavedLen(|s|, c + rest);
    assert (c + rest)[..|c|] == c && (c + rest)[|c|..] == rest;
    assert s + Zeros(0) == s;
  }

  // ---- saving

  method SaveLen(rdb: Writer, len: nat)
    requires rdb.Valid() && len <= UINT_MAX
    modifies rdb
    ensures rdb.Valid() && rdb.data == old(rdb.data) + LenBytes(len)
  {
    if len < 64 {
      rdb.Write([len]);
    } else if len < 0x4000 {
      rdb.Write([len / 256 + 64, len % 256]);
    } else {
      rdb.Write([128]);
      rdb.Write(BigEndian32(len));
    }
  }

  /** The call of lzf_compress, with whatever its hash table and the addresses happen to be. */
  method Compress(s: seq<byte>) returns (c: seq<byte>)
    requires 4 < |s| < UINT_MAX
    ensures |c| <= |s| - 4 && (c != [] ==> Lzf.Compressed(c, s))
    ensures Lzf.Uniform(s) ==> c != []
  {
    hide Lzf.Uniform, Lzf.Compressed;
    var outlen := |s| - 4;
    var out := new byte[outlen + 1];
    var htab := new Lzf.Pointer[Lzf.HSIZE];
    var base: nat :| Lzf.MAX_OFF <= base && base + |s| < Lzf.WORD;
    var comprlen := Lzf.LzfCompress(s, base, out, outlen, htab);
    c := out[..comprlen];
  }

  /** The LZF form of some compressed form of a string that is shorter by four bytes or more. */
  ghost predicate InLzfForm(out: seq<byte>, s: seq<byte>)
    requires |s| < UINT_MAX
  {
    exists c: seq<byte> :: |c| + 4 <= |s| && Lzf.Compressed(c, s) && out == LzfForm(c, |s|)
  }

  /** rdbSaveLzfStringObject: nothing is written unless four bytes are won. */
  method SaveLzfString(rdb: Writer, s: seq<byte>) returns (saved: bool, ghost out: seq<byte>)
    requires rdb.Valid() && |s| < UINT_MAX
    modifies rdb
    ensures rdb.Valid() && rdb.data == old(rdb.data) + out
    ensures saved ==> Reads(out, s) && s != [] && InLzfForm(out, s)
    ensures !saved ==> out == [] && !Lzf.Uniform(s)
  {
    hide Lzf.Compressed, LenBytes, Reads;
    Lzf.NotUniform(s);
    if |s| <= 4 { return false, []; }
    var c := Compress(s);
    if c == [] { return false, []; }
    LzfReads(c, s);
    rdb.Write([192 + LZF]);
    SaveLen(rdb, |c|);
    SaveLen(rdb, |s|);
    rdb.Write(c);
    return true, LzfForm(c, |s|);
  }

  /**
    * rdbSaveRawString. Integers of at most eleven characters that fit 32 bits take the integer form;
    * strings of more than twenty bytes may be compressed; all others are written as they are.
    */
  method SaveRawString(rdb: Writer, s: seq<byte>, compression: bool) returns (ghost out: seq<byte>)
    requires rdb.Valid() && |s| < UINT_MAX
    modifies rdb
    ensures rdb.Valid() && rdb.data == old(rdb.data) + out
    ensures Reads(out, s)
    ensures |s| <= 11 && TryInteger(s).Some? ==> out == TryInteger(s).value
    ensures |s| > 11 || TryInteger(s).None? ==>
              out == Verbatim(s) || (compression && |s| > 20 && InLzfForm(out, s))
    ensures compression && |s| > 20 && Lzf.Uniform(s) ==> InLzfForm(out, s)
  {
    hide Reads, LenBytes, IntBytes, D.StrToL, D.Print, InLzfForm;
    if |s| <= 11 {
      var enc := TryInteger(s);
      if enc.Some? {
        ghost var v :| s == D.Print(v) && IntBytes(v) == enc;
        IntegerReads(v);
        rdb.Write(enc.value);
        return enc.value;
      }
    }
    if compression && |s| > 20 {
      var saved;
      saved, out := SaveLzfString(rdb, s);
      if saved { return out; }
    }
    VerbatimReads(s);
    SaveLen(rdb, |s|);
    if |s| > 0 {
      rdb.Write(s);
    }
    assert LenBytes(|s|) + s == Verbatim(s);
    out := Verbatim(s);
  }

  /** rdbSaveLongLongAsStringObject: an integer object is saved as its decimal form would be. */
  method SaveLongLong(rdb: Writer, v: int) returns (ghost out: seq<byte>)
    requires rdb.Valid() && D.LLONG_MIN <= v <= D.LLONG_MAX
    modifies rdb
    ensures rdb.Valid() && rdb.data == old(rdb.data) + out
    ensures Reads(out, D.Print(v))
    ensures IntBytes(v).Some? ==> out == IntBytes(v).value
    ensures IntBytes(v).None? && |D.Print(v)| < UINT_MAX ==> out == Verbatim(D.Print(v))
  {
    hide Reads, LenBytes, IntBytes;
    PrintLength(v);
    var enc := IntBytes(v);
    if enc.Some? {
      IntegerReads(v);
      rdb.Write(enc.value);
      out := enc.value;
    } else {
      var text := D.Print(v);
      VerbatimReads(text);
      SaveLen(rdb, |text|);
      rdb.Write(text);
      out := Verbatim(text);
    }
  }

  lemma PrintLength(v: int)
    requires D.LLONG_MIN <= v <= D.LLONG_MAX
    ensures |D.Print(v)| <= 20
  {
    assert D.Power10(19) > D.LLONG_MAX + 1 by {
      assert D.Power10(4) == 10_000;
      assert D.Power10(8) == 10_000 * D.Power10(4);
      assert D.Power10(12) == 10_000 * D.Power10(8);
      assert D.Power10(16) == 10_000 * D.Power10(12);
      assert D.Power10(19) == 1_000 * D.Power10(16);
    }
    D.DigitsLength(if v < 0 then -v else v, 19);
  }

  /** A string object is raw bytes or, when it looks like a number, possibly an integer. */
  datatype StringObject = Raw(s: seq<byte>) | Int(v: int)

  function BytesOf(o: StringObject): seq<byte> { if o.Raw? then o.s else D.Print(o.v) }

  predicate ValidString(o: StringObject) {
    if o.Raw? then |o.s| < UINT_MAX else D.LLONG_MIN <= o.v <= D.LLONG_MAX
  }

  /** rdbSaveStringObject: the form chosen makes no difference to what is loaded, or to where it ends. */
  method SaveString(rdb: Writer, o: StringObject, compression: bool) returns (ghost out: seq<byte>)
    requires rdb.Valid() && ValidString(o)
    modifies rdb
    ensures rdb.Valid() && rdb.data == old(rdb.data) + out && Reads(out, BytesOf(o))
  {
    match o
    case Raw(s) => out := SaveRawString(rdb, s, compression);
    case Int(v) => out := SaveLongLong(rdb, v);
  }

  // ---- loading

  method ReadLen(rdb: Reader) returns (r: Option<Len>)
    requires rdb.Valid()
    modifies rdb
    ensures rdb.Valid() && r == LoadLen(old(rdb.Rest())) && (r.Some? ==> rdb.Rest() == r.value.rest)
  {
    ghost var b := rdb.Rest();
    var ok, buf := rdb.Read(1);
    if !ok { return None; }
    var kind := buf[0] as int / 64;
    var low := buf[0] as int % 64;
    if kind == 3 { return Some(Len(true, low, rdb.Rest())); }
    if kind == 0 { return Some(Len(false, low, rdb.Rest())); }
    if kind == 1 {
      ok, buf := rdb.Read(1);
      if !ok { return None; }
      return Some(Len(false, low * 256 + buf[0] as int, rdb.Rest()));
    }
    ok, buf := rdb.Read(4);
    if !ok { return None; }
    var n: nat := ((buf[0] as int * 256 + buf[1] as int) * 256 + buf[2] as int) * 256 + buf[3] as int;
    if n == UINT_MAX { return None; }
    return Some(Len(false, n, rdb.Rest()));
  }

  method ReadInteger(rdb: Reader, enctype: nat) returns (r: Option<seq<byte>>)
    requires rdb.Valid() && enctype <= INT32
    modifies rdb
    ensures rdb.Valid()
    ensures match LoadInteger(enctype, old(rdb.Rest()))
      case None => r == None
      case Some(p) => r == Some(p.0) && rdb.Rest() == p.1
  {
    hide D.Print;
    var ok, enc := rdb.Read(if enctype == INT8 then 1 else if enctype == INT16 then 2 else 4);
    if !ok { return None; }
    var v: int;
    if enctype == INT8 {
      v := Signed(enc[0] as int, 0x100);
    } else if enctype == INT16 {
      v := Signed(enc[0] as int + enc[1] as int * 256, 0x1_0000);
    } else {
      var n: nat := enc[0] as int + enc[1] as int * 256 + enc[2] as int * 0x1_0000 + enc[3] as int * 0x100_0000;
      v := Signed(n, 0x1_0000_0000);
    }
    return Some(D.Print(v));
  }

  method ReadLzf(rdb: Reader) returns (r: Option<seq<byte>>)
    requires rdb.Valid()
    modifies rdb
    ensures rdb.Valid()
    ensures match LoadLzf(old(rdb.Rest()))
      case None => r == None
      case Some(p) => r == Some(p.0) && rdb.Rest() == p.1
  {
    hide LoadLen, Lzf.Decompress;
    var clen := ReadLen(rdb);
    if clen == None { return None; }
    var len := ReadLen(rdb);
    if len == None { return None; }
    var val := new byte[len.value.n](_ => 0);
    var ok, c := rdb.Read(clen.value.n);
    if !ok { return None; }
    var n := Lzf.LzfDecompress(c, val);
    if n == 0 { return None; }
    assert val[n..] == Zeros(len.value.n - n);
    assert val[..] == val[..n] + val[n..];
    return Some(val[..]);
  }

  method ReadString(rdb: Reader) returns (r: Option<seq<byte>>)
    requires rdb.Valid()
    modifies rdb
    ensures rdb.Valid()
    ensures match LoadString(old(rdb.Rest()))
      case None => r == None
      case Some(p) => r == Some(p.0) && rdb.Rest() == p.1
  {
    hide LoadLen, LoadInteger, LoadLzf;
    var l := ReadLen(rdb);
    if l == None { return None; }
    var len := l.value;
    if len.encoded {
      if len.n <= INT32 {
        r := ReadInteger(rdb, len.n);
      } else if len.n == LZF {
        r := ReadLzf(rdb);
      } else {
        r := None;
      }
      return;
    }
    if len.n == 0 { return Some([]); }
    var ok, val := rdb.Read(len.n);
    if !ok { return None; }
    return Some(val);
  }
}
