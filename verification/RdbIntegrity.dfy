/** What the checksum of a dump file protects against, and what loading makes of the bytes of a file. */
module RdbIntegrity {
  import opened Bytes
  import D = Decimal
  import Crc64
  import Dump
  import Lzf
  import opened Objects
  import opened RdbString
  import opened RdbFile
  import opened Little

  // ---- a loader takes a prefix of what it is given, and does not look at what follows

  /** What is in front of a suffix. */
  function Before(b: seq<byte>, rest: seq<byte>): seq<byte>
    requires |rest| <= |b|
  {
    b[..|b| - |rest|]
  }

  predicate Behind(b: seq<byte>, rest: seq<byte>) { |rest| <= |b| && b == Before(b, rest) + rest }

  /** One loader after another. */
  lemma Then(b: seq<byte>, r: seq<byte>, q: seq<byte>, x: seq<byte>)
    requires Behind(b, r) && Behind(r, q)
    ensures Behind(b, q) && Before(b, q) + x == Before(b, r) + (Before(r, q) + x)
  {
    assert Before(b, q) == Before(b, r) + Before(r, q);
  }

  lemma Skipped(b: seq<byte>, k: nat, x: seq<byte>)
    requires k <= |b|
    ensures Behind(b, b[k..]) && Before(b, b[k..]) == b[..k]
    ensures (b[..k] + x)[..k] == b[..k] && (b[..k] + x)[k..] == x
  {
  }

  lemma LenTakes(b: seq<byte>, x: seq<byte>)
    requires LoadLen(b).Some?
    ensures var l := LoadLen(b).value;
      Behind(b, l.rest) && LoadLen(Before(b, l.rest) + x) == Some(Len(l.encoded, l.n, x))
  {
    var k := |b| - |LoadLen(b).value.rest|;
    Skipped(b, k, x);
    var c := b[..k] + x;
    assert forall i :: 0 <= i < k ==> c[i] == b[i];
  }

  lemma IntegerTakes(enctype: nat, b: seq<byte>, x: seq<byte>)
    requires enctype <= INT32 && LoadInteger(enctype, b).Some?
    ensures var p := LoadInteger(enctype, b).value;
      Behind(b, p.1) && LoadInteger(enctype, Before(b, p.1) + x) == Some((p.0, x))
  {
    hide D.Print;
    var k := |b| - |LoadInteger(enctype, b).value.1|;
    Skipped(b, k, x);
    var c := b[..k] + x;
    assert forall i :: 0 <= i < k ==> c[i] == b[i];
  }

  lemma LzfTakes(b: seq<byte>, x: seq<byte>)
    requires LoadLzf(b).Some?
    ensures var p := LoadLzf(b).value; Behind(b, p.1) && LoadLzf(Before(b, p.1) + x) == Some((p.0, x))
  {
    hide LoadLen, Lzf.Decompress;
    var c := LoadLen(b).value;
    var l := LoadLen(c.rest).value;
    var data, rest := l.rest[..c.n], l.rest[c.n..];
    Skipped(l.rest, c.n, x);
    LenTakes(c.rest, data + x);
    Then(c.rest, l.rest, rest, x);
    LenTakes(b, Before(c.rest, rest) + x);
    Then(b, c.rest, rest, x);
  }

  lemma StringTakes(b: seq<byte>, x: seq<byte>)
    requires LoadString(b).Some?
    ensures var p := LoadString(b).value; Behind(b, p.1) && LoadString(Before(b, p.1) + x) == Some((p.0, x))
  {
    hide LoadLen, LoadInteger, LoadLzf;
    var l, p := LoadLen(b).value, LoadString(b).value;
    if l.encoded {
      if l.n <= INT32 { IntegerTakes(l.n, l.rest, x); } else { LzfTakes(l.rest, x); }
    } else {
      Skipped(l.rest, l.n, x);
    }
    LenTakes(b, Before(l.rest, p.1) + x);
    Then(b, l.rest, p.1, x);
  }

  lemma {:induction false} StringsTake(b: seq<byte>, k: nat, read: seq<bytes>, x: seq<byte>)
    requires LoadStrings(b, k, read).Some?
    ensures var p := LoadStrings(b, k, read).value;
      Behind(b, p.1) && LoadStrings(Before(b, p.1) + x, k, read) == Some((p.0, x))
    decreases k
  {
    hide LoadString;
    if k == 0 {
      assert Before(b, b) + x == x;
    } else {
      var s, p := LoadString(b).value, LoadStrings(b, k, read).value;
      StringsTake(s.1, k - 1, read + [s.0], x);
      StringTakes(b, Before(s.1, p.1) + x);
      Then(b, s.1, p.1, x);
    }
  }

  lemma ObjectTakes(kind: byte, b: seq<byte>, x: seq<byte>)
    requires LoadObject(kind, b).Some?
    ensures var p := LoadObject(kind, b).value; Behind(b, p.1) && LoadObject(kind, Before(b, p.1) + x) == Some((p.0, x))
  {
    hide LoadLen, LoadString, LoadStrings, Worth;
    if kind == TYPE_STRING {
      StringTakes(b, x);
    } else {
      var l, p := LoadLen(b).value, LoadObject(kind, b).value;
      StringsTake(l.rest, l.n * Width(KindOf(kind).value), [], x);
      LenTakes(b, Before(l.rest, p.1) + x);
      Then(b, l.rest, p.1, x);
    }
  }

  lemma KeyValueTakes(cfg: Loading, op: Opcode, st: Store, x: seq<byte>)
    requires st.cur < |st.dbs| && LoadKeyValue(cfg, op, st).Some?
    ensures var p := LoadKeyValue(cfg, op, st).value;
      && Behind(op.rest, p.1)
      && LoadKeyValue(cfg, op.(rest := Before(op.rest, p.1) + x), st) == Some((p.0, x))
  {
    hide LoadString, LoadObject;
    var k, p := LoadString(op.rest).value, LoadKeyValue(cfg, op, st).value;
    ObjectTakes(op.kind, k.1, x);
    StringTakes(op.rest, Before(k.1, p.1) + x);
    Then(op.rest, k.1, p.1, x);
  }

  lemma OpcodeTakes(b: seq<byte>, x: seq<byte>)
    requires LoadOpcode(b).Some?
    ensures var op := LoadOpcode(b).value;
      Behind(b, op.rest) && LoadOpcode(Before(b, op.rest) + x) == Some(op.(rest := x))
  {
    hide LittleValue;
    var k := |b| - |LoadOpcode(b).value.rest|;
    Skipped(b, k, x);
    var c := b[..k] + x;
    assert forall i :: 0 <= i < k ==> c[i] == b[i];
    if b[0] == EXPIRETIME { assert c[1..5] == b[1..5]; }
    if b[0] == EXPIRETIME_MS { assert c[1..9] == b[1..9]; }
  }

  lemma {:induction false} LoopTakes(cfg: Loading, b: seq<byte>, st: Store, x: seq<byte>)
    requires st.cur < |st.dbs| && LoadLoop(cfg, b, st).Some?
    ensures var p := LoadLoop(cfg, b, st).value;
      Behind(b, p.1) && LoadLoop(cfg, Before(b, p.1) + x, st) == Some((p.0, x))
    decreases |b|
  {
    hide LoadOpcode, LoadLen, LoadKeyValue;
    var op, p := LoadOpcode(b).value, LoadLoop(cfg, b, st).value;
    if op.kind == EOF {
      OpcodeTakes(b, x);
    } else {
      if op.kind == SELECTDB {
        var l := LoadLen(op.rest).value;
        LoopTakes(cfg, l.rest, st.(cur := l.n), x);
        LenTakes(op.rest, Before(l.rest, p.1) + x);
        Then(op.rest, l.rest, p.1, x);
      } else {
        var e := LoadKeyValue(cfg, op, st).value;
        LoopTakes(cfg, e.1, e.0, x);
        KeyValueTakes(cfg, op, st, Before(e.1, p.1) + x);
        Then(op.rest, e.1, p.1, x);
      }
      OpcodeTakes(b, Before(op.rest, p.1) + x);
      Then(b, op.rest, p.1, x);
    }
  }

  // ---- damaged files

  const NO_SUM: seq<byte> := [0, 0, 0, 0, 0, 0, 0, 0]

  /** Where the entries of a file end, the end opcode included, if they can be read at all. */
  function EntriesEnd(cfg: Loading, dbnum: nat, file: seq<byte>): (r: Option<nat>)
    requires dbnum > 0
  {
    if |file| < 9 then None
    else match LoadLoop(cfg, file[9..], EmptyStore(dbnum))
      case None => None
      case Some(p) => if |p.1| <= |file| then Some(|file| - |p.1|) else None
  }

  /** A file with checksum that a load accepts: version 5 or later, and a sum behind its entries. */
  predicate Protected(cfg: Loading, dbnum: nat, file: seq<byte>, n: nat)
    requires dbnum > 0
  {
    && LoadFile(cfg, true, dbnum, file).Some? && EntriesEnd(cfg, dbnum, file) == Some(n)
    && D.StrToL(file[5..9]).value >= 5 && n + 8 <= |file| && file[n..n + 8] != NO_SUM
  }

  lemma NoSum()
    ensures ChecksumBytes(0) == NO_SUM
  {
  }

  /** Whoever accepts a file has its sum behind the entries. */
  lemma AcceptedHasSum(cfg: Loading, dbnum: nat, file: seq<byte>)
    requires dbnum > 0 && LoadFile(cfg, true, dbnum, file).Some? && D.StrToL(file[5..9]).value >= 5
    ensures EntriesEnd(cfg, dbnum, file).Some? && EntriesEnd(cfg, dbnum, file).value + 8 <= |file|
  {
    hide LoadLoop, D.StrToL, Crc64.Crc, ChecksumBytes;
  }

  lemma {:induction false} LoopEnds(cfg: Loading, dbnum: nat, file: seq<byte>, file': seq<byte>, n: nat)
    requires dbnum > 0 && EntriesEnd(cfg, dbnum, file) == Some(n) && n <= |file| == |file'| && file'[..n] == file[..n]
    ensures 9 <= n && EntriesEnd(cfg, dbnum, file') == Some(n)
    ensures var r := LoadLoop(cfg, file[9..], EmptyStore(dbnum)).value;
      LoadLoop(cfg, file'[9..], EmptyStore(dbnum)) == Some((r.0, file'[n..])) && r.1 == file[n..]
  {
    hide LoadLoop;
    var r := LoadLoop(cfg, file[9..], EmptyStore(dbnum)).value;
    LoopTakes(cfg, file[9..], EmptyStore(dbnum), file'[n..]);
    assert Before(file[9..], r.1) == file[9..n] == file'[9..n];
    assert file'[9..] == file'[9..n] + file'[n..];
  }

  /** Changing a byte of the stored sum is noticed, unless that makes it the sum that says there is none. */
  lemma SumMatters(cfg: Loading, dbnum: nat, file: seq<byte>, n: nat, k: nat, b: byte)
    requires dbnum > 0 && Protected(cfg, dbnum, file, n) && n <= k < n + 8 && b != file[k]
    ensures var damaged := file[k := b];
      && LoadFile(cfg, true, dbnum, damaged)
         == (if damaged[n..n + 8] == NO_SUM then LoadFile(cfg, true, dbnum, file) else None)
      && LoadFile(cfg, false, dbnum, damaged) == LoadFile(cfg, false, dbnum, file)
  {
    hide LoadLoop, D.StrToL, Crc64.Crc, ChecksumBytes;
    var damaged := file[k := b];
    NoSum();
    LoopEnds(cfg, dbnum, file, damaged, n);
    assert damaged[..5] == file[..5] && damaged[5..9] == file[5..9] && damaged[..n] == file[..n];
    assert damaged[n..][..8] == damaged[n..n + 8] && file[n..][..8] == file[n..n + 8];
    assert damaged[n..n + 8][k - n] != file[n..n + 8][k - n];
  }

  /** Changing a byte in front of the sum is noticed, if the file still claims to have a sum at that place. */
  lemma BodyMatters(cfg: Loading, dbnum: nat, file: seq<byte>, n: nat, k: nat, b: byte)
    requires dbnum > 0 && Protected(cfg, dbnum, file, n) && k < n && b != file[k]
    requires var damaged := file[k := b];
      EntriesEnd(cfg, dbnum, damaged) == Some(n) && D.StrToL(damaged[5..9]).value >= 5
    ensures LoadFile(cfg, true, dbnum, file[k := b]) == None
  {
    hide LoadLoop, D.StrToL, Crc64.Crc, ChecksumBytes;
    var damaged := file[k := b];
    NoSum();
    LoopEnds(cfg, dbnum, file, file, n);
    LoopEnds(cfg, dbnum, damaged, damaged, n);
    assert damaged[n..] == file[n..] && file[n..][..8] == file[n..n + 8];
    assert damaged[..n] == file[..n][k := b];
    Crc64.OneByteMatters(0, file[..n], k, b);
    if ChecksumBytes(Crc64.Crc(0, damaged[..n])) == ChecksumBytes(Crc64.Crc(0, file[..n])) {
      Dump.ChecksumBytesInjective(Crc64.Crc(0, damaged[..n]), Crc64.Crc(0, file[..n]));
    }
  }

  // ---- the head of a file, and expire times

  /** Only the versions 1 to 6 are accepted, whatever the checks and whatever follows. */
  lemma VersionsAccepted(cfg: Loading, check: bool, dbnum: nat, d: seq<byte>, tail: seq<byte>)
    requires dbnum > 0 && |d| == 4 && forall i :: 0 <= i < 4 ==> 48 <= d[i] <= 57
    requires LoadFile(cfg, check, dbnum, SIGNATURE + d + tail).Some?
    ensures var version := (d[0] as int - 48) * 1000 + (d[1] as int - 48) * 100 + (d[2] as int - 48) * 10
                           + (d[3] as int - 48);
      1 <= version <= 6
  {
    hide LoadLoop, Crc64.Crc, ChecksumBytes, D.StrToL;
    var file := SIGNATURE + d + tail;
    assert file[5..9] == d;
    FourDigits(d);
  }

  lemma FourDigits(d: seq<byte>)
    requires |d| == 4 && forall i :: 0 <= i < 4 ==> 48 <= d[i] <= 57
    ensures D.StrToL(d).value == (d[0] as int - 48) * 1000 + (d[1] as int - 48) * 100 + (d[2] as int - 48) * 10
                                 + (d[3] as int - 48)
  {
    D.SkipExactly(d, 0, 4);
    assert d[0..4] == d;
    assert d[..3] == [d[0], d[1], d[2]] && d[..3][..2] == [d[0], d[1]] && d[..3][..2][..1] == [d[0]];
    assert d[..3][..2][..1][..0] == [];
    assert D.Value(d[..3][..2][..1]) == d[0] as int - 48;
    assert D.Value(d[..3][..2]) == (d[0] as int - 48) * 10 + (d[1] as int - 48);
    assert D.Value(d[..3]) == (d[0] as int - 48) * 100 + (d[1] as int - 48) * 10 + (d[2] as int - 48);
  }

  const SECONDS: byte := 253
  const MILLISECONDS: byte := 252

  /** A file may give an expire time in seconds or in milliseconds: what is loaded is the same time. */
  lemma SecondsOrMilliseconds(seconds: nat, kind: byte, rest: seq<byte>)
    requires seconds < 0x8000_0000
    ensures LoadOpcode([SECONDS] + LittleBytes(seconds, 4) + [kind] + rest) == Some(Opcode(1000 * seconds, kind, rest))
    ensures LoadOpcode([MILLISECONDS] + LittleBytes(1000 * seconds, 8) + [kind] + rest)
            == Some(Opcode(1000 * seconds, kind, rest))
  {
    hide LittleBytes, LittleValue;
    assert Power256(4) == 0x1_0000_0000;
    Power256Of8();
    LittleRoundTrip(seconds, 4);
    LittleRoundTrip(1000 * seconds, 8);
    Timed(SECONDS, LittleBytes(seconds, 4), kind, rest);
    Timed(MILLISECONDS, LittleBytes(1000 * seconds, 8), kind, rest);
  }

  lemma Timed(op: byte, time: seq<byte>, kind: byte, rest: seq<byte>)
    ensures var b := [op] + time + [kind] + rest; var k := |time|;
      |b| >= k + 2 && b[0] == op && b[1..k + 1] == time && b[k + 1] == kind && b[k + 2..] == rest
  {
  }

  // ---- the format, by example

  /** Lengths in the three forms that rdb.h describes: 6 bits, 14 bits, and 32 bits in network order. */
  lemma LengthsByExample(rest: seq<byte>)
    ensures LoadLen([0x0a] + rest) == Some(Len(false, 10, rest))
    ensures LoadLen([0x42, 0xbc] + rest) == Some(Len(false, 700, rest))
    ensures LoadLen([0x80, 0x00, 0x00, 0x42, 0x68] + rest) == Some(Len(false, 17000, rest))
  {
    assert ([0x0a] + rest)[1..] == rest;
    assert ([0x42, 0xbc] + rest)[2..] == rest;
    assert ([0x80, 0x00, 0x00, 0x42, 0x68] + rest)[5..] == rest;
  }

  /** A file with the string "b" under the key "a" of database 0, and no checksum. */
  lemma FileByExample(cfg: Loading)
    ensures LoadFile(cfg, true, 1, [82, 69, 68, 73, 83, 48, 48, 48, 54, 254, 0, 0, 1, 97, 1, 98, 255] + NO_SUM)
      == Some([map[[97] := Entry(Text([98]), NO_EXPIRE)]])
  {
    hide D.StrToL, Crc64.Crc, LoadLoop, ChecksumBytes;
    var end, key := [255 as byte] + NO_SUM, [0 as byte, 1, 97, 1, 98];
    var file: seq<byte> := [82, 69, 68, 73, 83, 48, 48, 48, 54, 254, 0, 0, 1, 97, 1, 98, 255] + NO_SUM;
    assert file[..5] == SIGNATURE && file[5..9] == [48, 48, 48, 54];
    FourDigits(file[5..9]);
    assert file[9..] == [254, 0] + (key + end);
    SelectZero(cfg, EmptyStore(1), key + end);
    OneKey(cfg, EmptyStore(1), 97, 98, end);
    End(cfg, Insert(EmptyStore(1), [97], Entry(Text([98]), NO_EXPIRE)), NO_SUM);
    assert Insert(EmptyStore(1), [97], Entry(Text([98]), NO_EXPIRE)).dbs == [map[[97] := Entry(Text([98]), NO_EXPIRE)]];
    assert NO_SUM[..8] == NO_SUM;
    NoSum();
  }

  lemma SelectZero(cfg: Loading, st: Store, rest: seq<byte>)
    requires 0 == st.cur < |st.dbs|
    ensures LoadLoop(cfg, [254, 0] + rest, st) == LoadLoop(cfg, rest, st)
  {
    hide LoadKeyValue;
    var b := [254, 0] + rest;
    assert b[1..] == [0] + rest && b[1..][1..] == rest;
  }

  lemma OneKey(cfg: Loading, st: Store, k: byte, v: byte, rest: seq<byte>)
    requires st.cur < |st.dbs| && [k] !in st.dbs[st.cur]
    ensures LoadLoop(cfg, [0, 1, k, 1, v] + rest, st)
            == LoadLoop(cfg, rest, Insert(st, [k], Entry(Text([v]), NO_EXPIRE)))
  {
    hide LoadString, Insert;
    var b := [0, 1, k, 1, v] + rest;
    assert b[1..] == [1, k] + ([1, v] + rest);
    ShortString(k, [1, v] + rest);
    ShortString(v, rest);
  }

  lemma End(cfg: Loading, st: Store, rest: seq<byte>)
    requires st.cur < |st.dbs|
    ensures LoadLoop(cfg, [255] + rest, st) == Some((st, rest))
  {
    assert ([255] + rest)[1..] == rest;
  }

  lemma ShortString(x: byte, rest: seq<byte>)
    ensures LoadString([1, x] + rest) == Some(([x], rest))
  {
    var b := [1, x] + rest;
    assert b[1..] == [x] + rest && b[1..][..1] == [x] && b[1..][1..] == rest;
  }
}
