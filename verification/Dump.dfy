/** The footer of DUMP payloads (migrate.c): a format version and a checksum. */
module Dump {
  import opened Bytes
  import Crc64
  import opened Objects
  import opened Rio
  import opened RdbFile

  /** The version, low byte first, and the checksum of everything before it. */
  function VersionBytes(): seq<byte> { [RDB_VERSION % 256, RDB_VERSION / 256] }

  function Seal(body: seq<byte>): seq<byte> {
    body + VersionBytes() + ChecksumBytes(Crc64.Crc(0, body + VersionBytes()))
  }

  /** verifyDumpPayload. */
  predicate Verifies(p: seq<byte>) {
    && 10 <= |p|
    && p[|p| - 9] as int * 256 + p[|p| - 10] as int == RDB_VERSION
    && p[|p| - 8..] == ChecksumBytes(Crc64.Crc(0, p[..|p| - 8]))
  }

  lemma SealVerifies(body: seq<byte>)
    ensures Verifies(Seal(body))
  {
    hide Crc64.Crc, ChecksumBytes;
    var p := Seal(body);
    ChecksumLength(Crc64.Crc(0, body + VersionBytes()));
    assert p[..|p| - 8] == body + VersionBytes();
  }

  /** A payload of another version, sealed as that version would, does not verify; only version 6 does. */
  lemma OnlyThisVersion(body: seq<byte>, version: nat)
    requires version < 0x1_0000
    ensures var sealed := body + [version % 256, version / 256];
      Verifies(sealed + ChecksumBytes(Crc64.Crc(0, sealed))) <==> version == 6
  {
    hide Crc64.Crc, ChecksumBytes;
    var sealed := body + [version % 256, version / 256];
    var sum := ChecksumBytes(Crc64.Crc(0, sealed));
    ChecksumLength(Crc64.Crc(0, sealed));
    var p := sealed + sum;
    assert p[..|p| - 8] == sealed && p[|p| - 8..] == sum;
    assert p[|p| - 9] == version / 256 && p[|p| - 10] == version % 256;
  }

  lemma ChecksumBytesInjective(c: bv64, d: bv64)
    requires ChecksumBytes(c) == ChecksumBytes(d)
    ensures c == d
  {
    assert forall i :: 0 <= i < 8 ==> ChecksumBytes(c)[i] == ChecksumBytes(d)[i];
    OctetsDetermine(c, d);
  }

  /** Eight bytes determine a word. */
  lemma OctetsDetermine(c: bv64, d: bv64)
    requires Octet(c) == Octet(d) && Octet(c >> 8) == Octet(d >> 8) && Octet(c >> 16) == Octet(d >> 16)
    requires Octet(c >> 24) == Octet(d >> 24) && Octet(c >> 32) == Octet(d >> 32) && Octet(c >> 40) == Octet(d >> 40)
    requires Octet(c >> 48) == Octet(d >> 48) && Octet(c >> 56) == Octet(d >> 56)
    ensures c == d
  {
    OctetInjective(c, d);
    OctetInjective(c >> 8, d >> 8);
    OctetInjective(c >> 16, d >> 16);
    OctetInjective(c >> 24, d >> 24);
    OctetInjective(c >> 32, d >> 32);
    OctetInjective(c >> 40, d >> 40);
    OctetInjective(c >> 48, d >> 48);
    OctetInjective(c >> 56, d >> 56);
  }

  lemma OctetInjective(c: bv64, d: bv64)
    requires Octet(c) == Octet(d)
    ensures c & 0xff == d & 0xff
  {
  }

  /** Changing any one byte of a payload that verifies, footer included, gives one that does not. */
  lemma OneByteChanged(p: seq<byte>, k: nat, b: byte)
    requires Verifies(p) && k < |p| && p[k] != b
    ensures !Verifies(p[k := b])
  {
    hide Crc64.Crc, ChecksumBytes;
    var q := p[k := b];
    var n := |p| - 8;
    if k < n {
      assert q[..n] == p[..n][k := b] && q[n..] == p[n..];
      Crc64.OneByteMatters(0, p[..n], k, b);
      if ChecksumBytes(Crc64.Crc(0, q[..n])) == ChecksumBytes(Crc64.Crc(0, p[..n])) {
        ChecksumBytesInjective(Crc64.Crc(0, q[..n]), Crc64.Crc(0, p[..n]));
      }
    } else {
      assert q[..n] == p[..n];
      assert q[n..][k - n] != p[n..][k - n];
    }
  }

  /** createDumpPayload: the payload verifies, and the object is what a restore reads from its front. */
  method CreateDumpPayload(o: RdbObject, compression: bool) returns (payload: seq<byte>)
    requires ValidRdb(o)
    ensures Verifies(payload)
    ensures payload[0] == TypeOf(o)
    ensures LoadObject(payload[0], payload[1..]) == Some((RdbValue(o), payload[|payload| - 10..]))
  {
    hide Crc64.Crc, ChecksumBytes, LoadObject, RdbValue, ValidRdb;
    var rdb := new Writer(false);
    rdb.Write([TypeOf(o)]);
    assert rdb.data == [TypeOf(o)];
    ghost var out := SaveObject(rdb, o, compression);
    var body := rdb.data;
    payload := body + [RDB_VERSION % 256, RDB_VERSION / 256];
    var crc := Crc64.Compute(0, payload);
    payload := payload + ChecksumBytes(crc);
    SealVerifies(body);
    ChecksumLength(crc);
    assert payload == Seal(body);
    ghost var footer := VersionBytes() + ChecksumBytes(crc);
    assert payload[1..] == out + footer;
    assert payload[|payload| - 10..] == footer;
    assert LoadObject(TypeOf(o), out + footer) == Some((RdbValue(o), footer));
  }

  method VerifyDumpPayload(p: seq<byte>) returns (ok: bool)
    ensures ok == Verifies(p)
  {
    hide Crc64.Crc, ChecksumBytes;
    if |p| < 10 { return false; }
    var footer := p[|p| - 10..];
    var rdbver := footer[1] as int * 256 + footer[0] as int;
    if rdbver != RDB_VERSION { return false; }
    var crc := Crc64.Compute(0, p[..|p| - 8]);
    assert footer[2..] == p[|p| - 8..];
    return footer[2..] == ChecksumBytes(crc);
  }
}
