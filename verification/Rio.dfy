/** rio.h: byte streams that keep a checksum of everything written or read so far. */
module Rio {
  import opened Bytes
  import Crc64

  class Writer {
    const sums: bool
    var data: seq<byte>
    var cksum: bv64

    ghost predicate Valid()
      reads this
    {
      cksum == if sums then Crc64.Crc(0, data) else 0
    }

    constructor (sums: bool)
      ensures Valid() && data == [] && this.sums == sums
    {
      this.sums, data, cksum := sums, [], 0;
    }

    /** rioWrite: whatever the chunks, the checksum is that of the whole output. */
    method Write(p: seq<byte>)
      requires Valid()
      modifies this
      ensures Valid() && data == old(data) + p
    {
      if sums {
        cksum := Crc64.Compute(cksum, p);
        Crc64.CrcConcat(0, data, p);
      }
      data := data + p;
    }
  }

  class Reader {
    const sums: bool
    const data: seq<byte>
    var pos: nat
    var cksum: bv64

    ghost predicate Valid()
      reads this
    {
      pos <= |data| && cksum == if sums then Crc64.Crc(0, data[..pos]) else 0
    }

    function Rest(): seq<byte>
      requires pos <= |data|
      reads this
    {
      data[pos..]
    }

    constructor (data: seq<byte>, sums: bool)
      ensures Valid() && pos == 0 && this.data == data && this.sums == sums
    {
      this.sums, this.data, pos, cksum := sums, data, 0, 0;
    }

    /** rioRead: all n bytes or none; reading nothing counts as a failure. */
    method Read(n: nat) returns (ok: bool, p: seq<byte>)
      requires Valid()
      modifies this
      ensures Valid() && (ok <==> 0 < n <= |old(Rest())|)
      ensures ok ==> p == old(Rest())[..n] && Rest() == old(Rest())[n..]
      ensures !ok ==> p == []
    {
      hide Crc64.Crc;
      if n == 0 || n > |data| - pos { return false, []; }
      p := data[pos..pos + n];
      if sums {
        cksum := Crc64.Compute(cksum, p);
        Crc64.CrcConcat(0, data[..pos], p);
        JoinSlices(data, pos, n);
      }
      RestOf(data, pos, n);
      pos := pos + n;
      ok := true;
    }
  }

  lemma JoinSlices(s: seq<byte>, pos: nat, n: nat)
    requires pos + n <= |s|
    ensures s[..pos] + s[pos..pos + n] == s[..pos + n]
  {
  }

  lemma RestOf(s: seq<byte>, pos: nat, n: nat)
    requires pos + n <= |s|
    ensures s[pos..][..n] == s[pos..pos + n] && s[pos..][n..] == s[pos + n..]
  {
  }
}
