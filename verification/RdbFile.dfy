/** Objects, keys and whole files of rdb.c: what a save writes, a load brings back. */
module RdbFile {
  import opened Bytes
  import D = Decimal
  import opened Objects
  import opened Rio
  import Crc64
  import opened RdbString
  import opened Little

  // ---- objects

  /** An object as its iterator walks it; a hash gives fields and values in turn. */
  datatype RdbObject = StringOf(o: StringObject) | Elements(kind: Kind, count: nat, flat: seq<StringObject>)

  predicate ValidRdb(o: RdbObject) {
    match o
    case StringOf(s) => ValidString(s)
    case Elements(kind, count, flat) =>
      count < UINT_MAX && |flat| == count * Width(kind) && forall i :: 0 <= i < |flat| ==> ValidString(flat[i])
  }

  function AllBytes(flat: seq<StringObject>): seq<bytes> { seq(|flat|, i requires 0 <= i < |flat| => BytesOf(flat[i])) }

  function RdbValue(o: RdbObject): Value {
    match o
    case StringOf(s) => Text(BytesOf(s))
    case Elements(kind, _, flat) => Worth(kind, AllBytes(flat))
  }

  const TYPE_STRING: byte := 0
  const TYPE_LIST: byte := 1
  const TYPE_SET: byte := 2
  const TYPE_HASH: byte := 4

  function KindType(kind: Kind): byte {
    match kind case AList => TYPE_LIST case ASet => TYPE_SET case AHash => TYPE_HASH
  }

  function TypeOf(o: RdbObject): byte { if o.StringOf? then TYPE_STRING else KindType(o.kind) }

  /** k strings in a row, added to those already read. */
  function LoadStrings(b: seq<byte>, k: nat, read: seq<bytes>): (r: Option<(seq<bytes>, seq<byte>)>)
    ensures r.Some? ==> |r.value.1| <= |b|
    decreases k
  {
    if k == 0 then Some((read, b))
    else match LoadString(b)
      case None => None
      case Some(p) => LoadStrings(p.1, k - 1, read + [p.0])
  }

  function KindOf(rdbtype: byte): Option<Kind> {
    if rdbtype == TYPE_LIST then Some(AList) else if rdbtype == TYPE_SET then Some(ASet)
    else if rdbtype == TYPE_HASH then Some(AHash) else None
  }

  /** rdbLoadObject for the plain types. */
  function LoadObject(rdbtype: byte, b: seq<byte>): (r: Option<(Value, seq<byte>)>)
    ensures r.Some? ==> |r.value.1| < |b|
  {
    if rdbtype == TYPE_STRING then
      (match LoadString(b) case None => None case Some(p) => Some((Text(p.0), p.1)))
    else match KindOf(rdbtype)
      case None => None
      case Some(kind) =>
        match LoadLen(b)
        case None => None
        case Some(l) =>
          match LoadStrings(l.rest, l.n * Width(kind), [])
          case None => None
          case Some(p) => Some((Worth(kind, p.0), p.1))
  }

  /** These bytes add these strings to what has been read. */
  ghost predicate ReadsAll(out: seq<byte>, args: seq<bytes>) {
    forall rest, n: nat, read | n >= |args| ::
      LoadStrings(out + rest, n, read) == LoadStrings(rest, n - |args|, read + args)
  }

  ghost predicate ReadsObject(out: seq<byte>, rdbtype: byte, v: Value) {
    forall rest :: LoadObject(rdbtype, out + rest) == Some((v, rest))
  }

  lemma ReadsNone()
    ensures ReadsAll([], [])
  {
    hide LoadStrings;
    forall rest: seq<byte>, n: nat, read: seq<bytes> | n >= 0
      ensures LoadStrings([] + rest, n, read) == LoadStrings(rest, n - 0, read + []) {
      assert [] + rest == rest && read + [] == read;
    }
  }

  lemma ReadsOne(out: seq<byte>, args: seq<bytes>, more: seq<byte>, s: bytes)
    requires ReadsAll(out, args) && Reads(more, s)
    ensures ReadsAll(out + more, args + [s])
  {
    hide LoadStrings, LoadString, Reads;
    forall rest: seq<byte>, n: nat, read: seq<bytes> | n >= |args + [s]|
      ensures LoadStrings(out + more + rest, n, read) == LoadStrings(rest, n - |args + [s]|, read + (args + [s])) {
      OneMoreString(out, args, more, s, rest, n, read);
    }
  }

  lemma OneMoreString(out: seq<byte>, args: seq<bytes>, more: seq<byte>, s: bytes,
                      rest: seq<byte>, n: nat, read: seq<bytes>)
    requires ReadsAll(out, args) && Reads(more, s) && n > |args|
    ensures LoadStrings(out + more + rest, n, read) == LoadStrings(rest, n - |args| - 1, read + (args + [s]))
  {
    hide LoadString;
    assert out + more + rest == out + (more + rest);
    assert LoadString(more + rest) == Some((s, rest));
    assert read + args + [s] == read + (args + [s]);
  }

  method SaveObject(rdb: Writer, o: RdbObject, compression: bool) returns (ghost out: seq<byte>)
    requires rdb.Valid() && ValidRdb(o)
    modifies rdb
    ensures rdb.Valid() && rdb.data == old(rdb.data) + out
    ensures ReadsObject(out, TypeOf(o), RdbValue(o))
  {
    hide ReadsAll, Reads, ValidString, BytesOf;
    match o
    case StringOf(s) =>
      out := SaveString(rdb, s, compression);
      StringReads(out, BytesOf(s));
    case Elements(kind, count, flat) =>
      SaveLen(rdb, count);
      ghost var body := SaveStrings(rdb, flat, compression);
      out := LenBytes(count) + body;
      ElementsRead(kind, count, body, AllBytes(flat));
  }

  lemma StringReads(out: seq<byte>, s: bytes)
    requires Reads(out, s)
    ensures ReadsObject(out, TYPE_STRING, Text(s))
  {
    hide LoadString;
  }

  lemma ElementsRead(kind: Kind, count: nat, body: seq<byte>, args: seq<bytes>)
    requires count < UINT_MAX && ReadsAll(body, args) && |args| == count * Width(kind)
    ensures ReadsObject(LenBytes(count) + body, KindType(kind), Worth(kind, args))
  {
    hide LoadLen, LenBytes, Worth;
    forall rest ensures LoadObject(KindType(kind), LenBytes(count) + body + rest) == Some((Worth(kind, args), rest)) {
      assert LenBytes(count) + body + rest == LenBytes(count) + (body + rest);
      LoadSavedLen(count, body + rest);
      assert LoadStrings(body + rest, |args|, []) == LoadStrings(rest, 0, [] + args);
      assert [] + args == args;
    }
  }

  method SaveStrings(rdb: Writer, flat: seq<StringObject>, compression: bool) returns (ghost out: seq<byte>)
    requires rdb.Valid() && forall i :: 0 <= i < |flat| ==> ValidString(flat[i])
    modifies rdb
    ensures rdb.Valid() && rdb.data == old(rdb.data) + out && ReadsAll(out, AllBytes(flat))
  {
    hide ReadsAll, Reads, ValidString, BytesOf;
    out := [];
    ReadsNone();
    assert AllBytes(flat[..0]) == [];
    for i := 0 to |flat|
      invariant rdb.Valid() && rdb.data == old(rdb.data) + out && ReadsAll(out, AllBytes(flat[..i]))
    {
      ghost var more := SaveString(rdb, flat[i], compression);
      ReadsOne(out, AllBytes(flat[..i]), more, BytesOf(flat[i]));
      out := out + more;
      assert AllBytes(flat[..i]) + [BytesOf(flat[i])] == AllBytes(flat[..i + 1]);
    }
    assert flat[..|flat|] == flat;
  }

  // ---- numbers of the file format, least significant byte first

  function Octet(c: bv64): byte { (c & 0xff) as int }

  /** A checksum as it is stored. */
  function ChecksumBytes(c: bv64): seq<byte> {
    [Octet(c), Octet(c >> 8), Octet(c >> 16), Octet(c >> 24), Octet(c >> 32), Octet(c >> 40), Octet(c >> 48),
        Octet(c >> 56)]
  }

  // ---- entries

  const EXPIRETIME_MS: byte := 252
  const EXPIRETIME: byte := 253
  const SELECTDB: byte := 254
  const EOF: byte := 255
  const NO_EXPIRE := -1

  datatype Entry = Entry(value: Value, expire: int)
  type Db = map<bytes, Entry>

  /** The databases, and the one entries go to. */
  datatype Store = Store(dbs: seq<Db>, cur: nat)

  /** What loading depends on: whether there is a master, and the time. */
  datatype Loading = Loading(slave: bool, now: int)

  /** An expire time, if there is one, and the type byte behind it. */
  datatype Opcode = Opcode(expire: int, kind: byte, rest: seq<byte>)

  function LoadOpcode(b: seq<byte>): (r: Option<Opcode>)
    ensures r.Some? ==> |r.value.rest| < |b|
  {
    if b == [] then None
    else if b[0] == EXPIRETIME then
      (if |b| < 6 then None
       else
         var t := Signed(LittleValue(b[1..5]), 0x1_0000_0000);
         if t == -1 then None else Some(Opcode(t * 1000, b[5], b[6..])))
    else if b[0] == EXPIRETIME_MS then
      (if |b| < 10 then None
       else
         var t := Signed(LittleValue(b[1..9]), 2 * INT64_END);
         if t == -1 then None else Some(Opcode(t, b[9], b[10..])))
    else Some(Opcode(NO_EXPIRE, b[0], b[1..]))
  }

  /** A key that has expired is not added when there is no master to expire it. */
  predicate Dropped(cfg: Loading, expire: int) { !cfg.slave && expire != NO_EXPIRE && expire < cfg.now }

  /** A key and its value; a key that is already there is fatal. */
  function LoadKeyValue(cfg: Loading, op: Opcode, st: Store): (r: Option<(Store, seq<byte>)>)
    requires st.cur < |st.dbs|
    ensures r.Some? ==> |r.value.1| < |op.rest| && r.value.0.cur == st.cur && |r.value.0.dbs| == |st.dbs|
  {
    match LoadString(op.rest)
    case None => None
    case Some(k) =>
      match LoadObject(op.kind, k.1)
      case None => None
      case Some(v) =>
        if Dropped(cfg, op.expire) then Some((st, v.1))
        else if k.0 in st.dbs[st.cur] then None
        else Some((Insert(st, k.0, Entry(v.0, op.expire)), v.1))
  }

  function Insert(st: Store, key: bytes, entry: Entry): Store
    requires st.cur < |st.dbs|
  {
    st.(dbs := st.dbs[st.cur := st.dbs[st.cur][key := entry]])
  }

  /** The loop of rdbLoad up to the end opcode. */
  function LoadLoop(cfg: Loading, b: seq<byte>, st: Store): Option<(Store, seq<byte>)>
    requires st.cur < |st.dbs|
    decreases |b|
  {
    match LoadOpcode(b)
    case None => None
    case Some(op) =>
      if op.kind == EOF then Some((st, op.rest))
      else if op.kind == SELECTDB then
        (match LoadLen(op.rest)
         case None => None
         case Some(l) => if l.n >= |st.dbs| then None else LoadLoop(cfg, l.rest, st.(cur := l.n)))
      else match LoadKeyValue(cfg, op, st)
        case None => None
        case Some(p) => LoadLoop(cfg, p.1, p.0)
  }

  /** These bytes take the loader from one store to the next. */
  ghost predicate Advances(cfg: Loading, out: seq<byte>, st: Store, st': Store)
    requires st.cur < |st.dbs| && st'.cur < |st'.dbs|
  {
    forall rest :: LoadLoop(cfg, out + rest, st) == LoadLoop(cfg, rest, st')
  }

  lemma AdvancesNothing(cfg: Loading, st: Store)
    requires st.cur < |st.dbs|
    ensures Advances(cfg, [], st, st)
  {
    hide LoadLoop;
    forall rest: seq<byte> ensures LoadLoop(cfg, [] + rest, st) == LoadLoop(cfg, rest, st) {
      assert [] + rest == rest;
    }
  }

  lemma AdvancesOn(cfg: Loading, a: seq<byte>, b: seq<byte>, r: Store, s: Store, t: Store)
    requires r.cur < |r.dbs| && s.cur < |s.dbs| && t.cur < |t.dbs|
    requires Advances(cfg, a, r, s) && Advances(cfg, b, s, t)
    ensures Advances(cfg, a + b, r, t)
  {
    hide LoadLoop;
    forall rest: seq<byte> ensures LoadLoop(cfg, a + b + rest, r) == LoadLoop(cfg, rest, t) {
      assert a + b + rest == a + (b + rest);
      assert LoadLoop(cfg, a + (b + rest), r) == LoadLoop(cfg, b + rest, s);
      assert LoadLoop(cfg, b + rest, s) == LoadLoop(cfg, rest, t);
    }
  }

  // ---- keys

  /** The bytes in front of a key: its expire time, if it has one, and its type. */
  function Prefix(expire: int, kind: byte): seq<byte>
    requires expire == NO_EXPIRE || 0 <= expire < INT64_END
  {
    (if expire == NO_EXPIRE then [] else [EXPIRETIME_MS] + LittleBytes(expire, 8)) + [kind]
  }

  lemma PrefixLoads(expire: int, kind: byte, rest: seq<byte>)
    requires expire == NO_EXPIRE || 0 <= expire < INT64_END
    requires kind < EXPIRETIME_MS
    ensures LoadOpcode(Prefix(expire, kind) + rest) == Some(Opcode(expire, kind, rest))
  {
    hide LittleBytes, LittleValue;
    if expire != NO_EXPIRE {
      Power256Of8();
      LittleRoundTrip(expire, 8);
      var b := Prefix(expire, kind) + rest;
      assert b[1..9] == LittleBytes(expire, 8);
      assert b[9] == kind && b[10..] == rest;
    } else {
      assert ([kind] + rest)[1..] == rest;
    }
  }

  lemma KeyAdvances(cfg: Loading, expire: int, kind: byte, key: bytes, v: Value,
                    keyout: seq<byte>, objout: seq<byte>, st: Store)
    requires expire == NO_EXPIRE || 0 <= expire < INT64_END
    requires kind < EXPIRETIME_MS && Reads(keyout, key) && ReadsObject(objout, kind, v)
    requires st.cur < |st.dbs| && key !in st.dbs[st.cur]
    ensures Advances(cfg, Prefix(expire, kind) + keyout + objout, st, Kept(cfg, st, key, Entry(v, expire)))
  {
    hide LoadString, LoadObject, Prefix;
    forall rest
      ensures LoadLoop(cfg, Prefix(expire, kind) + keyout + objout + rest, st)
           == LoadLoop(cfg, rest, Kept(cfg, st, key, Entry(v, expire))) {
      var b := Prefix(expire, kind) + (keyout + (objout + rest));
      assert Prefix(expire, kind) + keyout + objout + rest == b;
      PrefixLoads(expire, kind, keyout + (objout + rest));
      assert LoadString(keyout + (objout + rest)) == Some((key, objout + rest));
      assert LoadObject(kind, objout + rest) == Some((v, rest));
    }
  }

  /** The store after an entry that may have expired in the file. */
  function Kept(cfg: Loading, st: Store, key: bytes, entry: Entry): (r: Store)
    requires st.cur < |st.dbs|
    ensures r.cur == st.cur && |r.dbs| == |st.dbs|
  {
    if Dropped(cfg, entry.expire) then st else Insert(st, key, entry)
  }

  datatype Key = Key(name: StringObject, value: RdbObject, expire: int)

  predicate ValidKey(k: Key) {
    && k.name.Raw? && ValidString(k.name) && ValidRdb(k.value)
    && (k.expire == NO_EXPIRE || k.expire < INT64_END)
  }

  /** A key that has already expired when the file is written does not get into it. */
  predicate Saved(k: Key, now: int) { k.expire == NO_EXPIRE || k.expire >= now }

  function After(cfg: Loading, now: int, st: Store, k: Key): (r: Store)
    requires st.cur < |st.dbs|
    ensures r.cur == st.cur && |r.dbs| == |st.dbs|
  {
    if Saved(k, now) then Kept(cfg, st, BytesOf(k.name), Entry(RdbValue(k.value), k.expire)) else st
  }

  /** rdbSaveKeyValuePair. `cfg` is any way the file may be loaded later. */
  method SaveKeyValuePair(rdb: Writer, k: Key, now: int, compression: bool, ghost cfg: Loading, ghost st: Store)
    returns (ghost out: seq<byte>)
    requires rdb.Valid() && ValidKey(k) && 0 <= now
    requires st.cur < |st.dbs| && BytesOf(k.name) !in st.dbs[st.cur]
    modifies rdb
    ensures rdb.Valid() && rdb.data == old(rdb.data) + out
    ensures Advances(cfg, out, st, After(cfg, now, st, k))
  {
    hide Advances, ReadsObject, Reads, RdbValue, ValidRdb, LittleBytes, Kept;
    if k.expire != NO_EXPIRE {
      if k.expire < now {
        AdvancesNothing(cfg, st);
        return [];
      }
      rdb.Write([EXPIRETIME_MS]);
      rdb.Write(LittleBytes(k.expire, 8));
    }
    rdb.Write([TypeOf(k.value)]);
    ghost var keyout := SaveString(rdb, k.name, compression);
    ghost var objout := SaveObject(rdb, k.value, compression);
    KeyAdvances(cfg, k.expire, TypeOf(k.value), BytesOf(k.name), RdbValue(k.value), keyout, objout, st);
    out := Prefix(k.expire, TypeOf(k.value)) + keyout + objout;
  }

  // ---- whole files

  const MAGIC: seq<byte> := [82, 69, 68, 73, 83, 48, 48, 48, 54]
  const SIGNATURE: seq<byte> := [82, 69, 68, 73, 83]
  const RDB_VERSION := 6

  type Walk = seq<Key>

  predicate ValidWalk(walk: Walk) {
    && (forall i :: 0 <= i < |walk| ==> ValidKey(walk[i]))
    && (forall i, j :: 0 <= i < j < |walk| ==> BytesOf(walk[i].name) != BytesOf(walk[j].name))
  }

  /** A key comes back if it had not expired when it was saved, and need not expire when it is loaded. */
  predicate Survives(cfg: Loading, now: int, k: Key) { Saved(k, now) && !Dropped(cfg, k.expire) }

  /** The database that loading the save of a database gives. */
  function Restored(cfg: Loading, now: int, walk: Walk): Db {
    if walk == [] then map[]
    else
      var before, k := Restored(cfg, now, walk[..|walk| - 1]), walk[|walk| - 1];
      if Survives(cfg, now, k) then before[BytesOf(k.name) := Entry(RdbValue(k.value), k.expire)] else before
  }

  /** Every surviving key with its value and expire time, and nothing else. */
  lemma {:induction false} RestoredKeys(cfg: Loading, now: int, walk: Walk)
    requires ValidWalk(walk)
    ensures forall i :: 0 <= i < |walk| ==>
      (BytesOf(walk[i].name) in Restored(cfg, now, walk) <==> Survives(cfg, now, walk[i]))
    ensures forall i :: 0 <= i < |walk| && Survives(cfg, now, walk[i]) ==>
      Restored(cfg, now, walk)[BytesOf(walk[i].name)] == Entry(RdbValue(walk[i].value), walk[i].expire)
    ensures forall key :: key in Restored(cfg, now, walk) ==>
      exists i :: 0 <= i < |walk| && BytesOf(walk[i].name) == key
  {
    hide BytesOf, RdbValue, Survives, ValidKey;
    if walk != [] {
      var n := |walk| - 1;
      var init := walk[..n];
      RestoredKeys(cfg, now, init);
      assert forall i :: 0 <= i < n ==> init[i] == walk[i];
      forall key | key in Restored(cfg, now, walk)
        ensures exists i :: 0 <= i < |walk| && BytesOf(walk[i].name) == key {
        if key in Restored(cfg, now, init) {
          var i :| 0 <= i < |init| && BytesOf(init[i].name) == key;
          assert BytesOf(walk[i].name) == key;
        } else {
          assert BytesOf(walk[n].name) == key;
        }
      }
    }
  }

  /** Every key that had not expired when it was saved, nor is dropped when it is loaded, with its value and expire
      time, and nothing else. */
  lemma RestoredExactly(cfg: Loading, now: int, walk: Walk)
    requires ValidWalk(walk)
    ensures forall i :: 0 <= i < |walk| ==> var t := walk[i].expire;
      (BytesOf(walk[i].name) in Restored(cfg, now, walk)
       <==> t == NO_EXPIRE || (now <= t && (cfg.slave || cfg.now <= t)))
    ensures forall i :: 0 <= i < |walk| && BytesOf(walk[i].name) in Restored(cfg, now, walk) ==>
      Restored(cfg, now, walk)[BytesOf(walk[i].name)] == Entry(RdbValue(walk[i].value), walk[i].expire)
    ensures forall key :: key in Restored(cfg, now, walk) ==>
      exists i :: 0 <= i < |walk| && BytesOf(walk[i].name) == key
  {
    hide BytesOf, RdbValue, ValidKey, Restored;
    RestoredKeys(cfg, now, walk);
  }

  lemma NewKey(cfg: Loading, now: int, walk: Walk, i: nat)
    requires ValidWalk(walk) && i < |walk|
    ensures BytesOf(walk[i].name) !in Restored(cfg, now, walk[..i])
  {
    hide BytesOf, Restored, ValidKey;
    var init := walk[..i];
    assert forall j :: 0 <= j < i ==> init[j] == walk[j];
    RestoredKeys(cfg, now, init);
  }

  /** The store with one database replaced, and that database selected. */
  function With(dbs: seq<Db>, j: nat, db: Db): (r: Store)
    requires j < |dbs|
    ensures r.cur == j < |r.dbs| && r.dbs[j] == db
  {
    Store(dbs[j := db], j)
  }

  lemma AfterWith(cfg: Loading, now: int, dbs: seq<Db>, j: nat, walk: Walk, i: nat)
    requires j < |dbs| && i < |walk|
    ensures After(cfg, now, With(dbs, j, Restored(cfg, now, walk[..i])), walk[i])
         == With(dbs, j, Restored(cfg, now, walk[..i + 1]))
  {
    hide RdbValue, BytesOf;
    assert walk[..i + 1][..i] == walk[..i];
    var db := Restored(cfg, now, walk[..i]);
    UpdateAgain(dbs, j, db, Restored(cfg, now, walk[..i + 1]));
  }

  lemma UpdateAgain<T>(s: seq<T>, j: nat, x: T, y: T)
    requires j < |s|
    ensures s[j := x][j := y] == s[j := y] && s[j := x][j := x] == s[j := x]
  {
  }

  lemma SelectAdvances(cfg: Loading, j: nat, st: Store)
    requires st.cur < |st.dbs| && j < |st.dbs| && j < UINT_MAX
    ensures Advances(cfg, [SELECTDB] + LenBytes(j), st, st.(cur := j))
  {
    hide LenBytes, LoadLen, LoadKeyValue;
    forall rest ensures LoadLoop(cfg, [SELECTDB] + LenBytes(j) + rest, st) == LoadLoop(cfg, rest, st.(cur := j)) {
      var b := [SELECTDB] + (LenBytes(j) + rest);
      assert [SELECTDB] + LenBytes(j) + rest == b;
      assert b[1..] == LenBytes(j) + rest;
      LoadSavedLen(j, rest);
    }
  }

  /** The part of rdbSave for one database. */
  method SaveDb(rdb: Writer, j: nat, walk: Walk, now: int, compression: bool, ghost cfg: Loading, ghost st: Store)
    returns (ghost out: seq<byte>)
    requires rdb.Valid() && ValidWalk(walk) && 0 <= now
    requires st.cur < |st.dbs| && j < |st.dbs| && j < UINT_MAX && st.dbs[j] == map[]
    modifies rdb
    ensures rdb.Valid() && rdb.data == old(rdb.data) + out
    ensures Advances(cfg, out, st, With(st.dbs, j, Restored(cfg, now, walk)))
  {
    hide Advances, LenBytes, Restored, After, ValidKey;
    rdb.Write([SELECTDB]);
    SaveLen(rdb, j);
    out := [SELECTDB] + LenBytes(j);
    SelectAdvances(cfg, j, st);
    assert walk[..0] == [];
    RestoredNothing(cfg, now, walk[..0]);
    assert st.dbs[j := map[]] == st.dbs;
    for i := 0 to |walk|
      invariant rdb.Valid() && rdb.data == old(rdb.data) + out
      invariant Advances(cfg, out, st, With(st.dbs, j, Restored(cfg, now, walk[..i])))
    {
      NewKey(cfg, now, walk, i);
      ghost var mid := With(st.dbs, j, Restored(cfg, now, walk[..i]));
      ghost var more := SaveKeyValuePair(rdb, walk[i], now, compression, cfg, mid);
      AfterWith(cfg, now, st.dbs, j, walk, i);
      AdvancesOn(cfg, out, more, st, mid, After(cfg, now, mid, walk[i]));
      out := out + more;
    }
    assert walk[..|walk|] == walk;
  }

  lemma RestoredNothing(cfg: Loading, now: int, walk: Walk)
    ensures walk == [] ==> Restored(cfg, now, walk) == map[]
  {
  }

  /** The databases once the first n have been loaded. */
  function Partial(cfg: Loading, now: int, walks: seq<Walk>, n: nat): seq<Db> {
    seq(|walks|, i requires 0 <= i < |walks| => if i < n then Restored(cfg, now, walks[i]) else map[])
  }

  function AllRestored(cfg: Loading, now: int, walks: seq<Walk>): seq<Db> {
    seq(|walks|, i requires 0 <= i < |walks| => Restored(cfg, now, walks[i]))
  }

  function EmptyStore(dbnum: nat): Store { Store(seq(dbnum, _ => map[]), 0) }

  method SaveDbs(rdb: Writer, walks: seq<Walk>, now: int, compression: bool, ghost cfg: Loading)
    returns (ghost out: seq<byte>, ghost st: Store)
    requires rdb.Valid() && 0 <= now && 0 < |walks| < UINT_MAX
    requires forall i :: 0 <= i < |walks| ==> ValidWalk(walks[i])
    modifies rdb
    ensures rdb.Valid() && rdb.data == old(rdb.data) + out
    ensures st.cur < |st.dbs| && st.dbs == AllRestored(cfg, now, walks)
    ensures Advances(cfg, out, EmptyStore(|walks|), st)
  {
    hide Advances, Restored, ValidWalk;
    out, st := [], EmptyStore(|walks|);
    AdvancesNothing(cfg, st);
    for j := 0 to |walks|
      invariant rdb.Valid() && rdb.data == old(rdb.data) + out
      invariant st.cur < |st.dbs| && st.dbs == Partial(cfg, now, walks, j)
      invariant Advances(cfg, out, EmptyStore(|walks|), st)
    {
      if |walks[j]| != 0 {
        ghost var more := SaveDb(rdb, j, walks[j], now, compression, cfg, st);
        ghost var next := With(st.dbs, j, Restored(cfg, now, walks[j]));
        AdvancesOn(cfg, out, more, EmptyStore(|walks|), st, next);
        out, st := out + more, next;
      } else {
        RestoredNothing(cfg, now, walks[j]);
      }
    }
  }

  /** rdbLoad of a whole file: signature, version, entries, and the checksum unless it is switched off. */
  function LoadFile(cfg: Loading, check: bool, dbnum: nat, file: seq<byte>): Option<seq<Db>>
    requires dbnum > 0
  {
    if |file| < 9 || file[..5] != SIGNATURE then None
    else
      var version := D.StrToL(file[5..9]).value;
      if version < 1 || version > RDB_VERSION then None
      else match LoadLoop(cfg, file[9..], EmptyStore(dbnum))
        case None => None
        case Some(p) => if version < 5 || !check || ChecksumPasses(file, p.1) then Some(p.0.dbs) else None
  }

  /** The eight bytes behind the entries: zero when the writer kept no checksum. */
  predicate ChecksumPasses(file: seq<byte>, rest: seq<byte>) {
    && 8 <= |rest| <= |file|
    && (rest[..8] == ChecksumBytes(0) || rest[..8] == ChecksumBytes(Crc64.Crc(0, file[..|file| - |rest|])))
  }

  lemma EofEnds(cfg: Loading, body: seq<byte>, tail: seq<byte>, st: Store, st': Store)
    requires st.cur < |st.dbs| && st'.cur < |st'.dbs| && Advances(cfg, body, st, st')
    ensures LoadLoop(cfg, body + [EOF] + tail, st) == Some((st', tail))
  {
    hide LoadKeyValue;
    assert body + [EOF] + tail == body + ([EOF] + tail);
    assert LoadLoop(cfg, body + ([EOF] + tail), st) == LoadLoop(cfg, [EOF] + tail, st');
    assert ([EOF] + tail)[1..] == tail;
  }

  lemma FileLoads(cfg: Loading, check: bool, dbnum: nat, body: seq<byte>, st: Store, tail: seq<byte>)
    requires 0 < dbnum && st.cur < |st.dbs| && Advances(cfg, body, EmptyStore(dbnum), st)
    requires tail == ChecksumBytes(0) || tail == ChecksumBytes(Crc64.Crc(0, MAGIC + body + [EOF]))
    ensures LoadFile(cfg, check, dbnum, MAGIC + body + [EOF] + tail) == Some(st.dbs)
  {
    hide Advances, LoadLoop, Crc64.Crc, D.StrToL, ChecksumBytes;
    var file := MAGIC + body + [EOF] + tail;
    assert file[..5] == SIGNATURE;
    assert file[5..9] == [48, 48, 48, 54];
    MagicVersion();
    assert file[9..] == body + [EOF] + tail;
    EofEnds(cfg, body, tail, EmptyStore(dbnum), st);
    ChecksumLength(0);
    ChecksumLength(Crc64.Crc(0, MAGIC + body + [EOF]));
    assert tail[..8] == tail;
    assert file[..|file| - 8] == MAGIC + body + [EOF];
  }

  lemma ChecksumLength(c: bv64)
    ensures |ChecksumBytes(c)| == 8
  {
  }

  lemma MagicVersion()
    ensures D.StrToL([48, 48, 48, 54]).value == 6
  {
    var s: seq<byte> := [48, 48, 48, 54];
    D.SkipExactly(s, 0, 4);
    assert s[0..4] == s;
    assert s[..3] == [48, 48, 48] && s[..3][..2] == [48, 48] && s[..3][..2][..1] == [48] && s[..3][..2][..1][..0] == [];
    assert D.Value(s[..3][..2][..1]) == 0;
    assert D.Value(s[..3][..2]) == 0;
    assert D.Value(s[..3]) == 0;
  }

  /**
    * rdbSave. However the strings were encoded, whether checksums are kept by the writer, and whoever
    * loads the file: what comes back is every key that survives.
    */
  method RdbSave(walks: seq<Walk>, now: int, compression: bool, sums: bool, ghost cfg: Loading, ghost check: bool)
    returns (file: seq<byte>)
    requires 0 <= now && 0 < |walks| < UINT_MAX
    requires forall i :: 0 <= i < |walks| ==> ValidWalk(walks[i])
    ensures LoadFile(cfg, check, |walks|, file) == Some(AllRestored(cfg, now, walks))
  {
    hide Advances, AllRestored, Crc64.Crc, ChecksumBytes, ValidWalk, EmptyStore;
    var rdb := new Writer(sums);
    rdb.Write(MAGIC);
    assert rdb.data == MAGIC;
    ghost var body, st := SaveDbs(rdb, walks, now, compression, cfg);
    rdb.Write([EOF]);
    assert rdb.data == MAGIC + body + [EOF];
    var cksum := rdb.cksum;
    FileLoads(cfg, check, |walks|, body, st, ChecksumBytes(cksum));
    rdb.Write(ChecksumBytes(cksum));
    file := rdb.data;
  }

  // ---- loading, read by read

  method ReadObject(rdb: Reader, rdbtype: byte) returns (r: Option<Value>)
    requires rdb.Valid()
    modifies rdb
    ensures rdb.Valid()
    ensures match LoadObject(rdbtype, old(rdb.Rest()))
      case None => r == None
      case Some(p) => r == Some(p.0) && rdb.Rest() == p.1
  {
    hide LoadString, LoadLen, Worth;
    if rdbtype == TYPE_STRING {
      var s := ReadString(rdb);
      return if s == None then None else Some(Text(s.value));
    }
    var kind := KindOf(rdbtype);
    if kind == None { return None; }
    var len := ReadLen(rdb);
    if len == None { return None; }
    var strings := ReadStrings(rdb, len.value.n * Width(kind.value));
    return if strings == None then None else Some(Worth(kind.value, strings.value));
  }

  method ReadStrings(rdb: Reader, n: nat) returns (r: Option<seq<bytes>>)
    requires rdb.Valid()
    modifies rdb
    ensures rdb.Valid()
    ensures match LoadStrings(old(rdb.Rest()), n, [])
      case None => r == None
      case Some(p) => r == Some(p.0) && rdb.Rest() == p.1
  {
    hide LoadString;
    var read := [];
    for i := 0 to n
      invariant rdb.Valid() && LoadStrings(old(rdb.Rest()), n, []) == LoadStrings(rdb.Rest(), n - i, read)
    {
      var s := ReadString(rdb);
      if s == None { return None; }
      read := read + [s.value];
    }
    r := Some(read);
  }

  /** The type byte, and before it the expire time in either of its two forms. */
  method ReadOpcode(rdb: Reader) returns (r: Option<(int, byte)>)
    requires rdb.Valid()
    modifies rdb
    ensures rdb.Valid()
    ensures match LoadOpcode(old(rdb.Rest()))
      case None => r == None
      case Some(op) => r == Some((op.expire, op.kind)) && rdb.Rest() == op.rest
  {
    hide LittleValue;
    ghost var b := rdb.Rest();
    var ok, kind := rdb.Read(1);
    if !ok { return None; }
    var expire := NO_EXPIRE;
    if kind[0] == EXPIRETIME {
      var t32;
      ok, t32 := rdb.Read(4);
      if !ok { return None; }
      assert t32 == b[1..5];
      expire := Signed(LittleValue(t32), 0x1_0000_0000);
      if expire == -1 { return None; }
      expire := expire * 1000;
      ok, kind := rdb.Read(1);
      if !ok { return None; }
    } else if kind[0] == EXPIRETIME_MS {
      var t64;
      ok, t64 := rdb.Read(8);
      if !ok { return None; }
      assert t64 == b[1..9];
      expire := Signed(LittleValue(t64), 2 * INT64_END);
      if expire == -1 { return None; }
      ok, kind := rdb.Read(1);
      if !ok { return None; }
    }
    return Some((expire, kind[0]));
  }

  method ReadKeyValue(rdb: Reader, cfg: Loading, expire: int, kind: byte, st: Store) returns (r: Option<Store>)
    requires rdb.Valid() && st.cur < |st.dbs|
    modifies rdb
    ensures rdb.Valid()
    ensures match LoadKeyValue(cfg, Opcode(expire, kind, old(rdb.Rest())), st)
      case None => r == None
      case Some(p) => r == Some(p.0) && rdb.Rest() == p.1
  {
    hide LoadString, LoadObject;
    var key := ReadString(rdb);
    if key == None { return None; }
    var val := ReadObject(rdb, kind);
    if val == None { return None; }
    if Dropped(cfg, expire) { return Some(st); }
    if key.value in st.dbs[st.cur] { return None; }
    return Some(Insert(st, key.value, Entry(val.value, expire)));
  }

  /** The entries of a file. */
  method ReadEntries(rdb: Reader, cfg: Loading, dbnum: nat) returns (r: Option<Store>)
    requires rdb.Valid() && dbnum > 0
    modifies rdb
    ensures rdb.Valid()
    ensures match LoadLoop(cfg, old(rdb.Rest()), EmptyStore(dbnum))
      case None => r == None
      case Some(p) => r == Some(p.0) && rdb.Rest() == p.1
  {
    hide LoadOpcode, LoadKeyValue, LoadLen;
    var st := EmptyStore(dbnum);
    while true
      invariant rdb.Valid() && st.cur < |st.dbs|
      invariant LoadLoop(cfg, old(rdb.Rest()), EmptyStore(dbnum)) == LoadLoop(cfg, rdb.Rest(), st)
      decreases |rdb.Rest()|
    {
      var op := ReadOpcode(rdb);
      if op == None { return None; }
      var (expire, kind) := op.value;
      if kind == EOF { return Some(st); }
      if kind == SELECTDB {
        var dbid := ReadLen(rdb);
        if dbid == None { return None; }
        if dbid.value.n >= |st.dbs| { return None; }
        st := st.(cur := dbid.value.n);
      } else {
        var next := ReadKeyValue(rdb, cfg, expire, kind, st);
        if next == None { return None; }
        st := next.value;
      }
    }
  }

  /** rdbLoad. The checksum of the reader, fed chunk by chunk, is that of everything before the stored one. */
  method RdbLoad(cfg: Loading, check: bool, dbnum: nat, file: seq<byte>) returns (r: Option<seq<Db>>)
    requires dbnum > 0
    ensures r == LoadFile(cfg, check, dbnum, file)
  {
    hide LoadLoop, Crc64.Crc, D.StrToL, ChecksumBytes;
    var rdb := new Reader(file, check);
    assert file[0..] == file;
    var ok, buf := rdb.Read(9);
    if !ok { return None; }
    assert file[..9][..5] == file[..5] && file[..9][5..] == file[5..9];
    if buf[..5] != SIGNATURE { return None; }
    var version := D.StrToL(buf[5..]).value;
    if version < 1 || version > RDB_VERSION { return None; }
    var st := ReadEntries(rdb, cfg, dbnum);
    if st == None { return None; }
    if version >= 5 && check {
      ghost var rest := rdb.Rest();
      var expected := rdb.cksum;
      assert file[..rdb.pos] == file[..|file| - |rest|];
      var stored;
      ok, stored := rdb.Read(8);
      if !ok { return None; }
      if stored != ChecksumBytes(0) && stored != ChecksumBytes(expected) { return None; }
    }
    return Some(st.value.dbs);
  }

  /** Saving and loading: every key that survives, with its value and expire time, and nothing else. */
  method RoundTrip(walks: seq<Walk>, now: int, compression: bool, sums: bool, cfg: Loading, check: bool)
    returns (dbs: Option<seq<Db>>)
    requires 0 <= now && 0 < |walks| < UINT_MAX
    requires forall i :: 0 <= i < |walks| ==> ValidWalk(walks[i])
    ensures dbs == Some(AllRestored(cfg, now, walks))
  {
    hide LoadFile, AllRestored, ValidWalk;
    var file := RdbSave(walks, now, compression, sums, cfg, check);
    dbs := RdbLoad(cfg, check, |walks|, file);
  }
}
