/** The log a rewrite writes for a whole data set, and the data set that log loads to. */
module AofDump {
  import opened Bytes
  import opened Resp
  import opened Aof
  import opened Objects

  const SET: seq<byte> := [83, 69, 84]
  const RPUSH: seq<byte> := [82, 80, 85, 83, 72]
  const SADD: seq<byte> := [83, 65, 68, 68]
  const HMSET: seq<byte> := [72, 77, 83, 69, 84]
  const ITEMS_PER_CMD := 64

  type Db = map<bytes, Value>
  type Data = seq<Db>

  function At(data: Data, db: nat, key: bytes): Option<Value>
    requires db < |data|
  {
    if key in data[db] then Some(data[db][key]) else None
  }

  function Put(data: Data, db: nat, key: bytes, v: Value): Data
    requires db < |data|
  {
    data[db := data[db][key := v]]
  }

  /** The value that grows when the command of a kind is given more arguments; None on a wrong type. */
  function Grow(kind: Kind, v: Option<Value>, args: seq<bytes>): Option<Value> {
    match kind
    case AList =>
      if v.None? then Some(ListOf(args))
      else if v.value.ListOf? then Some(ListOf(v.value.l + args)) else None
    case ASet =>
      if v.None? then Some(SetOf(Members(args)))
      else if v.value.SetOf? then Some(SetOf(v.value.m + Members(args))) else None
    case AHash =>
      if |args| % 2 == 1 then None
      else if v.None? then Some(HashOf(Update(map[], args)))
      else if v.value.HashOf? then Some(HashOf(Update(v.value.h, args))) else None
  }

  function Name(kind: Kind): bytes {
    match kind case AList => RPUSH case ASet => SADD case AHash => HMSET
  }

  function ExecGrow(kind: Kind, data: Data, db: nat, argv: Command): Data
    requires db < |data| && |argv| >= 3
  {
    match Grow(kind, At(data, db, argv[1]), argv[2..])
    case Some(v) => Put(data, db, argv[1], v)
    case None => data
  }

  /** A whole engine: the commands of a dump are these, all others are a parameter. */
  function Exec(other: (Data, nat, Command) -> Data, data: Data, db: nat, argv: Command): Data {
    if db >= |data| || |argv| < 3 then other(data, db, argv)
    else if Named(argv[0], SET) && |argv| == 3 then Put(data, db, argv[1], Text(argv[2]))
    else if Named(argv[0], RPUSH) then ExecGrow(AList, data, db, argv)
    else if Named(argv[0], SADD) then ExecGrow(ASet, data, db, argv)
    else if Named(argv[0], HMSET) then ExecGrow(AHash, data, db, argv)
    else other(data, db, argv)
  }

  function Empty(dbnum: nat): Data { seq(dbnum, _ => map[]) }

  function EngineOf(other: (Data, nat, Command) -> Data, dbnum: nat): Engine<Data> {
    Engine(Empty(dbnum), (data, db, argv) => Exec(other, data, db, argv), dbnum)
  }

  // ---- objects the dump can write

  predicate ValidObject(o: Object) {
    match o
    case AString(s) => |s| <= INT_MAX
    case Items(kind, items) =>
      items != [] && forall i :: 0 <= i < |items| ==> ValidItem(kind, items[i])
  }

  predicate ValidItem(kind: Kind, item: Args) {
    |item| == Width(kind) && forall k :: 0 <= k < |item| ==> |item[k]| <= INT_MAX
  }

  // ---- the log

  function Chunk(n: nat): nat { if n > ITEMS_PER_CMD then ITEMS_PER_CMD else n }

  function ItemsCommand(kind: Kind, key: bytes, items: seq<Args>): Command { [Name(kind), key] + Flat(items) }

  /** Commands of at most 64 items each, in the order of the iterator. */
  function ItemsLog(kind: Kind, key: bytes, items: seq<Args>): bytes {
    if items == [] then []
    else
      var n := Chunk(|items|);
      Encode(ItemsCommand(kind, key, items[..n])) + ItemsLog(kind, key, items[n..])
  }

  function KeyLog(key: bytes, o: Object): bytes {
    match o
    case AString(s) => Encode([SET, key, s])
    case Items(kind, items) => ItemsLog(kind, key, items)
  }

  // ---- writing it

  /** How many more items the current command takes. */
  function Room(rest: seq<Args>, count: nat): nat
    requires count < ITEMS_PER_CMD
  {
    if |rest| > ITEMS_PER_CMD - count then ITEMS_PER_CMD - count else |rest|
  }

  /** The bytes after n items of the current command are out: those items, and the commands behind. */
  function After(kind: Kind, key: bytes, rest: seq<Args>, n: nat): bytes
    requires n <= |rest|
  {
    Bulks(Flat(rest[..n])) + ItemsLog(kind, key, rest[n..])
  }

  /** What is still to be written when `count` items of the current command are out. */
  function Pending(kind: Kind, key: bytes, rest: seq<Args>, count: nat): bytes
    requires count < ITEMS_PER_CMD
  {
    if count == 0 then ItemsLog(kind, key, rest) else After(kind, key, rest, Room(rest, count))
  }

  function Opening(kind: Kind, key: bytes, n: nat): bytes {
    Header(STAR, 2 + n * Width(kind)) + Bulk(Name(kind)) + Bulk(key)
  }

  lemma {:induction false} BulksConcat(a: Args, b: Args)
    ensures Bulks(a + b) == Bulks(a) + Bulks(b)
  {
    hide Bulk;
    if a == [] {
      assert a + b == b;
    } else {
      BulksConcat(a[1..], b);
      assert (a + b)[1..] == a[1..] + b;
      JoinAgain(Bulk(a[0]), Bulks(a[1..]), Bulks(b));
    }
  }

  /** The counter after one more item. */
  function Count(count: nat): (r: nat)
    requires count < ITEMS_PER_CMD
    ensures r < ITEMS_PER_CMD
  {
    if count + 1 == ITEMS_PER_CMD then 0 else count + 1
  }

  /** One item goes out, and the rest is pending with the counter moved round. */
  lemma PendingItem(kind: Kind, key: bytes, rest: seq<Args>, count: nat)
    requires count < ITEMS_PER_CMD && rest != []
    ensures After(kind, key, rest, Room(rest, count))
         == Bulks(rest[0]) + Pending(kind, key, rest[1..], Count(count))
  {
    hide Bulks, ItemsLog, Flat, After;
    var n := Room(rest, count);
    AfterFirst(kind, key, rest, n);
    if count + 1 == ITEMS_PER_CMD {
      AfterNone(kind, key, rest[1..]);
    } else {
      assert Room(rest[1..], count + 1) == n - 1;
    }
  }

  lemma AfterFirst(kind: Kind, key: bytes, rest: seq<Args>, n: nat)
    requires 0 < n <= |rest|
    ensures After(kind, key, rest, n) == Bulks(rest[0]) + After(kind, key, rest[1..], n - 1)
  {
    hide Bulks, ItemsLog, Flat;
    var first, last := rest[1..][..n - 1], ItemsLog(kind, key, rest[n..]);
    assert rest[n..] == rest[1..][n - 1..];
    FlatFirst(rest, n);
    BulksConcat(rest[0], Flat(first));
    JoinAgain(Bulks(rest[0]), Bulks(Flat(first)), last);
  }

  lemma AfterNone(kind: Kind, key: bytes, rest: seq<Args>)
    ensures After(kind, key, rest, 0) == ItemsLog(kind, key, rest)
  {
    hide ItemsLog;
    NoItems(rest[..0]);
    assert rest[0..] == rest;
    assert [] + ItemsLog(kind, key, rest) == ItemsLog(kind, key, rest);
  }

  lemma FlatFirst(items: seq<Args>, n: nat)
    requires 0 < n <= |items|
    ensures Flat(items[..n]) == items[0] + Flat(items[1..][..n - 1])
  {
    assert items[..n][1..] == items[1..][..n - 1];
  }

  lemma NoItems(items: seq<Args>)
    ensures items == [] ==> Bulks(Flat(items)) == []
  {
  }

  lemma CommandBytes(kind: Kind, key: bytes, items: seq<Args>)
    requires forall i :: 0 <= i < |items| ==> |items[i]| == Width(kind)
    ensures Encode(ItemsCommand(kind, key, items)) == Opening(kind, key, |items|) + Bulks(Flat(items))
  {
    hide Bulk, Header, Flat, Bulks;
    FlatLength(items, Width(kind));
    TwoBulks(Name(kind), key, Flat(items));
  }

  lemma TwoBulks(name: bytes, key: bytes, args: Args)
    ensures Bulks([name, key] + args) == Bulk(name) + Bulk(key) + Bulks(args)
  {
    hide Bulk;
    var argv := [name, key] + args;
    assert argv[1..] == [key] + args && argv[1..][1..] == args;
    assert Bulks(argv) == Bulk(name) + (Bulk(key) + Bulks(args));
  }

  lemma PendingHeader(kind: Kind, key: bytes, rest: seq<Args>)
    requires rest != [] && forall i :: 0 <= i < |rest| ==> |rest[i]| == Width(kind)
    ensures ItemsLog(kind, key, rest)
         == Opening(kind, key, Chunk(|rest|)) + After(kind, key, rest, Chunk(|rest|))
  {
    hide Bulks, Flat, Encode, Opening, ItemsCommand, Width, ItemsLog;
    var n := Chunk(|rest|);
    var tail := ItemsLog(kind, key, rest[n..]);
    ItemsFirst(kind, key, rest);
    CommandBytes(kind, key, rest[..n]);
    JoinAgain(Opening(kind, key, n), Bulks(Flat(rest[..n])), tail);
  }

  lemma ItemsFirst(kind: Kind, key: bytes, items: seq<Args>)
    requires items != []
    ensures ItemsLog(kind, key, items)
         == Encode(ItemsCommand(kind, key, items[..Chunk(|items|)])) + ItemsLog(kind, key, items[Chunk(|items|)..])
  {
  }

  lemma JoinAgain(a: bytes, b: bytes, c: bytes)
    ensures a + b + c == a + (b + c)
  {
  }

  /** One round of the loop: a header every 64 items, its count computed before its items are seen. */
  method RewriteItem(dst: bytes, kind: Kind, key: bytes, rest: seq<Args>, items: nat, count: nat)
    returns (r: bytes, next: nat)
    requires count < ITEMS_PER_CMD && items == |rest| > 0
    requires forall i :: 0 <= i < |rest| ==> |rest[i]| == Width(kind)
    ensures next < ITEMS_PER_CMD
    ensures r + Pending(kind, key, rest[1..], next) == dst + Pending(kind, key, rest, count)
  {
    hide ItemsLog, Bulks, Opening, Flat, After, Width;
    r := dst;
    ghost var tail := After(kind, key, rest, Room(rest, count));
    if count == 0 {
      var cmdItems := if items > ITEMS_PER_CMD then ITEMS_PER_CMD else items;
      r := CatOpening(r, kind, key, cmdItems);
      PendingHeader(kind, key, rest);
      JoinAgain(dst, Opening(kind, key, cmdItems), tail);
    }
    assert r + tail == dst + Pending(kind, key, rest, count);
    PendingItem(kind, key, rest, count);
    JoinAgain(r, Bulks(rest[0]), Pending(kind, key, rest[1..], Count(count)));
    r := CatBulks(r, rest[0]);
    next := count + 1;
    if next == ITEMS_PER_CMD { next := 0; }
  }

  /** The loop that rewriteListObject, rewriteSetObject and rewriteHashObject share. */
  method RewriteItems(dst: bytes, kind: Kind, key: bytes, todo: seq<Args>) returns (r: bytes)
    requires forall i :: 0 <= i < |todo| ==> |todo[i]| == Width(kind)
    ensures r == dst + ItemsLog(kind, key, todo)
  {
    hide ItemsLog, After;
    r := dst;
    var count, items, i := 0, |todo|, 0;
    assert todo[0..] == todo;
    while i < |todo|
      invariant 0 <= i <= |todo| && items == |todo| - i && 0 <= count < ITEMS_PER_CMD
      invariant r + Pending(kind, key, todo[i..], count) == dst + ItemsLog(kind, key, todo)
    {
      r, count := RewriteItem(r, kind, key, todo[i..], items, count);
      assert todo[i..][1..] == todo[i + 1..];
      items := items - 1;
      i := i + 1;
    }
    NothingPending(kind, key, todo[i..], count);
  }

  lemma NothingPending(kind: Kind, key: bytes, rest: seq<Args>, count: nat)
    requires count < ITEMS_PER_CMD && rest == []
    ensures Pending(kind, key, rest, count) == []
  {
  }

  method CatOpening(dst: bytes, kind: Kind, key: bytes, items: nat) returns (r: bytes)
    ensures r == dst + Opening(kind, key, items)
  {
    hide Header, Bulk;
    r := dst + Header(STAR, 2 + items * Width(kind));
    r := r + Bulk(Name(kind));
    r := r + Bulk(key);
  }

  method CatBulks(dst: bytes, item: Args) returns (r: bytes)
    ensures r == dst + Bulks(item)
  {
    hide Bulks;
    r := dst;
    assert item[0..] == item;
    for k := 0 to |item|
      invariant r + Bulks(item[k..]) == dst + Bulks(item)
    {
      CatStep(r, item, k);
      r := r + Header(DOLLAR, |item[k]|) + item[k] + CRLF;
    }
    NoBulks(item[|item|..]);
  }

  // ---- loading it

  /** What the first items have built, or nothing before the first of them. */
  function Built(kind: Kind, args: Args): Option<Value> {
    if args == [] then None else Some(Worth(kind, args))
  }

  /** A command continues what the commands before it have built. */
  lemma GrowBuilt(kind: Kind, done: Args, more: Args)
    requires kind.AHash? ==> |done| % 2 == 0 && |more| % 2 == 0
    ensures Grow(kind, Built(kind, done), more) == Some(Worth(kind, done + more))
  {
    if done == [] { assert done + more == more; }
    match kind
    case AList =>
    case ASet => assert Members(done + more) == Members(done) + Members(more);
    case AHash => UpdateConcat(map[], done, more);
  }

  lemma ItemsPerform(e: Engine<Data>, other: (Data, nat, Command) -> Data, r: Session<Data>,
                     kind: Kind, key: bytes, items: seq<Args>)
    requires e == EngineOf(other, e.dbnum) && r.db < |r.data| && Flat(items) != []
    ensures Perform(e, r, ItemsCommand(kind, key, items))
         == r.(data := ExecGrow(kind, r.data, r.db, ItemsCommand(kind, key, items)))
  {
    hide ExecGrow, Flat;
    var argv := ItemsCommand(kind, key, items);
    assert argv[0] == Name(kind);
    assert Lower(argv[0][0]) != Lower(MULTI[0]) && Lower(argv[0][0]) != Lower(EXEC[0]);
  }

  predicate Sizes(kind: Kind, items: seq<Args>) { forall i :: 0 <= i < |items| ==> ValidItem(kind, items[i]) }

  lemma {:induction false} FlatSizes(kind: Kind, items: seq<Args>)
    requires Sizes(kind, items)
    ensures |Flat(items)| == |items| * Width(kind) && (items != [] ==> Flat(items) != [])
    ensures kind.AHash? ==> |Flat(items)| % 2 == 0
    ensures forall k :: 0 <= k < |Flat(items)| ==> |Flat(items)[k]| <= INT_MAX
  {
    if items != [] {
      assert ValidItem(kind, items[0]);
      FlatSizes(kind, items[1..]);
    }
  }

  /** Running the first command of a log. */
  lemma RunFirst(e: Engine<Data>, argv: Command, rest: bytes, r: Session<Data>)
    requires Sized(argv)
    ensures Replay(e, Encode(argv) + rest, r) == Replay(e, rest, Perform(e, r, argv))
  {
    hide LoadCommand, Perform;
    LoadEncoded(argv, rest);
    assert (Encode(argv) + rest)[0] == STAR;
  }

  /** One command of at most 64 items takes the key from the items before it to the items up to it. */
  lemma ChunkRuns(e: Engine<Data>, other: (Data, nat, Command) -> Data, r: Session<Data>,
                  kind: Kind, key: bytes, done: Args, items: seq<Args>, rest: bytes)
    requires e == EngineOf(other, e.dbnum) && r.db < |r.data| && |key| <= INT_MAX
    requires 0 < |items| <= ITEMS_PER_CMD && Sizes(kind, items)
    requires (kind.AHash? ==> |done| % 2 == 0) && At(r.data, r.db, key) == Built(kind, done)
    ensures Replay(e, Encode(ItemsCommand(kind, key, items)) + rest, r)
         == Replay(e, rest, r.(data := Put(r.data, r.db, key, Worth(kind, done + Flat(items)))))
  {
    hide Replay, Perform, Encode, Flat, Grow, Built, Worth;
    var argv := ItemsCommand(kind, key, items);
    FlatSizes(kind, items);
    assert forall i :: 2 <= i < |argv| ==> argv[i] == Flat(items)[i - 2];
    RunFirst(e, argv, rest, r);
    ItemsPerform(e, other, r, kind, key, items);
    assert argv[2..] == Flat(items);
    GrowBuilt(kind, done, Flat(items));
  }

  lemma {:induction false} ItemsRun(e: Engine<Data>, other: (Data, nat, Command) -> Data, r: Session<Data>,
                                    kind: Kind, key: bytes, done: Args, todo: seq<Args>)
    requires e == EngineOf(other, e.dbnum) && r.db < |r.data| && |key| <= INT_MAX && Sizes(kind, todo)
    requires (kind.AHash? ==> |done| % 2 == 0) && At(r.data, r.db, key) == Built(kind, done)
    ensures todo != [] ==>
      Replay(e, ItemsLog(kind, key, todo), r)
      == Ok(r.(data := Put(r.data, r.db, key, Worth(kind, done + Flat(todo)))), [])
    decreases |todo|
  {
    hide Replay, Encode, Flat, Worth, ItemsCommand, Sizes;
    if todo != [] {
      var n := Chunk(|todo|);
      var first, rest := todo[..n], todo[n..];
      var args := done + Flat(first);
      SizesSplit(kind, todo, n);
      ChunkRuns(e, other, r, kind, key, done, first, ItemsLog(kind, key, rest));
      FlatSizes(kind, first);
      FlatConcat(first, rest);
      assert first + rest == todo;
      assert done + Flat(todo) == args + Flat(rest);
      var r' := r.(data := Put(r.data, r.db, key, Worth(kind, args)));
      if rest == [] {
        EmptyRuns(e, ItemsLog(kind, key, rest), rest, args, r');
      } else {
        PutThenAt(r.data, r.db, key, Worth(kind, args));
        assert |args| == |done| + |Flat(first)| && args != [];
        assert At(r'.data, r'.db, key) == Built(kind, args);
        ItemsRun(e, other, r', kind, key, args, rest);
        PutAgain(r.data, r.db, key, Worth(kind, args), Worth(kind, args + Flat(rest)));
      }
    }
  }

  lemma SizesSplit(kind: Kind, items: seq<Args>, n: nat)
    requires n <= |items| && Sizes(kind, items)
    ensures Sizes(kind, items[..n]) && Sizes(kind, items[n..])
  {
    forall i | 0 <= i < |items| - n ensures ValidItem(kind, items[n..][i]) {
      assert items[n..][i] == items[n + i];
    }
  }

  lemma PutThenAt(data: Data, db: nat, key: bytes, v: Value)
    requires db < |data|
    ensures |Put(data, db, key, v)| == |data| && At(Put(data, db, key, v), db, key) == Some(v)
  {
  }

  lemma PutAgain(data: Data, db: nat, key: bytes, v: Value, w: Value)
    requires db < |data|
    ensures Put(Put(data, db, key, v), db, key, w) == Put(data, db, key, w)
  {
    assert data[db][key := v][key := w] == data[db][key := w];
    assert data[db := data[db][key := v]][db := data[db][key := w]] == data[db := data[db][key := w]];
  }

  lemma EmptyRuns(e: Engine<Data>, log: bytes, items: seq<Args>, args: Args, r: Session<Data>)
    requires log == [] && items == []
    ensures Replay(e, log, r) == Ok(r, []) && args + Flat(items) == args
  {
  }

  /** The commands of one key rebuild its value, whatever the size of the object. */
  lemma KeyRuns(e: Engine<Data>, other: (Data, nat, Command) -> Data, r: Session<Data>, key: bytes, o: Object)
    requires e == EngineOf(other, e.dbnum) && r.db < |r.data| && |key| <= INT_MAX && ValidObject(o)
    requires key !in r.data[r.db]
    ensures Replay(e, KeyLog(key, o), r) == Ok(r.(data := Put(r.data, r.db, key, ValueOf(o))), [])
  {
    hide Replay, Encode;
    match o
    case AString(s) =>
      assert Encode([SET, key, s]) + [] == Encode([SET, key, s]);
      RunFirst(e, [SET, key, s], [], r);
      EmptyRuns(e, [], [], [], r.(data := Put(r.data, r.db, key, Text(s))));
    case Items(kind, items) =>
      assert [] + Flat(items) == Flat(items);
      ItemsRun(e, other, r, kind, key, [], items);
  }

  // ---- whole files

  /** A database as its iterator walks it, and a data set as the sequence of its databases. */
  type Walk = seq<(bytes, Object)>

  function DbOf(walk: Walk): Db {
    if walk == [] then map[] else DbOf(walk[..|walk| - 1])[walk[|walk| - 1].0 := ValueOf(walk[|walk| - 1].1)]
  }

  function DataOf(walks: seq<Walk>): Data { seq(|walks|, i requires 0 <= i < |walks| => DbOf(walks[i])) }

  predicate ValidWalk(walk: Walk) {
    && (forall i :: 0 <= i < |walk| ==> |walk[i].0| <= INT_MAX && ValidObject(walk[i].1))
    && (forall i, j :: 0 <= i < j < |walk| ==> walk[i].0 != walk[j].0)
  }

  function DbLog(walk: Walk): bytes {
    if walk == [] then [] else DbLog(walk[..|walk| - 1]) + KeyLog(walk[|walk| - 1].0, walk[|walk| - 1].1)
  }

  /** The part of the file for the first n databases: empty databases do not appear in it. */
  function FileLog(walks: seq<Walk>, n: nat): bytes
    requires n <= |walks|
  {
    if n == 0 then []
    else FileLog(walks, n - 1) + (if walks[n - 1] == [] then [] else SelectText(n - 1) + DbLog(walks[n - 1]))
  }

  /** rewriteAppendOnlyFile, when all writes succeed. */
  method RewriteAppendOnlyFile(walks: seq<Walk>) returns (r: bytes)
    requires forall i :: 0 <= i < |walks| ==> ValidWalk(walks[i])
    ensures r == FileLog(walks, |walks|)
  {
    hide DbLog, ValidWalk, SelectText;
    r := [];
    for j := 0 to |walks|
      invariant r == FileLog(walks, j)
    {
      if |walks[j]| != 0 {
        ghost var before := r;
        r := r + SelectText(j);
        var log := RewriteDb(walks[j]);
        r := r + log;
        assert r == before + (SelectText(j) + log);
      }
    }
  }

  method RewriteDb(walk: Walk) returns (r: bytes)
    requires ValidWalk(walk)
    ensures r == DbLog(walk)
  {
    hide KeyLog, ValidObject;
    r := [];
    for i := 0 to |walk|
      invariant r == DbLog(walk[..i])
    {
      assert walk[..i + 1][..i] == walk[..i];
      r := RewriteKey(r, walk[i].0, walk[i].1);
    }
    assert walk[..|walk|] == walk;
  }

  method RewriteKey(dst: bytes, key: bytes, o: Object) returns (r: bytes)
    requires ValidObject(o)
    ensures r == dst + KeyLog(key, o)
  {
    hide Encode, ItemsLog;
    match o
    case AString(s) => r := CatAppendOnlyGenericCommand(dst, [SET, key, s]);
    case Items(kind, items) =>
      assert forall i :: 0 <= i < |items| ==> ValidItem(kind, items[i]);
      r := RewriteItems(dst, kind, key, items);
  }

  lemma {:induction false} KeysOf(walk: Walk)
    ensures forall k :: k in DbOf(walk) ==> exists i :: 0 <= i < |walk| && walk[i].0 == k
  {
    if walk != [] {
      var n := |walk| - 1;
      KeysOf(walk[..n]);
      forall k | k in DbOf(walk) ensures exists i :: 0 <= i < |walk| && walk[i].0 == k {
        if k == walk[n].0 { assert walk[n].0 == k; }
        else {
          assert k in DbOf(walk[..n]);
          var i :| 0 <= i < |walk[..n]| && walk[..n][i].0 == k;
          assert walk[i].0 == k;
        }
      }
    }
  }

  lemma {:induction false} DbRuns(e: Engine<Data>, other: (Data, nat, Command) -> Data, r: Session<Data>, walk: Walk)
    requires e == EngineOf(other, e.dbnum) && r.db < |r.data| && ValidWalk(walk) && r.data[r.db] == map[]
    ensures Replay(e, DbLog(walk), r) == Ok(r.(data := r.data[r.db := DbOf(walk)]), [])
  {
    hide Replay, KeyLog, ValidObject, ValueOf;
    if walk == [] {
      EmptyRuns(e, DbLog(walk), [], [], r);
      assert r.data[r.db := map[]] == r.data;
    } else {
      var n := |walk| - 1;
      var init, key, o := walk[..n], walk[n].0, walk[n].1;
      DbRuns(e, other, r, init);
      var r' := r.(data := r.data[r.db := DbOf(init)]);
      KeysOf(init);
      assert forall i :: 0 <= i < n ==> init[i].0 == walk[i].0;
      KeyRuns(e, other, r', key, o);
      ReplayConcat(e, DbLog(init), KeyLog(key, o), r);
      assert r'.data[r.db := DbOf(walk)] == r.data[r.db := DbOf(walk)];
    }
  }

  /** The data set once the first n databases are loaded. */
  function Partial(walks: seq<Walk>, n: nat): Data {
    seq(|walks|, i requires 0 <= i < |walks| => if i < n then DbOf(walks[i]) else map[])
  }

  lemma {:induction false} FileRuns(e: Engine<Data>, other: (Data, nat, Command) -> Data, walks: seq<Walk>, n: nat)
    requires e == EngineOf(other, |walks|) && n <= |walks| <= INT_MAX
    requires forall i :: 0 <= i < |walks| ==> ValidWalk(walks[i])
    ensures var r := Replay(e, FileLog(walks, n), Fresh(e));
            r.Ok? && r.value.data == Partial(walks, n) && !r.value.multi
  {
    hide Replay, SelectText, DbLog, DbOf, ValidWalk;
    if n == 0 {
      EmptyRuns(e, FileLog(walks, n), [], [], Fresh(e));
      assert Partial(walks, 0) == Empty(|walks|);
    } else {
      FileRuns(e, other, walks, n - 1);
      var before := FileLog(walks, n - 1);
      var r := Replay(e, before, Fresh(e)).value;
      if walks[n - 1] == [] {
        assert FileLog(walks, n) == before;
        EmptyDb(walks[n - 1]);
        assert Partial(walks, n) == r.data;
      } else {
        SelectRuns(e, before, n - 1);
        DbRuns(e, other, r.(db := n - 1), walks[n - 1]);
        ReplayConcat(e, before + SelectText(n - 1), DbLog(walks[n - 1]), Fresh(e));
        assert FileLog(walks, n) == before + SelectText(n - 1) + DbLog(walks[n - 1]);
        assert Partial(walks, n) == r.data[n - 1 := DbOf(walks[n - 1])];
      }
    }
  }

  lemma EmptyDb(walk: Walk)
    ensures walk == [] ==> DbOf(walk) == map[]
  {
  }

  /** The file a rewrite writes for a data set loads to that data set. */
  lemma DumpLoads(e: Engine<Data>, other: (Data, nat, Command) -> Data, walks: seq<Walk>)
    requires e == EngineOf(other, |walks|) && |walks| <= INT_MAX
    requires forall i :: 0 <= i < |walks| ==> ValidWalk(walks[i])
    ensures Load(e, FileLog(walks, |walks|)) == Ok(DataOf(walks), [])
  {
    hide Replay, DbOf, ValidWalk, FileLog;
    FileRuns(e, other, walks, |walks|);
    assert Partial(walks, |walks|) == DataOf(walks);
  }

  /** So a child forked on any such data set does what the protocol of module Aof expects of it. */
  lemma RewriteIsLegal(other: (Data, nat, Command) -> Data, walks: seq<Walk>, s: Server<Data>, forked: bool)
    requires |walks| <= INT_MAX && s.data == DataOf(walks)
    requires forall i :: 0 <= i < |walks| ==> ValidWalk(walks[i])
    ensures Legal(EngineOf(other, |walks|), s, BgRewrite(forked, FileLog(walks, |walks|)))
  {
    hide Load, DataOf, EngineOf, ValidWalk, FileLog;
    DumpLoads(EngineOf(other, |walks|), other, walks);
  }
}
