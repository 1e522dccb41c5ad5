/** WATCH, MULTI and EXEC (multi.c) on values: two tables that mirror each other, and a dirty flag. */
module Transactions {
  import opened Bytes

  /** A key of one database. */
  datatype WKey = WKey(db: nat, key: seq<byte>)

  /** A queued command, with the keys it will signal as modified when it runs. */
  datatype Cmd = Cmd(argv: seq<seq<byte>>, touches: seq<WKey>)

  datatype Client = Client(db: nat, multi: bool, cas: bool, err: bool, queue: seq<Cmd>, watched: seq<WKey>)

  /** All clients by their identity, and for every watched key the clients that watch it. */
  datatype State = State(clients: map<nat, Client>, table: map<WKey, seq<nat>>)

  const FRESH := Client(0, false, false, false, [], [])
  const START := State(map[], map[])

  // ---- operations

  predicate Distinct<T(==)>(s: seq<T>) { forall i, j :: 0 <= i < j < |s| ==> s[i] != s[j] }

  /** listDelNode of the node listSearchKey finds. */
  function Without(s: seq<nat>, c: nat): seq<nat> {
    if s == [] then [] else if s[0] == c then s[1..] else [s[0]] + Without(s[1..], c)
  }

  function Watchers(s: State, k: WKey): seq<nat> { if k in s.table then s.table[k] else [] }

  /** watchForKey. */
  function Watch(s: State, c: nat, k: WKey): State
    requires c in s.clients
  {
    if k in s.clients[c].watched then s
    else State(s.clients[c := s.clients[c].(watched := s.clients[c].watched + [k])], s.table[k := Watchers(s, k) + [c]])
  }

  function WatchAll(s: State, c: nat, keys: seq<seq<byte>>): (r: State)
    requires c in s.clients
    ensures r.clients.Keys == s.clients.Keys
    decreases |keys|
  {
    if keys == [] then s
    else WatchAll(Watch(s, c, WKey(s.clients[c].db, keys[0])), c, keys[1..])
  }

  /** One key of the client's list goes, together with the client's entry under that key. */
  function UnwatchKey(table: map<WKey, seq<nat>>, c: nat, k: WKey): map<WKey, seq<nat>> {
    if k !in table then table
    else if Without(table[k], c) == [] then table - {k}
    else table[k := Without(table[k], c)]
  }

  function UnwatchKeys(table: map<WKey, seq<nat>>, c: nat, keys: seq<WKey>): map<WKey, seq<nat>> {
    if keys == [] then table else UnwatchKeys(UnwatchKey(table, c, keys[0]), c, keys[1..])
  }

  /** unwatchAllKeys. */
  function UnwatchAll(s: State, c: nat): State
    requires c in s.clients
  {
    State(s.clients[c := s.clients[c].(watched := [])], UnwatchKeys(s.table, c, s.clients[c].watched))
  }

  /** touchWatchedKey. */
  function Touch(s: State, k: WKey): State {
    s.(clients := map c | c in s.clients ::
         if c in Watchers(s, k) then s.clients[c].(cas := true) else s.clients[c])
  }

  function TouchAll(s: State, keys: seq<WKey>): (r: State)
    ensures r.clients.Keys == s.clients.Keys
    decreases |keys|
  {
    if keys == [] then s else TouchAll(Touch(s, keys[0]), keys[1..])
  }

  const ALL_DBS := -1

  predicate Flushed(k: WKey, dbid: int, existing: set<WKey>) { (dbid == ALL_DBS || k.db == dbid) && k in existing }

  /** touchWatchedKeysOnFlush: only keys that exist are lost by a flush. */
  function Flush(s: State, dbid: int, existing: set<WKey>): State {
    s.(clients := map c | c in s.clients ::
         if exists k :: k in s.clients[c].watched && Flushed(k, dbid, existing)
         then s.clients[c].(cas := true) else s.clients[c])
  }

  /** discardTransaction. */
  function DiscardTransaction(s: State, c: nat): State
    requires c in s.clients
  {
    UnwatchAll(s.(clients := s.clients[c := s.clients[c].(queue := [], multi := false, cas := false, err := false)]), c)
  }

  function AllTouches(queue: seq<Cmd>): seq<WKey> {
    if queue == [] then [] else queue[0].touches + AllTouches(queue[1..])
  }

  /** Whether EXEC runs its queue. */
  predicate Runs(x: Client) { !x.cas && !x.err }

  /** execCommand inside a transaction: all of the queue, or nothing of it. */
  function Exec(s: State, c: nat): State
    requires c in s.clients
  {
    if !Runs(s.clients[c]) then DiscardTransaction(s, c)
    else DiscardTransaction(TouchAll(UnwatchAll(s, c), AllTouches(s.clients[c].queue)), c)
  }

  /** unwatchCommand. */
  function Unwatch(s: State, c: nat): State
    requires c in s.clients
  {
    var t := UnwatchAll(s, c);
    t.(clients := t.clients[c := t.clients[c].(cas := false)])
  }

  // ---- events

  datatype Event =
    | Connect(c: nat)
    | Disconnect(c: nat)
    | SelectDb(c: nat, db: nat)
    | WatchCmd(c: nat, keys: seq<seq<byte>>)
    | UnwatchCmd(c: nat)
    | MultiCmd(c: nat)
    | Enqueue(c: nat, cmd: Cmd)
    | QueueError(c: nat)
    | DiscardCmd(c: nat)
    | ExecCmd(c: nat)
    | TouchKey(k: WKey)
    | FlushDb(dbid: int, existing: set<WKey>)

  predicate Legal(s: State, e: Event) {
    match e
    case Connect(c) => c !in s.clients
    case Enqueue(c, _) => c in s.clients && s.clients[c].multi
    case UnwatchCmd(c) => c in s.clients && !s.clients[c].multi
    case TouchKey(_) => true
    case FlushDb(_, _) => true
    case _ => e.c in s.clients
  }

  function Step(s: State, e: Event): State
    requires Legal(s, e)
  {
    match e
    case Connect(c) => s.(clients := s.clients[c := FRESH])
    case Disconnect(c) => var t := UnwatchAll(s, c); t.(clients := t.clients - {c})
    case SelectDb(c, db) => s.(clients := s.clients[c := s.clients[c].(db := db)])
    case WatchCmd(c, keys) => if s.clients[c].multi then s else WatchAll(s, c, keys)
    case UnwatchCmd(c) => Unwatch(s, c)
    case MultiCmd(c) => s.(clients := s.clients[c := s.clients[c].(multi := true)])
    case Enqueue(c, cmd) => s.(clients := s.clients[c := s.clients[c].(queue := s.clients[c].queue + [cmd])])
    case QueueError(c) =>
      if s.clients[c].multi then s.(clients := s.clients[c := s.clients[c].(err := true)]) else s
    case DiscardCmd(c) => if s.clients[c].multi then DiscardTransaction(s, c) else s
    case ExecCmd(c) => if s.clients[c].multi then Exec(s, c) else s
    case TouchKey(k) => Touch(s, k)
    case FlushDb(dbid, existing) => Flush(s, dbid, existing)
  }

  // ---- the two tables mirror each other

  predicate Listed(s: State, k: WKey) {
    && k in s.table && s.table[k] != [] && Distinct(s.table[k])
    && forall c :: c in s.table[k] ==> c in s.clients && k in s.clients[c].watched
  }

  predicate Lists(s: State, c: nat) {
    && c in s.clients && Distinct(s.clients[c].watched)
    && forall k :: k in s.clients[c].watched ==> k in s.table && c in s.table[k]
  }

  /** A client is under a key exactly when the key is in its list; no duplicates, no empty lists. */
  predicate Mirrored(s: State) {
    && (forall k :: k in s.table ==> Listed(s, k))
    && (forall c :: c in s.clients ==> Lists(s, c))
  }

  lemma WatchMirrors(s: State, c: nat, k: WKey)
    requires Mirrored(s) && c in s.clients
    ensures Mirrored(Watch(s, c, k)) && Watch(s, c, k).clients.Keys == s.clients.Keys
    ensures forall j :: j in Watch(s, c, k).clients[c].watched <==> j == k || j in s.clients[c].watched
  {
    var t := Watch(s, c, k);
    if k !in s.clients[c].watched {
      if k in s.table { assert Listed(s, k); }
      forall j | j in t.table ensures Listed(t, j) {
        if j != k { assert Listed(s, j); }
      }
      forall d | d in t.clients ensures Lists(t, d) {
        assert Lists(s, d);
      }
    }
  }

  lemma {:induction false} WithoutOk(s: seq<nat>, c: nat)
    requires Distinct(s)
    ensures Distinct(Without(s, c))
    ensures forall d :: d in Without(s, c) <==> d in s && d != c
  {
    if s != [] {
      assert Distinct(s[1..]);
      WithoutOk(s[1..], c);
      var t := Without(s, c);
      forall d ensures d in t <==> d in s && d != c {
        if d in s { assert d == s[0] || d in s[1..]; }
      }
      if s[0] != c {
        assert forall i :: 0 < i < |t| ==> t[i] == Without(s[1..], c)[i - 1];
        assert s[0] !in s[1..];
      }
    }
  }

  /** What taking the client off all its keys leaves of the table. */
  lemma {:induction false} UnwatchKeysOk(table: map<WKey, seq<nat>>, c: nat, keys: seq<WKey>)
    requires Distinct(keys)
    ensures var t := UnwatchKeys(table, c, keys);
      && (forall k :: k in t <==> k in table && (k in keys ==> Without(table[k], c) != []))
      && (forall k :: k in t ==> t[k] == if k in keys then Without(table[k], c) else table[k])
    decreases |keys|
  {
    hide Without;
    if keys != [] {
      var one := UnwatchKey(table, c, keys[0]);
      assert Distinct(keys[1..]);
      UnwatchKeysOk(one, c, keys[1..]);
      assert forall k :: k in keys <==> k == keys[0] || k in keys[1..];
      assert keys[0] !in keys[1..];
    }
  }

  lemma UnwatchMirrors(s: State, c: nat)
    requires Mirrored(s) && c in s.clients
    ensures Mirrored(UnwatchAll(s, c))
    ensures forall k :: c !in Watchers(UnwatchAll(s, c), k)
    ensures forall k, d :: d != c ==> (d in Watchers(UnwatchAll(s, c), k) <==> d in Watchers(s, k))
  {
    hide Without, UnwatchKeys;
    var t := UnwatchAll(s, c);
    assert Lists(s, c);
    UnwatchKeysOk(s.table, c, s.clients[c].watched);
    forall k | k in s.table
      ensures Distinct(Without(s.table[k], c))
      ensures forall d :: d in Without(s.table[k], c) <==> d in s.table[k] && d != c
    {
      assert Listed(s, k);
      WithoutOk(s.table[k], c);
    }
    forall k | k in t.table ensures Listed(t, k) {
      assert Listed(s, k);
    }
    forall d | d in t.clients ensures Lists(t, d) {
      assert Lists(s, d);
      forall k | k in t.clients[d].watched ensures k in t.table && d in t.table[k] {
        if k in s.clients[c].watched { assert d in Without(s.table[k], c); }
      }
    }
    forall k, d | d != c ensures d in Watchers(t, k) <==> d in Watchers(s, k) {
      if k in s.table && k in s.clients[c].watched && d in s.table[k] { assert d in Without(s.table[k], c); }
    }
    forall k ensures c !in Watchers(t, k) {
      if k in s.table && c in s.table[k] { assert Listed(s, k); }
    }
  }

  /** Operations that leave both tables alone. */
  lemma SameTables(s: State, t: State)
    requires Mirrored(s) && t.table == s.table && t.clients.Keys >= s.clients.Keys
    requires forall c :: c in s.clients ==> t.clients[c].watched == s.clients[c].watched
    requires forall c :: c in t.clients && c !in s.clients ==> t.clients[c].watched == []
    ensures Mirrored(t)
  {
    forall k | k in t.table ensures Listed(t, k) { assert Listed(s, k); }
    forall c | c in t.clients ensures Lists(t, c) {
      if c in s.clients { assert Lists(s, c); }
    }
  }

  lemma {:induction false} WatchAllMirrors(s: State, c: nat, keys: seq<seq<byte>>)
    requires Mirrored(s) && c in s.clients
    ensures Mirrored(WatchAll(s, c, keys))
    decreases |keys|
  {
    hide Watch, Mirrored;
    if keys != [] {
      WatchMirrors(s, c, WKey(s.clients[c].db, keys[0]));
      WatchAllMirrors(Watch(s, c, WKey(s.clients[c].db, keys[0])), c, keys[1..]);
    }
  }

  lemma {:induction false} TouchAllMirrors(s: State, keys: seq<WKey>)
    requires Mirrored(s)
    ensures Mirrored(TouchAll(s, keys))
    decreases |keys|
  {
    if keys != [] {
      SameTables(s, Touch(s, keys[0]));
      TouchAllMirrors(Touch(s, keys[0]), keys[1..]);
    }
  }

  lemma DiscardMirrors(s: State, c: nat)
    requires Mirrored(s) && c in s.clients
    ensures Mirrored(DiscardTransaction(s, c))
  {
    hide UnwatchAll;
    var t := s.(clients := s.clients[c := s.clients[c].(queue := [], multi := false, cas := false, err := false)]);
    SameTables(s, t);
    UnwatchMirrors(t, c);
  }

  lemma ExecMirrors(s: State, c: nat)
    requires Mirrored(s) && c in s.clients
    ensures Mirrored(Exec(s, c))
  {
    hide Mirrored, UnwatchAll, DiscardTransaction, TouchAll;
    if Runs(s.clients[c]) {
      UnwatchMirrors(s, c);
      UnwatchKeepsClients(s, c);
      TouchAllMirrors(UnwatchAll(s, c), AllTouches(s.clients[c].queue));
      DiscardMirrors(TouchAll(UnwatchAll(s, c), AllTouches(s.clients[c].queue)), c);
    } else {
      DiscardMirrors(s, c);
    }
  }

  lemma UnwatchKeepsClients(s: State, c: nat)
    requires c in s.clients
    ensures UnwatchAll(s, c).clients.Keys == s.clients.Keys
  {
  }

  /** A client without keys can go. */
  lemma RemoveMirrors(s: State, c: nat)
    requires Mirrored(s) && c in s.clients && forall k :: c !in Watchers(s, k)
    ensures Mirrored(s.(clients := s.clients - {c}))
  {
    var t := s.(clients := s.clients - {c});
    forall k | k in t.table ensures Listed(t, k) {
      assert Listed(s, k) && c !in Watchers(s, k);
    }
    forall d | d in t.clients ensures Lists(t, d) { assert Lists(s, d); }
  }

  /** Touches do not reach a client that is under no key. */
  lemma {:induction false} TouchAllSpares(s: State, c: nat, keys: seq<WKey>)
    requires c in s.clients && forall k :: c !in Watchers(s, k)
    ensures TouchAll(s, keys).clients[c] == s.clients[c] && TouchAll(s, keys).table == s.table
    decreases |keys|
  {
    if keys != [] {
      var t := Touch(s, keys[0]);
      assert forall k :: Watchers(t, k) == Watchers(s, k);
      TouchAllSpares(t, c, keys[1..]);
    }
  }

  /** An UNWATCH in the queue of an EXEC that runs finds nothing to do, wherever in the queue it is. */
  lemma UnwatchInQueue(s: State, c: nat, before: seq<WKey>)
    requires Mirrored(s) && c in s.clients && Runs(s.clients[c])
    ensures var t := TouchAll(UnwatchAll(s, c), before); c in t.clients && Unwatch(t, c) == t
  {
    hide Mirrored, UnwatchKeys, Watchers;
    UnwatchMirrors(s, c);
    UnwatchKeepsClients(s, c);
    TouchAllSpares(UnwatchAll(s, c), c, before);
    NothingWatched(TouchAll(UnwatchAll(s, c), before), c);
  }

  lemma NothingWatched(s: State, c: nat)
    requires c in s.clients && s.clients[c].watched == [] && !s.clients[c].cas
    ensures Unwatch(s, c) == s
  {
    assert s.clients[c := s.clients[c]] == s.clients;
  }

  lemma StepMirrors(s: State, e: Event)
    requires Mirrored(s) && Legal(s, e)
    ensures Mirrored(Step(s, e))
  {
    hide Mirrored, UnwatchAll, DiscardTransaction, Exec, WatchAll;
    match e
    case Disconnect(c) =>
      UnwatchMirrors(s, c);
      UnwatchKeepsClients(s, c);
      RemoveMirrors(UnwatchAll(s, c), c);
    case WatchCmd(c, keys) => WatchAllMirrors(s, c, keys);
    case UnwatchCmd(c) =>
      UnwatchMirrors(s, c);
      UnwatchKeepsClients(s, c);
      SameTables(UnwatchAll(s, c), Step(s, e));
    case DiscardCmd(c) => DiscardMirrors(s, c);
    case ExecCmd(c) => ExecMirrors(s, c);
    case _ => SameTables(s, Step(s, e));
  }

  // ---- what one event does to the list and the flag of a client

  predicate InList(s: State, c: nat, k: WKey) { c in s.clients && k in s.clients[c].watched }
  predicate Dirty(s: State, c: nat) { c in s.clients && s.clients[c].cas }

  /** A WATCH of a key that is not refused. */
  predicate Watches(s: State, e: Event, c: nat, k: WKey) {
    && e.WatchCmd? && e.c == c && c in s.clients && !s.clients[c].multi
    && k.db == s.clients[c].db && k.key in e.keys
  }

  /** An EXEC, DISCARD or UNWATCH that completes, or the end of the connection. */
  predicate Clears(s: State, e: Event, c: nat) {
    && c in s.clients
    && match e
       case UnwatchCmd(d) => d == c && !s.clients[c].multi
       case DiscardCmd(d) => d == c && s.clients[c].multi
       case ExecCmd(d) => d == c && s.clients[c].multi
       case Disconnect(d) => d == c
       case _ => false
  }

  /** A touch, a flush of a key that exists, or a touch by a transaction that runs. */
  predicate Touches(s: State, e: Event, k: WKey) {
    match e
    case TouchKey(j) => j == k
    case FlushDb(dbid, existing) => (dbid == ALL_DBS || k.db == dbid) && k in existing
    case ExecCmd(d) =>
      d in s.clients && s.clients[d].multi && Runs(s.clients[d]) && k in AllTouches(s.clients[d].queue)
    case _ => false
  }

  function Next(s: State, e: Event): State { if Legal(s, e) then Step(s, e) else s }

  lemma {:induction false} WatchAllLists(s: State, c: nat, keys: seq<seq<byte>>)
    requires c in s.clients
    ensures var t := WatchAll(s, c, keys);
      && t.clients[c] == s.clients[c].(watched := t.clients[c].watched)
      && (forall k :: k in t.clients[c].watched <==>
            k in s.clients[c].watched || (k.db == s.clients[c].db && k.key in keys))
      && (forall d :: d in s.clients && d != c ==> t.clients[d] == s.clients[d])
    decreases |keys|
  {
    if keys != [] {
      WatchAllLists(Watch(s, c, WKey(s.clients[c].db, keys[0])), c, keys[1..]);
      assert forall x :: x in keys <==> x == keys[0] || x in keys[1..];
    }
  }

  lemma {:induction false} TouchAllDirties(s: State, keys: seq<WKey>)
    ensures var t := TouchAll(s, keys);
      && t.table == s.table
      && forall c :: c in s.clients ==>
           && t.clients[c] == s.clients[c].(cas := t.clients[c].cas)
           && (t.clients[c].cas <==> s.clients[c].cas || exists k :: k in keys && c in Watchers(s, k))
    decreases |keys|
  {
    if keys != [] {
      var one := Touch(s, keys[0]);
      TouchAllDirties(one, keys[1..]);
      assert forall k :: k in keys <==> k == keys[0] || k in keys[1..];
      assert forall k :: Watchers(one, k) == Watchers(s, k);
    }
  }

  lemma MirrorReads(s: State, c: nat, k: WKey)
    requires Mirrored(s)
    ensures c in Watchers(s, k) <==> InList(s, c, k)
  {
    if k in s.table { assert Listed(s, k); }
    if c in s.clients { assert Lists(s, c); }
  }

  lemma UnwatchOthers(s: State, c: nat)
    requires c in s.clients
    ensures UnwatchAll(s, c).clients == s.clients[c := s.clients[c].(watched := [])]
  {
  }

  ghost predicate ExecHits(s: State, c: nat, d: nat)
    requires c in s.clients
  {
    Runs(s.clients[c]) && exists k :: k in AllTouches(s.clients[c].queue) && InList(s, d, k)
  }

  /** What a transaction that runs does to the clients. */
  lemma ExecEffect(s: State, c: nat)
    requires Mirrored(s) && c in s.clients
    ensures var t := Exec(s, c);
      && t.clients.Keys == s.clients.Keys && t.clients[c] == FRESH.(db := s.clients[c].db)
      && forall d :: d in s.clients && d != c ==>
           && t.clients[d] == s.clients[d].(cas := t.clients[d].cas)
           && (t.clients[d].cas <==> (s.clients[d].cas || ExecHits(s, c, d)))
  {
    hide UnwatchAll, TouchAll, Mirrored, AllTouches;
    var u := UnwatchAll(s, c);
    var touched := AllTouches(s.clients[c].queue);
    UnwatchOthers(s, c);
    UnwatchMirrors(s, c);
    TouchAllDirties(u, touched);
    var v := TouchAll(u, touched);
    var x := if Runs(s.clients[c]) then v else s;
    UnwatchOthers(x.(clients := x.clients[c := x.clients[c].(queue := [], multi := false, cas := false,
        err := false)]), c);
    forall d | d in s.clients && d != c
      ensures (exists k :: k in touched && d in Watchers(u, k)) <==> (exists k :: k in touched && InList(s, d, k)) {
      forall k ensures d in Watchers(u, k) <==> InList(s, d, k) { MirrorReads(s, d, k); }
    }
  }

  lemma ListStep(s: State, e: Event, c: nat, k: WKey)
    requires Mirrored(s)
    ensures InList(Next(s, e), c, k) <==> Watches(s, e, c, k) || (InList(s, c, k) && !Clears(s, e, c))
  {
    hide Mirrored, UnwatchAll, Exec, WatchAll;
    if Legal(s, e) {
      match e
      case WatchCmd(d, keys) => if !s.clients[d].multi { WatchAllLists(s, d, keys); }
      case Disconnect(d) => UnwatchOthers(s, d);
      case UnwatchCmd(d) => UnwatchOthers(s, d);
      case DiscardCmd(d) =>
        UnwatchOthers(s.(clients := s.clients[d := s.clients[d].(queue := [], multi := false, cas := false,
            err := false)]), d);
      case ExecCmd(d) => if s.clients[d].multi { ExecEffect(s, d); }
      case _ =>
    }
  }

  lemma DirtyStep(s: State, e: Event, c: nat)
    requires Mirrored(s)
    ensures Dirty(Next(s, e), c) <==>
      !Clears(s, e, c) && (Dirty(s, c) || exists k :: InList(s, c, k) && Touches(s, e, k))
  {
    hide Mirrored, UnwatchAll, Exec, WatchAll, AllTouches;
    if Legal(s, e) {
      match e
      case WatchCmd(d, keys) => if !s.clients[d].multi { WatchAllLists(s, d, keys); }
      case Disconnect(d) => UnwatchOthers(s, d);
      case UnwatchCmd(d) => UnwatchOthers(s, d);
      case DiscardCmd(d) =>
        UnwatchOthers(s.(clients := s.clients[d := s.clients[d].(queue := [], multi := false, cas := false,
            err := false)]), d);
      case ExecCmd(d) => if s.clients[d].multi { ExecEffect(s, d); }
      case TouchKey(k) => MirrorReads(s, c, k);
      case FlushDb(dbid, existing) =>
        assert forall k :: Touches(s, e, k) <==> Flushed(k, dbid, existing);
      case _ => assert forall k :: !Touches(s, e, k);
    }
  }

  // ---- whole runs

  function At(run: seq<Event>, n: nat): State
    requires n <= |run|
  {
    if n == 0 then START else Next(At(run, n - 1), run[n - 1])
  }

  predicate ClearsAt(run: seq<Event>, m: nat, c: nat)
    requires m < |run|
  {
    Clears(At(run, m), run[m], c)
  }

  /** Event j is a WATCH of the key by the client, and nothing since then has ended it. */
  predicate WatchingFrom(run: seq<Event>, j: nat, n: nat, c: nat, k: WKey)
    requires n <= |run|
  {
    j < n && Watches(At(run, j), run[j], c, k) && forall m :: j < m < n ==> !ClearsAt(run, m, c)
  }

  predicate TouchedAt(run: seq<Event>, i: nat, k: WKey)
    requires i < |run|
  {
    Touches(At(run, i), run[i], k)
  }

  ghost predicate Watching(run: seq<Event>, n: nat, c: nat, k: WKey)
    requires n <= |run|
  {
    exists j :: WatchingFrom(run, j, n, c, k)
  }

  ghost predicate HitFrom(run: seq<Event>, n: nat, c: nat, j: nat, i: nat, k: WKey)
    requires n <= |run|
  {
    j < i < n && WatchingFrom(run, j, n, c, k) && TouchedAt(run, i, k)
  }

  /** A touch hit a key while the client was watching it, and nothing since the WATCH has cleared that. */
  ghost predicate Hit(run: seq<Event>, n: nat, c: nat)
    requires n <= |run|
  {
    exists j, i, k :: HitFrom(run, n, c, j, i, k)
  }

  lemma {:induction false} RunMirrors(run: seq<Event>, n: nat)
    requires n <= |run|
    ensures Mirrored(At(run, n))
  {
    hide Mirrored, Step, Legal;
    if n == 0 {
      StartMirrors();
    } else {
      RunMirrors(run, n - 1);
      if Legal(At(run, n - 1), run[n - 1]) { StepMirrors(At(run, n - 1), run[n - 1]); }
    }
  }

  lemma StartMirrors()
    ensures Mirrored(START)
  {
  }

  lemma WatchingStep(run: seq<Event>, n: nat, c: nat, k: WKey)
    requires n < |run|
    ensures Watching(run, n + 1, c, k) <==>
      Watches(At(run, n), run[n], c, k) || (Watching(run, n, c, k) && !ClearsAt(run, n, c))
  {
    hide At, Clears, Watches;
    if Watching(run, n + 1, c, k) {
      var j: nat :| WatchingFrom(run, j, n + 1, c, k);
      if j < n { assert WatchingFrom(run, j, n, c, k) && !ClearsAt(run, n, c); }
    }
    if Watches(At(run, n), run[n], c, k) { assert WatchingFrom(run, n, n + 1, c, k); }
    if Watching(run, n, c, k) && !ClearsAt(run, n, c) {
      var j: nat :| WatchingFrom(run, j, n, c, k);
      assert WatchingFrom(run, j, n + 1, c, k);
    }
  }

  lemma HitStep(run: seq<Event>, n: nat, c: nat)
    requires n < |run|
    ensures Hit(run, n + 1, c) <==>
      !ClearsAt(run, n, c) && (Hit(run, n, c) || exists k :: Watching(run, n, c, k) && TouchedAt(run, n, k))
  {
    hide At, Clears, Watches, Touches;
    if Hit(run, n + 1, c) {
      var j: nat, i: nat, k :| HitFrom(run, n + 1, c, j, i, k);
      assert WatchingFrom(run, j, n, c, k) && !ClearsAt(run, n, c);
      if i < n { assert HitFrom(run, n, c, j, i, k); } else { assert Watching(run, n, c, k) && TouchedAt(run, n, k); }
    }
    if !ClearsAt(run, n, c) && Hit(run, n, c) {
      var j: nat, i: nat, k :| HitFrom(run, n, c, j, i, k);
      assert HitFrom(run, n + 1, c, j, i, k);
    }
    if !ClearsAt(run, n, c) && exists k :: Watching(run, n, c, k) && TouchedAt(run, n, k) {
      var k :| Watching(run, n, c, k) && TouchedAt(run, n, k);
      var j: nat :| WatchingFrom(run, j, n, c, k);
      assert HitFrom(run, n + 1, c, j, n, k);
    }
  }

  /** A key is in a client's list exactly when the history says the client is watching it. */
  lemma {:induction false} ListIsHistory(run: seq<Event>, n: nat, c: nat, k: WKey)
    requires n <= |run|
    ensures InList(At(run, n), c, k) <==> Watching(run, n, c, k)
  {
    hide Mirrored, Next, Watches, Clears, WatchingFrom;
    if n == 0 {
      NotYet(run, c, k);
    } else {
      ListIsHistory(run, n - 1, c, k);
      RunMirrors(run, n - 1);
      ListStep(At(run, n - 1), run[n - 1], c, k);
      WatchingStep(run, n - 1, c, k);
    }
  }

  lemma NotYet(run: seq<Event>, c: nat, k: WKey)
    ensures !Watching(run, 0, c, k)
  {
  }

  /** Optimistic locking: the dirty flag is set exactly when the history has a hit. */
  lemma {:induction false} DirtyIsHistory(run: seq<Event>, n: nat, c: nat)
    requires n <= |run|
    ensures Dirty(At(run, n), c) <==> Hit(run, n, c)
  {
    hide Mirrored, Next, Touches, Clears, WatchingFrom, InList, Watching;
    if n > 0 {
      var m: nat := n - 1;
      DirtyIsHistory(run, m, c);
      RunMirrors(run, m);
      DirtyStep(At(run, m), run[m], c);
      HitStep(run, m, c);
      forall k ensures Watching(run, m, c, k) <==> InList(At(run, m), c, k) {
        ListIsHistory(run, m, c, k);
      }
      assert forall k :: TouchedAt(run, m, k) <==> Touches(At(run, m), run[m], k);
    }
  }

  // ---- what a transaction is, by the history

  /** The connection, or an EXEC or DISCARD that completes: nothing from before it is left of a transaction. */
  predicate Opens(s: State, e: Event, c: nat) {
    match e
    case Connect(d) => d == c && c !in s.clients
    case ExecCmd(d) => d == c && c in s.clients && s.clients[c].multi
    case DiscardCmd(d) => d == c && c in s.clients && s.clients[c].multi
    case _ => false
  }

  predicate OpensAt(run: seq<Event>, i: nat, c: nat)
    requires i < |run|
  {
    Opens(At(run, i), run[i], c)
  }

  /** Event m is the last that opens, among the first n. */
  predicate OpenFrom(run: seq<Event>, m: nat, n: nat, c: nat)
    requires n <= |run|
  {
    m < n && OpensAt(run, m, c) && forall i :: m < i < n ==> !OpensAt(run, i, c)
  }

  predicate MultiBetween(run: seq<Event>, m: nat, n: nat, c: nat)
    requires n <= |run|
  {
    exists i :: m < i < n && run[i] == MultiCmd(c)
  }

  /** A queueing error of the client after a MULTI. */
  predicate ErrorBetween(run: seq<Event>, m: nat, n: nat, c: nat)
    requires n <= |run|
  {
    exists i :: m < i < n && run[i] == QueueError(c) && MultiBetween(run, m, i, c)
  }

  /** The commands the client has sent between the two, in order of arrival, leaving out those before any MULTI. */
  function Arrived(run: seq<Event>, m: nat, n: nat, c: nat): seq<Cmd>
    requires n <= |run|
    decreases n
  {
    if n <= m + 1 then []
    else Arrived(run, m, n - 1, c)
         + if run[n - 1].Enqueue? && run[n - 1].c == c && MultiBetween(run, m, n - 1, c) then [run[n - 1].cmd] else []
  }

  /** What one event does to the transaction of a client. */
  lemma TransactionStep(s: State, e: Event, c: nat)
    requires Mirrored(s) && c in Next(s, e).clients
    ensures Opens(s, e, c) ==> var x := Next(s, e).clients[c]; !x.multi && !x.err && x.queue == []
    ensures !Opens(s, e, c) ==>
      && c in s.clients
      && var (x, y) := (s.clients[c], Next(s, e).clients[c]);
      && (y.multi <==> x.multi || e == MultiCmd(c))
      && (y.err <==> x.err || (x.multi && e == QueueError(c)))
      && y.queue == x.queue + if e.Enqueue? && e.c == c && x.multi then [e.cmd] else []
  {
    hide Mirrored, UnwatchAll, Exec, WatchAll, AllTouches;
    if Legal(s, e) {
      match e
      case WatchCmd(d, keys) => if !s.clients[d].multi { WatchAllLists(s, d, keys); }
      case Disconnect(d) => UnwatchOthers(s, d);
      case UnwatchCmd(d) => UnwatchOthers(s, d);
      case DiscardCmd(d) =>
        UnwatchOthers(s.(clients := s.clients[d := s.clients[d].(queue := [], multi := false, cas := false,
            err := false)]), d);
      case ExecCmd(d) => if s.clients[d].multi { ExecEffect(s, d); }
      case _ =>
    }
  }

  /** A client is in a transaction exactly if it has sent MULTI since its connection and its last completed EXEC or
      DISCARD, which is event m; there is an error exactly if it made one since that MULTI; and its queue is what it
      has sent since that MULTI, in order. */
  lemma {:induction false} QueueIsHistory(run: seq<Event>, n: nat, c: nat) returns (m: nat)
    requires n <= |run| && c in At(run, n).clients
    ensures OpenFrom(run, m, n, c)
    ensures At(run, n).clients[c].multi <==> MultiBetween(run, m, n, c)
    ensures At(run, n).clients[c].err <==> ErrorBetween(run, m, n, c)
    ensures At(run, n).clients[c].queue == Arrived(run, m, n, c)
  {
    hide Mirrored, Next, Opens;
    assert n > 0;
    var s, e := At(run, n - 1), run[n - 1];
    RunMirrors(run, n - 1);
    TransactionStep(s, e, c);
    if OpensAt(run, n - 1, c) {
      m := n - 1;
    } else {
      m := QueueIsHistory(run, n - 1, c);
      MultiLast(run, m, n, c);
    }
  }

  lemma MultiLast(run: seq<Event>, m: nat, n: nat, c: nat)
    requires m < n - 1 && n <= |run|
    ensures MultiBetween(run, m, n, c) <==> MultiBetween(run, m, n - 1, c) || run[n - 1] == MultiCmd(c)
    ensures ErrorBetween(run, m, n, c) <==>
      ErrorBetween(run, m, n - 1, c) || (run[n - 1] == QueueError(c) && MultiBetween(run, m, n - 1, c))
  {
  }

  /** What an EXEC executes, by the history: all that has arrived since the MULTI, in order, if there was one and it
      was neither dirtied by a touch nor spoiled by an error; and nothing otherwise. */
  lemma ExecIsHistory(run: seq<Event>, n: nat, c: nat) returns (m: nat)
    requires n < |run| && run[n] == ExecCmd(c) && c in At(run, n).clients
    ensures OpenFrom(run, m, n, c)
    ensures Executed(At(run, n), run[n]) ==
      if MultiBetween(run, m, n, c) && !Hit(run, n, c) && !ErrorBetween(run, m, n, c)
      then Stamped(c, Arrived(run, m, n, c)) else []
  {
    hide At, Hit, OpenFrom, Arrived;
    m := QueueIsHistory(run, n, c);
    DirtyIsHistory(run, n, c);
  }

  // ---- what is executed

  /** Commands with the client they are run for. */
  function Stamped(c: nat, queue: seq<Cmd>): (r: seq<(nat, Cmd)>)
    ensures |r| == |queue| && forall i :: 0 <= i < |queue| ==> r[i] == (c, queue[i])
  {
    seq(|queue|, i requires 0 <= i < |queue| => (c, queue[i]))
  }

  /** What an event executes: the queue of an EXEC that runs. */
  function Executed(s: State, e: Event): seq<(nat, Cmd)> {
    if e.ExecCmd? && e.c in s.clients && s.clients[e.c].multi && Runs(s.clients[e.c])
    then Stamped(e.c, s.clients[e.c].queue) else []
  }

  function AllExecuted(run: seq<Event>, n: nat): seq<(nat, Cmd)>
    requires n <= |run|
  {
    if n == 0 then [] else AllExecuted(run, n - 1) + Executed(At(run, n - 1), run[n - 1])
  }

  // ---- the database a client is in

  predicate Selects(s: State, e: Event, c: nat) {
    match e
    case Connect(d) => d == c && c !in s.clients
    case SelectDb(d, _) => d == c
    case _ => false
  }

  /** Event j is the last SELECT of the client, or its connection, among the first n. */
  predicate SelectedFrom(run: seq<Event>, j: nat, n: nat, c: nat)
    requires n <= |run|
  {
    j < n && Selects(At(run, j), run[j], c) && forall i :: j < i < n ==> !Selects(At(run, i), run[i], c)
  }

  lemma DbStep(s: State, e: Event, c: nat)
    requires Mirrored(s) && c in Next(s, e).clients
    ensures var db := Next(s, e).clients[c].db;
      if !Selects(s, e, c) then c in s.clients && db == s.clients[c].db
      else db == if e.SelectDb? then e.db else 0
  {
    hide Mirrored, UnwatchAll, Exec, WatchAll, AllTouches;
    if Legal(s, e) {
      match e
      case WatchCmd(d, keys) => if !s.clients[d].multi { WatchAllLists(s, d, keys); }
      case Disconnect(d) => UnwatchOthers(s, d);
      case UnwatchCmd(d) => UnwatchOthers(s, d);
      case DiscardCmd(d) =>
        UnwatchOthers(s.(clients := s.clients[d := s.clients[d].(queue := [], multi := false, cas := false,
            err := false)]), d);
      case ExecCmd(d) => if s.clients[d].multi { ExecEffect(s, d); }
      case _ =>
    }
  }

  /** A client is in the database it selected last, and in 0 before that. */
  lemma {:induction false} DbIsHistory(run: seq<Event>, n: nat, c: nat) returns (j: nat)
    requires n <= |run| && c in At(run, n).clients
    ensures SelectedFrom(run, j, n, c)
    ensures At(run, n).clients[c].db == if run[j].SelectDb? then run[j].db else 0
  {
    hide Mirrored, Next, Selects;
    assert n > 0;
    var s, e := At(run, n - 1), run[n - 1];
    RunMirrors(run, n - 1);
    DbStep(s, e, c);
    if Selects(s, e, c) {
      j := n - 1;
    } else {
      j := DbIsHistory(run, n - 1, c);
    }
  }
}
