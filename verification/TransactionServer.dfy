/** multi.c over client objects and the table of watched keys. */
module TransactionServer {
  import opened Bytes
  import T = Transactions

  class Client {
    const id: nat
    var db: nat
    var multi: bool
    var cas: bool
    var err: bool
    var queue: seq<T.Cmd>
    var watched: seq<T.WKey>

    constructor (id: nat)
      ensures this.id == id && View() == T.FRESH
    {
      this.id, db, multi, cas, err, queue, watched := id, 0, false, false, false, [], [];
    }

    ghost function View(): T.Client
      reads this
    {
      T.Client(db, multi, cas, err, queue, watched)
    }
  }

  class Server {
    var clients: map<nat, Client>
    var table: map<T.WKey, seq<nat>>
    /** What has been run by EXEC, and for whom. */
    var executed: seq<(nat, T.Cmd)>

    ghost predicate Valid()
      reads this`clients, clients.Values
    {
      forall c :: c in clients ==> clients[c].id == c
    }

    ghost function View(): T.State
      reads this`clients, this`table, clients.Values
    {
      T.State(map c | c in clients :: clients[c].View(), table)
    }

    constructor ()
      ensures Valid() && View() == T.START && executed == [] && clients == map[]
    {
      clients, table, executed := map[], map[], [];
    }

    /** watchForKey. */
    method WatchForKey(c: nat, key: seq<byte>)
      requires Valid() && c in clients
      modifies this`table, clients[c]
      ensures Valid() && View() == T.Watch(old(View()), c, T.WKey(old(clients[c].db), key))
    {
      var client := clients[c];
      var k := T.WKey(client.db, key);
      var i := 0;
      while i < |client.watched|
        invariant 0 <= i <= |client.watched| && k !in client.watched[..i]
      {
        if client.watched[i] == k { return; }
        i := i + 1;
      }
      assert k !in client.watched;
      var list := if k in table then table[k] else [];
      table := table[k := list + [c]];
      client.watched := client.watched + [k];
    }

    /** The loop of watchCommand. */
    method WatchKeys(c: nat, keys: seq<seq<byte>>)
      requires Valid() && c in clients
      modifies this`table, clients[c]
      ensures Valid() && View() == T.WatchAll(old(View()), c, keys)
    {
      hide T.Watch;
      assert keys[0..] == keys;
      for j := 0 to |keys|
        invariant Valid()
        invariant T.WatchAll(View(), c, keys[j..]) == T.WatchAll(old(View()), c, keys)
      {
        assert keys[j..][1..] == keys[j + 1..];
        WatchForKey(c, keys[j]);
      }
    }

    /** listDelNode of the node listSearchKey finds. */
    method RemoveFrom(list: seq<nat>, c: nat) returns (r: seq<nat>)
      ensures r == T.Without(list, c)
    {
      var i := 0;
      assert list[0..] == list;
      while i < |list| && list[i] != c
        invariant 0 <= i <= |list| && T.Without(list, c) == list[..i] + T.Without(list[i..], c)
      {
        assert list[i..][1..] == list[i + 1..];
        assert list[..i + 1] == list[..i] + [list[i]];
        i := i + 1;
      }
      r := if i < |list| then list[..i] + list[i + 1..] else list;
    }

    /** unwatchAllKeys: the assertion that every watched key is in the table never fails. */
    method UnwatchAllKeys(c: nat)
      requires Valid() && c in clients && T.Mirrored(View())
      modifies this`table, clients[c]
      ensures Valid() && View() == T.UnwatchAll(old(View()), c)
    {
      hide T.UnwatchKeys, T.Distinct, T.Mirrored, T.UnwatchKey;
      var client := clients[c];
      ghost var was := View();
      KnownKeys(was, c);
      UnwatchLoop(c, client);
      assert View().clients == was.clients[c := was.clients[c].(watched := [])];
    }

    method UnwatchLoop(c: nat, client: Client)
      requires T.Distinct(client.watched) && forall k :: k in client.watched ==> k in table
      modifies this`table, client`watched
      ensures client.watched == [] && table == T.UnwatchKeys(old(table), c, old(client.watched))
    {
      hide T.Without, T.UnwatchKeys, T.UnwatchKey;
      if |client.watched| == 0 {
        UnwatchStep(table, c, client.watched, 0);
        return;
      }
      var keys := client.watched;
      assert keys[0..] == keys;
      var i := 0;
      while i < |keys|
        invariant 0 <= i <= |keys| && client.watched == keys[i..]
        invariant T.UnwatchKeys(table, c, keys[i..]) == T.UnwatchKeys(old(table), c, keys)
        invariant forall j :: i <= j < |keys| ==> keys[j] in table
      {
        UnwatchStep(table, c, keys, i);
        var k := keys[i];
        var list := RemoveFrom(table[k], c);
        if |list| == 0 {
          table := table - {k};
        } else {
          table := table[k := list];
        }
        client.watched := client.watched[1..];
        i := i + 1;
      }
      UnwatchStep(table, c, keys, i);
    }

    /** touchWatchedKey. */
    method TouchWatchedKey(k: T.WKey)
      requires Valid() && T.Mirrored(View())
      modifies clients.Values
      ensures Valid() && View() == T.Touch(old(View()), k)
    {
      hide T.Mirrored;
      KnownClients(View(), k);
      if |table| == 0 { return; }
      if k !in table { return; }
      var list := table[k];
      assert forall c :: c in list ==> c in View().clients;
      assert forall c :: c in list ==> c in clients;
      var i := 0;
      assert list[..0] == [];
      while i < |list|
        invariant 0 <= i <= |list| && Valid()
        invariant forall c :: c in clients ==>
          clients[c].View() == old(clients[c].View()).(cas := old(clients[c].cas) || c in list[..i])
      {
        assert list[..i + 1] == list[..i] + [list[i]];
        var client := clients[list[i]];
        client.cas := true;
        i := i + 1;
      }
      assert list[..|list|] == list;
    }

    /** touchWatchedKeysOnFlush: every key of every client is looked up. */
    method TouchOnFlush(dbid: int, existing: set<T.WKey>)
      requires Valid()
      modifies clients.Values
      ensures Valid() && View() == T.Flush(old(View()), dbid, existing)
    {
      var left := clients.Keys;
      while left != {}
        invariant left <= clients.Keys && Valid()
        invariant forall c :: c in clients ==>
          clients[c].View() == if c in left then old(clients[c].View())
                               else old(clients[c].View()).(
                                 cas := old(clients[c].cas) || Lost(old(clients[c].watched), dbid, existing))
        decreases left
      {
        var c :| c in left;
        TouchClientOnFlush(clients[c], dbid, existing);
        left := left - {c};
      }
    }

    method TouchClientOnFlush(client: Client, dbid: int, existing: set<T.WKey>)
      modifies client
      ensures client.View() == old(client.View()).(cas := old(client.cas) || Lost(old(client.watched), dbid, existing))
    {
      var i := 0;
      while i < |client.watched|
        invariant 0 <= i <= |client.watched| && client.watched == old(client.watched)
        invariant client.View() == old(client.View()).(
          cas := old(client.cas) || Lost(client.watched[..i], dbid, existing))
      {
        var wk := client.watched[i];
        LostMore(client.watched, i, dbid, existing);
        if dbid == T.ALL_DBS || wk.db == dbid {
          if wk in existing { client.cas := true; }
        }
        i := i + 1;
      }
      assert client.watched[..|client.watched|] == client.watched;
    }

    /** discardTransaction. */
    method DiscardTransaction(c: nat)
      requires Valid() && c in clients && T.Mirrored(View())
      modifies this`table, clients[c]
      ensures Valid() && View() == T.DiscardTransaction(old(View()), c)
    {
      hide T.UnwatchAll, T.Mirrored;
      var client := clients[c];
      client.queue := [];
      client.multi, client.cas, client.err := false, false, false;
      assert View() == old(View()).(clients := old(View()).clients[c :=
        old(View()).clients[c].(queue := [], multi := false, cas := false, err := false)]);
      T.SameTables(old(View()), View());
      UnwatchAllKeys(c);
    }

    /** call for one queued command: it runs, and the keys it modifies are touched. */
    method Call(c: nat, cmd: T.Cmd)
      requires Valid() && T.Mirrored(View())
      modifies this`executed, clients.Values
      ensures Valid() && View() == T.TouchAll(old(View()), cmd.touches) && T.Mirrored(View())
      ensures executed == old(executed) + [(c, cmd)]
    {
      hide T.Mirrored, T.Touch;
      executed := executed + [(c, cmd)];
      assert View() == old(View());
      assert cmd.touches[0..] == cmd.touches;
      for i := 0 to |cmd.touches|
        invariant Valid() && T.Mirrored(View()) && executed == old(executed) + [(c, cmd)]
        invariant T.TouchAll(View(), cmd.touches[i..]) == T.TouchAll(old(View()), cmd.touches)
      {
        assert cmd.touches[i..][1..] == cmd.touches[i + 1..];
        TouchMirrors(View(), cmd.touches[i]);
        TouchWatchedKey(cmd.touches[i]);
      }
    }

    /**
      * execCommand inside a transaction: the whole queue runs in order, or nothing of it, and which of
      * the two depends on the dirty flags alone.
      */
    method Exec(c: nat) returns (ran: bool)
      requires Valid() && c in clients && T.Mirrored(View()) && clients[c].multi
      modifies this`table, this`executed, clients.Values
      ensures Valid() && View() == T.Exec(old(View()), c)
      ensures ran <==> !old(clients[c].cas) && !old(clients[c].err)
      ensures executed == old(executed) + if ran then T.Stamped(c, old(clients[c].queue)) else []
    {
      hide T.Mirrored, T.UnwatchAll, T.DiscardTransaction, T.TouchAll, T.AllTouches;
      var client := clients[c];
      if client.cas || client.err {
        DiscardTransaction(c);
        return false;
      }
      T.UnwatchMirrors(View(), c);
      T.UnwatchOthers(View(), c);
      UnwatchAllKeys(c);
      var queue := client.queue;
      assert queue == View().clients[c].queue;
      RunQueue(c, queue);
      DiscardTransaction(c);
      return true;
    }

    method RunQueue(c: nat, queue: seq<T.Cmd>)
      requires Valid() && T.Mirrored(View())
      modifies this`executed, clients.Values
      ensures Valid() && View() == T.TouchAll(old(View()), T.AllTouches(queue)) && T.Mirrored(View())
      ensures executed == old(executed) + T.Stamped(c, queue)
    {
      hide T.Mirrored, T.TouchAll;
      assert queue[0..] == queue && queue[..0] == [];
      for j := 0 to |queue|
        invariant Valid() && T.Mirrored(View())
        invariant T.TouchAll(View(), T.AllTouches(queue[j..])) == T.TouchAll(old(View()), T.AllTouches(queue))
        invariant executed == old(executed) + T.Stamped(c, queue[..j])
      {
        assert queue[j..][1..] == queue[j + 1..];
        TouchesConcat(View(), queue[j].touches, T.AllTouches(queue[j + 1..]));
        Call(c, queue[j]);
        assert T.Stamped(c, queue[..j]) + [(c, queue[j])] == T.Stamped(c, queue[..j + 1]);
      }
      assert queue[..|queue|] == queue;
      NoTouches(View(), queue[|queue|..]);
    }

    method CreateClient(c: nat)
      requires Valid() && c !in clients
      modifies this`clients
      ensures Valid() && View() == T.Step(old(View()), T.Connect(c))
      ensures clients.Keys == old(clients.Keys) + {c} && fresh(clients[c])
      ensures forall d :: d in old(clients) ==> clients[d] == old(clients[d])
    {
      var client := new Client(c);
      clients := clients[c := client];
    }

    /** The part of freeClient that matters here. */
    method FreeClient(c: nat)
      requires Valid() && c in clients && T.Mirrored(View())
      modifies this`clients, this`table, clients[c]
      ensures Valid() && View() == T.Step(old(View()), T.Disconnect(c)) && clients == old(clients) - {c}
    {
      hide T.Mirrored, T.UnwatchAll;
      UnwatchAllKeys(c);
      ghost var t := View();
      clients := clients - {c};
      assert View() == t.(clients := t.clients - {c});
    }

    method MultiCommand(c: nat) returns (ok: bool)
      requires Valid() && c in clients
      modifies clients[c]
      ensures Valid() && View() == T.Step(old(View()), T.MultiCmd(c)) && (ok <==> !old(clients[c].multi))
    {
      if clients[c].multi { return false; }
      clients[c].multi := true;
      ok := true;
    }

    method QueueMultiCommand(c: nat, cmd: T.Cmd)
      requires Valid() && c in clients && clients[c].multi
      modifies clients[c]
      ensures Valid() && View() == T.Step(old(View()), T.Enqueue(c, cmd))
    {
      clients[c].queue := clients[c].queue + [cmd];
    }

    /** selectCommand, of a database that exists. */
    method SelectCommand(c: nat, db: nat)
      requires Valid() && c in clients
      modifies clients[c]
      ensures Valid() && View() == T.Step(old(View()), T.SelectDb(c, db))
    {
      clients[c].db := db;
    }

    method FlagTransaction(c: nat)
      requires Valid() && c in clients
      modifies clients[c]
      ensures Valid() && View() == T.Step(old(View()), T.QueueError(c))
    {
      if clients[c].multi {
        clients[c].err := true;
      }
    }

    method DiscardCommand(c: nat) returns (ok: bool)
      requires Valid() && c in clients && T.Mirrored(View())
      modifies this`table, clients[c]
      ensures Valid() && View() == T.Step(old(View()), T.DiscardCmd(c)) && (ok <==> old(clients[c].multi))
    {
      hide T.Mirrored, T.DiscardTransaction;
      if !clients[c].multi { return false; }
      DiscardTransaction(c);
      ok := true;
    }

    method WatchCommand(c: nat, keys: seq<seq<byte>>) returns (ok: bool)
      requires Valid() && c in clients
      modifies this`table, clients[c]
      ensures Valid() && View() == T.Step(old(View()), T.WatchCmd(c, keys)) && (ok <==> !old(clients[c].multi))
    {
      hide T.WatchAll;
      if clients[c].multi { return false; }
      WatchKeys(c, keys);
      ok := true;
    }

    /** unwatchCommand, for a client as for the queue of an EXEC. */
    method UnwatchCommand(c: nat)
      requires Valid() && c in clients && T.Mirrored(View())
      modifies this`table, clients[c]
      ensures Valid() && View() == T.Unwatch(old(View()), c)
    {
      hide T.Mirrored, T.UnwatchAll;
      T.UnwatchKeepsClients(View(), c);
      UnwatchAllKeys(c);
      ClearDirty(c);
    }

    method ClearDirty(c: nat)
      requires Valid() && c in clients
      modifies clients[c]
      ensures Valid()
      ensures View() == old(View()).(clients := old(View()).clients[c := old(View()).clients[c].(cas := false)])
    {
      clients[c].cas := false;
    }

    /** execCommand. */
    method ExecCommand(c: nat) returns (ran: bool)
      requires Valid() && c in clients && T.Mirrored(View())
      modifies this`table, this`executed, clients.Values
      ensures Valid() && View() == T.Step(old(View()), T.ExecCmd(c))
      ensures ran <==> old(clients[c].multi) && !old(clients[c].cas) && !old(clients[c].err)
      ensures executed == old(executed) + if ran then T.Stamped(c, old(clients[c].queue)) else []
    {
      hide T.Mirrored, T.Exec;
      if !clients[c].multi { return false; }
      ran := Exec(c);
    }

    /** Whether an event can happen: its client is connected, and what is queued is queued by MULTI. */
    method Accepts(e: T.Event) returns (legal: bool)
      requires Valid()
      ensures legal == T.Legal(View(), e)
    {
      match e
      case Connect(c) => return c !in clients;
      case Enqueue(c, _) => return c in clients && clients[c].multi;
      case UnwatchCmd(c) => return c in clients && !clients[c].multi;
      case TouchKey(_) => return true;
      case FlushDb(_, _) => return true;
      case _ => return e.c in clients;
    }

    /** What clients and the rest of the server do, one event at a time. */
    method Handle(e: T.Event)
      requires Valid() && T.Mirrored(View()) && T.Legal(View(), e)
      modifies this, clients.Values
      ensures Valid() && View() == T.Step(old(View()), e)
      ensures executed == old(executed) + T.Executed(old(View()), e)
      ensures forall c :: c in clients ==> fresh(clients[c]) || (c in old(clients) && clients[c] == old(clients[c]))
    {
      hide T.Mirrored, T.Step, T.Executed, T.Stamped;
      ExecutedBy(View(), e);
      match e
      case Connect(c) => CreateClient(c);
      case Disconnect(c) => FreeClient(c);
      case SelectDb(c, db) => SelectCommand(c, db);
      case WatchCmd(c, keys) => var ok := WatchCommand(c, keys);
      case UnwatchCmd(c) => UnwatchCommand(c);
      case MultiCmd(c) => var ok := MultiCommand(c);
      case Enqueue(c, cmd) => QueueMultiCommand(c, cmd);
      case QueueError(c) => FlagTransaction(c);
      case DiscardCmd(c) => var ok := DiscardCommand(c);
      case ExecCmd(c) => var ran := ExecCommand(c);
      case TouchKey(k) => TouchWatchedKey(k);
      case FlushDb(dbid, existing) => TouchOnFlush(dbid, existing);
    }
  }

  predicate Lost(watched: seq<T.WKey>, dbid: int, existing: set<T.WKey>) {
    exists k :: k in watched && T.Flushed(k, dbid, existing)
  }

  lemma LostMore(watched: seq<T.WKey>, i: nat, dbid: int, existing: set<T.WKey>)
    requires i < |watched|
    ensures Lost(watched[..i + 1], dbid, existing) <==>
      Lost(watched[..i], dbid, existing) || T.Flushed(watched[i], dbid, existing)
  {
    assert watched[..i + 1] == watched[..i] + [watched[i]];
    assert forall k :: k in watched[..i + 1] <==> k in watched[..i] || k == watched[i];
  }

  lemma UnwatchStep(table: map<T.WKey, seq<nat>>, c: nat, keys: seq<T.WKey>, i: nat)
    requires i <= |keys|
    ensures i == |keys| ==> T.UnwatchKeys(table, c, keys[i..]) == table
    ensures i < |keys| ==>
      && T.UnwatchKeys(table, c, keys[i..]) == T.UnwatchKeys(T.UnwatchKey(table, c, keys[i]), c, keys[i + 1..])
      && (keys[i] in table ==>
            T.UnwatchKey(table, c, keys[i]) ==
            if T.Without(table[keys[i]], c) == [] then table - {keys[i]}
                else table[keys[i] := T.Without(table[keys[i]], c)])
  {
    hide T.Without;
    if i < |keys| { assert keys[i..][1..] == keys[i + 1..]; }
  }

  lemma KnownKeys(s: T.State, c: nat)
    requires T.Mirrored(s) && c in s.clients
    ensures T.Distinct(s.clients[c].watched) && forall k :: k in s.clients[c].watched ==> k in s.table
  {
    assert T.Lists(s, c);
  }

  lemma KnownClients(s: T.State, k: T.WKey)
    requires T.Mirrored(s)
    ensures k in s.table ==> forall c :: c in s.table[k] ==> c in s.clients
  {
    if k in s.table { assert T.Listed(s, k); }
  }

  lemma TouchMirrors(s: T.State, k: T.WKey)
    requires T.Mirrored(s)
    ensures T.Mirrored(T.Touch(s, k))
  {
    hide T.Mirrored;
    T.SameTables(s, T.Touch(s, k));
  }

  lemma {:induction false} TouchesConcat(s: T.State, a: seq<T.WKey>, b: seq<T.WKey>)
    ensures T.TouchAll(s, a + b) == T.TouchAll(T.TouchAll(s, a), b)
    decreases |a|
  {
    hide T.Touch;
    if a == [] {
      assert a + b == b;
    } else {
      TouchesConcat(T.Touch(s, a[0]), a[1..], b);
      assert (a + b)[1..] == a[1..] + b;
    }
  }

  lemma NoTouches(s: T.State, queue: seq<T.Cmd>)
    ensures queue == [] ==> T.TouchAll(s, T.AllTouches(queue)) == s
  {
  }

  lemma NothingExecuted(s: T.State, e: T.Event)
    ensures !T.Legal(s, e) ==> T.Executed(s, e) == []
  {
  }

  lemma ExecutedBy(s: T.State, e: T.Event)
    ensures !e.ExecCmd? ==> T.Executed(s, e) == []
    ensures e.ExecCmd? && e.c in s.clients ==> var x := s.clients[e.c];
      T.Executed(s, e) == if x.multi && !x.cas && !x.err then T.Stamped(e.c, x.queue) else []
    ensures e.UnwatchCmd? && T.Legal(s, e) ==> T.Step(s, e) == T.Unwatch(s, e.c)
    ensures e.TouchKey? ==> T.Step(s, e) == T.Touch(s, e.k)
    ensures e.FlushDb? ==> T.Step(s, e) == T.Flush(s, e.dbid, e.existing)
  {
  }

  /** A server through a whole run: its tables are those of the model, and it has executed what the model says. */
  method Play(run: seq<T.Event>) returns (server: Server)
    ensures server.Valid() && server.View() == T.At(run, |run|) && server.executed == T.AllExecuted(run, |run|)
  {
    hide T.Mirrored, T.Step, T.Legal, T.Executed;
    server := new Server();
    for n := 0 to |run|
      invariant server.Valid() && fresh(server) && forall c :: c in server.clients ==> fresh(server.clients[c])
      invariant server.View() == T.At(run, n) && server.executed == T.AllExecuted(run, n)
    {
      T.RunMirrors(run, n);
      var legal := server.Accepts(run[n]);
      if legal {
        server.Handle(run[n]);
      } else {
        NothingExecuted(T.At(run, n), run[n]);
      }
    }
  }
}
