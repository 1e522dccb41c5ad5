/** The hash table of dict.c in its own form: arrays of linked entries, relinked in place.
    Every operation is proved to do what DictModel says. */
module DictHeap {
  import opened Bytes
  import opened DictModel
  import opened DictIteration

  /** dictEntry. */
  class Node<K, V> {
    const key: K
    var val: V
    var next: Node?<K, V>

    constructor (key: K, val: V)
      ensures this.key == key && this.val == val
    {
      this.key, this.val, next := key, val, null;
    }
  }

  ghost function Following<K, V>(ns: seq<Node<K, V>>, i: int): Node?<K, V> {
    if 0 <= i + 1 < |ns| then ns[i + 1] else null
  }

  /** The nodes ns, linked from head on, hold the chain c. */
  ghost predicate ChainRep<K, V>(head: Node?<K, V>, ns: seq<Node<K, V>>, c: Chain<K, V>)
    reads ns
  {
    && |ns| == |c|
    && head == Following(ns, -1)
    && (forall i :: 0 <= i < |ns| ==>
      && ns[i].key == c[i].key && ns[i].val == c[i].val
      && ns[i].next == Following(ns, i))
  }

  ghost function NodesOf<K, V>(nodes: seq<seq<Node<K, V>>>): set<Node<K, V>> {
    set b, i | 0 <= b < |nodes| && 0 <= i < |nodes[b]| :: nodes[b][i]
  }

  /** Every node that hangs from a bucket still hangs from it, except possibly that of one key. */
  ghost predicate Kept<K, V>(before: seq<seq<Node<K, V>>>, after: seq<seq<Node<K, V>>>, gone: Option<K>) {
    forall b, i | 0 <= b < |before| && 0 <= i < |before[b]| :: Stays(before[b][i], after, b, gone)
  }

  ghost predicate Stays<K, V>(n: Node<K, V>, after: seq<seq<Node<K, V>>>, b: nat, gone: Option<K>) {
    b < |after| && (gone == Some(n.key) || n in after[b])
  }

  lemma KeptOn<K, V>(a: seq<seq<Node<K, V>>>, b: seq<seq<Node<K, V>>>, c: seq<seq<Node<K, V>>>, gone: Option<K>)
    requires Kept(a, b, None) && Kept(b, c, gone)
    ensures Kept(a, c, gone)
  {
    forall k, i | 0 <= k < |a| && 0 <= i < |a[k]| ensures Stays(a[k][i], c, k, gone) {
      assert Stays(a[k][i], b, k, None);
      var j :| 0 <= j < |b[k]| && b[k][j] == a[k][i];
      assert Stays(b[k][j], c, k, gone);
    }
  }

  lemma KeptLinked<K, V>(nodes: seq<seq<Node<K, V>>>, b: nat, n: Node<K, V>)
    requires b < |nodes|
    ensures Kept(nodes, nodes[b := [n] + nodes[b]], None) && Kept(nodes, nodes, None)
  {
  }

  lemma KeptUnlinked<K, V>(nodes: seq<seq<Node<K, V>>>, b: nat, i: nat, other: seq<seq<Node<K, V>>>)
    requires b < |nodes| && i < |nodes[b]|
    ensures Kept(nodes, nodes[b := nodes[b][..i] + nodes[b][i + 1..]], Some(nodes[b][i].key))
    ensures Kept(other, other, Some(nodes[b][i].key))
  {
    var after := nodes[b := nodes[b][..i] + nodes[b][i + 1..]];
    forall c, j | 0 <= c < |nodes| && 0 <= j < |nodes[c]| && (c != b || j != i) ensures nodes[c][j] in after[c] {
      if c == b { assert after[b][if j < i then j else j - 1] == nodes[b][j]; }
    }
  }

  lemma KeptSame<K, V>(nodes: seq<seq<Node<K, V>>>, other: seq<seq<Node<K, V>>>, gone: Option<K>)
    ensures Kept(nodes, nodes, gone) && (nodes == [] ==> Kept(nodes, other, gone))
  {
  }

  /** The array and the nodes hanging from it hold the table t. */
  ghost predicate TableRep<K, V>(table: array<Node?<K, V>>, nodes: seq<seq<Node<K, V>>>, t: Ht<K, V>)
    reads table, NodesOf(nodes)
  {
    && table.Length == |nodes| == |t.buckets|
    && forall b :: 0 <= b < |nodes| ==> ChainRep(table[b], nodes[b], t.buckets[b])
  }

  /** Links n in at the head of bucket b. */
  method LinkHead<K, V>(table: array<Node?<K, V>>, b: nat, n: Node<K, V>, ghost nodes: seq<seq<Node<K, V>>>,
                        ghost t: Ht<K, V>)
    requires TableRep(table, nodes, t) && b < table.Length && n !in NodesOf(nodes)
    modifies table, n`next
    ensures TableRep(table, nodes[b := [n] + nodes[b]], Link(t, b, Entry(n.key, n.val)))
  {
    forall i, j | 0 <= i < |nodes| && 0 <= j < |nodes[i]| ensures nodes[i][j] != n {
      assert nodes[i][j] in NodesOf(nodes);
    }
    n.next := table[b];
    table[b] := n;
    ghost var ns', c' := [n] + nodes[b], [Entry(n.key, n.val)] + t.buckets[b];
    forall i | 0 <= i < |nodes| ensures ChainRep(table[i], nodes[b := ns'][i], t.buckets[b := c'][i]) {
      assert old(ChainRep(table[i], nodes[i], t.buckets[i]));
      assert forall j :: 0 <= j < |nodes[i]| ==>
        nodes[i][j].next == old(nodes[i][j].next) && nodes[i][j].val == old(nodes[i][j].val);
      if i == b {
        assert forall j :: 0 < j < |ns'| ==> ns'[j] == nodes[b][j - 1] && c'[j] == t.buckets[b][j - 1];
      }
    }
  }

  /** Searches the chain of bucket b for key, keeping the previous entry at hand. */
  method Search<K(==), V>(table: array<Node?<K, V>>, b: nat, key: K,
                          ghost nodes: seq<seq<Node<K, V>>>, ghost t: Ht<K, V>)
    returns (he: Node?<K, V>, prev: Node?<K, V>)
    requires TableRep(table, nodes, t) && b < table.Length
    ensures var i := Pos(t.buckets[b], key);
      && he == (if i < |nodes[b]| then nodes[b][i] else null)
      && prev == (if i > 0 then nodes[b][i - 1] else null)
  {
    ghost var i, c := 0, t.buckets[b];
    assert ChainRep(table[b], nodes[b], c);
    he, prev := table[b], null;
    while he != null && he.key != key
      invariant 0 <= i <= |c|
      invariant he == (if i < |nodes[b]| then nodes[b][i] else null)
      invariant prev == (if i > 0 then nodes[b][i - 1] else null)
      invariant forall j :: 0 <= j < i ==> c[j].key != key
      decreases |c| - i
    {
      prev, he, i := he, he.next, i + 1;
    }
    PosUnique(c, key, i);
  }

  /** Unlinks he, the entry at position i of bucket b, whose predecessor is prev. */
  method UnlinkAt<K, V>(table: array<Node?<K, V>>, b: nat, he: Node<K, V>, prev: Node?<K, V>, ghost i: nat,
                        ghost nodes: seq<seq<Node<K, V>>>, ghost t: Ht<K, V>)
    requires TableRep(table, nodes, t) && b < table.Length && i < |nodes[b]| && he == nodes[b][i]
    requires prev == if i > 0 then nodes[b][i - 1] else null
    requires i > 0 ==> Once(nodes, b, i - 1)
    modifies table, if prev == null then {} else {prev}
    ensures TableRep(table, nodes[b := nodes[b][..i] + nodes[b][i + 1..]], Unlink(t, b, i))
  {
    if prev != null {
      prev.next := he.next;
    } else {
      table[b] := he.next;
    }
    ghost var ns, c := nodes[b], t.buckets[b];
    ghost var ns', c' := ns[..i] + ns[i + 1..], c[..i] + c[i + 1..];
    forall k | 0 <= k < |nodes| ensures ChainRep(table[k], nodes[b := ns'][k], t.buckets[b := c'][k]) {
      assert old(ChainRep(table[k], nodes[k], t.buckets[k]));
      if k == b {
        forall j | 0 <= j < |ns'|
          ensures ns'[j].key == c'[j].key && ns'[j].val == c'[j].val && ns'[j].next == Following(ns', j)
        {
          var q := if j < i then j else j + 1;
          assert ns'[j] == ns[q] && c'[j] == c[q];
        }
      }
    }
  }

  /** No node hangs from two places. */
  ghost predicate Separate<K, V>(nodes: seq<seq<Node<K, V>>>) {
    forall b, i, b', i' | 0 <= b < |nodes| && 0 <= i < |nodes[b]| && 0 <= b' < |nodes| && 0 <= i' < |nodes[b']| ::
      nodes[b][i] == nodes[b'][i'] ==> b == b' && i == i'
  }

  lemma KeysSeparate<K(!new), V>(h: K -> nat, table: array<Node?<K, V>>, nodes: seq<seq<Node<K, V>>>, t: Ht<K, V>)
    requires TableOk(h, t) && TableRep(table, nodes, t)
    ensures Separate(nodes)
    ensures forall b, i :: 0 <= b < |nodes| && 0 <= i < |nodes[b]| ==>
      nodes[b][i].key == t.buckets[b][i].key && LookupIn(h, t, nodes[b][i].key).Some?
  {
    forall b, i | 0 <= b < |nodes| && 0 <= i < |nodes[b]|
      ensures nodes[b][i].key == t.buckets[b][i].key && Slot(h, t, nodes[b][i].key) == b
      ensures LookupIn(h, t, nodes[b][i].key).Some?
    {
      assert ChainRep(table[b], nodes[b], t.buckets[b]);
      BucketKeys(h, t, b);
    }
    forall b, i, b', i' | 0 <= b < |nodes| && 0 <= i < |nodes[b]| && 0 <= b' < |nodes| && 0 <= i' < |nodes[b']|
      && nodes[b][i] == nodes[b'][i']
      ensures b == b' && i == i'
    {
      assert ChainRep(table[b], nodes[b], t.buckets[b]);
      BucketKeys(h, t, b);
    }
  }

  /** A node whose key the table does not know is not in the table. */
  lemma StrangerIsOutside<K(!new), V>(h: K -> nat, table: array<Node?<K, V>>, nodes: seq<seq<Node<K, V>>>,
                                         t: Ht<K, V>, n: Node<K, V>)
    requires TableOk(h, t) && TableRep(table, nodes, t) && LookupIn(h, t, n.key) == None
    ensures n !in NodesOf(nodes)
  {
    KeysSeparate(h, table, nodes, t);
  }

  /** Links a node the table does not know in at the head of its bucket. */
  method MoveNode<K(==, !new), V>(h: K -> nat, de: Node<K, V>, table: array<Node?<K, V>>,
                              ghost nodes: seq<seq<Node<K, V>>>, ghost t: Ht<K, V>)
    returns (ghost nodes': seq<seq<Node<K, V>>>)
    requires TableOk(h, t) && TableRep(table, nodes, t) && t.buckets != []
    requires LookupIn(h, t, de.key) == None
    modifies table, de`next
    ensures TableRep(table, nodes', Link(t, Slot(h, t, de.key), Entry(de.key, de.val)))
    ensures NodesOf(nodes') <= NodesOf(nodes) + {de}
  {
    hide TableRep, TableOk, LookupIn, And, NodesOf;
    RepLength(table, nodes, t);
    var b := And(h(de.key), table.Length - 1);
    StrangerIsOutside(h, table, nodes, t, de);
    LinkHead(table, b, de, nodes, t);
    NodesOfLinked(nodes, b, de);
    nodes' := nodes[b := [de] + nodes[b]];
  }

  /** The same, when it is the first of those that are left to move. */
  method MoveFirst<K(==, !new), V>(h: K -> nat, de: Node<K, V>, table: array<Node?<K, V>>,
                               ghost nodes: seq<seq<Node<K, V>>>, ghost t: Ht<K, V>,
                               ghost ns: seq<Node<K, V>>, ghost c: Chain<K, V>, ghost moved: nat)
    returns (ghost nodes': seq<seq<Node<K, V>>>)
    requires TableOk(h, t) && TableRep(table, nodes, t) && t.buckets != [] && LookupIn(h, t, de.key) == None
    requires Rest(ns, c, moved) && moved < |c| && Distinct(c) && de == ns[moved]
    modifies table, de`next
    ensures TableRep(table, nodes', Link(t, Slot(h, t, de.key), c[moved])) && Rest(ns, c, moved + 1)
    ensures NodesOf(nodes') <= NodesOf(nodes) + {de}
  {
    hide TableRep, TableOk, LookupIn, And, NodesOf, Link;
    assert Entry(de.key, de.val) == c[moved];
    assert forall i :: moved < i < |ns| ==> ns[i] != de;
    nodes' := MoveNode(h, de, table, nodes, t);
    assert forall i :: moved < i < |ns| ==> ns[i].next == old(ns[i].next) && ns[i].val == old(ns[i].val);
  }

  /** The inner loop of dictRehash: takes the chain ns from its head and links every node
      in at the head of its bucket of the new table. Returns how many it moved. */
  method MoveNodes<K(==, !new), V>(h: K -> nat, head: Node?<K, V>, table: array<Node?<K, V>>, ghost ns: seq<Node<K, V>>,
                               ghost c: Chain<K, V>, ghost nodes0: seq<seq<Node<K, V>>>, ghost t0: Ht<K, V>)
    returns (moved: nat, ghost nodes: seq<seq<Node<K, V>>>)
    requires ChainRep(head, ns, c) && Distinct(c)
    requires TableOk(h, t0) && TableRep(table, nodes0, t0) && table.Length > 0
    requires forall i :: 0 <= i < |c| ==> LookupIn(h, t0, c[i].key) == None
    modifies table, ns
    ensures moved == |c|
    ensures TableRep(table, nodes, MoveChain(h, c, t0))
    ensures NodesOf(nodes) <= NodesOf(nodes0) + set n | n in ns
  {
    hide TableRep, TableOk, LookupIn, And, NodesOf, MoveChain, Link, Distinct, Rest;
    var de := head;
    RestOfAll(head, ns, c);
    moved, nodes := 0, nodes0;
    RepLength(table, nodes0, t0);
    ghost var t, all := t0, set n | n in ns;
    assert c[0..] == c;
    while de != null
      invariant 0 <= moved <= |c| && de == Following(ns, moved - 1)
      invariant Rest(ns, c, moved)
      invariant t.buckets != [] && TableOk(h, t) && TableRep(table, nodes, t)
      invariant forall i :: moved <= i < |c| ==> LookupIn(h, t, c[i].key) == None
      invariant MoveChain(h, c[moved..], t) == MoveChain(h, c, t0)
      invariant NodesOf(nodes) <= NodesOf(nodes0) + all
      decreases |c| - moved
    {
      RestHead(ns, c, moved);
      var next := de.next;
      assert de in all;
      MoveOne(h, c, moved, t);
      nodes := MoveFirst(h, de, table, nodes, t, ns, c, moved);
      t := Link(t, Slot(h, t, de.key), c[moved]);
      de, moved := next, moved + 1;
    }
    MovedAll(h, c[moved..], t);
  }

  /** The nodes from position moved on still hold the rest of the chain c. */
  ghost predicate Rest<K, V>(ns: seq<Node<K, V>>, c: Chain<K, V>, moved: nat)
    reads ns
  {
    && |ns| == |c|
    && forall i :: moved <= i < |ns| ==>
      ns[i].key == c[i].key && ns[i].val == c[i].val && ns[i].next == Following(ns, i)
  }

  lemma RestOfAll<K, V>(head: Node?<K, V>, ns: seq<Node<K, V>>, c: Chain<K, V>)
    requires ChainRep(head, ns, c)
    ensures Rest(ns, c, 0)
  {
  }

  lemma RestHead<K, V>(ns: seq<Node<K, V>>, c: Chain<K, V>, moved: nat)
    requires Rest(ns, c, moved) && moved < |c|
    ensures var n := ns[moved]; n.next == Following(ns, moved) && Entry(n.key, n.val) == c[moved]
  {
  }

  lemma MovedAll<K, V>(h: K -> nat, c: Chain<K, V>, t: Ht<K, V>)
    requires t.buckets != []
    ensures c == [] ==> MoveChain(h, c, t) == t
  {
  }

  /** Linking in the first of the entries that are left leaves a chain to move that is one shorter. */
  lemma MoveOne<K(!new), V>(h: K -> nat, c: Chain<K, V>, moved: nat, t: Ht<K, V>)
    requires TableOk(h, t) && t.buckets != [] && moved < |c| && Distinct(c)
    requires forall i :: moved <= i < |c| ==> LookupIn(h, t, c[i].key) == None
    ensures var t' := Link(t, Slot(h, t, c[moved].key), c[moved]);
      && t'.buckets != [] && TableOk(h, t') && MoveChain(h, c[moved..], t) == MoveChain(h, c[moved + 1..], t')
      && forall i :: moved < i < |c| ==> LookupIn(h, t', c[i].key) == None
  {
    hide TableOk, LookupIn, And;
    LinkOk(h, t, c[moved]);
    assert c[moved..][1..] == c[moved + 1..];
  }

  lemma BucketRep<K, V>(table: array<Node?<K, V>>, nodes: seq<seq<Node<K, V>>>, t: Ht<K, V>, b: nat)
    requires TableRep(table, nodes, t) && b < table.Length
    ensures |nodes| == |t.buckets| == table.Length && |nodes[b]| == |t.buckets[b]|
    ensures forall i :: 0 <= i < |nodes[b]| ==>
      nodes[b][i] in NodesOf(nodes) && nodes[b][i].key == t.buckets[b][i].key && nodes[b][i].val == t.buckets[b][i].val
  {
    assert ChainRep(table[b], nodes[b], t.buckets[b]);
  }

  lemma RepLength<K, V>(table: array<Node?<K, V>>, nodes: seq<seq<Node<K, V>>>, t: Ht<K, V>)
    requires TableRep(table, nodes, t)
    ensures table.Length == |nodes| == |t.buckets|
  {
  }

  lemma NodesOfLinked<K, V>(nodes: seq<seq<Node<K, V>>>, b: nat, n: Node<K, V>)
    requires b < |nodes|
    ensures NodesOf(nodes[b := [n] + nodes[b]]) <= NodesOf(nodes) + {n}
  {
    var nodes' := nodes[b := [n] + nodes[b]];
    forall m | m in NodesOf(nodes') ensures m in NodesOf(nodes) + {n} {
      var i, j :| 0 <= i < |nodes'| && 0 <= j < |nodes'[i]| && nodes'[i][j] == m;
      if i == b {
        if j > 0 { assert m == nodes[b][j - 1]; }
      } else {
        assert m == nodes[i][j];
      }
    }
  }

  /** A dictionary: two arrays of chains and the fields of struct dict. */
  class HashTable<K(==, !new), V(!new)> {
    const hash: K -> nat
    var table0: array<Node?<K, V>>
    var table1: array<Node?<K, V>>
    var used0: int
    var used1: int
    var rehashidx: int
    var iterators: nat

    ghost var nodes0: seq<seq<Node<K, V>>>
    ghost var nodes1: seq<seq<Node<K, V>>>
    ghost var model: Dict<K, V>
    ghost var Repr: set<object>

    ghost predicate Valid()
      reads this, Repr
    {
      && this in Repr && table0 in Repr && table1 in Repr && table0 != table1
      && NodesOf(nodes0) <= Repr && NodesOf(nodes1) <= Repr
      && TableRep(table0, nodes0, model.ht0) && TableRep(table1, nodes1, model.ht1)
      && model == Dict(Ht(model.ht0.buckets, used0), Ht(model.ht1.buckets, used1), rehashidx, iterators)
      && Inv(hash, model)
    }

    /** dictCreate. */
    constructor (hash: K -> nat)
      ensures Valid() && fresh(Repr)
      ensures model == Dict(NoTable(), NoTable(), -1, 0) && this.hash == hash
    {
      this.hash := hash;
      table0, table1 := new Node?<K, V>[0], new Node?<K, V>[0];
      used0, used1, rehashidx, iterators := 0, 0, -1, 0;
      nodes0, nodes1, model := [], [], Dict(NoTable(), NoTable(), -1, 0);
      new;
      Repr := {this, table0, table1};
      EmptyInv<K, V>(hash);
    }

    /** dictExpand's last part: the new table becomes the first one, or the target of a
        rehashing that starts. */
    method Install(n: array<Node?<K, V>>, ghost m: Dict<K, V>)
      requires Valid() && n !in Repr && forall i :: 0 <= i < n.Length ==> n[i] == null
      requires rehashidx == -1 && Inv(hash, m)
      requires m == if table0.Length == 0 then model.(ht0 := NewTable(n.Length))
                    else model.(ht1 := NewTable(n.Length), rehashidx := 0)
      modifies this
      ensures Valid() && Repr == old(Repr) + {n} && model == m
      ensures Kept(old(nodes0), nodes0, None) && Kept(old(nodes1), nodes1, None)
    {
      hide Inv, TableRep, NodesOf, NextPower, Kept;
      InvShape(hash, model);
      RepLength(table0, nodes0, model.ht0);
      RepLength(table1, nodes1, model.ht1);
      KeptSame(nodes0, NoNodes(n.Length), None);
      KeptSame(nodes1, NoNodes(n.Length), None);
      EmptyRep(n);
      Repr := Repr + {n};
      model := m;
      if table0.Length == 0 {
        table0, used0, nodes0 := n, 0, NoNodes(n.Length);
      } else {
        table1, used1, nodes1, rehashidx := n, 0, NoNodes(n.Length), 0;
      }
    }

    /** dictExpand. */
    method DictExpand(size: nat) returns (ok: bool)
      requires Valid()
      modifies this
      ensures Valid() && fresh(Repr - old(Repr))
      ensures Shape(old(model)) && (model, ok) == Expand(old(model), size)
      ensures Kept(old(nodes0), nodes0, None) && Kept(old(nodes1), nodes1, None)
    {
      hide Inv, TableRep, NodesOf, NextPower, Kept;
      KeptSame(nodes0, nodes0, None);
      KeptSame(nodes1, nodes1, None);
      InvShape(hash, model);
      ExpandKeeps(hash, model, size);
      RepLength(table0, nodes0, model.ht0);
      var realsize := NextPowerLoop(size);
      if rehashidx != -1 || used0 > size { return false; }
      var n := new Node?<K, V>[realsize](_ => null);
      Install(n, Expand(model, size).0);
      ok := true;
    }

    /** The end of a rehashing: the second table becomes the first. */
    method RehashEnd()
      requires Valid() && rehashidx != -1 && used0 == 0
      modifies this
      ensures Valid() && fresh(Repr - old(Repr))
      ensures Shape(old(model)) && (model, false) == RehashStep(hash, old(model))
    {
      hide Inv, TableRep, NodesOf;
      InvShape(hash, model);
      RehashStepKeeps(hash, model);
      model := RehashStep(hash, model).0;
      table0, used0, nodes0 := table1, used1, nodes1;
      table1 := new Node?<K, V>[0];
      EmptyRep(table1);
      used1, nodes1, rehashidx := 0, NoNodes(0), -1;
      Repr := Repr + {table1};
    }

    /** One round of the loop of dictRehash; more is false where it returns 0. */
    method RehashOne() returns (more: bool)
      requires Valid() && rehashidx != -1
      modifies Repr
      ensures Valid() && fresh(Repr - old(Repr))
      ensures Shape(old(model)) && (model, more) == RehashStep(hash, old(model))
      ensures more ==> rehashidx != -1
    {
      hide Inv, TableRep, NodesOf;
      InvShape(hash, model);
      RehashStepKeeps(hash, model);
      if used0 == 0 {
        RehashEnd();
        return false;
      }
      ScanStops(hash, model);
      RepLength(table0, nodes0, model.ht0);
      assert rehashidx < table0.Length;
      ghost var d := model;
      while table0[rehashidx] == null
        invariant table0.Length == |d.ht0.buckets| && d.rehashidx <= rehashidx < table0.Length
        invariant FirstFull(d.ht0.buckets, rehashidx) == FirstFull(d.ht0.buckets, d.rehashidx) < table0.Length
        invariant TableRep(table0, nodes0, d.ht0)
        decreases table0.Length - rehashidx
        modifies `rehashidx
      {
        EmptyBucketRep(table0, nodes0, d.ht0, rehashidx);
        rehashidx := rehashidx + 1;
      }
      EmptyBucketRep(table0, nodes0, d.ht0, rehashidx);
      MoveBucket(d);
      more := true;
    }

    /** Moves the bucket at rehashidx, clears it and steps past it. d is the dictionary at
        the start of the round, before the scan moved rehashidx. */
    method MoveBucket(ghost d: Dict<K, V>)
      requires this in Repr && table0 in Repr && table1 in Repr && table0 != table1
      requires NodesOf(nodes0) <= Repr && NodesOf(nodes1) <= Repr
      requires TableRep(table0, nodes0, d.ht0) && TableRep(table1, nodes1, d.ht1)
      requires d.ht0.used == used0 && d.ht1.used == used1 && d.iterators == iterators
      requires Inv(hash, d) && d.Rehashing() && 0 <= d.rehashidx <= rehashidx < table0.Length
      requires |d.ht0.buckets| == table0.Length
      requires used0 != 0 && rehashidx == FirstFull(d.ht0.buckets, d.rehashidx)
      modifies Repr
      ensures Valid() && Repr == old(Repr)
      ensures (model, true) == RehashStep(hash, d)
    {
      hide Inv, TableOk, LookupIn, FirstFull, TableRep, NodesOf, MoveChain, RehashStep, Distinct, Shape;
      ghost var b := rehashidx;
      BucketMayMove(hash, d, b);
      BucketMoved(hash, d, b);
      RepLength(table0, nodes0, d.ht0);
      RepLength(table1, nodes1, d.ht1);
      NodesOfCleared(nodes0, b);
      forall n | n in nodes0[b] ensures n in Repr {
        assert n in set m | m in nodes0[b];
      }
      var moved;
      moved, nodes1 := EmptyBucketInto(hash, table0, table1, rehashidx, nodes0, nodes1, d.ht0, d.ht1);
      used0, used1 := used0 - moved, used1 + moved;
      nodes0 := nodes0[b := []];
      rehashidx := rehashidx + 1;
      model := RehashStep(hash, d).0;
    }

    /** dictRehash. */
    method DictRehash(n: nat) returns (more: bool)
      requires Valid()
      modifies Repr
      ensures Valid() && fresh(Repr - old(Repr))
      ensures Shape(old(model)) && (model, more) == Rehash(hash, old(model), n)
    {
      hide Inv, TableRep, NodesOf, RehashStep;
      InvShape(hash, model);
      if rehashidx == -1 { return false; }
      var k := n;
      while k > 0
        invariant 0 <= k <= n && Valid() && fresh(Repr - old(Repr)) && Shape(model) && rehashidx != -1
        invariant Rehash(hash, model, k) == Rehash(hash, old(model), n)
      {
        more := RehashOne();
        InvShape(hash, model);
        if !more { return false; }
        k := k - 1;
      }
      more := true;
    }

    /** "if (dictIsRehashing(d)) _dictRehashStep(d)". */
    method RehashStepIfFree()
      requires Valid()
      modifies Repr
      ensures Valid() && fresh(Repr - old(Repr))
      ensures Shape(old(model)) && model == Migrate(hash, old(model))
      ensures old(iterators) > 0 ==> nodes0 == old(nodes0) && nodes1 == old(nodes1)
    {
      hide Inv, TableRep, NodesOf, RehashStep;
      InvShape(hash, model);
      if rehashidx != -1 {
        if iterators == 0 {
          var more := RehashOne();
        }
      }
    }

    /** _dictExpandIfNeeded. */
    method GrowIfNeeded(canResize: bool)
      requires Valid()
      modifies this
      ensures Valid() && fresh(Repr - old(Repr)) && Shape(old(model))
      ensures model == ExpandIfNeeded(old(model), canResize)
      ensures Kept(old(nodes0), nodes0, None) && Kept(old(nodes1), nodes1, None)
    {
      hide Inv, TableRep, NodesOf, NextPower, Kept;
      KeptSame(nodes0, nodes0, None);
      KeptSame(nodes1, nodes1, None);
      InvShape(hash, model);
      RepLength(table0, nodes0, model.ht0);
      ExpandIfNeededKeeps(hash, model, canResize);
      var larger := if table0.Length > used0 then table0.Length else used0;
      if rehashidx != -1 { return; }
      if table0.Length == 0 {
        EmptyIsUnused(hash, model);
        InitialTable<K, V>();
        var ok := DictExpand(INITIAL_SIZE);
        return;
      }
      if used0 >= table0.Length && (canResize || used0 / table0.Length > FORCE_RESIZE_RATIO) {
        var ok := DictExpand(larger * 2);
      }
    }

    /** The search of one table, when there is one. */
    method Probe(first: bool, key: K) returns (he: Node?<K, V>, prev: Node?<K, V>)
      requires Valid() && 0 < (if first then table0 else table1).Length
      ensures var (nodes, t) := if first then (nodes0, model.ht0) else (nodes1, model.ht1);
        && t.buckets != [] && |nodes| == |t.buckets| && LookupIn(hash, t, key).Some? == (he != null)
        && var b := Slot(hash, t, key);
           var i := Pos(t.buckets[b], key);
        && |nodes[b]| == |t.buckets[b]|
        && he == (if i < |nodes[b]| then nodes[b][i] else null)
        && prev == (if i > 0 then nodes[b][i - 1] else null)
        && (he != null ==> he in Repr && he.key == key && he.val == t.buckets[b][i].val)
    {
      hide Inv, TableRep, NodesOf, Pos, LookupIn, And;
      var table := if first then table0 else table1;
      ghost var (nodes, t) := if first then (nodes0, model.ht0) else (nodes1, model.ht1);
      RepLength(table, nodes, t);
      var b := And(hash(key), table.Length - 1);
      he, prev := Search(table, b, key, nodes, t);
      Stored(hash, t, key);
      BucketRep(table, nodes, t, b);
    }

    /** dictFind. */
    method DictFind(key: K) returns (he: Node?<K, V>)
      requires Valid()
      modifies Repr
      ensures Valid() && fresh(Repr - old(Repr)) && Shape(old(model))
      ensures var (d, v) := Find(hash, old(model), key);
        model == d && (he == null <==> v == None)
            && (he != null ==> he in Repr && he.key == key && Some(he.val) == v && Holds(he, key))
      ensures old(iterators) > 0 ==> nodes0 == old(nodes0) && nodes1 == old(nodes1)
    {
      hide Inv, TableRep, NodesOf, Migrate;
      InvShape(hash, model);
      RepLength(table0, nodes0, model.ht0);
      if table0.Length == 0 { return null; }
      RehashStepIfFree();
      InvShape(hash, model);
      RepLength(table0, nodes0, model.ht0);
      RepLength(table1, nodes1, model.ht1);
      var prev;
      he, prev := Probe(true, key);
      if he != null || rehashidx == -1 { return; }
      he, prev := Probe(false, key);
    }

    /** he is the entry of key, in the table that has one. */
    ghost predicate Holds(he: Node<K, V>, key: K)
      reads this
    {
      if LookupIn(hash, model.ht0, key).Some? then NodeOf(hash, nodes0, model.ht0, key) == he
      else LookupIn(hash, model.ht1, key).Some? && NodeOf(hash, nodes1, model.ht1, key) == he
    }

    /** _dictKeyIndex. */
    method KeyIndexOf(key: K, canResize: bool) returns (index: int)
      requires Valid()
      modifies Repr
      ensures Valid() && fresh(Repr - old(Repr)) && Shape(old(model))
      ensures model == ExpandIfNeeded(old(model), canResize) && index == KeyIndex(hash, model, key)
      ensures Kept(old(nodes0), nodes0, None) && Kept(old(nodes1), nodes1, None)
    {
      hide Inv, TableRep, NodesOf, ExpandIfNeeded, LookupIn, Kept;
      InvShape(hash, model);
      GrowIfNeeded(canResize);
      InvShape(hash, model);
      RepLength(table0, nodes0, model.ht0);
      RepLength(table1, nodes1, model.ht1);
      var he, prev := Probe(true, key);
      if he != null { return -1; }
      if rehashidx == -1 { return And(hash(key), table0.Length - 1); }
      he, prev := Probe(false, key);
      if he != null { return -1; }
      index := And(hash(key), table1.Length - 1);
    }

    /** dictAdd: dictAddRaw, which picks the table after _dictKeyIndex picked the index,
        and the assignment of the value. */
    method DictAdd(key: K, val: V, canResize: bool) returns (ok: bool)
      requires Valid()
      modifies Repr
      ensures Valid() && fresh(Repr - old(Repr)) && Shape(old(model))
      ensures (model, ok) == Add(hash, old(model), key, val, canResize)
      ensures old(iterators) > 0 ==> Kept(old(nodes0), nodes0, None) && Kept(old(nodes1), nodes1, None)
    {
      hide Inv, TableRep, NodesOf, Migrate, ExpandIfNeeded, KeyIndex, Lookup, Kept;
      InvShape(hash, model);
      AddRefines(hash, model, key, val, canResize);
      PreparedKeeps(hash, model, canResize);
      RehashStepIfFree();
      var index := KeyIndexOf(key, canResize);
      if index == -1 { return false; }
      KeyIndexFitsTarget(hash, model, key);
      var entry := new Node<K, V>(key, val);
      ghost var mid0, mid1 := nodes0, nodes1;
      AddNode(entry, index);
      if old(iterators) > 0 {
        KeptOn(old(nodes0), mid0, nodes0, None);
        KeptOn(old(nodes1), mid1, nodes1, None);
      }
      ok := true;
    }

    /** The insertion itself. */
    method AddNode(entry: Node<K, V>, index: nat)
      requires Valid() && entry !in Repr && model.ht0.buckets != []
      requires Lookup(hash, model, entry.key) == None && Shape(model) && index == KeyIndex(hash, model, entry.key)
      modifies this, table0, table1, entry`next
      ensures Valid() && Repr == old(Repr) + {entry}
      ensures model == Linked(old(model), index, Entry(entry.key, entry.val))
      ensures Kept(old(nodes0), nodes0, None) && Kept(old(nodes1), nodes1, None)
    {
      hide Inv, TableRep, NodesOf, Lookup, Kept, KeyIndex, LookupIn, And;
      KeptSame(nodes0, nodes0, None);
      KeptSame(nodes1, nodes1, None);
      KeyIndexFitsTarget(hash, model, entry.key);
      LinkedInv(hash, model, Entry(entry.key, entry.val));
      RepLength(table0, nodes0, model.ht0);
      RepLength(table1, nodes1, model.ht1);
      model := Linked(model, index, Entry(entry.key, entry.val));
      Repr := Repr + {entry};
      if rehashidx != -1 {
        NodesOfLinked(nodes1, index, entry);
        KeptLinked(nodes1, index, entry);
        LinkHead(table1, index, entry, nodes1, old(model).ht1);
        nodes1, used1 := nodes1[index := [entry] + nodes1[index]], used1 + 1;
      } else {
        NodesOfLinked(nodes0, index, entry);
        KeptLinked(nodes0, index, entry);
        LinkHead(table0, index, entry, nodes0, old(model).ht0);
        nodes0, used0 := nodes0[index := [entry] + nodes0[index]], used0 + 1;
      }
    }

    /** dictReplace; added is its return value. */
    method DictReplace(key: K, val: V, canResize: bool) returns (added: bool)
      requires Valid()
      modifies Repr
      ensures Valid() && fresh(Repr - old(Repr)) && Shape(old(model))
      ensures (model, added) == Replace(hash, old(model), key, val, canResize)
      ensures old(iterators) > 0 ==> Kept(old(nodes0), nodes0, None) && Kept(old(nodes1), nodes1, None)
    {
      hide Inv, TableRep, NodesOf, Add, Find, Overwrite, Lookup, Kept;
      InvShape(hash, model);
      AddRefines(hash, model, key, val, canResize);
      added := DictAdd(key, val, canResize);
      if added { return; }
      FindRefines(hash, model, key);
      var entry := DictFind(key);
      SetValue(entry, val);
    }

    /** The assignment to the entry dictFind returned. */
    method SetValue(entry: Node<K, V>, val: V)
      requires Valid() && Holds(entry, entry.key)
      modifies entry`val, this`model
      ensures Valid() && Shape(old(model)) && model == Overwrite(hash, old(model), entry.key, val)
    {
      hide Inv, NodesOf, TableRep, TableOk, LookupIn, Pos, And;
      InvShape(hash, model);
      InvTables(hash, model, entry.key);
      OverwriteOk(hash, model, entry.key, val);
      ghost var here := LookupIn(hash, model.ht0, entry.key).Some?;
      if here {
        StrangerIsOutside(hash, table1, nodes1, model.ht1, entry);
      } else {
        StrangerIsOutside(hash, table0, nodes0, model.ht0, entry);
      }
      ghost var table := if here then table0 else table1;
      ghost var (nodes, t) := if here then (nodes0, model.ht0) else (nodes1, model.ht1);
      ghost var b, i := NodeOfAt(hash, table, nodes, t, entry.key);
      KeyedOnce(hash, table, nodes, t, b, i);
      AssignIn(entry, val, b, i, table, nodes, t);
      model := Overwrite(hash, model, entry.key, val);
    }

    /** Unlinks the entry a search of one table has found. */
    method Unhook(first: bool, key: K, he: Node<K, V>, prev: Node?<K, V>, ghost b: nat, ghost i: nat)
      requires Valid() && Shape(model)
      requires var (nodes, t) := if first then (nodes0, model.ht0) else (nodes1, model.ht1);
        && LookupIn(hash, t, key).Some? && b == Slot(hash, t, key) && i == Pos(t.buckets[b], key)
        && b < |nodes| && i < |nodes[b]| && he == nodes[b][i]
        && prev == (if i > 0 then nodes[b][i - 1] else null)
      requires first || LookupIn(hash, model.ht0, key) == None
      requires he.key == key
      modifies Repr
      ensures Valid() && Repr == old(Repr) && Shape(old(model))
      ensures model == Drop(hash, old(model), key)
      ensures Kept(old(nodes0), nodes0, Some(key)) && Kept(old(nodes1), nodes1, Some(key))
    {
      hide Inv, NodesOf, TableRep, TableOk, LookupIn, Pos, And, Kept, Once, Lookup;
      DropOk(hash, model, key);
      InvTables(hash, model, key);
      ghost var (nodes, t) := if first then (nodes0, model.ht0) else (nodes1, model.ht1);
      ghost var other := if first then (nodes1, model.ht1) else (nodes0, model.ht0);
      if prev != null {
        KeyedOnce(hash, if first then table0 else table1, nodes, t, b, i - 1);
        PrevIsStranger(hash, model, first, nodes, table0, table1, b, i - 1);
        StrangerIsOutside(hash, if first then table1 else table0, other.0, other.1, prev);
        NodeInside(nodes, b, i - 1);
      }
      RepLength(table0, nodes0, model.ht0);
      RepLength(table1, nodes1, model.ht1);
      NodesOfUnlinked(nodes, b, i);
      KeptUnlinked(nodes, b, i, other.0);
      model := Drop(hash, model, key);
      if first {
        UnlinkAt(table0, And(hash(key), table0.Length - 1), he, prev, i, nodes, t);
        nodes0, used0 := nodes0[b := nodes0[b][..i] + nodes0[b][i + 1..]], used0 - 1;
      } else {
        UnlinkAt(table1, And(hash(key), table1.Length - 1), he, prev, i, nodes, t);
        nodes1, used1 := nodes1[b := nodes1[b][..i] + nodes1[b][i + 1..]], used1 - 1;
      }
    }

    /** dictGenericDelete; ok is its DICT_OK. */
    method DictDelete(key: K) returns (ok: bool)
      requires Valid()
      modifies Repr
      ensures Valid() && fresh(Repr - old(Repr)) && Shape(old(model))
      ensures (model, ok) == Delete(hash, old(model), key)
      ensures old(iterators) > 0 ==> Kept(old(nodes0), nodes0, Some(key)) && Kept(old(nodes1), nodes1, Some(key))
    {
      hide Inv, NodesOf, TableRep, LookupIn, Migrate, Drop, Kept;
      KeptSame(nodes0, nodes0, Some(key));
      KeptSame(nodes1, nodes1, Some(key));
      InvShape(hash, model);
      RepLength(table0, nodes0, model.ht0);
      if table0.Length == 0 { return false; }
      RehashStepIfFree();
      InvShape(hash, model);
      RepLength(table0, nodes0, model.ht0);
      RepLength(table1, nodes1, model.ht1);
      var he, prev := Probe(true, key);
      ghost var b := Slot(hash, model.ht0, key);
      if he != null {
        Unhook(true, key, he, prev, b, Pos(model.ht0.buckets[b], key));
        return true;
      }
      if rehashidx != -1 {
        he, prev := Probe(false, key);
        b := Slot(hash, model.ht1, key);
        if he != null {
          Unhook(false, key, he, prev, b, Pos(model.ht1.buckets[b], key));
          return true;
        }
      }
      ok := false;
      NothingToDrop(hash, model, key);
    }

    /** The count kept by the first dictNext of a safe iterator. */
    method CountIterator()
      requires Valid()
      modifies this`iterators, this`model
      ensures Valid() && model == old(model).(iterators := old(model).iterators + 1)
    {
      hide Inv, TableRep, NodesOf;
      CountingKeeps(hash, model, iterators + 1);
      model := model.(iterators := iterators + 1);
      iterators := iterators + 1;
    }

    method UncountIterator()
      requires Valid() && 0 < iterators
      modifies this`iterators, this`model
      ensures Valid() && model == old(model).(iterators := old(model).iterators - 1)
    {
      hide Inv, TableRep, NodesOf;
      CountingKeeps(hash, model, iterators - 1);
      model := model.(iterators := iterators - 1);
      iterators := iterators - 1;
    }

    /** The head of a bucket, and the node after one: what an iterator reads. */
    method Head(second: bool, b: nat) returns (e: Node?<K, V>)
      requires Valid() && b < (if second then table1 else table0).Length
      ensures var (nodes, t) := if second then (nodes1, model.ht1) else (nodes0, model.ht0);
        b < |nodes| == |t.buckets| && |nodes[b]| == |t.buckets[b]|
        && e == (if nodes[b] == [] then null else nodes[b][0])
    {
      hide Inv, NodesOf;
      e := (if second then table1 else table0)[b];
      ghost var (nodes, t) := if second then (nodes1, model.ht1) else (nodes0, model.ht0);
      assert ChainRep((if second then table1 else table0)[b], nodes[b], t.buckets[b]);
    }
  }

  lemma NothingToDrop<K(!new), V(!new)>(h: K -> nat, d: Dict<K, V>, k: K)
    requires Shape(d) && LookupIn(h, d.ht0, k) == None && (d.Rehashing() ==> LookupIn(h, d.ht1, k) == None)
    ensures Drop(h, d, k) == d
  {
  }

  lemma NodeInside<K, V>(nodes: seq<seq<Node<K, V>>>, b: nat, i: nat)
    requires b < |nodes| && i < |nodes[b]|
    ensures nodes[b][i] in NodesOf(nodes)
  {
  }

  lemma NodesOfUnlinked<K, V>(nodes: seq<seq<Node<K, V>>>, b: nat, i: nat)
    requires b < |nodes| && i < |nodes[b]|
    ensures NodesOf(nodes[b := nodes[b][..i] + nodes[b][i + 1..]]) <= NodesOf(nodes)
  {
    var nodes' := nodes[b := nodes[b][..i] + nodes[b][i + 1..]];
    forall m | m in NodesOf(nodes') ensures m in NodesOf(nodes) {
      var k, j :| 0 <= k < |nodes'| && 0 <= j < |nodes'[k]| && nodes'[k][j] == m;
      assert m in nodes[k];
    }
  }

  /** An entry of one table is unknown to the other. */
  lemma PrevIsStranger<K(!new), V(!new)>(h: K -> nat, d: Dict<K, V>, first: bool, nodes: seq<seq<Node<K, V>>>,
                                     table0: array<Node?<K, V>>, table1: array<Node?<K, V>>, b: nat, i: nat)
    requires Inv(h, d) && b < |nodes| && i < |nodes[b]|
    requires if first then TableRep(table0, nodes, d.ht0) else TableRep(table1, nodes, d.ht1)
    ensures LookupIn(h, if first then d.ht1 else d.ht0, nodes[b][i].key) == None
  {
    KeysSeparate(h, if first then table0 else table1, nodes, if first then d.ht0 else d.ht1);
  }

  lemma InvTables<K(!new), V(!new)>(h: K -> nat, d: Dict<K, V>, k: K)
    requires Inv(h, d)
    ensures TableOk(h, d.ht0) && TableOk(h, d.ht1)
    ensures LookupIn(h, d.ht0, k) == None || LookupIn(h, d.ht1, k) == None
  {
  }

  lemma NodeOfAt<K(!new), V>(h: K -> nat, table: array<Node?<K, V>>, nodes: seq<seq<Node<K, V>>>, t: Ht<K, V>, k: K)
    returns (b: nat, i: nat)
    requires TableRep(table, nodes, t) && LookupIn(h, t, k).Some?
    ensures b < |nodes| == |t.buckets| && i < |nodes[b]| == |t.buckets[b]| && nodes[b][i] == NodeOf(h, nodes, t, k)
    ensures b == Slot(h, t, k) && i == Pos(t.buckets[b], k)
  {
    b := Slot(h, t, k);
    i := Pos(t.buckets[b], k);
    assert ChainRep(table[b], nodes[b], t.buckets[b]);
  }

  /** Overwrites the value of the node at position i of bucket b. */
  method AssignIn<K, V>(n: Node<K, V>, v: V, ghost b: nat, ghost i: nat, ghost table: array<Node?<K, V>>,
                        ghost nodes: seq<seq<Node<K, V>>>, ghost t: Ht<K, V>)
    requires TableRep(table, nodes, t) && b < |nodes| && i < |nodes[b]| && nodes[b][i] == n && Once(nodes, b, i)
    requires b < |t.buckets| && i < |t.buckets[b]|
    modifies n`val
    ensures TableRep(table, nodes, t.(buckets := t.buckets[b := t.buckets[b][i := Entry(n.key, v)]]))
  {
    hide NodesOf;
    n.val := v;
    ghost var bs := t.buckets[b := t.buckets[b][i := Entry(n.key, v)]];
    forall k | 0 <= k < |nodes| ensures ChainRep(table[k], nodes[k], bs[k]) {
      assert old(ChainRep(table[k], nodes[k], t.buckets[k]));
    }
  }

  /** The node at position i of bucket b hangs nowhere else. */
  ghost predicate Once<K, V>(nodes: seq<seq<Node<K, V>>>, b: int, i: int)
    requires 0 <= b < |nodes| && 0 <= i < |nodes[b]|
  {
    forall b', j | 0 <= b' < |nodes| && 0 <= j < |nodes[b']| :: nodes[b'][j] == nodes[b][i] ==> b' == b && j == i
  }

  lemma KeyedOnce<K(!new), V>(h: K -> nat, table: array<Node?<K, V>>, nodes: seq<seq<Node<K, V>>>, t: Ht<K, V>,
                                 b: nat, i: nat)
    requires TableOk(h, t) && TableRep(table, nodes, t) && b < |nodes| && i < |nodes[b]|
    ensures Once(nodes, b, i)
  {
    KeysSeparate(h, table, nodes, t);
  }

  /** The node that holds a key the table knows. */
  ghost function NodeOf<K(!new), V>(h: K -> nat, nodes: seq<seq<Node<K, V>>>, t: Ht<K, V>, k: K): Node?<K, V> {
    if LookupIn(h, t, k).Some? && |nodes| == |t.buckets| && |nodes[Slot(h, t, k)]| == |t.buckets[Slot(h, t, k)]|
    then nodes[Slot(h, t, k)][Pos(t.buckets[Slot(h, t, k)], k)]
    else null
  }

  lemma InitialTable<K, V>()
    ensures NextPower(INITIAL_SIZE, INITIAL_SIZE) == INITIAL_SIZE
  {
  }

  lemma NodesOfCleared<K, V>(nodes: seq<seq<Node<K, V>>>, b: nat)
    requires b < |nodes|
    ensures NodesOf(nodes[b := []]) <= NodesOf(nodes) && (set n | n in nodes[b]) <= NodesOf(nodes)
  {
    var others := nodes[b := []];
    forall m | m in NodesOf(others) ensures m in NodesOf(nodes) {
      var i, j :| 0 <= i < |others| && 0 <= j < |others[i]| && others[i][j] == m;
      assert nodes[i][j] == m;
    }
  }

  /** Moves the nodes of one bucket to the new table and nulls the bucket. */
  method EmptyBucketInto<K(==, !new), V>(h: K -> nat, from: array<Node?<K, V>>, to: array<Node?<K, V>>, b: nat,
                                     ghost nodes0: seq<seq<Node<K, V>>>, ghost nodes1: seq<seq<Node<K, V>>>,
                                     ghost t0: Ht<K, V>, ghost t1: Ht<K, V>)
    returns (moved: nat, ghost nodes: seq<seq<Node<K, V>>>)
    requires from != to && b < from.Length && b < |nodes0| && 0 < to.Length
    requires TableOk(h, t0) && TableRep(from, nodes0, t0) && TableOk(h, t1) && TableRep(to, nodes1, t1)
    requires |t1.buckets| == to.Length && b < |t0.buckets|
    requires forall i :: 0 <= i < |t0.buckets[b]| ==> LookupIn(h, t1, t0.buckets[b][i].key) == None
    modifies from, to, nodes0[b]
    ensures moved == |t0.buckets[b]|
    ensures TableRep(from, nodes0[b := []], Ht(t0.buckets[b := []], t0.used - |t0.buckets[b]|))
    ensures TableRep(to, nodes, MoveChain(h, t0.buckets[b], t1))
    ensures NodesOf(nodes) <= NodesOf(nodes1) + set n | n in nodes0[b]
  {
    hide TableOk, LookupIn, NodesOf;
    KeysSeparate(h, from, nodes0, t0);
    BucketKeys(h, t0, b);
    assert ChainRep(from[b], nodes0[b], t0.buckets[b]);
    moved, nodes := MoveNodes(h, from[b], to, nodes0[b], t0.buckets[b], nodes1, t1);
    from[b] := null;
    forall i | 0 <= i < |nodes0| ensures ChainRep(from[i], nodes0[b := []][i], t0.buckets[b := []][i]) {
      assert old(ChainRep(from[i], nodes0[i], t0.buckets[i]));
    }
  }

  lemma BucketMayMove<K(!new), V(!new)>(h: K -> nat, d: Dict<K, V>, b: nat)
    requires Inv(h, d) && d.Rehashing() && b < |d.ht0.buckets|
    ensures Shape(d) && TableOk(h, d.ht0) && TableOk(h, d.ht1) && Distinct(d.ht0.buckets[b])
    ensures forall i :: 0 <= i < |d.ht0.buckets[b]| ==> LookupIn(h, d.ht1, d.ht0.buckets[b][i].key) == None
  {
    BucketKeys(h, d.ht0, b);
  }

  /** What a step of rehashing that moves the bucket b makes of the dictionary. */
  lemma BucketMoved<K(!new), V(!new)>(h: K -> nat, d: Dict<K, V>, b: nat)
    requires Inv(h, d) && Shape(d) && d.Rehashing() && d.ht0.used != 0 && 0 <= d.rehashidx
    requires b == FirstFull(d.ht0.buckets, d.rehashidx) < |d.ht0.buckets| && d.ht1.buckets != []
    ensures Inv(h, RehashStep(h, d).0)
    ensures var (c, moved) := (d.ht0.buckets[b], MoveChain(h, d.ht0.buckets[b], d.ht1));
      && RehashStep(h, d) == (Dict(Ht(d.ht0.buckets[b := []], d.ht0.used - |c|), moved, b + 1, d.iterators), true)
      && moved.used == d.ht1.used + |c|
  {
    hide Inv, TableOk, MoveChain, FirstFull, Lookup;
    RehashStepKeeps(h, d);
    MoveChainUsed(h, d.ht0.buckets[b], d.ht1);
  }

  ghost function NoNodes<K, V>(size: nat): seq<seq<Node<K, V>>> { seq(size, i => []) }

  lemma EmptyRep<K, V>(table: array<Node?<K, V>>)
    requires forall i :: 0 <= i < table.Length ==> table[i] == null
    ensures TableRep(table, NoNodes<K, V>(table.Length), NewTable(table.Length))
    ensures NodesOf(NoNodes<K, V>(table.Length)) == {}
    ensures NewTable<K, V>(0) == NoTable()
  {
  }

  /** A null bucket holds the empty chain. */
  lemma EmptyBucketRep<K, V>(table: array<Node?<K, V>>, nodes: seq<seq<Node<K, V>>>, t: Ht<K, V>, b: nat)
    requires TableRep(table, nodes, t) && b < table.Length
    ensures b < |t.buckets| && (table[b] == null <==> t.buckets[b] == [])
  {
    assert ChainRep(table[b], nodes[b], t.buckets[b]);
  }

  /** The loop of _dictNextPower. */
  method NextPowerLoop(size: nat) returns (i: nat)
    ensures i == NextPower(size, INITIAL_SIZE)
  {
    i := INITIAL_SIZE;
    while i < size
      invariant 0 < i && NextPower(size, i) == NextPower(size, INITIAL_SIZE)
    {
      i := i * 2;
    }
  }

  /** dictIterator, for safe iterators. */
  class SafeIterator<K(==, !new), V(!new)> {
    const d: HashTable<K, V>
    var table: nat
    var index: int
    var entry: Node?<K, V>
    var nextEntry: Node?<K, V>

    /** dictGetSafeIterator. */
    constructor (d: HashTable<K, V>)
      requires d.Valid()
      ensures Valid() && It() == Fresh() && this.d == d
    {
      this.d := d;
      table, index, entry, nextEntry := 0, -1, null, null;
      new;
      InvShape(d.hash, d.model);
    }

    ghost function It(): Iter<K>
      reads this
    {
      Iter(table, index,
           if entry == null then None else Some(entry.key),
           if nextEntry == null then None else Some(nextEntry.key))
    }

    /** The nodes of the bucket where the iterator stands. */
    ghost function Nodes(): seq<Node<K, V>>
      reads this, d
    {
      var nodes := if table == 0 then d.nodes0 else d.nodes1;
      if 0 <= index < |nodes| then nodes[index] else []
    }

    ghost predicate Valid()
      reads this, d, d.Repr
    {
      && d.Valid() && this !in d.Repr && IterOk(d.model, It())
      && (nextEntry != null ==> exists i | 0 <= i < |Nodes()| :: Nodes()[i] == nextEntry)
    }

    /** What reading the entry at position i of the current bucket gives. */
    ghost predicate At(e: Node<K, V>, i: nat)
      reads this, d, d.Repr
      requires d.Valid()
    {
      var t := TableAt(d.model, table);
      && 0 <= index < |t.buckets| && i < |t.buckets[index]| == |Nodes()| && Nodes()[i] == e
      && e in d.Repr && Entry(e.key, e.val) == t.buckets[index][i]
      && e.next == Following(Nodes(), i)
    }

    lemma NodeAt(i: nat)
      requires d.Valid() && table <= 1 && i < |Nodes()|
      ensures At(Nodes()[i], i)
    {
      var nodes, a := if table == 0 then d.nodes0 else d.nodes1, if table == 0 then d.table0 else d.table1;
      var t := TableAt(d.model, table);
      assert ChainRep(a[index], nodes[index], t.buckets[index]);
      assert nodes[index][i] in NodesOf(nodes);
    }

    /** Returns the entry found: saves its successor, which its caller may outlive. */
    method Return(ghost i: nat)
      requires d.Valid() && this !in d.Repr && Shape(d.model) && table <= 1 && (table == 1 ==> d.model.Rehashing())
      requires entry != null && At(entry, i)
      modifies this`nextEntry
      ensures Valid() && entry.key == TableAt(d.model, table).buckets[index][i].key
      ensures It() == Iter(table, index, Some(entry.key), After(TableAt(d.model, table).buckets[index], i))
    {
      hide Inv, TableRep, NodesOf, Pos;
      nextEntry := entry.next;
      if nextEntry != null { NodeAt(i + 1); }
    }

    /** The branch of dictNext that follows the saved pointer. */
    method Follow()
      requires Valid() && entry != null
      modifies this
      ensures Valid() && IterOk(old(d.model), old(It()))
      ensures entry == old(nextEntry)
      ensures entry == null ==> It() == old(It()).(entry := None)
      ensures entry != null ==>
        && entry in d.Repr
        && Next(d.model, old(It())) == (d.model, It(), Some(Entry(entry.key, entry.val)))
    {
      hide Inv, TableRep, NodesOf, Pos;
      entry := nextEntry;
      if entry != null {
        ghost var i :| 0 <= i < |Nodes()| && Nodes()[i] == nextEntry;
        NodeAt(i);
        InvTables(d.hash, d.model, entry.key);
        PosOfEntry(d.hash, TableAt(d.model, table), index, i);
        Return(i);
      }
    }

    /** Looks at bucket index, or at the first bucket of the second table when the first one
        is exhausted. done is the break of dictNext's loop. */
    method Look() returns (done: bool)
      requires d.Valid() && this !in d.Repr && Shape(d.model) && table <= 1 && (table == 1 ==> d.model.Rehashing())
      requires 0 <= index && entry == null && nextEntry == null
      modifies this
      ensures Valid() && table <= 1
      ensures var from, m := old((table, index)), d.model;
        if done then entry == null && Scan(m, from.0, from.1) == (false, table, index) && nextEntry == null
        else if entry == null then
          && Scan(m, from.0, from.1) == Scan(m, table, index + 1) && nextEntry == null && 0 <= index
          && (from.0 < table || (from.0 == table && from.1 == index < |TableAt(m, table).buckets|))
        else
          && entry in d.Repr && Scan(m, from.0, from.1) == (true, table, index)
          && var c := TableAt(m, table).buckets[index];
          && Entry(entry.key, entry.val) == c[0] && It() == Iter(table, index, Some(entry.key), After(c, 0))
    {
      hide Inv, TableRep, NodesOf, Pos;
      done := false;
      RepLength(d.table0, d.nodes0, d.model.ht0);
      RepLength(d.table1, d.nodes1, d.model.ht1);
      if index >= (if table == 0 then d.table0 else d.table1).Length {
        if d.rehashidx != -1 && table == 0 {
          table, index := 1, 0;
        } else {
          return true;
        }
      }
      entry := d.Head(table == 1, index);
      if entry != null {
        NodeAt(0);
        Return(0);
      }
    }

    /** The branch of dictNext that goes on to the next bucket. */
    method Advance() returns (done: bool)
      requires Valid() && entry == null
      modifies this, d`iterators, d`model
      ensures Valid() && IterOk(old(d.model), old(It())) && table <= 1
      ensures d.model.ht0 == old(d.model).ht0 && d.model.ht1 == old(d.model).ht1
      ensures entry == null && !done ==>
        && Next(d.model, It()) == Next(old(d.model), old(It()))
        && (old(table) < table || (table == old(table) && old(index) < index < |TableAt(d.model, table).buckets|))
      ensures done ==> entry == null && Next(old(d.model), old(It())) == (d.model, It(), None)
      ensures entry != null ==>
        && !done && entry in d.Repr
        && Next(old(d.model), old(It())) == (d.model, It(), Some(Entry(entry.key, entry.val)))
    {
      hide Inv, TableRep, NodesOf, Pos, Scan;
      if index == -1 && table == 0 { d.CountIterator(); }
      index := index + 1;
      done := Look();
    }

    /** dictNext. */
    method DictNext() returns (e: Node?<K, V>)
      requires Valid()
      modifies this, d`iterators, d`model
      ensures Valid()
      ensures IterOk(old(d.model), old(It()))
      ensures var (m, it, r) := Next(old(d.model), old(It()));
        d.model == m && It() == it && (e == null <==> r == None) && (e != null ==> Entry(e.key, e.val) == r.value)
    {
      hide Inv, TableRep, NodesOf, Pos, Next;
      ghost var m0, it0 := d.model, It();
      if entry != null {
        Follow();
        if entry != null { return entry; }
        NextWithoutEntry(m0, it0);
      }
      while true
        invariant Valid() && entry == null && Next(d.model, It()) == Next(m0, it0)
        invariant table <= 1
        decreases 1 - table, Room(d.model, It())
      {
        var done := Advance();
        if entry != null { return entry; }
        if done { return null; }
      }
    }

    /** The entry saved as the next one hangs from the iterator's bucket. */
    ghost predicate SavedIn(nodes0: seq<seq<Node<K, V>>>, nodes1: seq<seq<Node<K, V>>>)
      reads this
    {
      var nodes := if table == 0 then nodes0 else nodes1;
      nextEntry != null ==> 0 <= index < |nodes| && nextEntry in nodes[index]
    }

    lemma Outlives(nodes0: seq<seq<Node<K, V>>>, nodes1: seq<seq<Node<K, V>>>, gone: Option<K>)
      requires d.Valid() && this !in d.Repr && IterOk(d.model, It()) && SavedIn(nodes0, nodes1)
      requires nextEntry != null ==> gone != Some(nextEntry.key)
      requires Kept(nodes0, d.nodes0, gone) && Kept(nodes1, d.nodes1, gone)
      ensures Valid()
    {
      hide Inv, TableRep, NodesOf, IterOk, HashTable.Valid;
      var nodes := if table == 0 then nodes0 else nodes1;
      if nextEntry != null {
        var i :| 0 <= i < |nodes[index]| && nodes[index][i] == nextEntry;
        var after := if table == 0 then d.nodes0 else d.nodes1;
        assert Stays(nodes[index][i], after, index, gone);
        var j :| 0 <= j < |after[index]| && after[index][j] == nextEntry;
        assert Nodes()[j] == nextEntry;
      }
    }

    lemma SavedNow()
      requires Valid()
      ensures SavedIn(d.nodes0, d.nodes1)
    {
    }

    /** dictFind in the middle of a walk: the saved pointer stays good. */
    method FindMeanwhile(key: K)
      requires Valid() && d.iterators > 0 && Shape(d.model) && IterOk(Find(d.hash, d.model, key).0, It())
      modifies d.Repr
      ensures Valid() && It() == old(It()) && fresh(d.Repr - old(d.Repr))
      ensures d.model == Find(d.hash, old(d.model), key).0
    {
      hide Inv, TableRep, NodesOf, IterOk, Find, Kept, SavedIn;
      SavedNow();
      ghost var nodes0, nodes1 := d.nodes0, d.nodes1;
      KeptSame(nodes0, nodes0, None);
      KeptSame(nodes1, nodes1, None);
      var he := d.DictFind(key);
      Outlives(nodes0, nodes1, None);
    }

    /** dictAdd in the middle of a walk, which may start a rehashing. */
    method AddMeanwhile(key: K, val: V, canResize: bool)
      requires Valid() && d.iterators > 0 && Shape(d.model) && IterOk(Add(d.hash, d.model, key, val, canResize).0, It())
      modifies d.Repr
      ensures Valid() && It() == old(It()) && fresh(d.Repr - old(d.Repr))
      ensures d.model == Add(d.hash, old(d.model), key, val, canResize).0
    {
      hide Inv, TableRep, NodesOf, IterOk, Add, Kept, SavedIn;
      SavedNow();
      ghost var nodes0, nodes1 := d.nodes0, d.nodes1;
      var ok := d.DictAdd(key, val, canResize);
      Outlives(nodes0, nodes1, None);
    }

    method ReplaceMeanwhile(key: K, val: V, canResize: bool)
      requires Valid() && d.iterators > 0 && Shape(d.model)
          && IterOk(Replace(d.hash, d.model, key, val, canResize).0, It())
      modifies d.Repr
      ensures Valid() && It() == old(It()) && fresh(d.Repr - old(d.Repr))
      ensures d.model == Replace(d.hash, old(d.model), key, val, canResize).0
    {
      hide Inv, TableRep, NodesOf, IterOk, Replace, Kept, SavedIn;
      SavedNow();
      ghost var nodes0, nodes1 := d.nodes0, d.nodes1;
      var added := d.DictReplace(key, val, canResize);
      Outlives(nodes0, nodes1, None);
    }

    /** dictDelete in the middle of a walk, of anything but the entry saved as the next one. */
    method DeleteMeanwhile(key: K)
      requires Valid() && d.iterators > 0 && Shape(d.model) && IterOk(Delete(d.hash, d.model, key).0, It())
      requires nextEntry != null ==> nextEntry.key != key
      modifies d.Repr
      ensures Valid() && It() == old(It()) && fresh(d.Repr - old(d.Repr))
      ensures d.model == Delete(d.hash, old(d.model), key).0
    {
      hide Inv, TableRep, NodesOf, IterOk, Delete, Kept, SavedIn;
      SavedNow();
      ghost var nodes0, nodes1 := d.nodes0, d.nodes1;
      var ok := d.DictDelete(key);
      Outlives(nodes0, nodes1, Some(key));
    }

    /** dictReleaseIterator: a walk that was begun gives its count back. */
    method Release()
      requires Valid() && (It() == Fresh() || 0 < d.iterators)
      modifies d`iterators, d`model
      ensures d.Valid()
      ensures d.model == if index == -1 && table == 0 then old(d.model)
          else old(d.model).(iterators := old(d.model).iterators - 1)
    {
      hide Inv, TableRep, NodesOf;
      if !(index == -1 && table == 0) {
        d.UncountIterator();
      }
    }
  }

  /** How many buckets of its table the iterator has not looked at. */
  ghost function Room<K, V>(d: Dict<K, V>, it: Iter<K>): nat {
    if |TableAt(d, it.table).buckets| > it.index then |TableAt(d, it.table).buckets| - it.index else 0
  }

  lemma NextWithoutEntry<K, V>(d: Dict<K, V>, it: Iter<K>)
    requires IterOk(d, it) && it.nextEntry == None
    ensures IterOk(d, it.(entry := None)) && Next(d, it) == Next(d, it.(entry := None))
  {
  }

  /** One step of a walk, on the heap. */
  method TakeStep<K(==, !new), V(!new)>(it: SafeIterator<K, V>, s: Step<K, V>, ghost start: set<K>, ghost w: Walk<K, V>)
    returns (returned: Option<K>)
    requires it.Valid() && it.d.model == w.d && it.It() == w.it && WalkOk(it.d.hash, start, w) && Legal(w, s)
    modifies it, it.d, it.d.Repr
    ensures it.Valid() && fresh(it.d.Repr - old(it.d.Repr))
    ensures var w' := Take(it.d.hash, w, s);
      && it.d.model == w'.d && it.It() == w'.it
      && w'.returned == (if s.CallNext? && returned.Some? then w.returned + [returned.value] else w.returned)
      && (w'.done <==> s.CallNext? && returned == None)
  {
    hide Inv, TableRep, NodesOf, IterOk, WalkOk, Next, Find, Add, Replace, Delete;
    TakeKeeps(it.d.hash, start, w, s);
    WalkReady(it.d.hash, start, w);
    WalkReady(it.d.hash, start, Take(it.d.hash, w, s));
    returned := None;
    match s
    case CallNext =>
      var e := it.DictNext();
      if e != null { returned := Some(e.key); }
    case CallFind(k) => it.FindMeanwhile(k);
    case CallAdd(k, v, canResize) => it.AddMeanwhile(k, v, canResize);
    case CallReplace(k, v, canResize) => it.ReplaceMeanwhile(k, v, canResize);
    case CallDelete(k) => it.DeleteMeanwhile(k);
  }

  lemma WalkReady<K(!new), V(!new)>(h: K -> nat, start: set<K>, w: Walk<K, V>)
    requires WalkOk(h, start, w)
    ensures Inv(h, w.d) && IterOk(w.d, w.it) && Shape(w.d) && (w.it == Fresh() || w.d.iterators > 0)
  {
  }

  /**
    * A whole walk, on the heap: whatever legal calls the caller makes between two dictNext, a key is
    * returned at most once, even when it is deleted after that, unless it is added again; and if the
    * walk reached its end, every key that was there at the start and was not deleted before its turn has
    * been returned. The count of iterators is what it was before.
    */
  method Iterate<K(==, !new), V(!new)>(d: HashTable<K, V>, steps: seq<Step<K, V>>)
    returns (returned: seq<K>, done: bool)
    requires d.Valid() && AllLegal(d.hash, Begin(d.model), steps)
    modifies d, d.Repr
    ensures d.Valid()
    ensures var w := TakeAll(d.hash, Begin(old(d.model)), steps);
      && d.model == w.d.(iterators := old(d.model.iterators)) && returned == w.returned && done == w.done
      && forall k ::
           && (k !in w.back ==> multiset(returned)[k] <= 1)
           && (k !in w.lost && k in Contents(d.hash, old(d.model)) && done ==>
                k in returned && (k !in w.back ==> multiset(returned)[k] == 1))
  {
    hide Inv, TableRep, NodesOf, IterOk, WalkOk, Legal, Take, Contents;
    var it := new SafeIterator<K, V>(d);
    ghost var first := Begin(d.model);
    ghost var start := Contents(d.hash, d.model).Keys;
    ghost var w := first;
    StartOk(d.hash, d.model);
    returned, done := [], false;
    assert steps[0..] == steps;
    for i := 0 to |steps|
      invariant it.Valid() && it.d == d && fresh(it) && fresh(d.Repr - old(d.Repr))
      invariant d.model == w.d && it.It() == w.it && WalkOk(d.hash, start, w)
      invariant returned == w.returned && done == w.done && Counted(first, w)
      invariant AllLegal(d.hash, w, steps[i..]) && TakeAll(d.hash, w, steps[i..]) == TakeAll(d.hash, first, steps)
    {
      assert steps[i..][1..] == steps[i + 1..] && steps[i..][0] == steps[i];
      TakeKeeps(d.hash, start, w, steps[i]);
      TakeCounts(d.hash, start, first, w, steps[i]);
      NotDone(w, steps[i]);
      var r := TakeStep(it, steps[i], start, w);
      w := Take(d.hash, w, steps[i]);
      if steps[i].CallNext? {
        if r.Some? { returned := returned + [r.value]; } else { done := true; }
      }
    }
    assert w == TakeAll(d.hash, first, steps);
    it.Release();
    forall k ensures
      && (k !in w.back ==> multiset(returned)[k] <= 1)
      && (k !in w.lost && k in Contents(d.hash, first.d) && done ==>
           k in returned && (k !in w.back ==> multiset(returned)[k] == 1)) {
      ExactlyOnce(d.hash, first.d, steps, k);
    }
  }

  /** One iterator more than at the start once the walk has begun. */
  ghost predicate Counted<K, V>(first: Walk<K, V>, w: Walk<K, V>) {
    && (w.it == Fresh() || 0 <= w.it.index)
    && w.d.iterators == if w.it == Fresh() then first.d.iterators else first.d.iterators + 1
  }

  lemma TakeCounts<K(!new), V(!new)>(h: K -> nat, start: set<K>, first: Walk<K, V>, w: Walk<K, V>, s: Step<K, V>)
    requires WalkOk(h, start, w) && Legal(w, s) && Counted(first, w)
    ensures Counted(first, Take(h, w, s))
  {
    hide Inv, IterOk, Accounted, Take;
    TakeKeepsOrder(h, start, w, s);
  }

  lemma NotDone<K, V>(w: Walk<K, V>, s: Step<K, V>)
    requires Legal(w, s)
    ensures !w.done
  {
  }
}
