/** Safe iteration over the hash table of dict.c while it is being modified. */
module DictIteration {
  import opened Bytes
  import opened DictModel

  /** dictIterator. The two entry pointers are represented by the keys of the entries;
      entry may point to an entry that has been deleted, nextEntry may not. */
  datatype Iter<K> = Iter(table: nat, index: int, entry: Option<K>, nextEntry: Option<K>)

  function Fresh<K>(): Iter<K> { Iter(0, -1, None, None) }

  function TableAt<K, V>(d: Dict<K, V>, table: nat): Ht<K, V> {
    if table == 0 then d.ht0 else d.ht1
  }

  /** The scan of dictNext for a non-empty bucket, from a bucket on; the flag tells whether
      there is one. */
  function Scan<K, V>(d: Dict<K, V>, table: nat, index: nat): (r: (bool, nat, nat))
    requires Shape(d) && (table == 1 ==> d.Rehashing()) && table <= 1
    ensures r.1 <= 1 && (r.1 == 1 ==> d.Rehashing())
    ensures r.0 ==> r.2 < |TableAt(d, r.1).buckets| && TableAt(d, r.1).buckets[r.2] != []
    ensures !r.0 ==> r.2 >= |TableAt(d, r.1).buckets| && (d.Rehashing() ==> r.1 == 1)
    decreases 1 - table, |TableAt(d, table).buckets| - index
  {
    if index >= |TableAt(d, table).buckets| then
      if d.Rehashing() && table == 0 then Scan(d, 1, 0) else (false, table, index)
    else if TableAt(d, table).buckets[index] != [] then (true, table, index)
    else Scan(d, table, index + 1)
  }

  /** The key of the entry after position i of a chain. */
  function After<K, V>(c: Chain<K, V>, i: nat): Option<K> {
    if i + 1 < |c| then Some(c[i + 1].key) else None
  }

  /** What the code relies on: an iterator under way stands in a bucket, and the entry it
      has saved as the next one is still in that bucket. */
  ghost predicate IterOk<K, V>(d: Dict<K, V>, it: Iter<K>) {
    && Shape(d) && it.table <= 1 && (it.table == 1 ==> d.Rehashing()) && -1 <= it.index
    && (it.table == 1 ==> 0 <= it.index)
    && (it.nextEntry.Some? ==>
      && it.entry.Some? && 0 <= it.index < |TableAt(d, it.table).buckets|
      && Pos(TableAt(d, it.table).buckets[it.index], it.nextEntry.value) < |TableAt(d, it.table).buckets[it.index]|)
  }

  /** dictNext for a safe iterator: the dictionary (whose count of iterators the first call
      increments), the iterator and the entry returned. */
  function Next<K(==), V>(d: Dict<K, V>, it: Iter<K>): (r: (Dict<K, V>, Iter<K>, Option<Entry<K, V>>))
    requires IterOk(d, it)
  {
    if it.entry.Some? && it.nextEntry.Some? then
      var c := TableAt(d, it.table).buckets[it.index];
      var i := Pos(c, it.nextEntry.value);
      (d, it.(entry := it.nextEntry, nextEntry := After(c, i)), Some(c[i]))
    else
      var d' := if it.index == -1 && it.table == 0 then d.(iterators := d.iterators + 1) else d;
      var (found, table, index) := Scan(d', it.table, it.index + 1);
      if !found then (d', Iter(table, index, None, None), None)
      else
        var c := TableAt(d', table).buckets[index];
        (d', Iter(table, index, Some(c[0].key), After(c, 0)), Some(c[0]))
  }

  // ------------------------------------------------------------------ what lies ahead

  /** k's entry comes in or after bucket index of t, in that bucket not before next. */
  predicate AheadIn<K(==), V>(h: K -> nat, t: Ht<K, V>, index: int, next: Option<K>, k: K) {
    && LookupIn(h, t, k).Some?
    && var b := Slot(h, t, k);
      || b > index
      || (b == index && next.Some? && Pos(t.buckets[b], k) >= Pos(t.buckets[b], next.value))
  }

  /** The iterator has still to come past the entry of k. */
  predicate Ahead<K(==), V>(h: K -> nat, d: Dict<K, V>, it: Iter<K>, k: K) {
    if it.table == 0 then AheadIn(h, d.ht0, it.index, it.nextEntry, k) || LookupIn(h, d.ht1, k).Some?
    else AheadIn(h, d.ht1, it.index, it.nextEntry, k)
  }

  /** Nothing lies between the start of the scan and the bucket it stops at. */
  lemma {:induction false} ScanSkipsNothing<K(!new), V(!new)>(h: K -> nat, d: Dict<K, V>, table: nat, index: nat, k: K)
    requires Inv(h, d) && table <= 1 && (table == 1 ==> d.Rehashing())
    ensures Shape(d)
    ensures var (found, table', index') := Scan(d, table, index);
      Ahead(h, d, Iter(table, index - 1, None, None), k)
      <==> found && Ahead(h, d, Iter(table', index' - 1, None, None), k)
    decreases 1 - table, |TableAt(d, table).buckets| - index
  {
    hide TableOk, And;
    if index >= |TableAt(d, table).buckets| {
      if d.Rehashing() && table == 0 {
        ScanSkipsNothing(h, d, 1, 0, k);
      }
    } else if TableAt(d, table).buckets[index] == [] {
      ScanSkipsNothing(h, d, table, index + 1, k);
    }
  }

  /** Stepping from a chain's entry i to what follows it takes exactly that entry from
      what lies ahead. */
  lemma StepInChain<K(!new), V(!new)>(h: K -> nat, t: Ht<K, V>, index: nat, i: nat, k: K)
    requires TableOk(h, t) && index < |t.buckets| && i < |t.buckets[index]|
    ensures var c := t.buckets[index];
      AheadIn(h, t, index, After(c, i), k) <==> AheadIn(h, t, index, Some(c[i].key), k) && k != c[i].key
    ensures AheadIn(h, t, index, Some(t.buckets[index][i].key), t.buckets[index][i].key)
    ensures LookupIn(h, t, t.buckets[index][i].key) == Some(t.buckets[index][i].val)
  {
    var c := t.buckets[index];
    PosUnique(c, c[i].key, i);
    if i + 1 < |c| { PosUnique(c, c[i + 1].key, i + 1); }
  }

  // ------------------------------------------------------------------ single steps

  /** The bucket where the iterator stands, seen as the rest of a scan that starts there. */
  lemma AtBucket<K(!new), V(!new)>(h: K -> nat, d: Dict<K, V>, table: nat, index: nat, k: K)
    requires Inv(h, d) && table <= 1 && index < |TableAt(d, table).buckets|
    requires TableAt(d, table).buckets[index] != []
    ensures var c := TableAt(d, table).buckets[index];
      Ahead(h, d, Iter(table, index - 1, None, None), k) <==> Ahead(h, d, Iter(table, index, None, Some(c[0].key)), k)
  {
    var c := TableAt(d, table).buckets[index];
    PosUnique(c, c[0].key, 0);
  }

  /** What one call of dictNext does to the claim on key k. */
  ghost predicate TakesOne<K(!new), V(!new)>(h: K -> nat, d: Dict<K, V>, it: Iter<K>, k: K)
    requires IterOk(d, it)
  {
    var (d', it', r) := Next(d, it);
    && Inv(h, d') && IterOk(d', it') && Lookup(h, d', k) == Lookup(h, d, k)
    && (r == None ==> !Ahead(h, d, it, k) && !Ahead(h, d', it', k))
    && (r.Some? ==>
      && it'.entry == Some(r.value.key)
      && Lookup(h, d, r.value.key) == Some(r.value.val)
      && Ahead(h, d, it, r.value.key)
      && (Ahead(h, d', it', k) <==> Ahead(h, d, it, k) && k != r.value.key))
  }

  lemma NextInChain<K(!new), V(!new)>(h: K -> nat, d: Dict<K, V>, it: Iter<K>, k: K)
    requires Inv(h, d) && IterOk(d, it) && it.entry.Some? && it.nextEntry.Some?
    ensures TakesOne(h, d, it, k)
  {
    var t := TableAt(d, it.table);
    var c := t.buckets[it.index];
    var i := Pos(c, it.nextEntry.value);
    StepInChain(h, t, it.index, i, k);
    if i + 1 < |c| { PosOfEntry(h, t, it.index, i + 1); }
  }

  lemma PosOfEntry<K(!new), V(!new)>(h: K -> nat, t: Ht<K, V>, b: nat, i: nat)
    requires TableOk(h, t) && b < |t.buckets| && i < |t.buckets[b]|
    ensures Pos(t.buckets[b], t.buckets[b][i].key) == i
    ensures LookupIn(h, t, t.buckets[b][i].key) == Some(t.buckets[b][i].val)
  {
    PosUnique(t.buckets[b], t.buckets[b][i].key, i);
  }

  /** The entry at the head of the bucket a scan stops at. */
  lemma HeadOfBucket<K(!new), V(!new)>(h: K -> nat, d: Dict<K, V>, table: nat, index: nat, k: K)
    requires Inv(h, d) && table <= 1 && (table == 1 ==> d.Rehashing()) && index < |TableAt(d, table).buckets|
    requires TableAt(d, table).buckets[index] != []
    ensures var c := TableAt(d, table).buckets[index];
      var it, from := Iter(table, index, Some(c[0].key), After(c, 0)), Iter(table, index - 1, None, None);
      && IterOk(d, it) && Lookup(h, d, c[0].key) == Some(c[0].val)
      && Ahead(h, d, from, c[0].key)
      && (Ahead(h, d, it, k) <==> Ahead(h, d, from, k) && k != c[0].key)
  {
    var t := TableAt(d, table);
    var c := t.buckets[index];
    AtBucket(h, d, table, index, k);
    AtBucket(h, d, table, index, c[0].key);
    StepInChain(h, t, index, 0, k);
    PosOfEntry(h, t, index, 0);
    if 1 < |c| { PosOfEntry(h, t, index, 1); }
  }

  lemma CountingChangesNothing<K(!new), V(!new)>(h: K -> nat, d: Dict<K, V>, n: nat, it: Iter<K>, k: K)
    requires Inv(h, d)
    ensures Inv(h, d.(iterators := n)) && Lookup(h, d.(iterators := n), k) == Lookup(h, d, k)
    ensures Ahead(h, d.(iterators := n), it, k) == Ahead(h, d, it, k)
    ensures IterOk(d, it) ==> IterOk(d.(iterators := n), it)
  {
  }

  lemma AheadIgnoresEntry<K(!new), V(!new)>(h: K -> nat, d: Dict<K, V>, it: Iter<K>, k: K)
    ensures Ahead(h, d, it, k) == Ahead(h, d, it.(entry := None), k)
  {
  }

  lemma NothingAtEnd<K(!new), V(!new)>(h: K -> nat, d: Dict<K, V>, it: Iter<K>, k: K)
    requires Inv(h, d) && it.table <= 1 && (d.Rehashing() ==> it.table == 1)
    requires it.index >= |TableAt(d, it.table).buckets|
    ensures !Ahead(h, d, it, k)
  {
  }

  lemma NextByScan<K(!new), V(!new)>(h: K -> nat, d: Dict<K, V>, it: Iter<K>, k: K)
    requires Inv(h, d) && IterOk(d, it) && it.nextEntry == None
    ensures TakesOne(h, d, it, k)
  {
    hide Ahead, Lookup, Inv, Scan, Pos, LookupIn, TableOk, Slot, Get;
    var d' := Next(d, it).0;
    var (found, table, index) := Scan(d', it.table, it.index + 1);
    CountingChangesNothing(h, d, d'.iterators, it, k);
    AheadIgnoresEntry(h, d', it, k);
    ScanSkipsNothing(h, d', it.table, it.index + 1, k);
    if found {
      var e := TableAt(d', table).buckets[index][0];
      CountingChangesNothing(h, d, d'.iterators, it, e.key);
      AheadIgnoresEntry(h, d', it, e.key);
      ScanSkipsNothing(h, d', it.table, it.index + 1, e.key);
      HeadOfBucket(h, d', table, index, k);
    } else {
      NothingAtEnd(h, d', Iter(table, index, None, None), k);
    }
  }

  lemma NextKeepsOrder<K(!new), V(!new)>(h: K -> nat, d: Dict<K, V>, it: Iter<K>)
    requires Inv(h, d) && IterOk(d, it)
    ensures var (d', it', r) := Next(d, it);
      && Inv(h, d') && IterOk(d', it') && 0 <= it'.index
      && d'.iterators == (if it.nextEntry == None && it.index == -1 && it.table == 0 then d.iterators + 1
          else d.iterators)
  {
    hide Ahead, Scan;
    if it.nextEntry.Some? {
      NextInChain(h, d, it, it.nextEntry.value);
    } else {
      var (d', it', r) := Next(d, it);
      CountingKeeps(h, d, d'.iterators);
      InvShape(h, d');
      if r.Some? { NextByScan(h, d, it, r.value.key); }
    }
  }

  /** dictNext returns an entry that lies ahead, if any does, with its current value, and
      takes it and nothing else from what lies ahead. */
  lemma NextTakesOne<K(!new), V(!new)>(h: K -> nat, d: Dict<K, V>, it: Iter<K>, k: K)
    requires Inv(h, d) && IterOk(d, it)
    ensures TakesOne(h, d, it, k)
  {
    hide TakesOne;
    if it.nextEntry.Some? { NextInChain(h, d, it, k); } else { NextByScan(h, d, it, k); }
  }

  // ------------------------------------------------------------------ what the caller may do in between

  /** The saved next entry, if the iterator stands in this table, is in its bucket. */
  ghost predicate Saved<K, V>(t: Ht<K, V>, index: int, next: Option<K>) {
    next.Some? ==> 0 <= index < |t.buckets| && Pos(t.buckets[index], next.value) < |t.buckets[index]|
  }

  lemma LinkKeepsAhead<K(!new), V(!new)>(h: K -> nat, t: Ht<K, V>, e: Entry<K, V>, index: int, next: Option<K>, q: K)
    requires TableOk(h, t) && t.buckets != [] && LookupIn(h, t, e.key) == None && Saved(t, index, next)
    ensures var t' := Link(t, Slot(h, t, e.key), e);
      Saved(t', index, next) && (q != e.key ==> (AheadIn(h, t', index, next, q) <==> AheadIn(h, t, index, next, q)))
  {
    hide TableOk, Pos, And;
    var b := Slot(h, t, e.key);
    var c := t.buckets[b];
    LinkOk(h, t, e);
    BucketKeys(h, t, b);
    assert Pos([e], q) == if q == e.key then 0 else 1;
    PosConcat([e], c, q);
    if next.Some? {
      SavedIsStored(h, t, index, next.value);
      PosConcat([e], c, next.value);
    }
  }

  lemma SavedIsStored<K(!new), V(!new)>(h: K -> nat, t: Ht<K, V>, index: int, k: K)
    requires TableOk(h, t) && Saved(t, index, Some(k))
    ensures LookupIn(h, t, k).Some? && Slot(h, t, k) == index
  {
  }

  lemma RemoveKeepsAhead<K(!new), V(!new)>(h: K -> nat, t: Ht<K, V>, k: K, index: int, next: Option<K>, q: K)
    requires TableOk(h, t) && LookupIn(h, t, k).Some? && Saved(t, index, next) && next != Some(k)
    ensures var t' := Remove(h, t, k);
      && Saved(t', index, next)
      && (AheadIn(h, t', index, next, q) <==> AheadIn(h, t, index, next, q) && q != k)
  {
    hide TableOk, Pos, And, LookupIn;
    Stored(h, t, k);
    Stored(h, t, q);
    var b := Slot(h, t, k);
    var c := t.buckets[b];
    DistinctBucket(h, t, b);
    PosWithout(c, Pos(c, k), q);
    if next.Some? { PosWithout(c, Pos(c, k), next.value); }
    Stored(h, Remove(h, t, k), q);
  }

  lemma Stored<K, V>(h: K -> nat, t: Ht<K, V>, k: K)
    ensures LookupIn(h, t, k).Some? <==>
            t.buckets != [] && Pos(t.buckets[Slot(h, t, k)], k) < |t.buckets[Slot(h, t, k)]|
  {
  }

  lemma DistinctBucket<K(!new), V>(h: K -> nat, t: Ht<K, V>, b: nat)
    requires TableOk(h, t) && b < |t.buckets|
    ensures Distinct(t.buckets[b])
  {
  }

  lemma AssignKeepsAhead<K(!new), V(!new)>(h: K -> nat, t: Ht<K, V>, k: K, v: V, index: int, next: Option<K>, q: K)
    requires LookupIn(h, t, k).Some? && Saved(t, index, next)
    ensures var t' := Assign(h, t, k, v);
      Saved(t', index, next) && (AheadIn(h, t', index, next, q) <==> AheadIn(h, t, index, next, q))
  {
    hide Pos, And;
    var b := Slot(h, t, k);
    var c := t.buckets[b];
    var c' := c[Pos(c, k) := Entry(k, v)];
    PosUnique(c', q, Pos(c, q));
    if next.Some? { PosUnique(c', next.value, Pos(c, next.value)); }
  }

  /** Growing does not disturb an iterator: at most it adds an empty second table. */
  lemma GrowKeepsAhead<K(!new), V(!new)>(h: K -> nat, d: Dict<K, V>, it: Iter<K>, canResize: bool, q: K)
    requires Inv(h, d) && IterOk(d, it) && d.iterators > 0
    ensures IterOk(Prepared(h, d, canResize), it)
    ensures Ahead(h, Prepared(h, d, canResize), it, q) == Ahead(h, d, it, q)
  {
    hide TableOk, And;
    var size := |d.ht0.buckets|;
    var larger := if size > d.ht0.used then size else d.ht0.used;
    EmptyTableHasNothing<K, V>(h, NextPower(larger * 2, INITIAL_SIZE), q);
    EmptyTableHasNothing<K, V>(h, INITIAL_SIZE, q);
  }

  lemma EmptyTableHasNothing<K, V>(h: K -> nat, size: nat, q: K)
    ensures LookupIn(h, NewTable<K, V>(size), q) == None
  {
  }

  lemma AddKeepsAhead<K(!new), V(!new)>(h: K -> nat, d: Dict<K, V>, it: Iter<K>, k: K, v: V, canResize: bool, q: K)
    requires Inv(h, d) && IterOk(d, it) && d.iterators > 0
    ensures var (d', ok) := Add(h, d, k, v, canResize);
      IterOk(d', it) && (!(ok && q == k) ==> Ahead(h, d', it, q) == Ahead(h, d, it, q))
  {
    PreparedKeeps(h, d, canResize);
    GrowKeepsAhead(h, d, it, canResize, q);
    var d1 := Prepared(h, d, canResize);
    KeyIndexFitsTarget(h, d1, k);
    if Lookup(h, d1, k) == None {
      var e := Entry(k, v);
      if d1.Rehashing() {
        LinkOk(h, d1.ht1, e);
        if it.table == 1 { LinkKeepsAhead(h, d1.ht1, e, it.index, it.nextEntry, q); }
      } else {
        LinkKeepsAhead(h, d1.ht0, e, it.index, it.nextEntry, q);
      }
    }
  }

  lemma OverwriteKeepsAhead<K(!new), V(!new)>(h: K -> nat, d: Dict<K, V>, it: Iter<K>, k: K, v: V, q: K)
    requires Inv(h, d) && IterOk(d, it)
    ensures IterOk(Overwrite(h, d, k, v), it) && (Ahead(h, Overwrite(h, d, k, v), it, q) <==> Ahead(h, d, it, q))
  {
    if LookupIn(h, d.ht0, k).Some? {
      if it.table == 0 { AssignKeepsAhead(h, d.ht0, k, v, it.index, it.nextEntry, q); }
    } else if LookupIn(h, d.ht1, k).Some? {
      AssignOk(h, d.ht1, k, v);
      if it.table == 1 { AssignKeepsAhead(h, d.ht1, k, v, it.index, it.nextEntry, q); }
    }
  }

  /** Deleting any entry but the saved next one only takes that entry from what lies ahead. */
  lemma DropKeepsAhead<K(!new), V(!new)>(h: K -> nat, d: Dict<K, V>, it: Iter<K>, k: K, q: K)
    requires Inv(h, d) && IterOk(d, it) && it.nextEntry != Some(k)
    ensures IterOk(Drop(h, d, k), it) && (Ahead(h, Drop(h, d, k), it, q) <==> Ahead(h, d, it, q) && q != k)
  {
    if LookupIn(h, d.ht0, k).Some? {
      if it.table == 0 { RemoveKeepsAhead(h, d.ht0, k, it.index, it.nextEntry, q); }
    } else if LookupIn(h, d.ht1, k).Some? {
      RemoveOk(h, d.ht1, k);
      if it.table == 1 { RemoveKeepsAhead(h, d.ht1, k, it.index, it.nextEntry, q); }
    }
  }

  // ------------------------------------------------------------------ whole iterations

  /** A caller's step: a call of dictNext, or one of the operations it may interleave. */
  datatype Step<K, V> =
    | CallNext
    | CallFind(k: K)
    | CallAdd(k: K, v: V, canResize: bool)
    | CallReplace(k: K, v: V, canResize: bool)
    | CallDelete(k: K)

  /** A safe iterator at work: the table, the iterator, the keys returned so far, and whether dictNext has
      answered NULL. Of the keys deleted on the way, lost are those that had not been returned by then, gone
      those that had, and back those of gone that have been added again. */
  datatype Walk<K, V> = Walk(
    d: Dict<K, V>, it: Iter<K>, returned: seq<K>, lost: set<K>, gone: set<K>, back: set<K>, done: bool)

  function Begin<K, V>(d: Dict<K, V>): Walk<K, V> { Walk(d, Fresh(), [], {}, {}, {}, false) }

  /** A safe iterator starts its walk with dictNext, and its caller does not delete the
      entry it has saved as the next one. */
  ghost predicate Legal<K, V>(w: Walk<K, V>, s: Step<K, V>) {
    && !w.done
    && (w.it == Fresh() ==> s.CallNext?)
    && (s.CallDelete? ==> w.it.nextEntry != Some(s.k))
  }

  /** The effect of a step; a walk that is not in order, which never arises, is left alone. */
  ghost function Take<K(!new), V(!new)>(h: K -> nat, w: Walk<K, V>, s: Step<K, V>): Walk<K, V> {
    if !IterOk(w.d, w.it) then w
    else match s
    case CallNext =>
      var (d', it', r) := Next(w.d, w.it);
      if r == None then w.(d := d', it := it', done := true)
      else w.(d := d', it := it', returned := w.returned + [r.value.key])
    case CallFind(k) => w.(d := Find(h, w.d, k).0)
    case CallAdd(k, v, canResize) => Brought(w, k).(d := Add(h, w.d, k, v, canResize).0)
    case CallReplace(k, v, canResize) => Brought(w, k).(d := Replace(h, w.d, k, v, canResize).0)
    case CallDelete(k) => Taken(w, k).(d := Delete(h, w.d, k).0)
  }

  /** Which keys are back after k has been added. */
  ghost function Brought<K, V>(w: Walk<K, V>, k: K): Walk<K, V> {
    if k in w.gone then w.(back := w.back + {k}) else w
  }

  /** Which keys are lost or gone after k has been deleted: its turn has come if it has been returned. */
  ghost function Taken<K, V>(w: Walk<K, V>, k: K): Walk<K, V> {
    if k in w.returned then w.(gone := w.gone + {k}) else w.(lost := w.lost + {k})
  }

  /** How often k has been returned, plus one if its entry lies ahead. */
  ghost function Claims<K(!new), V(!new)>(h: K -> nat, w: Walk<K, V>, k: K): nat {
    multiset(w.returned)[k] + if Ahead(h, w.d, w.it, k) then 1 else 0
  }

  /** The account of one key. If it is not back, it has been returned or lies ahead at most once altogether,
      exactly once if it was there at the start and was not deleted before its turn, and never again when
      it was deleted after it. */
  ghost predicate Accounted<K(!new), V(!new)>(h: K -> nat, start: set<K>, w: Walk<K, V>, k: K) {
    && (k in w.back ==> k in w.gone) && (k in w.gone ==> k in w.returned)
    && (k !in w.back ==>
      && Claims(h, w, k) <= 1
      && (Claims(h, w, k) == 1 && k !in w.gone ==> Lookup(h, w.d, k).Some?)
      && (k in w.gone ==> Lookup(h, w.d, k) == None && !Ahead(h, w.d, w.it, k))
      && (k in start && k !in w.lost ==> Claims(h, w, k) == 1)
      && (w.done ==> !Ahead(h, w.d, w.it, k)))
  }

  ghost predicate WalkOk<K(!new), V(!new)>(h: K -> nat, start: set<K>, w: Walk<K, V>) {
    && Inv(h, w.d) && IterOk(w.d, w.it)
    && (w.it == Fresh() || (0 <= w.it.index && w.d.iterators > 0))
    && (forall k :: Accounted(h, start, w, k))
  }

  lemma StartOk<K(!new), V(!new)>(h: K -> nat, d: Dict<K, V>)
    requires Inv(h, d)
    ensures WalkOk(h, Contents(h, d).Keys, Begin(d))
  {
    InvShape(h, d);
    forall k ensures Accounted(h, Contents(h, d).Keys, Begin(d), k) {
      ContentsIsLookup(h, d, k);
    }
  }

  lemma NextAccounts<K(!new), V(!new)>(h: K -> nat, start: set<K>, w: Walk<K, V>, k: K)
    requires Inv(h, w.d) && IterOk(w.d, w.it) && !w.done && Accounted(h, start, w, k)
    ensures Accounted(h, start, Take(h, w, CallNext), k)
  {
    hide Ahead, Lookup, Next, Inv, IterOk;
    NextTakesOne(h, w.d, w.it, k);
  }

  /** A step that keeps what lies ahead of k, and k's presence, keeps its account. */
  lemma SameClaims<K(!new), V(!new)>(h: K -> nat, start: set<K>, w: Walk<K, V>, w': Walk<K, V>, k: K)
    requires Accounted(h, start, w, k)
    requires w' == w.(d := w'.d)
    requires Ahead(h, w'.d, w.it, k) == Ahead(h, w.d, w.it, k)
    requires Lookup(h, w.d, k).Some? <==> Lookup(h, w'.d, k).Some?
    ensures Accounted(h, start, w', k)
  {
  }

  lemma FindAccounts<K(!new), V(!new)>(h: K -> nat, start: set<K>, w: Walk<K, V>, q: K, k: K)
    requires Inv(h, w.d) && IterOk(w.d, w.it) && w.d.iterators > 0 && Accounted(h, start, w, k)
    ensures Find(h, w.d, q).0 == w.d && Accounted(h, start, Take(h, w, CallFind(q)), k)
  {
  }

  /** A new key has no claim before it is added, and may have one afterwards. */
  lemma AddAccounts<K(!new), V(!new)>(h: K -> nat, start: set<K>, w: Walk<K, V>, q: K, v: V, canResize: bool, k: K)
    requires Inv(h, w.d) && IterOk(w.d, w.it) && w.d.iterators > 0 && !w.done && Accounted(h, start, w, k)
    ensures var w' := Take(h, w, CallAdd(q, v, canResize));
      Inv(h, w'.d) && IterOk(w'.d, w'.it) && Accounted(h, start, w', k)
  {
    hide Ahead, Lookup, Inv, IterOk, Add;
    AddRefines(h, w.d, q, v, canResize);
    AddKeepsAhead(h, w.d, w.it, q, v, canResize, k);
  }

  lemma ReplaceAccounts<K(!new), V(!new)>(h: K -> nat, start: set<K>, w: Walk<K, V>, q: K, v: V, canResize: bool, k: K)
    requires Inv(h, w.d) && IterOk(w.d, w.it) && w.d.iterators > 0 && !w.done && Accounted(h, start, w, k)
    ensures var w' := Take(h, w, CallReplace(q, v, canResize));
      Inv(h, w'.d) && IterOk(w'.d, w'.it) && Accounted(h, start, w', k)
  {
    hide Ahead, Lookup, Inv, Add, Overwrite, Find;
    AddAccounts(h, start, w, q, v, canResize, k);
    AddRefines(h, w.d, q, v, canResize);
    var (d1, added) := Add(h, w.d, q, v, canResize);
    if !added {
      var w1 := Brought(w, q).(d := d1);
      FindAccounts(h, start, w1, q, k);
      OverwriteOk(h, d1, q, v);
      OverwriteKeepsAhead(h, d1, w.it, q, v, k);
      SameClaims(h, start, w1, w1.(d := Overwrite(h, d1, q, v)), k);
    }
  }

  lemma DeleteAccounts<K(!new), V(!new)>(h: K -> nat, start: set<K>, w: Walk<K, V>, q: K, k: K)
    requires Inv(h, w.d) && IterOk(w.d, w.it) && w.d.iterators > 0 && !w.done && Accounted(h, start, w, k)
    requires w.it.nextEntry != Some(q)
    ensures var w' := Take(h, w, CallDelete(q));
      Inv(h, w'.d) && IterOk(w'.d, w'.it) && Accounted(h, start, w', k)
  {
    hide Ahead, Lookup, Drop, Delete, Inv, IterOk;
    DeleteIsDrop(h, w.d, q);
    DropOk(h, w.d, q);
    DropKeepsAhead(h, w.d, w.it, q, k);
  }

  /** While an iterator is under way, deleting migrates nothing. */
  lemma DeleteIsDrop<K(!new), V(!new)>(h: K -> nat, d: Dict<K, V>, k: K)
    requires Inv(h, d) && d.iterators > 0
    ensures Shape(d) && Delete(h, d, k).0 == Drop(h, d, k)
  {
    InvShape(h, d);
  }

  lemma TakeKeeps<K(!new), V(!new)>(h: K -> nat, start: set<K>, w: Walk<K, V>, s: Step<K, V>)
    requires WalkOk(h, start, w) && Legal(w, s)
    ensures WalkOk(h, start, Take(h, w, s))
  {
    var w' := Take(h, w, s);
    TakeKeepsOrder(h, start, w, s);
    forall k ensures Accounted(h, start, w', k) {
      TakeAccounts(h, start, w, s, k);
    }
  }

  lemma TakeAccounts<K(!new), V(!new)>(h: K -> nat, start: set<K>, w: Walk<K, V>, s: Step<K, V>, k: K)
    requires WalkOk(h, start, w) && Legal(w, s)
    ensures Accounted(h, start, Take(h, w, s), k)
  {
    hide Accounted, Inv, IterOk, Take;
    match s {
      case CallNext => NextAccounts(h, start, w, k);
      case CallFind(q) => FindAccounts(h, start, w, q, k);
      case CallAdd(q, v, canResize) => AddAccounts(h, start, w, q, v, canResize, k);
      case CallReplace(q, v, canResize) => ReplaceAccounts(h, start, w, q, v, canResize, k);
      case CallDelete(q) => DeleteAccounts(h, start, w, q, k);
    }
  }

  /** No step disorders the table or the iterator; the first dictNext begins the freeze on migration, and no
      step ends it. */
  lemma TakeKeepsOrder<K(!new), V(!new)>(h: K -> nat, start: set<K>, w: Walk<K, V>, s: Step<K, V>)
    requires WalkOk(h, start, w) && Legal(w, s)
    ensures var w' := Take(h, w, s);
      && Inv(h, w'.d) && IterOk(w'.d, w'.it) && 0 <= w'.it.index
      && w'.d.iterators == (if w.it == Fresh() then w.d.iterators + 1 else w.d.iterators)
      && w'.d.iterators > 0
  {
    hide Ahead, Accounted, Inv, Next, Find, Add, Replace, Delete;
    match s {
      case CallNext => NextKeepsOrder(h, w.d, w.it);
      case CallFind(q) => FindAccounts(h, start, w, q, q);
      case CallAdd(q, v, canResize) => AddAccounts(h, start, w, q, v, canResize, q);
      case CallReplace(q, v, canResize) => ReplaceAccounts(h, start, w, q, v, canResize, q);
      case CallDelete(q) => DeleteAccounts(h, start, w, q, q);
    }
  }

  ghost function TakeAll<K(!new), V(!new)>(h: K -> nat, w: Walk<K, V>, steps: seq<Step<K, V>>): Walk<K, V>
    decreases |steps|
  {
    if steps == [] then w else TakeAll(h, Take(h, w, steps[0]), steps[1..])
  }

  ghost predicate AllLegal<K(!new), V(!new)>(h: K -> nat, w: Walk<K, V>, steps: seq<Step<K, V>>)
    decreases |steps|
  {
    steps == [] || (Legal(w, steps[0]) && AllLegal(h, Take(h, w, steps[0]), steps[1..]))
  }

  lemma {:induction false} TakeAllKeeps<K(!new), V(!new)>(h: K -> nat, start: set<K>, w: Walk<K, V>,
                                                          steps: seq<Step<K, V>>)
    requires WalkOk(h, start, w) && AllLegal(h, w, steps)
    ensures WalkOk(h, start, TakeAll(h, w, steps))
    decreases |steps|
  {
    hide WalkOk, Legal, Take;
    if steps != [] {
      TakeKeeps(h, start, w, steps[0]);
      TakeAllKeeps(h, start, Take(h, w, steps[0]), steps[1..]);
    }
  }

  /** Over every legal run of a safe iterator: a key is returned at most once, even when it is deleted
      after that, unless it is added again in between; and when dictNext answers NULL, every key that was
      there at the start and was not deleted before its turn has been returned, exactly once unless it was
      added again, whether the walk began before, during or after a rehashing. */
  lemma ExactlyOnce<K(!new), V(!new)>(h: K -> nat, d: Dict<K, V>, steps: seq<Step<K, V>>, k: K)
    requires Inv(h, d) && AllLegal(h, Begin(d), steps)
    ensures var w := TakeAll(h, Begin(d), steps);
      && Inv(h, w.d)
      && (k !in w.back ==> multiset(w.returned)[k] <= 1)
      && (k !in w.lost && k in Contents(h, d) && w.done ==>
           k in w.returned && (k !in w.back ==> multiset(w.returned)[k] == 1))
  {
    hide Ahead, Inv, Legal, Take;
    StartOk(h, d);
    TakeAllKeeps(h, Contents(h, d).Keys, Begin(d), steps);
    assert Accounted(h, Contents(h, d).Keys, TakeAll(h, Begin(d), steps), k);
  }
}
