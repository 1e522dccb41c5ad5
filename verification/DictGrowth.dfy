/** How the hash table of dict.c grows: rehashing comes to its end, and buckets do not fall behind entries. */
module DictGrowth {
  import opened Bytes
  import opened DictModel

  /** A step moves a bucket with at least one entry, or finds that there is none left and ends the rehashing. */
  lemma StepMoves<K(!new), V(!new)>(h: K -> nat, d: Dict<K, V>)
    requires Inv(h, d) && d.Rehashing()
    ensures var (d', more) := RehashStep(h, d);
      if d.ht0.used == 0 then !more && !d'.Rehashing() && d'.ht0 == d.ht1
      else
        && more && d'.Rehashing() && d'.ht0.used < d.ht0.used
        && d'.ht0.used + d'.ht1.used == d.ht0.used + d.ht1.used
        && |d'.ht0.buckets| == |d.ht0.buckets| && |d'.ht1.buckets| == |d.ht1.buckets|
  {
    hide Inv, MoveChain;
    InvShape(h, d);
    if d.ht0.used > 0 {
      ScanStops(h, d);
      var i := FirstFull(d.ht0.buckets, d.rehashidx);
      MoveChainUsed(h, d.ht0.buckets[i], d.ht1);
    }
  }

  /** dictRehash with one step more than there are entries to move always comes to the end. */
  lemma {:induction false} RehashEnds<K(!new), V(!new)>(h: K -> nat, d: Dict<K, V>, n: nat)
    requires Inv(h, d) && n > d.ht0.used
    ensures Shape(d) && var (d', more) := Rehash(h, d, n); !more && !d'.Rehashing()
    decreases n
  {
    hide Inv, RehashStep;
    InvShape(h, d);
    if d.Rehashing() {
      StepMoves(h, d);
      RehashStepKeeps(h, d);
      if d.ht0.used > 0 { RehashEnds(h, RehashStep(h, d).0, n - 1); }
    }
  }

  /** An operation a client asks for, as against resizing and iterating. */
  predicate Plain<K, V>(op: Op<K, V>) { op.DoFind? || op.DoAdd? || op.DoReplace? || op.DoDelete? }

  /** From d to e the rehashing has come at least a step further, or to its end. */
  predicate Further<K, V>(d: Dict<K, V>, e: Dict<K, V>) {
    if e.Rehashing() then e.ht0.used < d.ht0.used && |e.ht1.buckets| == |d.ht1.buckets|
    else |e.ht0.buckets| == |d.ht1.buckets|
  }

  lemma MigrateFurther<K(!new), V(!new)>(h: K -> nat, d: Dict<K, V>)
    requires Inv(h, d) && d.Rehashing() && d.iterators == 0
    ensures Shape(d) && Further(d, Migrate(h, d)) && Inv(h, Migrate(h, d))
    ensures d.ht0.used > 0 ==> Migrate(h, d).Rehashing()
  {
    hide Inv, RehashStep;
    InvShape(h, d);
    StepMoves(h, d);
    MigrateKeeps(h, d);
  }

  /** Without an iterator, every operation takes the rehashing a step further, until there is nothing left to move. */
  lemma OperationsMigrate<K(!new), V(!new)>(h: K -> nat, d: Dict<K, V>, op: Op<K, V>)
    requires Inv(h, d) && d.Rehashing() && d.iterators == 0 && Plain(op) && d.ht0.used > 0
    ensures Shape(d) && Further(d, Apply(h, d, op).0)
  {
    hide Inv, Migrate, Drop, Overwrite, LookupIn, KeyIndex;
    InvShape(h, d);
    MigrateFurther(h, d);
    var m := Migrate(h, d);
    match op
    case DoFind(k) =>
    case DoAdd(k, v, canResize) => AddFurther(h, d, k, v, canResize);
    case DoReplace(k, v, canResize) =>
      AddFurther(h, d, k, v, canResize);
      AddRefines(h, d, k, v, canResize);
      var d1 := Add(h, d, k, v, canResize).0;
      InvShape(h, d1);
      MigrateFurther(h, d1);
      OverwriteCounts(h, Find(h, d1, k).0, k, v);
    case DoDelete(k) => DropCounts(h, m, k);
  }

  lemma AddFurther<K(!new), V(!new)>(h: K -> nat, d: Dict<K, V>, k: K, v: V, canResize: bool)
    requires Inv(h, d) && d.Rehashing() && d.iterators == 0 && d.ht0.used > 0
    ensures Shape(d) && Further(d, Add(h, d, k, v, canResize).0) && Add(h, d, k, v, canResize).0.Rehashing()
  {
    hide Inv, Migrate, KeyIndex;
    MigrateFurther(h, d);
    KeyIndexFits(h, Migrate(h, d), k);
  }

  /** Between two operations there is at most one entry more than there are buckets; while entries are moved, the new
      table has room for as many as may be added until that is done. */
  predicate Roomy<K, V>(d: Dict<K, V>) {
    && d.iterators == 0
    && if d.Rehashing() then d.ht0.used + (d.ht0.used + d.ht1.used) <= |d.ht1.buckets| + 1
       else d.ht0.used <= |d.ht0.buckets| + 1
  }

  /** The table is left to itself: no iterator, no resizing by the caller, and growing is allowed. */
  predicate Undisturbed<K, V>(op: Op<K, V>) {
    match op
    case DoAdd(_, _, canResize) => canResize
    case DoReplace(_, _, canResize) => canResize
    case DoExpand(_) => false
    case SetIterators(_) => false
    case _ => true
  }

  lemma MigrateRoomy<K(!new), V(!new)>(h: K -> nat, d: Dict<K, V>)
    requires Inv(h, d) && Roomy(d)
    ensures Shape(d) && var d' := Migrate(h, d);
      && Roomy(d')
      && (d'.Rehashing() ==> d'.ht0.used + (d'.ht0.used + d'.ht1.used) <= |d'.ht1.buckets|)
  {
    hide Inv, RehashStep;
    InvShape(h, d);
    if d.Rehashing() { StepMoves(h, d); }
  }

  /** Where an entry can be added, another one finds room. */
  lemma PreparedRoomy<K(!new), V(!new)>(h: K -> nat, d: Dict<K, V>)
    requires Inv(h, d) && Roomy(d)
    ensures Shape(d) && var d' := Prepared(h, d, true);
      && d'.iterators == 0
      && if d'.Rehashing() then d'.ht0.used + (d'.ht0.used + d'.ht1.used) <= |d'.ht1.buckets|
         else d'.ht0.used <= |d'.ht0.buckets|
  {
    hide Inv, Migrate;
    MigrateRoomy(h, d);
    MigrateKeeps(h, d);
    UnusedIsEmpty(h, Migrate(h, d));
  }

  lemma UnusedIsEmpty<K(!new), V(!new)>(h: K -> nat, d: Dict<K, V>)
    requires Inv(h, d)
    ensures d.ht0.buckets == [] ==> d.ht0.used == 0
  {
  }

  lemma AddRoomy<K(!new), V(!new)>(h: K -> nat, d: Dict<K, V>, k: K, v: V)
    requires Inv(h, d) && Roomy(d)
    ensures Shape(d) && Roomy(Add(h, d, k, v, true).0)
  {
    hide Inv, Prepared, KeyIndex;
    PreparedRoomy(h, d);
    PreparedKeeps(h, d, true);
    KeyIndexFits(h, Prepared(h, d, true), k);
  }

  lemma KeyIndexFits<K(!new), V(!new)>(h: K -> nat, d: Dict<K, V>, k: K)
    requires Inv(h, d) && d.ht0.buckets != []
    ensures Shape(d) && KeyIndex(h, d, k) != -1 ==>
      0 <= KeyIndex(h, d, k) < if d.Rehashing() then |d.ht1.buckets| else |d.ht0.buckets|
  {
    hide Inv, LookupIn, And;
    InvShape(h, d);
  }

  lemma {:induction false} RehashRoomy<K(!new), V(!new)>(h: K -> nat, d: Dict<K, V>, n: nat)
    requires Inv(h, d) && Roomy(d)
    ensures Shape(d) && Roomy(Rehash(h, d, n).0)
    decreases n
  {
    hide Inv, RehashStep;
    InvShape(h, d);
    if d.Rehashing() && n > 0 {
      StepMoves(h, d);
      RehashStepKeeps(h, d);
      if RehashStep(h, d).1 { RehashRoomy(h, RehashStep(h, d).0, n - 1); }
    }
  }

  /** What overwriting and dropping do to the counters. */
  lemma DropCounts<K(!new), V(!new)>(h: K -> nat, d: Dict<K, V>, k: K)
    requires Shape(d)
    ensures var d' := Drop(h, d, k);
      && d'.Rehashing() == d.Rehashing() && d'.ht0.used <= d.ht0.used && d'.ht1.used <= d.ht1.used
      && |d'.ht0.buckets| == |d.ht0.buckets| && |d'.ht1.buckets| == |d.ht1.buckets|
  {
    hide Pos, And;
  }

  lemma OverwriteCounts<K(!new), V(!new)>(h: K -> nat, d: Dict<K, V>, k: K, v: V)
    requires Shape(d)
    ensures var d' := Overwrite(h, d, k, v);
      && d'.Rehashing() == d.Rehashing() && d'.ht0.used == d.ht0.used && d'.ht1.used == d.ht1.used
      && |d'.ht0.buckets| == |d.ht0.buckets| && |d'.ht1.buckets| == |d.ht1.buckets|
  {
    hide Pos, And;
  }

  lemma ApplyRoomy<K(!new), V(!new)>(h: K -> nat, d: Dict<K, V>, op: Op<K, V>)
    requires Inv(h, d) && Roomy(d) && Undisturbed(op)
    ensures Shape(d) && Roomy(Apply(h, d, op).0)
  {
    hide Inv, Migrate, Add, Drop, Overwrite, Rehash, LookupIn;
    InvShape(h, d);
    MigrateRoomy(h, d);
    match op
    case DoFind(k) =>
    case DoAdd(k, v, _) => AddRoomy(h, d, k, v);
    case DoReplace(k, v, _) =>
      AddRoomy(h, d, k, v);
      AddRefines(h, d, k, v, true);
      var d1 := Add(h, d, k, v, true).0;
      MigrateRoomy(h, d1);
      InvShape(h, d1);
      MigrateKeeps(h, d1);
      OverwriteCounts(h, Find(h, d1, k).0, k, v);
    case DoDelete(k) =>
      MigrateKeeps(h, d);
      DropCounts(h, Migrate(h, d), k);
    case DoRehash(n) => RehashRoomy(h, d, n);
  }

  /** Over every run of a table that is left to itself, entries outnumber the buckets by one at most; while they are
      being moved, those of the new table. */
  lemma {:induction false} RunRoomy<K(!new), V(!new)>(h: K -> nat, d: Dict<K, V>, ops: seq<Op<K, V>>)
    requires Inv(h, d) && Roomy(d) && forall i :: 0 <= i < |ops| ==> Undisturbed(ops[i])
    ensures Shape(d) && Roomy(Run(h, d, ops).0)
    decreases |ops|
  {
    hide Inv, Roomy, Apply, Undisturbed;
    InvShape(h, d);
    if ops != [] {
      ApplyRoomy(h, d, ops[0]);
      ApplyRefines(h, d, ops[0]);
      RunRoomy(h, Apply(h, d, ops[0]).0, ops[1..]);
    }
  }
}
