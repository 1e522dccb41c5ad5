/** The incrementally rehashed hash table of dict.c, on values: two tables of chains,
    of which the second exists only while the first is being migrated into it. */
module DictModel {
  import opened Bytes

  // ------------------------------------------------------------------ tables

  datatype Entry<K, V> = Entry(key: K, val: V)

  /** A bucket's chain, its head first. */
  type Chain<K, V> = seq<Entry<K, V>>

  /** dictht. A table that was never allocated has no bucket. */
  datatype Ht<K, V> = Ht(buckets: seq<Chain<K, V>>, used: int)

  /** rehashidx is -1 when no rehashing is in progress; iterators counts the safe
      iterators under way. */
  datatype Dict<K, V> = Dict(ht0: Ht<K, V>, ht1: Ht<K, V>, rehashidx: int, iterators: nat) {
    predicate Rehashing() { rehashidx != -1 }
  }

  const INITIAL_SIZE := 4
  const FORCE_RESIZE_RATIO := 5

  function NoTable<K, V>(): Ht<K, V> { Ht([], 0) }

  function NewTable<K, V>(size: nat): Ht<K, V> { Ht(seq(size, i => []), 0) }

  /** The bitwise and of two naturals. */
  function And(x: nat, y: nat): (r: nat)
    ensures r <= y
  {
    if x == 0 || y == 0 then 0
    else (if x % 2 == 1 && y % 2 == 1 then 1 else 0) + 2 * And(x / 2, y / 2)
  }

  ghost predicate PowerOfTwo(n: nat) {
    n == 1 || (n > 1 && n % 2 == 0 && PowerOfTwo(n / 2))
  }

  /** hash & sizemask is the hash modulo the size, the size being a power of two. */
  lemma {:induction false} MaskIsModulo(x: nat, size: nat)
    requires PowerOfTwo(size)
    ensures And(x, size - 1) == x % size
  {
    if size > 1 {
      var half := size / 2;
      MaskIsModulo(x / 2, half);
      AndOdd(x, half - 1);
      ModuloHalves(x, half);
      assert 2 * half == size && 2 * (half - 1) + 1 == size - 1;
    }
  }

  lemma AndOdd(x: nat, m: nat)
    ensures And(x, 2 * m + 1) == x % 2 + 2 * And(x / 2, m)
  {
    assert (2 * m + 1) / 2 == m && (2 * m + 1) % 2 == 1;
  }

  lemma ModuloHalves(x: nat, m: nat)
    requires m > 0
    ensures x % (2 * m) == x % 2 + 2 * (x / 2 % m)
  {
    var q := x / 2 / m;
    assert q * (2 * m) == 2 * (q * m);
    DivModUnique(x, 2 * m, q, x % 2 + 2 * (x / 2 % m));
  }

  lemma MulAtLeast(d: nat, m: nat)
    requires d > 0
    ensures d * m >= m
  {
    assert d * m == (d - 1) * m + m;
  }

  lemma DivModUnique(x: nat, m: nat, q: nat, r: nat)
    requires m > 0 && x == q * m + r && r < m
    ensures x % m == r
  {
    var a := x / m;
    assert x == a * m + x % m;
    if a < q {
      assert (q - a) * m == q * m - a * m;
      MulAtLeast(q - a, m);
    } else if a > q {
      assert (a - q) * m == a * m - q * m;
      MulAtLeast(a - q, m);
    }
  }

  /** The bucket of a key: hash & sizemask. */
  function Slot<K, V>(h: K -> nat, t: Ht<K, V>, k: K): (i: nat)
    requires t.buckets != []
    ensures i < |t.buckets|
  {
    And(h(k), |t.buckets| - 1)
  }

  // ------------------------------------------------------------------ chains

  /** The position of k in a chain; the chain's length when it is not there. */
  function Pos<K(==), V>(c: Chain<K, V>, k: K): (i: nat)
    ensures i <= |c|
    ensures i < |c| ==> c[i].key == k
    ensures forall j :: 0 <= j < i ==> c[j].key != k
  {
    if c == [] || c[0].key == k then 0 else 1 + Pos(c[1..], k)
  }

  function Get<K(==), V>(c: Chain<K, V>, k: K): Option<V> {
    if Pos(c, k) < |c| then Some(c[Pos(c, k)].val) else None
  }

  ghost predicate Distinct<K, V>(c: Chain<K, V>) {
    forall i, j :: 0 <= i < j < |c| ==> c[i].key != c[j].key
  }

  /** How many entries a table's chains hold. */
  function Total<K, V>(bs: seq<Chain<K, V>>): nat {
    if bs == [] then 0 else Total(bs[..|bs| - 1]) + |bs[|bs| - 1]|
  }

  lemma {:induction false} TotalUpdate<K, V>(bs: seq<Chain<K, V>>, i: nat, c: Chain<K, V>)
    requires i < |bs|
    ensures Total(bs[i := c]) == Total(bs) - |bs[i]| + |c|
  {
    var n := |bs| - 1;
    if i == n {
      assert bs[i := c][..n] == bs[..n];
    } else {
      assert bs[i := c][..n] == bs[..n][i := c];
      TotalUpdate(bs[..n], i, c);
    }
  }

  lemma {:induction false} TotalZero<K, V>(bs: seq<Chain<K, V>>)
    ensures Total(bs) == 0 <==> forall i :: 0 <= i < |bs| ==> bs[i] == []
  {
    if bs != [] {
      var n := |bs| - 1;
      TotalZero(bs[..n]);
      assert forall i :: 0 <= i < n ==> bs[..n][i] == bs[i];
    }
  }

  // ------------------------------------------------------------------ the invariant

  /** Every entry sits in the bucket of its key, no key twice, used counts them. */
  ghost predicate TableOk<K, V>(h: K -> nat, t: Ht<K, V>) {
    && t.used == Total(t.buckets)
    && (forall b :: 0 <= b < |t.buckets| ==> Distinct(t.buckets[b]))
    && (forall b, i :: 0 <= b < |t.buckets| && 0 <= i < |t.buckets[b]| ==> Slot(h, t, t.buckets[b][i].key) == b)
    && (|t.buckets| > 0 ==> PowerOfTwo(|t.buckets|))
  }

  /** The value stored with a key in one table. */
  function LookupIn<K(==), V>(h: K -> nat, t: Ht<K, V>, k: K): Option<V> {
    if t.buckets == [] then None else Get(t.buckets[Slot(h, t, k)], k)
  }

  ghost predicate Inv<K(!new), V>(h: K -> nat, d: Dict<K, V>) {
    && TableOk(h, d.ht0) && TableOk(h, d.ht1)
    && (forall k :: LookupIn(h, d.ht0, k) == None || LookupIn(h, d.ht1, k) == None)
    && (d.Rehashing() ==>
      && 0 <= d.rehashidx <= |d.ht0.buckets| && 0 < |d.ht0.buckets| && 0 < |d.ht1.buckets|
      && forall b :: 0 <= b < d.rehashidx ==> d.ht0.buckets[b] == [])
    && (!d.Rehashing() ==> d.ht1 == NoTable())
  }

  /** What the dictionary maps a key to, whichever table holds it. */
  function Lookup<K(==), V>(h: K -> nat, d: Dict<K, V>, k: K): Option<V> {
    if LookupIn(h, d.ht0, k).Some? then LookupIn(h, d.ht0, k) else LookupIn(h, d.ht1, k)
  }

  /** The finite map the dictionary stands for. */
  ghost function Keys<K, V>(t: Ht<K, V>): set<K> {
    set b, i | 0 <= b < |t.buckets| && 0 <= i < |t.buckets[b]| :: t.buckets[b][i].key
  }

  ghost function Contents<K(!new), V>(h: K -> nat, d: Dict<K, V>): map<K, V> {
    map k | k in Keys(d.ht0) + Keys(d.ht1) && Lookup(h, d, k).Some? :: Lookup(h, d, k).value
  }

  lemma LookupNeedsKey<K, V>(h: K -> nat, t: Ht<K, V>, k: K)
    ensures LookupIn(h, t, k).Some? ==> k in Keys(t)
    ensures TableOk(h, t) && k in Keys(t) ==> LookupIn(h, t, k).Some?
  {
    if LookupIn(h, t, k).Some? {
      var b := Slot(h, t, k);
      var c := t.buckets[b];
      assert c[Pos(c, k)].key == k;
    }
    if TableOk(h, t) && k in Keys(t) {
      var b, i :| 0 <= b < |t.buckets| && 0 <= i < |t.buckets[b]| && t.buckets[b][i].key == k;
    }
  }

  /** Lookup is lookup in the finite map. */
  lemma ContentsIsLookup<K(!new), V>(h: K -> nat, d: Dict<K, V>, k: K)
    ensures k in Contents(h, d) <==> Lookup(h, d, k).Some?
    ensures k in Contents(h, d) ==> Contents(h, d)[k] == Lookup(h, d, k).value
  {
    LookupNeedsKey(h, d.ht0, k);
    LookupNeedsKey(h, d.ht1, k);
  }

  // ------------------------------------------------------------------ the operations

  /** An entry linked in at the head of bucket b. */
  function Link<K, V>(t: Ht<K, V>, b: nat, e: Entry<K, V>): Ht<K, V>
    requires b < |t.buckets|
  {
    Ht(t.buckets[b := [e] + t.buckets[b]], t.used + 1)
  }

  /** The entry at position i of bucket b unlinked. */
  function Unlink<K, V>(t: Ht<K, V>, b: nat, i: nat): Ht<K, V>
    requires b < |t.buckets| && i < |t.buckets[b]|
  {
    var c := t.buckets[b];
    Ht(t.buckets[b := c[..i] + c[i + 1..]], t.used - 1)
  }

  /** _dictNextPower: the first power of two from i on that is at least size. */
  function NextPower(size: nat, i: nat): (n: nat)
    requires i > 0
    ensures n >= i && n >= size
    decreases size - i
  {
    if i >= size then i else NextPower(size, i * 2)
  }

  /** What the fields must satisfy for the code below not to leave its tables. */
  predicate Shape<K, V>(d: Dict<K, V>) {
    if d.Rehashing() then
      0 <= d.rehashidx <= |d.ht0.buckets| && d.ht0.buckets != [] && d.ht1.buckets != []
    else d.ht1.buckets == []
  }

  /** dictExpand; the flag is its DICT_OK. */
  function Expand<K, V>(d: Dict<K, V>, size: nat): (r: (Dict<K, V>, bool))
    requires Shape(d)
    ensures Shape(r.0)
  {
    var n := NewTable(NextPower(size, INITIAL_SIZE));
    if d.Rehashing() || d.ht0.used > size then (d, false)
    else if d.ht0.buckets == [] then (d.(ht0 := n), true)
    else (d.(ht1 := n, rehashidx := 0), true)
  }

  /** The first non-empty bucket from i on. */
  function FirstFull<K, V>(bs: seq<Chain<K, V>>, i: nat): (j: nat)
    requires i <= |bs|
    ensures i <= j <= |bs|
    ensures j < |bs| ==> bs[j] != []
    ensures forall b :: i <= b < j ==> bs[b] == []
    decreases |bs| - i
  {
    if i == |bs| || bs[i] != [] then i else FirstFull(bs, i + 1)
  }

  /** A bucket's entries moved one after the other to the heads of their new buckets. */
  function MoveChain<K(==), V>(h: K -> nat, c: Chain<K, V>, t: Ht<K, V>): (r: Ht<K, V>)
    requires t.buckets != []
    ensures |r.buckets| == |t.buckets|
    decreases |c|
  {
    if c == [] then t else MoveChain(h, c[1..], Link(t, Slot(h, t, c[0].key), c[0]))
  }

  /** dictRehash(d, 1) while rehashing. The flag says whether keys remain to be moved. */
  function RehashStep<K(==), V>(h: K -> nat, d: Dict<K, V>): (r: (Dict<K, V>, bool))
    requires Shape(d) && d.Rehashing()
    ensures Shape(r.0) && r.0.iterators == d.iterators && r.0.ht0.buckets != []
  {
    if d.ht0.used == 0 then (Dict(d.ht1, NoTable(), -1, d.iterators), false)
    else
      var i := FirstFull(d.ht0.buckets, d.rehashidx);
      if i == |d.ht0.buckets| then (d, true)  // excluded by the invariant, see ScanStops
      else
        var c := d.ht0.buckets[i];
        (Dict(Ht(d.ht0.buckets[i := []], d.ht0.used - |c|), MoveChain(h, c, d.ht1), i + 1, d.iterators), true)
  }

  /** dictRehash(d, n). */
  function Rehash<K(==), V>(h: K -> nat, d: Dict<K, V>, n: nat): (r: (Dict<K, V>, bool))
    requires Shape(d)
    ensures Shape(r.0)
    decreases n
  {
    if !d.Rehashing() then (d, false)
    else if n == 0 then (d, true)
    else
      var (d', more) := RehashStep(h, d);
      if more then Rehash(h, d', n - 1) else (d', false)
  }

  /** "if (dictIsRehashing(d)) _dictRehashStep(d)": one step unless an iterator is under way. */
  function Migrate<K(==), V>(h: K -> nat, d: Dict<K, V>): (d': Dict<K, V>)
    requires Shape(d)
    ensures Shape(d') && d'.iterators == d.iterators && (d.ht0.buckets != [] ==> d'.ht0.buckets != [])
  {
    if d.Rehashing() && d.iterators == 0 then RehashStep(h, d).0 else d
  }

  /** _dictExpandIfNeeded. */
  function ExpandIfNeeded<K, V>(d: Dict<K, V>, canResize: bool): (d': Dict<K, V>)
    requires Shape(d)
    ensures Shape(d') && d'.ht0.buckets != [] && d'.iterators == d.iterators
  {
    var size := |d.ht0.buckets|;
    if d.Rehashing() then d
    else if size == 0 then d.(ht0 := NewTable(INITIAL_SIZE))
    else if d.ht0.used >= size && (canResize || d.ht0.used / size > FORCE_RESIZE_RATIO)
    then Expand(d, (if size > d.ht0.used then size else d.ht0.used) * 2).0
    else d
  }

  /** The search loop of _dictKeyIndex: -1 when the key exists, otherwise an index in the
      context of the last table looked at. */
  function KeyIndex<K(==), V>(h: K -> nat, d: Dict<K, V>, k: K): int
    requires Shape(d) && d.ht0.buckets != []
  {
    if LookupIn(h, d.ht0, k).Some? then -1
    else if !d.Rehashing() then Slot(h, d.ht0, k)
    else if LookupIn(h, d.ht1, k).Some? then -1
    else Slot(h, d.ht1, k)
  }

  /** Where dictAdd looks for the key: after a migration step and a possible expansion. */
  function Prepared<K(==), V>(h: K -> nat, d: Dict<K, V>, canResize: bool): (d': Dict<K, V>)
    requires Shape(d)
    ensures Shape(d') && d'.ht0.buckets != [] && d'.iterators == d.iterators
  {
    ExpandIfNeeded(Migrate(h, d), canResize)
  }

  /** dictAdd, through dictAddRaw; the flag is its DICT_OK. The table of the insertion is
      chosen independently of the one _dictKeyIndex computed the index for. */
  function Add<K(==), V>(h: K -> nat, d: Dict<K, V>, k: K, v: V, canResize: bool): (r: (Dict<K, V>, bool))
    requires Shape(d)
    ensures Shape(r.0) && r.0.iterators == d.iterators
  {
    var d1 := Prepared(h, d, canResize);
    var i := KeyIndex(h, d1, k);
    if i == -1 then (d1, false) else (Linked(d1, i, Entry(k, v)), true)
  }

  /** The insertion of dictAddRaw, into the table it chooses. */
  function Linked<K(==), V>(d: Dict<K, V>, i: nat, e: Entry<K, V>): (d': Dict<K, V>)
    requires Shape(d) && i < if d.Rehashing() then |d.ht1.buckets| else |d.ht0.buckets|
    ensures Shape(d') && d'.iterators == d.iterators
  {
    if d.Rehashing() then d.(ht1 := Link(d.ht1, i, e)) else d.(ht0 := Link(d.ht0, i, e))
  }

  /** The value of the entry for k replaced in its chain. */
  function Assign<K(==), V>(h: K -> nat, t: Ht<K, V>, k: K, v: V): Ht<K, V>
    requires LookupIn(h, t, k).Some?
  {
    var b := Slot(h, t, k);
    t.(buckets := t.buckets[b := t.buckets[b][Pos(t.buckets[b], k) := Entry(k, v)]])
  }

  function Remove<K(==), V>(h: K -> nat, t: Ht<K, V>, k: K): Ht<K, V>
    requires LookupIn(h, t, k).Some?
  {
    var b := Slot(h, t, k);
    Unlink(t, b, Pos(t.buckets[b], k))
  }

  /** dictFind. */
  function Find<K(==), V>(h: K -> nat, d: Dict<K, V>, k: K): (r: (Dict<K, V>, Option<V>))
    requires Shape(d)
    ensures Shape(r.0) && r.0.iterators == d.iterators
  {
    if d.ht0.buckets == [] then (d, None)
    else
      var d1 := Migrate(h, d);
      if LookupIn(h, d1.ht0, k).Some? || !d1.Rehashing() then (d1, LookupIn(h, d1.ht0, k))
      else (d1, LookupIn(h, d1.ht1, k))
  }

  /** dictReplace: an add, and on failure an assignment to the entry dictFind returns. The
      flag says whether the key was added. */
  function Replace<K(==), V>(h: K -> nat, d: Dict<K, V>, k: K, v: V, canResize: bool): (r: (Dict<K, V>, bool))
    requires Shape(d)
    ensures Shape(r.0) && r.0.iterators == d.iterators
  {
    var (d1, added) := Add(h, d, k, v, canResize);
    if added then (d1, true) else (Overwrite(h, Find(h, d1, k).0, k, v), false)
  }

  /** The assignment to the entry dictFind found, in whichever table it is. */
  function Overwrite<K(==), V>(h: K -> nat, d: Dict<K, V>, k: K, v: V): (d': Dict<K, V>)
    requires Shape(d)
    ensures Shape(d') && d'.iterators == d.iterators
  {
    if LookupIn(h, d.ht0, k).Some? then d.(ht0 := Assign(h, d.ht0, k, v))
    else if LookupIn(h, d.ht1, k).Some? then d.(ht1 := Assign(h, d.ht1, k, v))
    else d
  }

  /** dictGenericDelete; the flag is its DICT_OK. */
  function Delete<K(==), V>(h: K -> nat, d: Dict<K, V>, k: K): (r: (Dict<K, V>, bool))
    requires Shape(d)
    ensures Shape(r.0) && r.0.iterators == d.iterators
  {
    if d.ht0.buckets == [] then (d, false)
    else
      var d1 := Migrate(h, d);
      (Drop(h, d1, k), LookupIn(h, d1.ht0, k).Some? || (d1.Rehashing() && LookupIn(h, d1.ht1, k).Some?))
  }

  /** The unlinking of the entry for k, from whichever table holds it. */
  function Drop<K(==), V>(h: K -> nat, d: Dict<K, V>, k: K): (d': Dict<K, V>)
    requires Shape(d)
    ensures Shape(d') && d'.iterators == d.iterators
  {
    if LookupIn(h, d.ht0, k).Some? then d.(ht0 := Remove(h, d.ht0, k))
    else if d.Rehashing() && LookupIn(h, d.ht1, k).Some? then d.(ht1 := Remove(h, d.ht1, k))
    else d
  }

  // ------------------------------------------------------------------ tables stay in order

  lemma PosConcat<K, V>(a: Chain<K, V>, b: Chain<K, V>, k: K)
    ensures Pos(a + b, k) == if Pos(a, k) < |a| then Pos(a, k) else |a| + Pos(b, k)
  {
    PosUnique(a + b, k, if Pos(a, k) < |a| then Pos(a, k) else |a| + Pos(b, k));
  }

  /** A position is known by what is there and what is not before it. */
  lemma PosUnique<K, V>(c: Chain<K, V>, k: K, i: nat)
    requires i <= |c| && (i < |c| ==> c[i].key == k)
    requires forall j :: 0 <= j < i ==> c[j].key != k
    ensures Pos(c, k) == i
  {
  }

  /** t with the chain of bucket b replaced by c. */
  function Rechain<K, V>(t: Ht<K, V>, b: nat, c: Chain<K, V>): Ht<K, V>
    requires b < |t.buckets|
  {
    Ht(t.buckets[b := c], t.used - |t.buckets[b]| + |c|)
  }

  /** A bucket may take any chain of distinct keys that belong to it. */
  lemma RechainOk<K(!new), V>(h: K -> nat, t: Ht<K, V>, b: nat, c: Chain<K, V>)
    requires TableOk(h, t) && b < |t.buckets| && Distinct(c)
    requires forall i :: 0 <= i < |c| ==> Slot(h, t, c[i].key) == b
    ensures TableOk(h, Rechain(t, b, c))
    ensures forall k :: LookupIn(h, Rechain(t, b, c), k) == if Slot(h, t, k) == b then Get(c, k) else LookupIn(h, t, k)
  {
    TotalUpdate(t.buckets, b, c);
  }

  lemma GetLinked<K, V>(e: Entry<K, V>, c: Chain<K, V>, k: K)
    ensures Get([e] + c, k) == if k == e.key then Some(e.val) else Get(c, k)
  {
    PosConcat([e], c, k);
  }

  lemma LinkOk<K(!new), V>(h: K -> nat, t: Ht<K, V>, e: Entry<K, V>)
    requires TableOk(h, t) && t.buckets != [] && LookupIn(h, t, e.key) == None
    ensures TableOk(h, Link(t, Slot(h, t, e.key), e))
    ensures forall k :: LookupIn(h, Link(t, Slot(h, t, e.key), e), k) == if k == e.key then Some(e.val)
        else LookupIn(h, t, k)
  {
    hide TableOk, LookupIn, Get;
    var b := Slot(h, t, e.key);
    var c := t.buckets[b];
    BucketKeys(h, t, b);
    RechainOk(h, t, b, [e] + c);
    forall k ensures Get([e] + c, k) == if k == e.key then Some(e.val) else Get(c, k) {
      GetLinked(e, c, k);
    }
  }

  /** Unlinking position i moves what follows it one position forward. */
  lemma PosWithout<K, V>(c: Chain<K, V>, i: nat, k: K)
    requires i < |c| && Distinct(c)
    ensures Pos(c[..i] + c[i + 1..], k) == if Pos(c, k) < i then Pos(c, k) else if Pos(c, k) == i then |c| - 1
        else Pos(c, k) - 1
  {
    hide Pos;
    var c' := c[..i] + c[i + 1..];
    var p := Pos(c, k);
    PosUnique(c', k, if p < i then p else if p == i then |c'| else p - 1);
  }

  lemma WithoutEntry<K, V>(c: Chain<K, V>, i: nat, k: K)
    requires i < |c| && Distinct(c)
    ensures Get(c[..i] + c[i + 1..], k) == if k == c[i].key then None else Get(c, k)
  {
    hide Pos;
    PosWithout(c, i, k);
    PosUnique(c, c[i].key, i);
  }

  lemma RemoveOk<K(!new), V>(h: K -> nat, t: Ht<K, V>, k0: K)
    requires TableOk(h, t) && LookupIn(h, t, k0).Some?
    ensures TableOk(h, Remove(h, t, k0))
    ensures forall k :: LookupIn(h, Remove(h, t, k0), k) == if k == k0 then None else LookupIn(h, t, k)
  {
    var b := Slot(h, t, k0);
    var c, i := t.buckets[b], Pos(t.buckets[b], k0);
    RechainOk(h, t, b, c[..i] + c[i + 1..]);
    forall k ensures Get(c[..i] + c[i + 1..], k) == if k == k0 then None else Get(c, k) {
      WithoutEntry(c, i, k);
    }
  }

  lemma AssignOk<K(!new), V>(h: K -> nat, t: Ht<K, V>, k0: K, v: V)
    requires TableOk(h, t) && LookupIn(h, t, k0).Some?
    ensures TableOk(h, Assign(h, t, k0, v))
    ensures forall k :: LookupIn(h, Assign(h, t, k0, v), k) == if k == k0 then Some(v) else LookupIn(h, t, k)
  {
    var b := Slot(h, t, k0);
    var c, i := t.buckets[b], Pos(t.buckets[b], k0);
    var c' := c[i := Entry(k0, v)];
    RechainOk(h, t, b, c');
    forall k ensures Get(c', k) == if k == k0 then Some(v) else Get(c, k) {
      PosUnique(c', k, Pos(c, k));
    }
  }

  /** Clearing a bucket forgets exactly its keys. */
  lemma ClearOk<K(!new), V>(h: K -> nat, t: Ht<K, V>, b: nat)
    requires TableOk(h, t) && b < |t.buckets|
    ensures var t' := Ht(t.buckets[b := []], t.used - |t.buckets[b]|);
      && TableOk(h, t')
      && forall k :: LookupIn(h, t', k) == if Slot(h, t, k) == b then None else LookupIn(h, t, k)
  {
    RechainOk(h, t, b, []);
  }

  /** The chain's entries end up in the table they are moved to, before what was there. */
  lemma {:induction false} MoveChainOk<K(!new), V>(h: K -> nat, c: Chain<K, V>, t: Ht<K, V>)
    requires TableOk(h, t) && t.buckets != [] && Distinct(c)
    requires forall i :: 0 <= i < |c| ==> LookupIn(h, t, c[i].key) == None
    ensures TableOk(h, MoveChain(h, c, t))
    ensures forall k :: LookupIn(h, MoveChain(h, c, t), k) == if Get(c, k).Some? then Get(c, k) else LookupIn(h, t, k)
    decreases |c|
  {
    hide TableOk, LookupIn;
    if c != [] {
      var t' := Link(t, Slot(h, t, c[0].key), c[0]);
      LinkOk(h, t, c[0]);
      forall i | 0 <= i < |c[1..]| ensures LookupIn(h, t', c[1..][i].key) == None {
        assert c[1..][i] == c[i + 1] && c[0].key != c[i + 1].key;
      }
      MoveChainOk(h, c[1..], t');
      forall k ensures LookupIn(h, MoveChain(h, c, t), k) == if Get(c, k).Some? then Get(c, k) else LookupIn(h, t, k) {
        assert c == [c[0]] + c[1..];
        PosConcat([c[0]], c[1..], k);
      }
    }
  }

  // ------------------------------------------------------------------ the operations refine the map

  /** d' and d stand for the same map, and both are in order. */
  ghost predicate Same<K(!new), V(!new)>(h: K -> nat, d: Dict<K, V>, d': Dict<K, V>) {
    Inv(h, d') && forall k :: Lookup(h, d', k) == Lookup(h, d, k)
  }

  lemma NewTableOk<K, V>(h: K -> nat, size: nat)
    requires PowerOfTwo(size)
    ensures TableOk(h, NewTable<K, V>(size))
    ensures forall k :: LookupIn(h, NewTable<K, V>(size), k) == None
  {
    TotalZero(NewTable<K, V>(size).buckets);
  }

  lemma {:induction false} NextPowerOk(size: nat, i: nat)
    requires PowerOfTwo(i)
    ensures PowerOfTwo(NextPower(size, i))
    ensures NextPower(size, i) == i || NextPower(size, i) / 2 < size
    decreases size - i
  {
    if i < size {
      assert PowerOfTwo(i * 2) by { assert i * 2 / 2 == i; }
      NextPowerOk(size, i * 2);
    }
  }

  lemma InitialSizeOk()
    ensures PowerOfTwo(INITIAL_SIZE)
  {
    assert PowerOfTwo(2) && PowerOfTwo(4);
  }

  lemma InvShape<K(!new), V(!new)>(h: K -> nat, d: Dict<K, V>)
    requires Inv(h, d)
    ensures Shape(d) && d.ht0.used >= 0 && d.ht1.used >= 0
  {
  }

  /** dictExpand leaves the map unchanged, whether it creates the first table or starts a
      rehashing towards a larger or a smaller one. */
  lemma ExpandKeeps<K(!new), V(!new)>(h: K -> nat, d: Dict<K, V>, size: nat)
    requires Inv(h, d)
    ensures Same(h, d, Expand(d, size).0)
    ensures Expand(d, size).1 <==> !d.Rehashing() && d.ht0.used <= size
  {
    InitialSizeOk();
    NextPowerOk(size, INITIAL_SIZE);
    NewTableOk<K, V>(h, NextPower(size, INITIAL_SIZE));
  }

  /** While the old table holds an entry, the scan for it stops inside the table. */
  lemma ScanStops<K(!new), V(!new)>(h: K -> nat, d: Dict<K, V>)
    requires Inv(h, d) && d.Rehashing() && d.ht0.used > 0
    ensures d.rehashidx < |d.ht0.buckets|
    ensures FirstFull(d.ht0.buckets, d.rehashidx) < |d.ht0.buckets|
  {
    TotalZero(d.ht0.buckets);
  }

  lemma {:induction false} MoveChainUsed<K, V>(h: K -> nat, c: Chain<K, V>, t: Ht<K, V>)
    requires t.buckets != []
    ensures MoveChain(h, c, t).used == t.used + |c|
    decreases |c|
  {
    if c != [] { MoveChainUsed(h, c[1..], Link(t, Slot(h, t, c[0].key), c[0])); }
  }

  lemma RehashStepKeeps<K(!new), V(!new)>(h: K -> nat, d: Dict<K, V>)
    requires Inv(h, d) && d.Rehashing()
    ensures Same(h, d, RehashStep(h, d).0)
  {
    if d.ht0.used == 0 {
      TotalZero(d.ht0.buckets);
      NoTableOk<K, V>(h);
      assert forall k :: LookupIn(h, d.ht0, k) == None;
    } else {
      ScanStops(h, d);
      MoveBucketKeeps(h, d, FirstFull(d.ht0.buckets, d.rehashidx));
    }
  }

  lemma MoveBucketKeeps<K(!new), V(!new)>(h: K -> nat, d: Dict<K, V>, i: nat)
    requires Inv(h, d) && d.Rehashing() && d.rehashidx <= i < |d.ht0.buckets|
    requires forall b :: d.rehashidx <= b < i ==> d.ht0.buckets[b] == []
    ensures var c := d.ht0.buckets[i];
      Same(h, d, Dict(Ht(d.ht0.buckets[i := []], d.ht0.used - |c|), MoveChain(h, c, d.ht1), i + 1, d.iterators))
  {
    hide TableOk, LookupIn, Get;
    var c := d.ht0.buckets[i];
    BucketKeys(h, d.ht0, i);
    MoveChainOk(h, c, d.ht1);
    ClearOk(h, d.ht0, i);
  }

  lemma NoTableOk<K, V>(h: K -> nat)
    ensures TableOk(h, NoTable<K, V>())
    ensures forall k :: LookupIn(h, NoTable<K, V>(), k) == None
  {
  }

  /** The entries of bucket b are what the table knows about the keys of that bucket. */
  lemma BucketKeys<K(!new), V>(h: K -> nat, t: Ht<K, V>, b: nat)
    requires TableOk(h, t) && b < |t.buckets|
    ensures forall k :: Slot(h, t, k) == b ==> Get(t.buckets[b], k) == LookupIn(h, t, k)
    ensures forall k :: Slot(h, t, k) != b ==> Get(t.buckets[b], k) == None
    ensures forall i :: 0 <= i < |t.buckets[b]| ==> LookupIn(h, t, t.buckets[b][i].key).Some?
    ensures Distinct(t.buckets[b])
    ensures forall i :: 0 <= i < |t.buckets[b]| ==> Slot(h, t, t.buckets[b][i].key) == b
  {
  }

  lemma MigrateKeeps<K(!new), V(!new)>(h: K -> nat, d: Dict<K, V>)
    requires Inv(h, d)
    ensures Same(h, d, Migrate(h, d))
  {
    if d.Rehashing() && d.iterators == 0 { RehashStepKeeps(h, d); }
  }

  /** dictRehash leaves the map unchanged, however many steps it takes. */
  lemma {:induction false} RehashKeeps<K(!new), V(!new)>(h: K -> nat, d: Dict<K, V>, n: nat)
    requires Inv(h, d)
    ensures Same(h, d, Rehash(h, d, n).0)
    decreases n
  {
    if d.Rehashing() && n > 0 {
      RehashStepKeeps(h, d);
      RehashKeeps(h, RehashStep(h, d).0, n - 1);
    }
  }

  lemma ExpandIfNeededKeeps<K(!new), V(!new)>(h: K -> nat, d: Dict<K, V>, canResize: bool)
    requires Inv(h, d)
    ensures Same(h, d, ExpandIfNeeded(d, canResize))
  {
    hide TableOk, LookupIn;
    var size := |d.ht0.buckets|;
    var larger := if size > d.ht0.used then size else d.ht0.used;
    if !d.Rehashing() {
      if size == 0 {
        InvShape(h, d);
        EmptyIsUnused(h, d);
        ExpandKeeps(h, d, INITIAL_SIZE);
      } else {
        ExpandKeeps(h, d, larger * 2);
      }
    }
  }

  lemma EmptyIsUnused<K(!new), V(!new)>(h: K -> nat, d: Dict<K, V>)
    requires Inv(h, d) && d.ht0.buckets == []
    ensures d.ht0.used == 0
  {
  }

  lemma PreparedKeeps<K(!new), V(!new)>(h: K -> nat, d: Dict<K, V>, canResize: bool)
    requires Inv(h, d)
    ensures Same(h, d, Prepared(h, d, canResize))
  {
    MigrateKeeps(h, d);
    ExpandIfNeededKeeps(h, Migrate(h, d), canResize);
  }

  /** _dictKeyIndex answers -1 exactly for the keys present, and otherwise the key's bucket
      in the very table dictAddRaw inserts into. */
  lemma KeyIndexFitsTarget<K(!new), V(!new)>(h: K -> nat, d: Dict<K, V>, k: K)
    requires Inv(h, d) && d.ht0.buckets != []
    ensures KeyIndex(h, d, k) == -1 <==> Lookup(h, d, k).Some?
    ensures Lookup(h, d, k) == None ==>
      var t := if d.Rehashing() then d.ht1 else d.ht0;
      t.buckets != [] && KeyIndex(h, d, k) == Slot(h, t, k)
  {
  }

  lemma LinkedInv<K(!new), V(!new)>(h: K -> nat, d: Dict<K, V>, e: Entry<K, V>)
    requires Inv(h, d) && d.ht0.buckets != [] && Lookup(h, d, e.key) == None
    ensures Shape(d) && 0 <= KeyIndex(h, d, e.key) < if d.Rehashing() then |d.ht1.buckets| else |d.ht0.buckets|
    ensures var d' := Linked(d, KeyIndex(h, d, e.key), e);
      Inv(h, d') && forall q :: Lookup(h, d', q) == if q == e.key then Some(e.val) else Lookup(h, d, q)
  {
    hide TableOk;
    LinkOk(h, if d.Rehashing() then d.ht1 else d.ht0, e);
  }

  lemma AddRefines<K(!new), V(!new)>(h: K -> nat, d: Dict<K, V>, k: K, v: V, canResize: bool)
    requires Inv(h, d)
    ensures var (d', ok) := Add(h, d, k, v, canResize);
      && Inv(h, d') && ok == (Lookup(h, d, k) == None)
      && forall q :: Lookup(h, d', q) == if ok && q == k then Some(v) else Lookup(h, d, q)
  {
    PreparedKeeps(h, d, canResize);
    var d1 := Prepared(h, d, canResize);
    KeyIndexFitsTarget(h, d1, k);
    if Lookup(h, d1, k) == None { LinkedInv(h, d1, Entry(k, v)); }
  }

  lemma FindRefines<K(!new), V(!new)>(h: K -> nat, d: Dict<K, V>, k: K)
    requires Inv(h, d)
    ensures Same(h, d, Find(h, d, k).0) && Find(h, d, k).1 == Lookup(h, d, k)
  {
    MigrateKeeps(h, d);
  }

  lemma AssignShape<K, V>(h: K -> nat, t: Ht<K, V>, k: K, v: V)
    requires LookupIn(h, t, k).Some?
    ensures |Assign(h, t, k, v).buckets| == |t.buckets|
    ensures forall b :: 0 <= b < |t.buckets| && t.buckets[b] == [] ==> Assign(h, t, k, v).buckets[b] == []
  {
  }

  lemma RemoveShape<K, V>(h: K -> nat, t: Ht<K, V>, k: K)
    requires LookupIn(h, t, k).Some?
    ensures |Remove(h, t, k).buckets| == |t.buckets|
    ensures forall b :: 0 <= b < |t.buckets| && t.buckets[b] == [] ==> Remove(h, t, k).buckets[b] == []
  {
  }

  lemma OverwriteOk<K(!new), V(!new)>(h: K -> nat, d: Dict<K, V>, k: K, v: V)
    requires Inv(h, d) && Lookup(h, d, k).Some?
    ensures Inv(h, Overwrite(h, d, k, v))
    ensures forall q :: Lookup(h, Overwrite(h, d, k, v), q) == if q == k then Some(v) else Lookup(h, d, q)
  {
    hide TableOk, Assign;
    if LookupIn(h, d.ht0, k).Some? {
      AssignOk(h, d.ht0, k, v);
      AssignShape(h, d.ht0, k, v);
    } else {
      AssignOk(h, d.ht1, k, v);
    }
  }

  lemma DropOk<K(!new), V(!new)>(h: K -> nat, d: Dict<K, V>, k: K)
    requires Inv(h, d)
    ensures Inv(h, Drop(h, d, k))
    ensures forall q :: Lookup(h, Drop(h, d, k), q) == if q == k then None else Lookup(h, d, q)
  {
    hide TableOk, Remove;
    if LookupIn(h, d.ht0, k).Some? {
      RemoveOk(h, d.ht0, k);
      RemoveShape(h, d.ht0, k);
    } else if LookupIn(h, d.ht1, k).Some? {
      RemoveOk(h, d.ht1, k);
    }
  }

  lemma ReplaceRefines<K(!new), V(!new)>(h: K -> nat, d: Dict<K, V>, k: K, v: V, canResize: bool)
    requires Inv(h, d)
    ensures var (d', added) := Replace(h, d, k, v, canResize);
      && Inv(h, d') && added == (Lookup(h, d, k) == None)
      && forall q :: Lookup(h, d', q) == if q == k then Some(v) else Lookup(h, d, q)
  {
    hide Lookup, Add, Find, Overwrite, Inv;
    InvShape(h, d);
    AddRefines(h, d, k, v, canResize);
    var (d1, added) := Add(h, d, k, v, canResize);
    if !added {
      FindRefines(h, d1, k);
      OverwriteOk(h, Find(h, d1, k).0, k, v);
    }
  }

  lemma DeleteRefines<K(!new), V(!new)>(h: K -> nat, d: Dict<K, V>, k: K)
    requires Inv(h, d)
    ensures var (d', ok) := Delete(h, d, k);
      && Inv(h, d') && ok == Lookup(h, d, k).Some?
      && forall q :: Lookup(h, d', q) == if q == k then None else Lookup(h, d, q)
  {
    hide TableOk, Drop, Migrate;
    MigrateKeeps(h, d);
    DropOk(h, Migrate(h, d), k);
  }

  // ------------------------------------------------------------------ runs

  datatype Op<K, V> =
    | DoFind(k: K)
    | DoAdd(k: K, v: V, canResize: bool)
    | DoReplace(k: K, v: V, canResize: bool)
    | DoDelete(k: K)
    | DoExpand(size: nat)
    | DoRehash(n: nat)
    | SetIterators(n: nat)

  datatype Out<V> = Value(v: Option<V>) | Flag(b: bool) | Silent

  function Apply<K(==), V>(h: K -> nat, d: Dict<K, V>, op: Op<K, V>): (r: (Dict<K, V>, Out<V>))
    requires Shape(d)
    ensures Shape(r.0)
  {
    match op
    case DoFind(k) => var (d', o) := Find(h, d, k); (d', Value(o))
    case DoAdd(k, v, canResize) => var (d', b) := Add(h, d, k, v, canResize); (d', Flag(b))
    case DoReplace(k, v, canResize) => var (d', b) := Replace(h, d, k, v, canResize); (d', Flag(b))
    case DoDelete(k) => var (d', b) := Delete(h, d, k); (d', Flag(b))
    case DoExpand(size) => (Expand(d, size).0, Silent)
    case DoRehash(n) => (Rehash(h, d, n).0, Silent)
    case SetIterators(n) => (d.(iterators := n), Silent)
  }

  /** The same operation on a finite map. */
  function ApplyMap<K(==), V>(m: map<K, V>, op: Op<K, V>): (map<K, V>, Out<V>) {
    match op
    case DoFind(k) => (m, Value(if k in m then Some(m[k]) else None))
    case DoAdd(k, v, _) => if k in m then (m, Flag(false)) else (m[k := v], Flag(true))
    case DoReplace(k, v, _) => (m[k := v], Flag(k !in m))
    case DoDelete(k) => (m - {k}, Flag(k in m))
    case DoExpand(_) => (m, Silent)
    case DoRehash(_) => (m, Silent)
    case SetIterators(_) => (m, Silent)
  }

  function Run<K(==), V>(h: K -> nat, d: Dict<K, V>, ops: seq<Op<K, V>>): (r: (Dict<K, V>, seq<Out<V>>))
    requires Shape(d)
    ensures Shape(r.0)
    decreases |ops|
  {
    if ops == [] then (d, [])
    else
      var (d1, o) := Apply(h, d, ops[0]);
      var (d2, os) := Run(h, d1, ops[1..]);
      (d2, [o] + os)
  }

  function RunMap<K(==), V>(m: map<K, V>, ops: seq<Op<K, V>>): (map<K, V>, seq<Out<V>>)
    decreases |ops|
  {
    if ops == [] then (m, [])
    else
      var (m1, o) := ApplyMap(m, ops[0]);
      var (m2, os) := RunMap(m1, ops[1..]);
      (m2, [o] + os)
  }

  lemma CountingKeeps<K(!new), V(!new)>(h: K -> nat, d: Dict<K, V>, n: nat)
    requires Inv(h, d)
    ensures Same(h, d, d.(iterators := n))
  {
  }

  lemma SameMap<K(!new), V(!new)>(h: K -> nat, d: Dict<K, V>, m: map<K, V>)
    requires forall k :: Lookup(h, d, k) == if k in m then Some(m[k]) else None
    ensures Contents(h, d) == m
  {
    forall k ensures k in Contents(h, d) <==> k in m
             ensures k in m ==> Contents(h, d)[k] == m[k]
    {
      ContentsIsLookup(h, d, k);
      assert Lookup(h, d, k) == if k in m then Some(m[k]) else None;
    }
  }

  /** One operation on the two tables is the operation on the map they stand for. */
  lemma ApplyRefines<K(!new), V(!new)>(h: K -> nat, d: Dict<K, V>, op: Op<K, V>)
    requires Inv(h, d)
    ensures Shape(d) && Inv(h, Apply(h, d, op).0)
    ensures Contents(h, Apply(h, d, op).0) == ApplyMap(Contents(h, d), op).0
    ensures Apply(h, d, op).1 == ApplyMap(Contents(h, d), op).1
  {
    hide Inv, Lookup, Contents, Find, Add, Replace, Delete, Expand, Rehash;
    InvShape(h, d);
    var m := Contents(h, d);
    forall k ensures Lookup(h, d, k) == if k in m then Some(m[k]) else None {
      ContentsIsLookup(h, d, k);
    }
    match op {
      case DoFind(k) => FindRefines(h, d, k);
      case DoAdd(k, v, canResize) => AddRefines(h, d, k, v, canResize);
      case DoReplace(k, v, canResize) => ReplaceRefines(h, d, k, v, canResize);
      case DoDelete(k) => DeleteRefines(h, d, k);
      case DoExpand(size) => ExpandKeeps(h, d, size);
      case DoRehash(n) => RehashKeeps(h, d, n);
      case SetIterators(n) => CountingKeeps(h, d, n);
    }
    SameMap(h, Apply(h, d, op).0, ApplyMap(m, op).0);
  }

  /** From any state in order, and so from the empty dictionary, every run of operations
      answers as the run on a finite map does and ends in that map. */
  lemma {:induction false} RunRefines<K(!new), V(!new)>(h: K -> nat, d: Dict<K, V>, ops: seq<Op<K, V>>)
    requires Inv(h, d)
    ensures Shape(d) && Inv(h, Run(h, d, ops).0)
    ensures Contents(h, Run(h, d, ops).0) == RunMap(Contents(h, d), ops).0
    ensures Run(h, d, ops).1 == RunMap(Contents(h, d), ops).1
    decreases |ops|
  {
    hide Inv, Contents, Apply, ApplyMap;
    InvShape(h, d);
    if ops != [] {
      ApplyRefines(h, d, ops[0]);
      RunRefines(h, Apply(h, d, ops[0]).0, ops[1..]);
    }
  }

  /** The dictionary dictCreate makes. */
  lemma EmptyInv<K(!new), V(!new)>(h: K -> nat)
    ensures Inv(h, Dict(NoTable<K, V>(), NoTable<K, V>(), -1, 0))
    ensures Contents(h, Dict(NoTable<K, V>(), NoTable<K, V>(), -1, 0)) == map[]
  {
  }

  // ------------------------------------------------------------------ the size

  function ChainKeys<K(==), V>(c: Chain<K, V>): set<K> {
    if c == [] then {} else ChainKeys(c[1..]) + {c[0].key}
  }

  lemma {:induction false} ChainKeysAre<K, V>(c: Chain<K, V>, k: K)
    ensures k in ChainKeys(c) <==> exists i :: 0 <= i < |c| && c[i].key == k
  {
    if c != [] {
      ChainKeysAre(c[1..], k);
      if k in ChainKeys(c[1..]) {
        var i :| 0 <= i < |c[1..]| && c[1..][i].key == k;
        assert c[i + 1].key == k;
      }
      if exists i :: 0 <= i < |c| && c[i].key == k {
        var i :| 0 <= i < |c| && c[i].key == k;
        if i > 0 { assert c[1..][i - 1].key == k; }
      }
    }
  }

  lemma {:induction false} ChainCount<K, V>(c: Chain<K, V>)
    requires Distinct(c)
    ensures |ChainKeys(c)| == |c|
  {
    if c != [] {
      ChainCount(c[1..]);
      ChainKeysAre(c[1..], c[0].key);
    }
  }

  function BucketsKeys<K(==), V>(bs: seq<Chain<K, V>>): set<K> {
    if bs == [] then {} else BucketsKeys(bs[..|bs| - 1]) + ChainKeys(bs[|bs| - 1])
  }

  lemma {:induction false} BucketsKeysAre<K, V>(bs: seq<Chain<K, V>>, k: K)
    ensures k in BucketsKeys(bs) <==> exists b, i :: 0 <= b < |bs| && 0 <= i < |bs[b]| && bs[b][i].key == k
  {
    if bs != [] {
      var n := |bs| - 1;
      BucketsKeysAre(bs[..n], k);
      ChainKeysAre(bs[n], k);
      if k in BucketsKeys(bs[..n]) {
        var b, i :| 0 <= b < |bs[..n]| && 0 <= i < |bs[..n][b]| && bs[..n][b][i].key == k;
        assert bs[b][i].key == k;
      }
      if exists b, i :: 0 <= b < |bs| && 0 <= i < |bs[b]| && bs[b][i].key == k {
        var b, i :| 0 <= b < |bs| && 0 <= i < |bs[b]| && bs[b][i].key == k;
        if b < n { assert bs[..n][b][i].key == k; }
      }
    }
  }

  /** Buckets whose keys are kept apart hold as many keys as entries. */
  lemma {:induction false} BucketsCount<K, V>(h: K -> nat, t: Ht<K, V>, n: nat)
    requires TableOk(h, t) && n <= |t.buckets|
    ensures |BucketsKeys(t.buckets[..n])| == Total(t.buckets[..n])
  {
    hide Slot;
    if n > 0 {
      var init: seq<Chain<K, V>> := t.buckets[..n - 1];
      assert t.buckets[..n][..n - 1] == init;
      BucketsCount(h, t, n - 1);
      ChainCount(t.buckets[n - 1]);
      assert forall b, i :: 0 <= b < |init| && 0 <= i < |init[b]| ==> Slot(h, t, init[b][i].key) == b;
      forall k | k in ChainKeys(t.buckets[n - 1]) ensures k !in BucketsKeys(init) {
        ChainKeysAre(t.buckets[n - 1], k);
        BucketsKeysAre(init, k);
      }
      assert BucketsKeys(init) !! ChainKeys(t.buckets[n - 1]);
    }
  }

  lemma TableCount<K(!new), V>(h: K -> nat, t: Ht<K, V>)
    requires TableOk(h, t)
    ensures |BucketsKeys(t.buckets)| == t.used
    ensures forall k :: k in BucketsKeys(t.buckets) <==> LookupIn(h, t, k).Some?
  {
    hide TableOk, LookupIn, Total;
    assert t.buckets[..|t.buckets|] == t.buckets;
    BucketsCount(h, t, |t.buckets|);
    UsedIsTotal(h, t);
    forall k ensures k in BucketsKeys(t.buckets) <==> LookupIn(h, t, k).Some? {
      BucketsKeysAre(t.buckets, k);
      LookupNeedsKey(h, t, k);
    }
  }

  lemma UsedIsTotal<K, V>(h: K -> nat, t: Ht<K, V>)
    requires TableOk(h, t)
    ensures t.used == Total(t.buckets)
  {
  }

  /** dictSize, the sum of the two counters, is the number of keys, also in the middle of a rehashing. */
  lemma SizeIsCardinality<K(!new), V>(h: K -> nat, d: Dict<K, V>)
    requires Inv(h, d)
    ensures d.ht0.used + d.ht1.used == |Contents(h, d)|
  {
    hide TableOk, LookupIn, BucketsKeys;
    TableCount(h, d.ht0);
    TableCount(h, d.ht1);
    var a, b := BucketsKeys(d.ht0.buckets), BucketsKeys(d.ht1.buckets);
    assert a !! b;
    forall k ensures k in Contents(h, d) <==> k in a + b { ContentsIsLookup(h, d, k); }
    assert Contents(h, d).Keys == a + b;
    assert |Contents(h, d)| == |Contents(h, d).Keys|;
  }
}
