/** The partial quicksort of pqsort.c: Bentley and McIlroy's three-way quicksort that
    only descends into sub-arrays meeting a window of indices. */
module PartialSort {

  // ------------------------------------------------------------------ specification

  /** What the callers of pqsort promise about the comparator. */
  ghost predicate TotalPreorder<T(!new)>(cmp: (T, T) -> int) {
    && (forall x, y :: Mirrored(cmp, x, y))
    && (forall x, y, z :: Chained(cmp, x, y, z))
  }

  ghost predicate Mirrored<T>(cmp: (T, T) -> int, x: T, y: T) {
    cmp(x, y) < 0 <==> cmp(y, x) > 0
  }

  ghost predicate Chained<T>(cmp: (T, T) -> int, x: T, y: T, z: T) {
    cmp(x, y) <= 0 && cmp(y, z) <= 0 ==> cmp(x, z) <= 0
  }

  /** Nothing before i in [lo, hi) compares greater, nothing after it compares smaller. */
  ghost predicate Placed<T>(s: seq<T>, cmp: (T, T) -> int, lo: nat, hi: nat, i: nat)
    requires lo <= i < hi <= |s|
  {
    && (forall j :: lo <= j < i ==> cmp(s[j], s[i]) <= 0)
    && (forall j :: i < j < hi ==> cmp(s[i], s[j]) <= 0)
  }

  ghost predicate WindowPlaced<T>(s: seq<T>, cmp: (T, T) -> int, lo: nat, hi: nat, left: nat, right: nat)
    requires lo <= hi <= |s|
  {
    forall i :: lo <= i < hi && left <= i <= right ==> Placed(s, cmp, lo, hi, i)
  }

  ghost predicate Sorted<T>(s: seq<T>, cmp: (T, T) -> int, lo: nat, hi: nat)
    requires lo <= hi <= |s|
  {
    forall i, j :: lo <= i < j < hi ==> cmp(s[i], s[j]) <= 0
  }

  /** t is s with the elements of [lo, hi) permuted. */
  ghost predicate Shuffled<T>(s: seq<T>, t: seq<T>, lo: int, hi: int) {
    && |s| == |t| && 0 <= lo <= hi <= |s|
    && multiset(s) == multiset(t)
    && (forall k :: 0 <= k < lo || hi <= k < |s| ==> t[k] == s[k])
  }

  /** Every element of s[lo..hi] compares to p as rel says: -1 below, 0 equal, 1 above. */
  ghost predicate All<T>(s: seq<T>, cmp: (T, T) -> int, lo: int, hi: int, p: T, rel: int)
    requires 0 <= lo <= hi <= |s|
  {
    forall k :: lo <= k < hi ==> Sign(cmp(s[k], p)) == rel
  }

  function Sign(x: int): int {
    if x < 0 then -1 else if x == 0 then 0 else 1
  }

  // ------------------------------------------------------------------ permutations

  ghost predicate Swapped<T>(s: seq<T>, t: seq<T>, i: int, j: int) {
    && |s| == |t| && 0 <= i < |s| && 0 <= j < |s|
    && t[i] == s[j] && t[j] == s[i]
    && (forall k :: 0 <= k < |s| && k != i && k != j ==> t[k] == s[k])
  }

  lemma ShuffledRange<T>(s: seq<T>, t: seq<T>, lo: nat, hi: nat)
    requires lo <= hi <= |s| && Shuffled(s, t, lo, hi)
    ensures multiset(s[lo..hi]) == multiset(t[lo..hi])
  {
    assert s == s[..lo] + s[lo..hi] + s[hi..];
    assert t == t[..lo] + t[lo..hi] + t[hi..];
    assert s[..lo] == t[..lo];
    assert s[hi..] == t[hi..];
    var rest := multiset(s[..lo]) + multiset(s[hi..]);
    assert multiset(s[lo..hi]) == multiset(s) - rest;
    assert multiset(t[lo..hi]) == multiset(t) - rest;
  }

  // ------------------------------------------------------------------ in-place steps

  /** Exchanges two elements; from is any earlier content the range is a permutation of. */
  method Swap<T>(a: array<T>, i: nat, j: nat, ghost from: seq<T>, ghost lo: nat, ghost hi: nat)
    requires lo <= i < hi <= a.Length == |from| && lo <= j < hi
    requires Shuffled(from, a[..], lo, hi)
    modifies a
    ensures Swapped(old(a[..]), a[..], i, j)
    ensures Shuffled(from, a[..], lo, hi)
  {
    a[i], a[j] := a[j], a[i];
  }

  /** t is s with s[i..i + r] and s[j..j + r] exchanged. */
  ghost predicate Exchanged<T>(s: seq<T>, t: seq<T>, i: nat, j: nat, r: nat)
    requires i + r <= j && j + r <= |s|
  {
    && |t| == |s|
    && (forall k :: i <= k < i + r ==> t[k] == s[k + (j - i)])
    && (forall k :: j <= k < j + r ==> t[k] == s[k - (j - i)])
    && (forall k :: 0 <= k < |s| && !(i <= k < i + r) && !(j <= k < j + r) ==> t[k] == s[k])
  }

  lemma ExchangeStep<T>(s: seq<T>, t: seq<T>, u: seq<T>, i: nat, j: nat, n: nat)
    requires i + n < j && j + n < |s|
    requires Exchanged(s, t, i, j, n)
    requires Swapped(t, u, i + n, j + n)
    ensures Exchanged(s, u, i, j, n + 1)
  {
  }

  /** vecswap: exchanges the r elements at i with the r elements at j. */
  method VecSwap<T>(a: array<T>, i: nat, j: nat, r: nat, ghost from: seq<T>, ghost lo: nat, ghost hi: nat)
    requires lo <= i && i + r <= j && j + r <= hi <= a.Length == |from|
    requires Shuffled(from, a[..], lo, hi)
    modifies a
    ensures Shuffled(from, a[..], lo, hi)
    ensures Exchanged(old(a[..]), a[..], i, j, r)
  {
    var n := 0;
    while n < r
      invariant 0 <= n <= r
      invariant Shuffled(from, a[..], lo, hi)
      invariant Exchanged(old(a[..]), a[..], i, j, n)
    {
      ghost var t := a[..];
      Swap(a, i + n, j + n, from, lo, hi);
      ExchangeStep(old(a[..]), t, a[..], i, j, n);
      n := n + 1;
    }
  }

  /** s[lo..hi] is sorted, except that the element at pl may be too far right. */
  ghost predicate SortedBut<T>(s: seq<T>, cmp: (T, T) -> int, lo: nat, hi: nat, pl: nat)
    requires lo <= hi <= |s|
  {
    forall i, j :: lo <= i < j < hi && j != pl ==> cmp(s[i], s[j]) <= 0
  }

  lemma InsertStep<T(!new)>(s: seq<T>, t: seq<T>, cmp: (T, T) -> int, lo: nat, hi: nat, pl: nat)
    requires TotalPreorder(cmp) && lo < pl < hi <= |s|
    requires SortedBut(s, cmp, lo, hi, pl) && cmp(s[pl - 1], s[pl]) > 0
    requires Swapped(s, t, pl, pl - 1)
    ensures SortedBut(t, cmp, lo, hi, pl - 1)
  {
    assert Mirrored(cmp, s[pl], s[pl - 1]);
  }

  lemma InsertDone<T(!new)>(s: seq<T>, cmp: (T, T) -> int, lo: nat, hi: nat, pl: nat)
    requires TotalPreorder(cmp) && lo <= pl < hi <= |s|
    requires SortedBut(s, cmp, lo, hi, pl) && (pl == lo || cmp(s[pl - 1], s[pl]) <= 0)
    ensures Sorted(s, cmp, lo, hi)
  {
    forall i | lo <= i < pl ensures cmp(s[i], s[pl]) <= 0 {
      assert Chained(cmp, s[i], s[pl - 1], s[pl]);
    }
  }

  /** The inner loop: sinks the element at pm into the sorted prefix before it. */
  method Insert<T(!new)>(a: array<T>, cmp: (T, T) -> int, lo: nat, pm: nat, ghost from: seq<T>, ghost hi: nat)
    requires TotalPreorder(cmp) && lo < pm < hi <= a.Length == |from|
    requires Shuffled(from, a[..], lo, hi) && Sorted(a[..], cmp, lo, pm)
    modifies a
    ensures Shuffled(from, a[..], lo, hi) && Sorted(a[..], cmp, lo, pm + 1)
  {
    var pl := pm;
    while pl > lo && cmp(a[pl - 1], a[pl]) > 0
      invariant lo <= pl <= pm
      invariant Shuffled(from, a[..], lo, hi)
      invariant SortedBut(a[..], cmp, lo, pm + 1, pl)
    {
      ghost var s := a[..];
      Swap(a, pl, pl - 1, from, lo, hi);
      InsertStep(s, a[..], cmp, lo, pm + 1, pl);
      pl := pl - 1;
    }
    InsertDone(a[..], cmp, lo, pm + 1, pl);
  }

  /** The insertion sort used below 7 elements and after a partition without swaps. */
  method InsertionSort<T(!new)>(a: array<T>, cmp: (T, T) -> int, lo: nat, hi: nat)
    requires TotalPreorder(cmp) && lo <= hi <= a.Length
    modifies a
    ensures Shuffled(old(a[..]), a[..], lo, hi)
    ensures Sorted(a[..], cmp, lo, hi)
  {
    if lo == hi { return; }
    var pm := lo + 1;
    ghost var from := a[..];
    while pm < hi
      invariant lo < pm <= hi
      invariant Shuffled(from, a[..], lo, hi)
      invariant Sorted(a[..], cmp, lo, pm)
    {
      Insert(a, cmp, lo, pm, from, hi);
      pm := pm + 1;
    }
  }

  /** med3: the position among x, y, z whose element lies between the other two. */
  function Med3<T(!new)>(s: seq<T>, cmp: (T, T) -> int, x: nat, y: nat, z: nat): (m: nat)
    requires x < |s| && y < |s| && z < |s|
    ensures m == x || m == y || m == z
  {
    if cmp(s[x], s[y]) < 0 then
      if cmp(s[y], s[z]) < 0 then y else if cmp(s[x], s[z]) < 0 then z else x
    else
      if cmp(s[y], s[z]) > 0 then y else if cmp(s[x], s[z]) < 0 then x else z
  }

  ghost predicate Between<T>(cmp: (T, T) -> int, u: T, m: T, v: T) {
    (cmp(u, m) <= 0 && cmp(m, v) <= 0) || (cmp(v, m) <= 0 && cmp(m, u) <= 0)
  }

  /** The chosen element lies between the two that were not chosen. */
  lemma Med3IsMedian<T(!new)>(s: seq<T>, cmp: (T, T) -> int, x: nat, y: nat, z: nat)
    requires x < |s| && y < |s| && z < |s| && TotalPreorder(cmp)
    ensures var m := Med3(s, cmp, x, y, z);
      || (m == x && Between(cmp, s[y], s[m], s[z]))
      || (m == y && Between(cmp, s[x], s[m], s[z]))
      || (m == z && Between(cmp, s[x], s[m], s[y]))
  {
    assert Mirrored(cmp, s[x], s[y]) && Mirrored(cmp, s[y], s[x]);
    assert Mirrored(cmp, s[y], s[z]) && Mirrored(cmp, s[z], s[y]);
    assert Mirrored(cmp, s[x], s[z]) && Mirrored(cmp, s[z], s[x]);
  }

  /** The pivot position: the middle, a median of three, or a pseudo-median of nine. */
  method ChoosePivot<T(!new)>(a: array<T>, cmp: (T, T) -> int, lo: nat, n: nat) returns (pm: nat)
    requires lo + n <= a.Length && n >= 7
    ensures lo <= pm < lo + n
  {
    pm := lo + n / 2;
    if n > 7 {
      var pl, pn := lo, lo + (n - 1);
      if n > 40 {
        var d := n / 8;
        pl := Med3(a[..], cmp, pl, pl + d, pl + 2 * d);
        pm := Med3(a[..], cmp, pm - d, pm, pm + d);
        pn := Med3(a[..], cmp, pn - 2 * d, pn - d, pn);
      }
      pm := Med3(a[..], cmp, pl, pm, pn);
    }
  }

  /** The state of the partition loop: equal | below | unseen | above | equal, around
      the pivot p kept at lo. pc and pd are one past the source's inclusive pointers. */
  ghost predicate Split<T>(s: seq<T>, cmp: (T, T) -> int, p: T, lo: int, hi: int, pa: int, pb: int, pc: int, pd: int) {
    && 0 <= lo < pa <= pb <= pc <= pd <= hi <= |s|
    && s[lo] == p
    && (forall k :: lo < k < pa || pd <= k < hi ==> cmp(s[k], p) == 0)
    && (forall k :: pa <= k < pb ==> cmp(s[k], p) < 0)
    && (forall k :: pc <= k < pd ==> cmp(s[k], p) > 0)
  }

  /** Split, with the upward scan stopped at an element above the pivot. */
  ghost predicate Stopped<T>(s: seq<T>, cmp: (T, T) -> int, p: T, lo: int, hi: int, pa: int, pb: int, pc: int,
                             pd: int) {
    Split(s, cmp, p, lo, hi, pa, pb, pc, pd) && (pb < pc ==> cmp(s[pb], p) > 0)
  }

  /** An element equal to the pivot joins the left end; the one it displaces is below. */
  lemma SplitEqualLeft<T>(s: seq<T>, t: seq<T>, cmp: (T, T) -> int, p: T, lo: int, hi: int, pa: int, pb: int, pc: int,
                          pd: int)
    requires Split(s, cmp, p, lo, hi, pa, pb, pc, pd) && pb < pc && cmp(s[pb], p) == 0
    requires Swapped(s, t, pa, pb)
    ensures Split(t, cmp, p, lo, hi, pa + 1, pb + 1, pc, pd)
  {
  }

  lemma SplitEqualRight<T>(s: seq<T>, t: seq<T>, cmp: (T, T) -> int, p: T, lo: int, hi: int, pa: int, pb: int,
                           pc: int, pd: int)
    requires Stopped(s, cmp, p, lo, hi, pa, pb, pc, pd) && pb < pc && cmp(s[pc - 1], p) == 0
    requires Swapped(s, t, pc - 1, pd - 1)
    ensures Stopped(t, cmp, p, lo, hi, pa, pb, pc - 1, pd - 1)
  {
  }

  lemma SplitCross<T>(s: seq<T>, t: seq<T>, cmp: (T, T) -> int, p: T, lo: int, hi: int, pa: int, pb: int, pc: int,
                      pd: int)
    requires Stopped(s, cmp, p, lo, hi, pa, pb, pc, pd) && pb < pc && cmp(s[pc - 1], p) < 0
    requires Swapped(s, t, pb, pc - 1)
    ensures Split(t, cmp, p, lo, hi, pa, pb + 1, pc - 1, pd)
  {
  }

  /** The upward scan: stops at an element above the pivot, or at pc. */
  method ScanUp<T(!new)>(a: array<T>, cmp: (T, T) -> int, lo: int, hi: int, pa0: int, pb0: int, pc: int, pd: int,
                         ghost p: T, ghost from: seq<T>) returns (pa: int, pb: int, swapped: bool)
    requires 0 <= lo <= hi <= a.Length == |from| && Shuffled(from, a[..], lo, hi)
    requires Split(a[..], cmp, p, lo, hi, pa0, pb0, pc, pd)
    modifies a
    ensures Shuffled(from, a[..], lo, hi)
    ensures pb0 <= pb && Stopped(a[..], cmp, p, lo, hi, pa, pb, pc, pd)
    ensures !swapped ==> a[..] == old(a[..])
  {
    pa, pb, swapped := pa0, pb0, false;
    while pb < pc && cmp(a[pb], a[lo]) <= 0
      invariant pb0 <= pb && Split(a[..], cmp, p, lo, hi, pa, pb, pc, pd)
      invariant Shuffled(from, a[..], lo, hi) && (!swapped ==> a[..] == old(a[..]))
    {
      if cmp(a[pb], a[lo]) == 0 {
        swapped := true;
        ghost var s := a[..];
        Swap(a, pa, pb, from, lo, hi);
        SplitEqualLeft(s, a[..], cmp, p, lo, hi, pa, pb, pc, pd);
        pa := pa + 1;
      }
      pb := pb + 1;
    }
  }

  /** The downward scan: stops at an element below the pivot, or at pb. */
  method ScanDown<T(!new)>(a: array<T>, cmp: (T, T) -> int, lo: int, hi: int, pa: int, pb: int, pc0: int, pd0: int,
                           ghost p: T, ghost from: seq<T>) returns (pc: int, pd: int, swapped: bool)
    requires 0 <= lo <= hi <= a.Length == |from| && Shuffled(from, a[..], lo, hi)
    requires Stopped(a[..], cmp, p, lo, hi, pa, pb, pc0, pd0)
    modifies a
    ensures Shuffled(from, a[..], lo, hi)
    ensures pc <= pc0 && Stopped(a[..], cmp, p, lo, hi, pa, pb, pc, pd)
    ensures pb < pc ==> cmp(a[pc - 1], p) < 0
    ensures !swapped ==> a[..] == old(a[..])
  {
    pc, pd, swapped := pc0, pd0, false;
    while pb < pc && cmp(a[pc - 1], a[lo]) >= 0
      invariant pc <= pc0 && Stopped(a[..], cmp, p, lo, hi, pa, pb, pc, pd)
      invariant Shuffled(from, a[..], lo, hi) && (!swapped ==> a[..] == old(a[..]))
    {
      if cmp(a[pc - 1], a[lo]) == 0 {
        swapped := true;
        ghost var s := a[..];
        Swap(a, pc - 1, pd - 1, from, lo, hi);
        SplitEqualRight(s, a[..], cmp, p, lo, hi, pa, pb, pc, pd);
        pd := pd - 1;
      }
      pc := pc - 1;
    }
  }

  /** The partition loop around the pivot at lo. swapped is the source's swap_cnt. */
  method Partition<T(!new)>(a: array<T>, cmp: (T, T) -> int, lo: int, hi: int)
    returns (pa: int, pb: int, pd: int, swapped: bool)
    requires 0 <= lo < hi <= a.Length
    modifies a
    ensures Shuffled(old(a[..]), a[..], lo, hi)
    ensures Split(a[..], cmp, old(a[lo]), lo, hi, pa, pb, pb, pd)
    ensures !swapped ==> a[..] == old(a[..])
  {
    swapped := false;
    pa, pb := lo + 1, lo + 1;
    var pc := hi;
    pd := hi;
    ghost var p, from := a[lo], a[..];
    while true
      invariant Split(a[..], cmp, p, lo, hi, pa, pb, pc, pd)
      invariant Shuffled(from, a[..], lo, hi) && (!swapped ==> a[..] == from)
      decreases pc - pb
    {
      var up, down;
      pa, pb, up := ScanUp(a, cmp, lo, hi, pa, pb, pc, pd, p, from);
      pc, pd, down := ScanDown(a, cmp, lo, hi, pa, pb, pc, pd, p, from);
      swapped := swapped || up || down;
      if pb >= pc { break; }
      ghost var s := a[..];
      Swap(a, pb, pc - 1, from, lo, hi);
      SplitCross(s, a[..], cmp, p, lo, hi, pa, pb, pc, pd);
      swapped := true;
      pb, pc := pb + 1, pc - 1;
    }
  }

  // ------------------------------------------------------------------ three-way layout

  /** below | equal | above the pivot p. */
  ghost predicate ThreeWay<T>(s: seq<T>, cmp: (T, T) -> int, p: T, lo: int, m1: int, m2: int, hi: int) {
    && 0 <= lo <= m1 < m2 <= hi <= |s|
    && All(s, cmp, lo, m1, p, -1) && All(s, cmp, m1, m2, p, 0) && All(s, cmp, m2, hi, p, 1)
  }

  function Min(x: int, y: int): int { if x < y then x else y }

  /** After the first vecswap: below | equal | above | equal. */
  ghost predicate LeftGathered<T>(s: seq<T>, cmp: (T, T) -> int, p: T, lo: int, m1: int, pb: int, pd: int, hi: int) {
    && 0 <= lo <= m1 < pb <= pd <= hi <= |s|
    && All(s, cmp, lo, m1, p, -1) && All(s, cmp, m1, pb, p, 0)
    && All(s, cmp, pb, pd, p, 1) && All(s, cmp, pd, hi, p, 0)
  }

  lemma GatherLeft<T>(s: seq<T>, t: seq<T>, cmp: (T, T) -> int, p: T, lo: nat, hi: nat, pa: nat, pb: nat, pd: nat,
                      r: nat)
    requires Split(s, cmp, p, lo, hi, pa, pb, pb, pd) && cmp(p, p) == 0
    requires r == Min(pa - lo, pb - pa) && Exchanged(s, t, lo, pb - r, r)
    ensures LeftGathered(t, cmp, p, lo, lo + (pb - pa), pb, pd, hi)
  {
  }

  lemma GatherRight<T>(s: seq<T>, t: seq<T>, cmp: (T, T) -> int, p: T, lo: nat, m1: nat, pb: nat, pd: nat, hi: nat,
                       r: nat)
    requires LeftGathered(s, cmp, p, lo, m1, pb, pd, hi)
    requires r == Min(pd - pb, hi - pd) && Exchanged(s, t, pb, hi - r, r)
    ensures ThreeWay(t, cmp, p, lo, m1, hi - (pd - pb), hi)
  {
  }

  /** The first vecswap moves the equal elements at the left end next to pb. */
  method GatherLeftEnd<T(!new)>(a: array<T>, cmp: (T, T) -> int, lo: int, hi: int, pa: int, pb: int, ghost pd: int,
                                ghost p: T, ghost from: seq<T>)
    requires 0 <= lo < hi <= a.Length == |from| && Shuffled(from, a[..], lo, hi)
    requires Split(a[..], cmp, p, lo, hi, pa, pb, pb, pd) && cmp(p, p) == 0
    modifies a
    ensures Shuffled(from, a[..], lo, hi)
    ensures LeftGathered(a[..], cmp, p, lo, lo + (pb - pa), pb, pd, hi)
  {
    var r := Min(pa - lo, pb - pa);
    VecSwap(a, lo, pb - r, r, from, lo, hi);
    GatherLeft(old(a[..]), a[..], cmp, p, lo, hi, pa, pb, pd, r);
  }

  /** The second vecswap moves the equal elements at the right end next to pb. */
  method GatherRightEnd<T(!new)>(a: array<T>, cmp: (T, T) -> int, ghost lo: int, hi: int, ghost m1: int, pb: int,
                                 pd: int, ghost p: T, ghost from: seq<T>)
    requires 0 <= lo < hi <= a.Length == |from| && Shuffled(from, a[..], lo, hi)
    requires LeftGathered(a[..], cmp, p, lo, m1, pb, pd, hi)
    modifies a
    ensures Shuffled(from, a[..], lo, hi)
    ensures ThreeWay(a[..], cmp, p, lo, m1, hi - (pd - pb), hi)
  {
    var r := Min(pd - pb, hi - pd);
    VecSwap(a, pb, hi - r, r, from, lo, hi);
    GatherRight(old(a[..]), a[..], cmp, p, lo, m1, pb, pd, hi, r);
  }

  // ------------------------------------------------------------------ composing ranges

  /** Nothing in [lo, m) compares greater than anything in [m, hi). */
  ghost predicate Cross<T>(s: seq<T>, cmp: (T, T) -> int, lo: int, m: int, hi: int) {
    && 0 <= lo <= m <= hi <= |s|
    && (forall i, k :: lo <= i < m <= k < hi ==> cmp(s[i], s[k]) <= 0)
  }

  lemma Glue<T>(s: seq<T>, cmp: (T, T) -> int, lo: nat, m: nat, hi: nat, left: nat, right: nat)
    requires Cross(s, cmp, lo, m, hi)
    requires WindowPlaced(s, cmp, lo, m, left, right) && WindowPlaced(s, cmp, m, hi, left, right)
    ensures WindowPlaced(s, cmp, lo, hi, left, right)
  {
    forall i | lo <= i < hi && left <= i <= right ensures Placed(s, cmp, lo, hi, i) {
      if i < m { assert Placed(s, cmp, lo, m, i); } else { assert Placed(s, cmp, m, hi, i); }
    }
  }

  /** Permuting one side of a cross keeps it. */
  lemma CrossShuffle<T>(s: seq<T>, t: seq<T>, cmp: (T, T) -> int, lo: nat, m: nat, hi: nat)
    requires Cross(s, cmp, lo, m, hi) && (Shuffled(s, t, lo, m) || Shuffled(s, t, m, hi))
    ensures Cross(t, cmp, lo, m, hi)
  {
    forall i, k | lo <= i < m <= k < hi ensures cmp(t[i], t[k]) <= 0 {
      if Shuffled(s, t, lo, m) {
        var j := Origin(s, t, lo, m, i);
      } else {
        var j := Origin(s, t, m, hi, k);
      }
    }
  }

  lemma Origin<T>(s: seq<T>, t: seq<T>, lo: nat, hi: nat, k: nat) returns (j: nat)
    requires Shuffled(s, t, lo, hi) && lo <= k < hi
    ensures lo <= j < hi && s[j] == t[k]
  {
    ShuffledRange(s, t, lo, hi);
    assert t[k] == t[lo..hi][k - lo];
    assert t[k] in multiset(t[lo..hi]);
    assert t[k] in s[lo..hi];
    var q :| 0 <= q < hi - lo && s[lo..hi][q] == t[k];
    j := lo + q;
  }

  lemma WindowKept<T>(s: seq<T>, t: seq<T>, cmp: (T, T) -> int, lo: nat, hi: nat, left: nat, right: nat)
    requires lo <= hi <= |s| == |t| && WindowPlaced(s, cmp, lo, hi, left, right)
    requires forall k :: lo <= k < hi ==> t[k] == s[k]
    ensures WindowPlaced(t, cmp, lo, hi, left, right)
  {
    forall i | lo <= i < hi && left <= i <= right ensures Placed(t, cmp, lo, hi, i) {
      assert Placed(s, cmp, lo, hi, i);
    }
  }

  lemma SortedIsPlaced<T>(s: seq<T>, cmp: (T, T) -> int, lo: nat, hi: nat, left: nat, right: nat)
    requires lo <= hi <= |s| && Sorted(s, cmp, lo, hi)
    ensures WindowPlaced(s, cmp, lo, hi, left, right)
  {
    forall i | lo <= i < hi && left <= i <= right ensures Placed(s, cmp, lo, hi, i) {
    }
  }

  /** [lo, m1), [m1, m2) and [m2, hi) are in order, and the middle one is sorted. */
  ghost predicate Separated<T>(s: seq<T>, cmp: (T, T) -> int, lo: int, m1: int, m2: int, hi: int) {
    && 0 <= lo <= m1 < m2 <= hi <= |s|
    && Cross(s, cmp, lo, m1, hi) && Cross(s, cmp, lo, m2, hi)
    && Sorted(s, cmp, m1, m2)
  }

  /** A three-way split separates its three parts, and its middle is in place. */
  lemma ThreeWayCross<T(!new)>(s: seq<T>, cmp: (T, T) -> int, p: T, lo: nat, m1: nat, m2: nat, hi: nat)
    requires TotalPreorder(cmp) && ThreeWay(s, cmp, p, lo, m1, m2, hi)
    ensures Separated(s, cmp, lo, m1, m2, hi)
  {
    forall k | m1 <= k < hi ensures cmp(p, s[k]) <= 0 {
      assert Mirrored(cmp, s[k], p);
    }
    forall i, k | lo <= i < m2 && m1 <= k < hi ensures cmp(s[i], s[k]) <= 0 {
      assert Chained(cmp, s[i], p, s[k]);
    }
  }

  // ------------------------------------------------------------------ the sort

  /** The pruning test, on byte addresses: the window lies outside the sub-array
      whose first byte is at l and whose last byte is at r. */
  predicate Outside(lrange: int, rrange: int, l: int, r: int) {
    (lrange < l && rrange < l) || (lrange > r && rrange > r)
  }

  lemma MulLess(x: nat, y: nat, es: nat)
    requires x < y
    ensures x * es + es <= y * es
  {
    var d := y - x - 1;
    assert y * es == x * es + es + d * es;
    assert d * es >= 0;
  }

  /** The byte-level test prunes exactly the sub-arrays that miss the window. */
  lemma OutsideIsDisjoint(es: nat, left: nat, right: nat, lo: nat, hi: nat)
    requires es > 0 && lo < hi
    ensures Outside(left * es, (right + 1) * es - 1, lo * es, hi * es - 1) ==> right < lo || left >= hi
    ensures left <= right && (right < lo || left >= hi)
        ==> Outside(left * es, (right + 1) * es - 1, lo * es, hi * es - 1)
  {
    if left < lo { MulLess(left, lo, es); } else if lo < left { MulLess(lo, left, es); }
    if right < lo { MulLess(right, lo, es); } else if lo < right { MulLess(lo, right, es); }
    if left < hi { MulLess(left, hi, es); } else if hi < left { MulLess(hi, left, es); }
    if right < hi { MulLess(right, hi, es); } else if hi < right { MulLess(hi, right, es); }
    assert (right + 1) * es == right * es + es;
  }

  /** lrange and rrange are the first and the last byte of the window. */
  ghost predicate WindowBytes(es: nat, lrange: int, rrange: int, left: nat, right: nat) {
    es > 0 && lrange == left * es && rrange == (right + 1) * es - 1
  }

  /** The test before each of the two continuations, and what a negative answer means. */
  method Meets(es: nat, lrange: int, rrange: int, lo: nat, hi: nat, ghost left: nat, ghost right: nat) returns (b: bool)
    requires WindowBytes(es, lrange, rrange, left, right)
    ensures !b ==> hi - lo <= 1 || right < lo || left >= hi
    ensures left <= right && hi - lo > 1 ==> b == !(right < lo || left >= hi)
  {
    if hi - lo <= 1 { return false; }
    OutsideIsDisjoint(es, left, right, lo, hi);
    b := !Outside(lrange, rrange, lo * es, hi * es - 1);
  }

  /** A part that is skipped, being short or pruned, has nothing to place. */
  lemma SkippedIsPlaced<T>(s: seq<T>, cmp: (T, T) -> int, lo: nat, hi: nat, left: nat, right: nat)
    requires lo <= hi <= |s| && (hi - lo <= 1 || right < lo || left >= hi)
    ensures WindowPlaced(s, cmp, lo, hi, left, right)
  {
  }

  /** What the loop of _pqsort keeps: the current sub-array [b, hi) is separated from
      what precedes it, and what precedes it is in place. */
  ghost predicate Progress<T>(s: seq<T>, cmp: (T, T) -> int, lo: nat, b: nat, hi: nat, left: nat, right: nat) {
    && Cross(s, cmp, lo, b, hi)
    && WindowPlaced(s, cmp, lo, b, left, right)
  }

  lemma ProgressKept<T>(s: seq<T>, t: seq<T>, cmp: (T, T) -> int, lo: nat, b: nat, hi: nat, left: nat, right: nat)
    requires Progress(s, cmp, lo, b, hi, left, right) && Shuffled(s, t, b, hi)
    ensures Progress(t, cmp, lo, b, hi, left, right)
  {
    CrossShuffle(s, t, cmp, lo, b, hi);
    WindowKept(s, t, cmp, lo, b, left, right);
  }

  /** Once the part below the pivot is in place, the loop may move on to the part above. */
  lemma ProgressToRight<T>(s: seq<T>, t: seq<T>, cmp: (T, T) -> int, lo: nat, b: nat, m1: nat, m2: nat, hi: nat,
                           left: nat, right: nat)
    requires Progress(s, cmp, lo, b, hi, left, right)
    requires Separated(s, cmp, b, m1, m2, hi)
    requires Shuffled(s, t, b, m1) && WindowPlaced(t, cmp, b, m1, left, right)
    ensures Progress(t, cmp, lo, m2, hi, left, right)
  {
    WindowKept(s, t, cmp, lo, b, left, right);
    SortedIsPlaced(s, cmp, m1, m2, left, right);
    WindowKept(s, t, cmp, m1, m2, left, right);
    assert Shuffled(s, t, b, hi);
    CrossShuffle(s, t, cmp, lo, b, hi);
    CrossShuffle(s, t, cmp, b, m1, hi);
    assert Shuffled(s, t, b, m2);
    CrossShuffle(s, t, cmp, b, m2, hi);
    Glue(t, cmp, b, m1, m2, left, right);
    Glue(t, cmp, lo, b, m2, left, right);
  }

  /** One pass over [b, hi) up to the recursive calls: either the range is sorted
      (the two insertion-sort shortcuts) or it is split three ways around a pivot. */
  method Pass<T(!new)>(a: array<T>, cmp: (T, T) -> int, b: nat, n: nat)
    returns (finished: bool, m1: int, m2: int)
    requires TotalPreorder(cmp) && b + n <= a.Length
    modifies a
    ensures Shuffled(old(a[..]), a[..], b, b + n)
    ensures finished ==> Sorted(a[..], cmp, b, b + n)
    ensures !finished ==> Separated(a[..], cmp, b, m1, m2, b + n)
  {
    finished, m1, m2 := true, 0, 0;
    if n < 7 {
      InsertionSort(a, cmp, b, b + n);
      return;
    }
    ghost var from := a[..];
    var pm := ChoosePivot(a, cmp, b, n);
    Swap(a, b, pm, from, b, b + n);
    ghost var p := a[b];
    assert Mirrored(cmp, p, p);
    var pa, pb, pd, swapped := Partition(a, cmp, b, b + n);
    if !swapped {
      InsertionSort(a, cmp, b, b + n);
      return;
    }
    finished, m1, m2 := false, b + (pb - pa), b + n - (pd - pb);
    GatherLeftEnd(a, cmp, b, b + n, pa, pb, pd, p, from);
    GatherRightEnd(a, cmp, b, b + n, m1, pb, pd, p, from);
    ThreeWayCross(a[..], cmp, p, b, m1, m2, b + n);
  }

  /** _pqsort: one pass, recursion into the part below the pivot, iteration on the part above. */
  method QuickSort<T(!new)>(a: array<T>, cmp: (T, T) -> int, lo: nat, n0: nat, es: nat, lrange: int, rrange: int,
                            ghost left: nat, ghost right: nat)
    requires TotalPreorder(cmp) && lo + n0 <= a.Length && WindowBytes(es, lrange, rrange, left, right)
    modifies a
    ensures Shuffled(old(a[..]), a[..], lo, lo + n0)
    ensures WindowPlaced(a[..], cmp, lo, lo + n0, left, right)
    decreases n0, 1
  {
    var b, n := lo, n0;
    ghost var from, hi := a[..], lo + n0;
    while true
      invariant lo <= b && b + n == hi && n <= n0
      invariant Shuffled(from, a[..], lo, hi)
      invariant Progress(a[..], cmp, lo, b, hi, left, right)
      decreases n
    {
      ghost var s := a[..];
      var finished, m1, m2 := Pass(a, cmp, b, n);
      ProgressKept(s, a[..], cmp, lo, b, hi, left, right);
      if finished {
        SortedIsPlaced(a[..], cmp, b, hi, left, right);
        Glue(a[..], cmp, lo, b, hi, left, right);
        return;
      }
      SortBelow(a, cmp, lo, b, m1, m2, hi, es, lrange, rrange, left, right);
      var above := Meets(es, lrange, rrange, m2, b + n, left, right);
      if !above {
        SkippedIsPlaced(a[..], cmp, m2, hi, left, right);
        Glue(a[..], cmp, lo, m2, hi, left, right);
        return;
      }
      b, n := m2, b + n - m2;
    }
  }

  /** The recursive call on [b, m1), taken only when that part meets the window. */
  method SortBelow<T(!new)>(a: array<T>, cmp: (T, T) -> int, ghost lo: nat, b: nat, m1: nat, ghost m2: nat,
                            ghost hi: nat, es: nat, lrange: int, rrange: int, ghost left: nat, ghost right: nat)
    requires TotalPreorder(cmp) && hi <= a.Length && WindowBytes(es, lrange, rrange, left, right)
    requires Progress(a[..], cmp, lo, b, hi, left, right) && Separated(a[..], cmp, b, m1, m2, hi)
    modifies a
    ensures Shuffled(old(a[..]), a[..], b, m1)
    ensures Progress(a[..], cmp, lo, m2, hi, left, right)
    decreases m1 - b + 1, 0
  {
    var below := Meets(es, lrange, rrange, b, m1, left, right);
    if below {
      QuickSort(a, cmp, b, m1 - b, es, lrange, rrange, left, right);
    } else {
      SkippedIsPlaced(a[..], cmp, b, m1, left, right);
    }
    ProgressToRight(old(a[..]), a[..], cmp, lo, b, m1, m2, hi, left, right);
  }

  /** pqsort: the elements whose index lies in [left, right] end up where a full sort
      would put them; the rest of the array is only permuted. */
  method PQSort<T(!new)>(a: array<T>, n: nat, es: nat, cmp: (T, T) -> int, left: nat, right: nat)
    requires TotalPreorder(cmp) && n <= a.Length && es > 0
    modifies a
    ensures Shuffled(old(a[..]), a[..], 0, n)
    ensures WindowPlaced(a[..], cmp, 0, n, left, right)
  {
    QuickSort(a, cmp, 0, n, es, left * es, (right + 1) * es - 1, left, right);
  }

  // ------------------------------------------------------------------ what a placed window is

  function Count<T>(s: seq<T>, f: T -> bool): (c: nat)
    ensures c <= |s|
  {
    if s == [] then 0 else (if f(s[0]) then 1 else 0) + Count(s[1..], f)
  }

  lemma {:induction false} CountConcat<T>(s: seq<T>, t: seq<T>, f: T -> bool)
    ensures Count(s + t, f) == Count(s, f) + Count(t, f)
  {
    if s == [] {
      assert s + t == t;
    } else {
      assert (s + t)[1..] == s[1..] + t;
      CountConcat(s[1..], t, f);
    }
  }

  lemma {:induction false} CountPermutation<T>(s: seq<T>, t: seq<T>, f: T -> bool)
    requires multiset(s) == multiset(t)
    ensures Count(s, f) == Count(t, f)
    decreases |s|
  {
    if s == [] {
      assert |t| == |multiset(t)| == 0;
    } else {
      assert s[0] in multiset(t);
      var k :| 0 <= k < |t| && t[k] == s[0];
      RemoveFromMultiset(s, 0);
      RemoveFromMultiset(t, k);
      RemoveFromCount(s, 0, f);
      RemoveFromCount(t, k, f);
      CountPermutation(Without(s, 0), Without(t, k), f);
    }
  }

  function Without<T>(s: seq<T>, k: nat): seq<T>
    requires k < |s|
  {
    s[..k] + s[k + 1..]
  }

  lemma RemoveFromMultiset<T>(s: seq<T>, k: nat)
    requires k < |s|
    ensures multiset(Without(s, k)) == multiset(s) - multiset{s[k]}
  {
    assert s == s[..k] + [s[k]] + s[k + 1..];
  }

  lemma RemoveFromCount<T>(s: seq<T>, k: nat, f: T -> bool)
    requires k < |s|
    ensures Count(s, f) == Count(Without(s, k), f) + if f(s[k]) then 1 else 0
  {
    CountSplit(s, k, f);
    CountConcat(s[..k], s[k + 1..], f);
    assert s[k..][1..] == s[k + 1..];
  }

  lemma CountSplit<T>(s: seq<T>, k: nat, f: T -> bool)
    requires k <= |s|
    ensures Count(s, f) == Count(s[..k], f) + Count(s[k..], f)
  {
    assert s == s[..k] + s[k..];
    CountConcat(s[..k], s[k..], f);
  }

  lemma {:induction false} CountUniform<T>(s: seq<T>, f: T -> bool, b: bool)
    requires forall k :: 0 <= k < |s| ==> f(s[k]) == b
    ensures Count(s, f) == if b then |s| else 0
  {
    if s != [] { CountUniform(s[1..], f, b); }
  }

  /** A placed window is what a full sort leaves there: at every index of the window the
      element compares equal to the one any sorted permutation has at that index. */
  lemma PlacedAgreesWithSort<T(!new)>(s: seq<T>, t: seq<T>, cmp: (T, T) -> int, left: nat, right: nat, i: nat)
    requires TotalPreorder(cmp) && multiset(s) == multiset(t) && |s| == |t|
    requires Sorted(t, cmp, 0, |t|) && WindowPlaced(s, cmp, 0, |s|, left, right)
    requires left <= i <= right && i < |s|
    ensures cmp(s[i], t[i]) == 0
  {
    assert Placed(s, cmp, 0, |s|, i);
    var below, above := (e: T) => cmp(e, t[i]) < 0, (e: T) => cmp(e, t[i]) > 0;
    assert Mirrored(cmp, t[i], t[i]) && Mirrored(cmp, s[i], s[i]);
    if cmp(s[i], t[i]) < 0 {
      forall k | 0 <= k <= i ensures below(s[k]) {
        assert Chained(cmp, s[k], s[i], t[i]);
        assert Mirrored(cmp, s[k], t[i]) && Mirrored(cmp, s[i], t[i]);
        assert Chained(cmp, t[i], s[k], s[i]);
      }
      forall k | i <= k < |t| ensures !below(t[k]) {
        assert Mirrored(cmp, t[k], t[i]);
      }
      CountSplit(s, i + 1, below);
      CountUniform(s[..i + 1], below, true);
      CountSplit(t, i, below);
      CountUniform(t[i..], below, false);
      CountPermutation(s, t, below);
    } else if cmp(s[i], t[i]) > 0 {
      forall k | i <= k < |s| ensures above(s[k]) {
        assert Mirrored(cmp, t[i], s[i]) && Mirrored(cmp, t[i], s[k]);
        assert Chained(cmp, t[i], s[i], s[k]);
        assert Chained(cmp, s[i], s[k], t[i]);
      }
      forall k | 0 <= k <= i ensures !above(t[k]) {
      }
      CountSplit(s, i, above);
      CountUniform(s[i..], above, true);
      CountSplit(t, i + 1, above);
      CountUniform(t[..i + 1], above, false);
      CountPermutation(s, t, above);
    }
  }
}
