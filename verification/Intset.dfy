/** intset.c: a strictly sorted array of integers, packed in 2, 4 or 8 bytes each and widened in place. */
module Intset {
  import opened Bytes
  import opened Little

  type Width = w: nat | w == 2 || w == 4 || w == 8 witness 2

  const INT16: Width := 2
  const INT32: Width := 4
  const INT64: Width := 8

  function Modulus(enc: Width): nat {
    if enc == 2 then 0x1_0000 else if enc == 4 then 0x1_0000_0000 else 0x1_0000_0000_0000_0000
  }

  predicate Fits(v: int, enc: Width) { -(Modulus(enc) / 2) <= v < Modulus(enc) / 2 }

  /** _intsetValueEncoding. */
  function ValueEncoding(v: int): (enc: Width)
    requires Fits(v, INT64)
    ensures Fits(v, enc) && forall w: Width :: Fits(v, w) ==> enc <= w
  {
    if v < -0x8000_0000 || v > 0x7fff_ffff then INT64
    else if v < -0x8000 || v > 0x7fff then INT32
    else INT16
  }

  // ---- packed values

  /** The byte offset of an element. */
  function Off(enc: Width, pos: nat): nat {
    if enc == 2 then 2 * pos else if enc == 4 then 4 * pos else 8 * pos
  }

  function Pack(v: int, enc: Width): (s: seq<byte>)
    requires Fits(v, enc)
    ensures |s| == enc
  {
    PackLength(v % Modulus(enc), enc);
    LittleBytes(v % Modulus(enc), enc)
  }

  function Unpack(s: seq<byte>): (v: int)
    requires |s| == 2 || |s| == 4 || |s| == 8
    ensures Fits(v, |s|)
  {
    LittleBound(s);
    Signed(LittleValue(s), Modulus(|s|))
  }

  lemma Powers(enc: Width)
    ensures Power256(enc) == Modulus(enc)
  {
    assert Power256(2) == 0x1_0000;
    assert Power256(4) == 0x1_0000 * Power256(2);
    Power256Of8();
  }

  lemma PackLength(n: nat, enc: Width)
    requires n < Modulus(enc)
    ensures |LittleBytes(n, enc)| == enc && LittleValue(LittleBytes(n, enc)) == n
  {
    Powers(enc);
    LittleRoundTrip(n, enc);
  }

  lemma {:induction false} ValueBound(s: seq<byte>)
    ensures LittleValue(s) < Power256(|s|)
  {
    if s != [] { ValueBound(s[1..]); }
  }

  lemma LittleBound(s: seq<byte>)
    requires |s| == 2 || |s| == 4 || |s| == 8
    ensures LittleValue(s) < Modulus(|s|)
  {
    ValueBound(s);
    Powers(|s|);
  }

  lemma UnpackPack(v: int, enc: Width)
    requires Fits(v, enc)
    ensures Unpack(Pack(v, enc)) == v
  {
    PackLength(v % Modulus(enc), enc);
  }

  /** _intsetGetEncoded on the bytes of a set. */
  function Get(c: seq<byte>, enc: Width, pos: nat): (v: int)
    requires Off(enc, pos + 1) <= |c|
    ensures Fits(v, enc)
  {
    Unpack(c[Off(enc, pos)..Off(enc, pos + 1)])
  }

  /** The elements the first n slots hold. */
  function Elements(c: seq<byte>, enc: Width, n: nat): (xs: seq<int>)
    requires Off(enc, n) <= |c|
    ensures |xs| == n && forall i :: 0 <= i < n ==> Fits(xs[i], enc)
  {
    seq(n, i requires 0 <= i < n => Get(c, enc, i))
  }

  /** The bytes after one slot has been stored. */
  function Stored(c: seq<byte>, enc: Width, pos: nat, v: int): (d: seq<byte>)
    requires Off(enc, pos + 1) <= |c| && Fits(v, enc)
    ensures |d| == |c|
  {
    c[..Off(enc, pos)] + Pack(v, enc) + c[Off(enc, pos + 1)..]
  }

  /** The bytes after the elements from one position on have been moved to another. */
  function Moved(c: seq<byte>, enc: Width, n: nat, from: nat, to: nat): (d: seq<byte>)
    requires from <= n && Off(enc, n) <= |c| && Off(enc, to + n - from) <= |c|
    ensures |d| == |c|
  {
    c[..Off(enc, to)] + c[Off(enc, from)..Off(enc, n)] + c[Off(enc, to + n - from)..]
  }

  predicate Increasing(xs: seq<int>) { forall i, j :: 0 <= i < j < |xs| ==> xs[i] < xs[j] }

  /** memmove inside one buffer. */
  method MemMove(a: array<byte>, dst: nat, src: nat, n: nat)
    requires dst + n <= a.Length && src + n <= a.Length
    modifies a
    ensures a[..] == old(a[..dst]) + old(a[src..src + n]) + old(a[dst + n..])
  {
    forall i | 0 <= i < n { a[dst + i] := a[src + i]; }
  }

  class IntSet {
    var encoding: Width
    var length: nat
    var contents: array<byte>

    ghost predicate Valid()
      reads this, contents
    {
      contents.Length == Off(encoding, length) && Increasing(List())
    }

    ghost function List(): seq<int>
      requires Off(encoding, length) <= contents.Length
      reads this, contents
    {
      Elements(contents[..], encoding, length)
    }

    /** The set of integers this stands for. */
    ghost function View(): set<int>
      requires Off(encoding, length) <= contents.Length
      reads this, contents
    {
      set x | x in List()
    }

    constructor ()
      ensures Valid() && View() == {} && encoding == INT16 && length == 0 && fresh(contents)
    {
      encoding, length := INT16, 0;
      contents := new byte[0];
    }

    /** _intsetSet: one slot changes, whatever the width of the others. */
    method Set(pos: nat, value: int)
      requires Off(encoding, pos + 1) <= contents.Length && Fits(value, encoding)
      modifies contents
      ensures contents[..] == Stored(old(contents[..]), encoding, pos, value)
    {
      var bytes := Pack(value, encoding);
      var base := Off(encoding, pos);
      forall k | 0 <= k < encoding { contents[base + k] := bytes[k]; }
    }

    /** intsetResize: the bytes that fit are kept. */
    method Resize(len: nat)
      modifies this`contents
      ensures fresh(contents) && contents.Length == Off(encoding, len)
      ensures var kept := if contents.Length < old(contents.Length) then contents.Length else old(contents.Length);
              contents[..kept] == old(contents[..kept])
    {
      var grown := new byte[Off(encoding, len)];
      var kept := if grown.Length < contents.Length then grown.Length else contents.Length;
      forall i | 0 <= i < kept { grown[i] := contents[i]; }
      contents := grown;
    }

    /** intsetMoveTail: memmove copies the elements from one position on as if through a third buffer. */
    method MoveTail(from: nat, to: nat)
      requires from <= length && Off(encoding, length) <= contents.Length
      requires Off(encoding, to + length - from) <= contents.Length
      modifies contents
      ensures contents[..] == Moved(old(contents[..]), encoding, length, from, to)
    {
      MemMove(contents, Off(encoding, to), Off(encoding, from), Off(encoding, length) - Off(encoding, from));
    }

    /** intsetSearch: where the value is, or where it belongs. */
    method Search(value: int) returns (found: bool, pos: nat)
      requires Valid()
      ensures found ==> pos < length && List()[pos] == value
      ensures !found ==> pos <= length && (forall i :: 0 <= i < pos ==> List()[i] < value)
                         && (forall i :: pos <= i < length ==> List()[i] > value)
    {
      hide Get;
      if length == 0 { return false, 0; }
      var c := contents[..];
      assert forall i :: 0 <= i < length ==> List()[i] == Get(c, encoding, i);
      if value > Get(c, encoding, length - 1) {
        return false, length;
      } else if value < Get(c, encoding, 0) {
        return false, 0;
      }
      var min, max, mid, cur := 0, length - 1, -1, -1;
      while max >= min
        invariant 0 <= min <= max + 1 <= length
        invariant forall i :: 0 <= i < min ==> List()[i] < value
        invariant forall i :: max < i < length ==> List()[i] > value
        invariant mid == -1 ==> max >= min
        invariant mid != -1 ==> cur != value
        decreases max - min + 1
      {
        mid := (min + max) / 2;
        cur := Get(c, encoding, mid);
        if value > cur {
          min := mid + 1;
        } else if value < cur {
          max := mid - 1;
        } else {
          break;
        }
      }
      if value == cur {
        return true, mid;
      } else {
        return false, min;
      }
    }

    /**
      * intsetUpgradeAndAdd. The array is widened from its end, so that no element is overwritten before
      * it has been read, and a value too wide for the old width belongs in front or at the end.
      */
    method UpgradeAndAdd(value: int)
      requires Valid() && Fits(value, INT64) && !Fits(value, encoding)
      modifies this, contents
      ensures Off(encoding, length) == contents.Length
      ensures encoding == ValueEncoding(value) && length == old(length) + 1
          && (contents == old(contents) || fresh(contents))
      ensures List() == if value < 0 then [value] + old(List()) else old(List()) + [value]
    {
      hide Increasing, Get, Fits, Stored;
      var curenc := encoding;
      var newenc := ValueEncoding(value);
      WiderThan(value, curenc);
      var n := length;
      var prepend := if value < 0 then 1 else 0;
      ghost var xs := List();
      ghost var original := contents[..];
      encoding := newenc;
      Resize(length + 1);
      assert contents[..Off(curenc, n)] == original[..Off(curenc, n)];
      WidenAll(curenc, prepend, original);
      var at := if prepend == 1 then 0 else length;
      SetOne(contents[..], newenc, at, value);
      Set(at, value);
      length := length + 1;
      assert forall i :: 0 <= i < n ==> Get(contents[..], newenc, i + prepend) == xs[i];
    }

    /** intsetAdd. Lengths stay below what 32 bits of byte offsets can address. */
    method Add(value: int) returns (success: bool)
      requires Valid() && Fits(value, INT64) && length < 0x1000_0000
      modifies this, contents
      ensures Valid() && View() == old(View()) + {value} && (contents == old(contents) || fresh(contents))
      ensures success <==> value !in old(View())
      ensures length == old(length) + (if success then 1 else 0)
      ensures encoding == if ValueEncoding(value) > old(encoding) then ValueEncoding(value) else old(encoding)
    {
      hide Get, Increasing, Moved, Stored;
      var valenc := ValueEncoding(value);
      ghost var xs := List();
      if valenc > encoding {
        Outside(xs, encoding, value);
        UpgradeAndAdd(value);
        InsertedOk(xs, if value < 0 then 0 else |xs|, value, List());
        return true;
      }
      var found, pos := Search(value);
      if found { return false; }
      assert xs == List();
      InsertAt(pos, value);
      InsertedOk(xs, pos, value, List());
      success := true;
    }

    /** One more slot, and the elements from pos on moved up by one. */
    method MakeRoom(pos: nat)
      requires contents.Length == Off(encoding, length) && pos <= length
      modifies this`contents
      ensures contents.Length == Off(encoding, length + 1) && fresh(contents)
      ensures forall i :: 0 <= i < pos ==> Get(contents[..], encoding, i) == old(List())[i]
      ensures forall i :: pos <= i < length ==> Get(contents[..], encoding, i + 1) == old(List())[i]
    {
      hide Get, Moved;
      ghost var c := contents[..];
      Resize(length + 1);
      SameElements(c, contents[..], encoding, length);
      if pos < length {
        MoveSlots(contents[..], encoding, length, pos, pos + 1);
        MoveTail(pos, pos + 1);
      }
    }

    method InsertAt(pos: nat, value: int)
      requires contents.Length == Off(encoding, length) && pos <= length && Fits(value, encoding)
      modifies this`length, this`contents, contents
      ensures contents.Length == Off(encoding, length) && fresh(contents) && length == old(length) + 1
      ensures forall i :: 0 <= i < pos ==> List()[i] == old(List())[i]
      ensures List()[pos] == value
      ensures forall i :: pos <= i < old(length) ==> List()[i + 1] == old(List())[i]
    {
      hide Get, Stored, Fits;
      MakeRoom(pos);
      SetOne(contents[..], encoding, pos, value);
      Set(pos, value);
      length := length + 1;
    }

    /** intsetRemove; the width is never narrowed again. */
    method Remove(value: int) returns (success: bool)
      requires Valid() && Fits(value, INT64)
      modifies this, contents
      ensures Valid() && View() == old(View()) - {value} && (contents == old(contents) || fresh(contents))
      ensures success <==> value in old(View())
      ensures length == old(length) - (if success then 1 else 0) && encoding == old(encoding)
    {
      hide Get, Increasing, Moved;
      ghost var xs := List();
      if ValueEncoding(value) > encoding {
        TooWide(xs, encoding, value);
        return false;
      }
      var found, pos := Search(value);
      if !found { return false; }
      var len := length;
      if pos < len - 1 {
        MoveSlots(contents[..], encoding, length, pos + 1, pos);
        MoveTail(pos + 1, pos);
      }
      ghost var c := contents[..];
      Resize(len - 1);
      SameElements(c, contents[..], encoding, len - 1);
      length := len - 1;
      RemovedOk(xs, pos, List());
      success := true;
    }

    /** intsetFind. */
    method Find(value: int) returns (found: bool)
      requires Valid() && Fits(value, INT64)
      ensures found <==> value in View()
    {
      hide Get, Increasing;
      if ValueEncoding(value) > encoding {
        TooWide(List(), encoding, value);
        return false;
      }
      var pos;
      found, pos := Search(value);
    }

    /** The back-to-front loop: every element is read in the old width and written in the new one. */
    method WidenAll(curenc: Width, prepend: nat, ghost original: seq<byte>)
      requires curenc <= encoding && prepend <= 1 && contents.Length == Off(encoding, length + 1)
      requires Widened(contents[..], original, curenc, encoding, length, length, prepend)
      modifies contents
      ensures Widened(contents[..], original, curenc, encoding, length, 0, prepend)
    {
      hide Widened, Get, Stored, Fits;
      var k := length;
      while k > 0
        invariant 0 <= k <= length && Widened(contents[..], original, curenc, encoding, length, k, prepend)
        decreases k
      {
        k := k - 1;
        WidenStep(contents[..], original, curenc, encoding, length, k, prepend);
        Widens(Get(contents[..], curenc, k), curenc, encoding);
        Set(k + prepend, Get(contents[..], curenc, k));
      }
    }
  }

  /** In the middle of widening: the first k elements as they were, the others in the new width. */
  ghost predicate Widened(c: seq<byte>, original: seq<byte>, enc: Width, wider: Width, n: nat, k: nat, prepend: nat) {
    && k <= n && prepend <= 1 && enc <= wider
    && |original| == Off(enc, n) && |c| == Off(wider, n + 1) && c[..Off(enc, k)] == original[..Off(enc, k)]
    && forall i :: k <= i < n ==> Get(c, wider, i + prepend) == Get(original, enc, i)
  }

  lemma WidenStep(c: seq<byte>, original: seq<byte>, enc: Width, wider: Width, n: nat, k: nat, prepend: nat)
    requires k < n && Widened(c, original, enc, wider, n, k + 1, prepend)
    ensures Fits(Get(c, enc, k), wider)
    ensures Widened(Stored(c, wider, k + prepend, Get(c, enc, k)), original, enc, wider, n, k, prepend)
  {
    hide Get, Fits, Stored;
    PrefixSlot(original, c, enc, k);
    var v := Get(c, enc, k);
    Widens(v, enc, wider);
    SetOne(c, wider, k + prepend, v);
    var d := Stored(c, wider, k + prepend, v);
    Behind(c, d, enc, wider, k, prepend);
    Shorter(c, original, Off(enc, k), Off(enc, k + 1));
  }

  lemma Shorter(c: seq<byte>, d: seq<byte>, m: nat, n: nat)
    requires m <= n <= |c| && n <= |d| && c[..n] == d[..n]
    ensures c[..m] == d[..m]
  {
    assert c[..m] == c[..n][..m] && d[..m] == d[..n][..m];
  }

  /** What is still to be read lies in front of what has been written. */
  lemma Behind(before: seq<byte>, after: seq<byte>, enc: Width, wider: Width, k: nat, prepend: nat)
    requires enc <= wider && Off(wider, k + prepend) <= |before| == |after|
    requires after[..Off(wider, k + prepend)] == before[..Off(wider, k + prepend)]
    ensures after[..Off(enc, k)] == before[..Off(enc, k)]
  {
    var n := Off(wider, k + prepend);
    assert after[..Off(enc, k)] == after[..n][..Off(enc, k)] && before[..Off(enc, k)] == before[..n][..Off(enc, k)];
  }

  lemma WiderThan(value: int, enc: Width)
    requires Fits(value, INT64) && !Fits(value, enc)
    ensures enc < ValueEncoding(value) && Fits(value, ValueEncoding(value))
  {
  }

  lemma Widens(v: int, enc: Width, wider: Width)
    requires Fits(v, enc) && enc <= wider
    ensures Fits(v, wider)
  {
  }

  lemma PrefixSlot(c: seq<byte>, d: seq<byte>, enc: Width, k: nat)
    requires Off(enc, k + 1) <= |c| && Off(enc, k + 1) <= |d|
    requires c[..Off(enc, k + 1)] == d[..Off(enc, k + 1)]
    ensures Get(c, enc, k) == Get(d, enc, k) && Fits(Get(d, enc, k), enc)
  {
    assert c[Off(enc, k)..Off(enc, k + 1)] == c[..Off(enc, k + 1)][Off(enc, k)..];
    assert d[Off(enc, k)..Off(enc, k + 1)] == d[..Off(enc, k + 1)][Off(enc, k)..];
  }

  /** After a slot is set, it holds the value, and the others what they held. */
  lemma SetOne(before: seq<byte>, enc: Width, pos: nat, v: int)
    requires Fits(v, enc) && Off(enc, pos + 1) <= |before|
    ensures var after := Stored(before, enc, pos, v);
      && Get(after, enc, pos) == v && after[..Off(enc, pos)] == before[..Off(enc, pos)]
      && forall i: nat :: i != pos && Off(enc, i + 1) <= |before| ==> Get(after, enc, i) == Get(before, enc, i)
  {
    hide Pack, Unpack;
    var after := Stored(before, enc, pos, v);
    assert after[Off(enc, pos)..Off(enc, pos + 1)] == Pack(v, enc);
    UnpackPack(v, enc);
    forall i: nat | i != pos && Off(enc, i + 1) <= |before| ensures Get(after, enc, i) == Get(before, enc, i) {
      assert after[Off(enc, i)..Off(enc, i + 1)] == before[Off(enc, i)..Off(enc, i + 1)];
    }
  }

  lemma Slices<T>(a: seq<T>, b: seq<T>, c: seq<T>, i: nat, j: nat)
    requires i <= j
    ensures j <= |b| ==> (a + b + c)[|a| + i..|a| + j] == b[i..j]
    ensures j <= |a| ==> (a + b + c)[i..j] == a[i..j]
  {
  }

  lemma MoveSlots(c: seq<byte>, enc: Width, n: nat, from: nat, to: nat)
    requires from <= n && Off(enc, n) <= |c| && Off(enc, to + n - from) <= |c|
    ensures var d := Moved(c, enc, n, from, to);
      && (forall i :: from <= i < n ==> Get(d, enc, to + i - from) == Get(c, enc, i))
      && (forall i: nat :: i < to && Off(enc, i + 1) <= |c| ==> Get(d, enc, i) == Get(c, enc, i))
  {
    hide Get;
    var d := Moved(c, enc, n, from, to);
    forall i | from <= i < n ensures Get(d, enc, to + i - from) == Get(c, enc, i) {
      MovedSlot(c, enc, n, from, to, i);
    }
    forall i: nat | i < to && Off(enc, i + 1) <= |c| ensures Get(d, enc, i) == Get(c, enc, i) {
      UnmovedSlot(c, enc, n, from, to, i);
    }
  }

  lemma SliceOfSlice<T>(s: seq<T>, from: nat, to: nat, i: nat, j: nat)
    requires from <= to <= |s| && i <= j <= to - from
    ensures s[from..to][i..j] == s[from + i..from + j]
  {
    var a, b := s[from..to][i..j], s[from + i..from + j];
    assert |a| == |b| && forall k :: 0 <= k < |a| ==> a[k] == b[k];
  }

  lemma MovedSlot(c: seq<byte>, enc: Width, n: nat, from: nat, to: nat, i: nat)
    requires from <= i < n && Off(enc, n) <= |c| && Off(enc, to + n - from) <= |c|
    ensures Get(Moved(c, enc, n, from, to), enc, to + i - from) == Get(c, enc, i)
  {
    hide Unpack;
    var middle := c[Off(enc, from)..Off(enc, n)];
    var lo, hi := Off(enc, i) - Off(enc, from), Off(enc, i + 1) - Off(enc, from);
    Slices(c[..Off(enc, to)], middle, c[Off(enc, to + n - from)..], lo, hi);
    SliceOfSlice(c, Off(enc, from), Off(enc, n), lo, hi);
  }

  lemma UnmovedSlot(c: seq<byte>, enc: Width, n: nat, from: nat, to: nat, i: nat)
    requires from <= n && i < to && Off(enc, n) <= |c| && Off(enc, to + n - from) <= |c|
    ensures Off(enc, i + 1) <= |c| && Get(Moved(c, enc, n, from, to), enc, i) == Get(c, enc, i)
  {
    hide Unpack;
    var front := c[..Off(enc, to)];
    Slices(front, c[Off(enc, from)..Off(enc, n)], c[Off(enc, to + n - from)..], Off(enc, i), Off(enc, i + 1));
    SliceOfSlice(c, 0, Off(enc, to), Off(enc, i), Off(enc, i + 1));
    assert c[0..Off(enc, to)] == front;
  }

  lemma SameElements(c: seq<byte>, d: seq<byte>, enc: Width, n: nat)
    requires Off(enc, n) <= |c| && Off(enc, n) <= |d| && c[..Off(enc, n)] == d[..Off(enc, n)]
    ensures forall i :: 0 <= i < n ==> Get(d, enc, i) == Get(c, enc, i)
  {
    hide Get;
    forall i | 0 <= i < n ensures Get(d, enc, i) == Get(c, enc, i) {
      Shorter(c, d, Off(enc, i + 1), Off(enc, n));
      PrefixSlot(c, d, enc, i);
    }
  }

  /** A value that does not fit lies on one side of all that do. */
  lemma Outside(xs: seq<int>, enc: Width, value: int)
    requires (forall i :: 0 <= i < |xs| ==> Fits(xs[i], enc)) && Fits(value, INT64) && ValueEncoding(value) > enc
    ensures !Fits(value, enc)
    ensures forall i :: 0 <= i < |xs| ==> if value < 0 then value < xs[i] else xs[i] < value
  {
    assert forall i :: 0 <= i < |xs| ==> Fits(xs[i], enc);
  }

  lemma TooWide(xs: seq<int>, enc: Width, value: int)
    requires (forall i :: 0 <= i < |xs| ==> Fits(xs[i], enc)) && Fits(value, INT64) && ValueEncoding(value) > enc
    ensures value !in xs
  {
  }

  /** Inserting at the place a search gives. */
  lemma InsertedOk(xs: seq<int>, pos: nat, value: int, ys: seq<int>)
    requires Increasing(xs) && pos <= |xs| && |ys| == |xs| + 1
    requires (forall i :: 0 <= i < pos ==> xs[i] < value) && (forall i :: pos <= i < |xs| ==> xs[i] > value)
    requires (forall i :: 0 <= i < pos ==> ys[i] == xs[i]) && ys[pos] == value
    requires forall i :: pos <= i < |xs| ==> ys[i + 1] == xs[i]
    ensures Increasing(ys) && value !in xs
    ensures (set x | x in ys) == (set x | x in xs) + {value}
  {
    assert ys == xs[..pos] + [value] + xs[pos..];
    forall x | x in xs ensures x in ys {
      var i :| 0 <= i < |xs| && xs[i] == x;
      assert ys[if i < pos then i else i + 1] == x;
    }
  }

  lemma RemovedOk(xs: seq<int>, pos: nat, ys: seq<int>)
    requires Increasing(xs) && pos < |xs| && |ys| == |xs| - 1
    requires (forall i :: 0 <= i < pos ==> ys[i] == xs[i]) && (forall i :: pos < i < |xs| ==> ys[i - 1] == xs[i])
    ensures Increasing(ys)
    ensures (set x | x in ys) == (set x | x in xs) - {xs[pos]}
  {
    assert ys == xs[..pos] + xs[pos + 1..];
    forall x | x in xs && x != xs[pos] ensures x in ys {
      var i :| 0 <= i < |xs| && xs[i] == x;
      assert ys[if i < pos then i else i - 1] == x;
    }
  }

  // ---- runs

  datatype Op = AddOp(v: int) | RemoveOp(v: int) | FindOp(v: int)

  /** The same operations on a mathematical set, with what each of them answers. */
  function Answer(s: set<int>, op: Op): bool { if op.AddOp? then op.v !in s else op.v in s }

  function Next(s: set<int>, op: Op): set<int> {
    match op case AddOp(v) => s + {v} case RemoveOp(v) => s - {v} case FindOp(_) => s
  }

  function After(ops: seq<Op>): set<int> {
    if ops == [] then {} else Next(After(ops[..|ops| - 1]), ops[|ops| - 1])
  }

  method Apply(numbers: IntSet, op: Op) returns (answer: bool)
    requires numbers.Valid() && Fits(op.v, INT64) && numbers.length < 0x1000_0000
    modifies numbers, numbers.contents
    ensures numbers.Valid() && (numbers.contents == old(numbers.contents) || fresh(numbers.contents))
    ensures numbers.length <= old(numbers.length) + 1
    ensures Off(numbers.encoding, numbers.length) <= numbers.contents.Length
    ensures numbers.View() == Next(old(numbers.View()), op) && answer == Answer(old(numbers.View()), op)
  {
    hide Increasing, Get, Fits;
    match op
    case AddOp(v) => answer := numbers.Add(v);
    case RemoveOp(v) => answer := numbers.Remove(v);
    case FindOp(v) => answer := numbers.Find(v);
  }

  /** Every sequence of operations is answered as a set of integers would. */
  method RunOps(ops: seq<Op>) returns (numbers: IntSet, answers: seq<bool>)
    requires |ops| < 0x1000_0000 && forall i :: 0 <= i < |ops| ==> Fits(ops[i].v, INT64)
    ensures numbers.Valid() && numbers.View() == After(ops)
    ensures |answers| == |ops| && forall i :: 0 <= i < |ops| ==> answers[i] == Answer(After(ops[..i]), ops[i])
  {
    hide IntSet.Valid, IntSet.View, Answer, Next, Fits;
    numbers := new IntSet();
    answers := [];
    assert ops[..0] == [];
    for i := 0 to |ops|
      invariant fresh(numbers) && fresh(numbers.contents) && numbers.Valid() && numbers.length <= i
      invariant Off(numbers.encoding, numbers.length) <= numbers.contents.Length && numbers.View() == After(ops[..i])
      invariant |answers| == i && forall k :: 0 <= k < i ==> answers[k] == Answer(After(ops[..k]), ops[k])
    {
      assert ops[..i + 1][..i] == ops[..i];
      var answer := Apply(numbers, ops[i]);
      answers := answers + [answer];
    }
    assert ops[..|ops|] == ops;
  }
}
