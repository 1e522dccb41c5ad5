/** Values of keys, and the order in which iterators walk them. */
module Objects {
  import opened Bytes

  type bytes = seq<byte>

  datatype Value = Text(s: bytes) | ListOf(l: seq<bytes>) | SetOf(m: set<bytes>) | HashOf(h: map<bytes, bytes>)

  function Members(s: seq<bytes>): set<bytes> { set x | x in s }

  /** Fields and values come in pairs. */
  function Update(h: map<bytes, bytes>, pairs: seq<bytes>): map<bytes, bytes>
    decreases |pairs|
  {
    if |pairs| < 2 then h else Update(h[pairs[0] := pairs[1]], pairs[2..])
  }

  datatype Kind = AList | ASet | AHash

  /** An item is one element of a list or set, or a field and its value. */
  datatype Object = AString(s: bytes) | Items(kind: Kind, items: seq<seq<bytes>>)

  function Width(kind: Kind): nat { if kind.AHash? then 2 else 1 }

  function Flat(items: seq<seq<bytes>>): seq<bytes> {
    if items == [] then [] else items[0] + Flat(items[1..])
  }

  /** What the items of an iterator are worth as a value. */
  function Worth(kind: Kind, args: seq<bytes>): Value {
    match kind
    case AList => ListOf(args)
    case ASet => SetOf(Members(args))
    case AHash => HashOf(Update(map[], args))
  }

  function ValueOf(o: Object): Value {
    match o
    case AString(s) => Text(s)
    case Items(kind, items) => Worth(kind, Flat(items))
  }

  lemma {:induction false} FlatLength(items: seq<seq<bytes>>, width: nat)
    requires forall i :: 0 <= i < |items| ==> |items[i]| == width
    ensures |Flat(items)| == |items| * width
  {
    if items != [] { FlatLength(items[1..], width); }
  }

  lemma {:induction false} UpdateConcat(h: map<bytes, bytes>, a: seq<bytes>, b: seq<bytes>)
    requires |a| % 2 == 0
    ensures Update(h, a + b) == Update(Update(h, a), b)
    decreases |a|
  {
    if a == [] {
      assert a + b == b;
    } else {
      UpdateConcat(h[a[0] := a[1]], a[2..], b);
      assert (a + b)[2..] == a[2..] + b;
    }
  }

  lemma {:induction false} FlatConcat(a: seq<seq<bytes>>, b: seq<seq<bytes>>)
    ensures Flat(a + b) == Flat(a) + Flat(b)
  {
    if a == [] {
      assert a + b == b;
    } else {
      FlatConcat(a[1..], b);
      assert (a + b)[1..] == a[1..] + b;
    }
  }
}
