/** The command encoding shared by the append only file and the request protocol. */
module Resp {
  import opened Bytes
  import D = Decimal

  type Args = seq<seq<byte>>

  const STAR: byte := 42
  const DOLLAR: byte := 36
  const INT_MAX := 0x7fff_ffff

  /** What `int argc` and sds lengths can hold, for a command of at least one word. */
  predicate Sized(argv: Args) {
    1 <= |argv| <= INT_MAX && forall i :: 0 <= i < |argv| ==> |argv[i]| <= INT_MAX
  }

  // ---- writing: catAppendOnlyGenericCommand

  function Header(mark: byte, n: nat): seq<byte> { [mark] + D.Print(n) + CRLF }

  function Bulk(arg: seq<byte>): seq<byte> { Header(DOLLAR, |arg|) + arg + CRLF }

  function Bulks(argv: Args): seq<byte> {
    if argv == [] then [] else Bulk(argv[0]) + Bulks(argv[1..])
  }

  function Encode(argv: Args): seq<byte> { Header(STAR, |argv|) + Bulks(argv) }

  /** One step of writing the arguments: the text so far and the arguments to come. */
  lemma CatStep(r: seq<byte>, argv: Args, j: nat)
    requires j < |argv|
    ensures r + Header(DOLLAR, |argv[j]|) + argv[j] + CRLF + Bulks(argv[j + 1..]) == r + Bulks(argv[j..])
  {
    hide Header;
    assert argv[j..][1..] == argv[j + 1..];
    assert Bulks(argv[j..]) == Bulk(argv[j]) + Bulks(argv[j + 1..]);
  }

  method CatAppendOnlyGenericCommand(dst: seq<byte>, argv: Args) returns (r: seq<byte>)
    ensures r == dst + Encode(argv)
  {
    hide Bulks;
    r := dst + Header(STAR, |argv|);
    var j := 0;
    assert argv[j..] == argv;
    while j < |argv|
      invariant 0 <= j <= |argv|
      invariant r + Bulks(argv[j..]) == dst + Encode(argv)
    {
      CatStep(r, argv, j);
      r := r + Header(DOLLAR, |argv[j]|);
      r := r + argv[j];
      r := r + CRLF;
      j := j + 1;
    }
    NoBulks(argv[j..]);
  }

  lemma NoBulks(argv: Args)
    ensures argv == [] ==> Bulks(argv) == []
  {
  }

  // ---- reading: the loop of loadAppendOnlyFile

  /** fgets on what is left of the file, with a buffer of 128 bytes: 127 bytes or one line. */
  const LINE_MAX := 127

  function LineEnd(b: seq<byte>, i: nat): (j: nat)
    requires i <= |b| && i <= LINE_MAX
    ensures i <= j <= |b| && j <= LINE_MAX && (i < |b| && i < LINE_MAX ==> i < j)
    decreases LINE_MAX - i
  {
    if i == |b| || i == LINE_MAX then i
    else if b[i] == LF then i + 1
    else LineEnd(b, i + 1)
  }

  datatype Line = Line(mark: byte, number: int, rest: seq<byte>)

  /** A header line: its first byte, the number after it, and the file behind the line. */
  function ReadHeader(b: seq<byte>): (r: Line)
    requires b != []
    ensures |r.rest| < |b| && D.LLONG_MIN <= r.number <= D.LLONG_MAX
  {
    var n := LineEnd(b, 0);
    Line(b[0], D.StrToL(b[1..n]).value, b[n..])
  }

  datatype Loaded<+T> = Ok(value: T, rest: seq<byte>) | UnexpectedEnd | BadFormat

  /** One argument: its length line, its bytes, and two bytes that are dropped unread. */
  function LoadArg(b: seq<byte>): (r: Loaded<seq<byte>>)
    ensures r.Ok? ==> |r.rest| < |b|
  {
    if b == [] then UnexpectedEnd
    else
      var line := ReadHeader(b);
      if line.mark != DOLLAR then BadFormat
      else
        var len: int := if line.number < 0 then line.number + 0x1_0000_0000_0000_0000 else line.number;
        if len + 2 > |line.rest| then BadFormat
        else Ok(line.rest[..len], line.rest[len + 2..])
  }

  function LoadArgs(b: seq<byte>, k: nat): (r: Loaded<Args>)
    ensures r.Ok? ==> |r.value| == k && |r.rest| <= |b|
  {
    if k == 0 then Ok([], b)
    else match LoadArg(b)
      case Ok(arg, rest) =>
        (match LoadArgs(rest, k - 1)
         case Ok(args, tail) => Ok([arg] + args, tail)
         case UnexpectedEnd => UnexpectedEnd
         case BadFormat => BadFormat)
      case UnexpectedEnd => UnexpectedEnd
      case BadFormat => BadFormat
  }

  /** atoi: the low 32 bits of strtol, as a signed number. */
  function ToInt(v: int): int {
    var low := v % 0x1_0000_0000;
    if low > INT_MAX then low - 0x1_0000_0000 else low
  }

  type Command = argv: Args | argv != [] witness [[]]

  function LoadCommand(b: seq<byte>): (r: Loaded<Command>)
    requires b != []
    ensures r.Ok? ==> |r.rest| < |b|
  {
    var line := ReadHeader(b);
    if line.mark != STAR then BadFormat
    else
      var argc := ToInt(line.number);
      if argc < 1 then BadFormat
      else LoadArgs(line.rest, argc)
  }

  // ---- reading back what was written

  lemma {:induction false} LineOf(b: seq<byte>, i: nat, n: nat)
    requires i < n <= |b| && n <= LINE_MAX && b[n - 1] == LF
    requires forall k :: i <= k < n - 1 ==> b[k] != LF
    ensures LineEnd(b, i) == n
    decreases n - i
  {
    if i < n - 1 { LineOf(b, i + 1, n); }
  }

  /** A header line is read up to its end, and its number is the one that was printed. */
  lemma HeaderLine(mark: byte, n: nat, rest: seq<byte>)
    requires n <= INT_MAX && mark != LF
    ensures ReadHeader(Header(mark, n) + rest) == Line(mark, n, rest)
  {
    var b := Header(mark, n) + rest;
    var digits := D.Print(n);
    var k := |digits|;
    PrintedLength(n);
    assert b == [mark] + digits + CRLF + rest;
    assert forall i :: 0 <= i < k ==> b[1 + i] == digits[i];
    LineOf(b, 0, k + 3);
    assert b[1..k + 3] == digits + CRLF;
    D.ScanPrint(n, CRLF);
  }

  lemma PrintedLength(n: nat)
    requires n <= INT_MAX
    ensures |D.Print(n)| <= 10
  {
    assert D.Power10(10) > INT_MAX by {
      assert D.Power10(5) == 100_000;
      assert D.Power10(10) == 100_000 * D.Power10(5);
    }
    D.DigitsLength(n, 10);
  }

  lemma LoadBulk(arg: seq<byte>, rest: seq<byte>)
    requires |arg| <= INT_MAX
    ensures LoadArg(Bulk(arg) + rest) == Ok(arg, rest)
  {
    hide ReadHeader, Header;
    var body := arg + CRLF + rest;
    assert Bulk(arg) + rest == Header(DOLLAR, |arg|) + body;
    HeaderLine(DOLLAR, |arg|, body);
    assert body[..|arg|] == arg && body[|arg| + 2..] == rest;
  }

  lemma {:induction false} LoadBulks(argv: Args, rest: seq<byte>)
    requires forall i :: 0 <= i < |argv| ==> |argv[i]| <= INT_MAX
    ensures LoadArgs(Bulks(argv) + rest, |argv|) == Ok(argv, rest)
  {
    hide LoadArg, Bulk;
    if argv == [] {
      assert Bulks(argv) + rest == rest;
    } else {
      var tail := Bulks(argv[1..]);
      LoadBulk(argv[0], tail + rest);
      LoadBulks(argv[1..], rest);
      assert Bulks(argv) + rest == Bulk(argv[0]) + (tail + rest);
      assert [argv[0]] + argv[1..] == argv;
    }
  }

  /** A logged command is read back whole, whatever follows it. */
  lemma LoadEncoded(argv: Command, rest: seq<byte>)
    requires Sized(argv)
    ensures LoadCommand(Encode(argv) + rest) == Ok(argv, rest)
  {
    hide ReadHeader, Header, LoadArgs, Bulks;
    assert Encode(argv) + rest == Header(STAR, |argv|) + (Bulks(argv) + rest);
    HeaderLine(STAR, |argv|, Bulks(argv) + rest);
    LoadBulks(argv, rest);
  }

  // ---- a file that loads still loads after more is appended to it

  lemma {:induction false} LineStable(b: seq<byte>, x: seq<byte>, i: nat)
    requires i <= |b| && i <= LINE_MAX && LineEnd(b, i) < |b|
    ensures LineEnd(b + x, i) == LineEnd(b, i)
    decreases LINE_MAX - i
  {
    if i < LINE_MAX && b[i] != LF { LineStable(b, x, i + 1); }
  }

  lemma HeaderStable(b: seq<byte>, x: seq<byte>)
    requires b != [] && ReadHeader(b).rest != []
    ensures ReadHeader(b + x) == ReadHeader(b).(rest := ReadHeader(b).rest + x)
  {
    var n := LineEnd(b, 0);
    LineStable(b, x, 0);
    assert (b + x)[1..n] == b[1..n];
    assert (b + x)[n..] == b[n..] + x;
  }

  lemma ArgStable(b: seq<byte>, x: seq<byte>)
    requires LoadArg(b).Ok?
    ensures LoadArg(b + x) == Ok(LoadArg(b).value, LoadArg(b).rest + x)
  {
    hide ReadHeader;
    var line := ReadHeader(b);
    HeaderStable(b, x);
    var len: int := if line.number < 0 then line.number + 0x1_0000_0000_0000_0000 else line.number;
    assert (line.rest + x)[..len] == line.rest[..len];
    assert (line.rest + x)[len + 2..] == line.rest[len + 2..] + x;
  }

  lemma {:induction false} ArgsStable(b: seq<byte>, x: seq<byte>, k: nat)
    requires LoadArgs(b, k).Ok?
    ensures LoadArgs(b + x, k) == Ok(LoadArgs(b, k).value, LoadArgs(b, k).rest + x)
    decreases k
  {
    hide LoadArg;
    if k > 0 {
      ArgStable(b, x);
      ArgsStable(LoadArg(b).rest, x, k - 1);
    }
  }

  lemma CommandStable(b: seq<byte>, x: seq<byte>)
    requires b != [] && LoadCommand(b).Ok?
    ensures LoadCommand(b + x) == Ok(LoadCommand(b).value, LoadCommand(b).rest + x)
  {
    hide ReadHeader, LoadArg;
    HeaderStable(b, x);
    ArgsStable(ReadHeader(b).rest, x, ToInt(ReadHeader(b).number));
  }

  /** A command that is cut short anywhere is not taken for a command. */
  lemma TornCommand(argv: Command, n: nat)
    requires Sized(argv) && 0 < n < |Encode(argv)|
    ensures !LoadCommand(Encode(argv)[..n]).Ok?
  {
    hide LoadCommand, Encode;
    var torn, lost := Encode(argv)[..n], Encode(argv)[n..];
    assert torn + lost == Encode(argv) == Encode(argv) + [];
    LoadEncoded(argv, []);
    if LoadCommand(torn).Ok? { CommandStable(torn, lost); }
  }

  /** Nor is anything that lacks the marks of a count line and a length line. */
  lemma MarksMatter(b: seq<byte>)
    requires b != [] && LoadCommand(b).Ok?
    ensures b[0] == STAR && ReadHeader(b).rest != [] && ReadHeader(b).rest[0] == DOLLAR
  {
  }

  /** SET k v as the protocol has it: *3 $3 SET $1 k $1 v, each on a line of its own. */
  lemma EncodedSet()
    ensures Encode([[83, 69, 84], [107], [118]])
      == [42, 51, 13, 10] + ([36, 51, 13, 10, 83, 69, 84, 13, 10]
                             + ([36, 49, 13, 10, 107, 13, 10] + [36, 49, 13, 10, 118, 13, 10]))
  {
    hide Bulk, Bulks;
    var s, k, v := [83 as byte, 69, 84], [107 as byte], [118 as byte];
    assert D.Print(3) == [51];
    BulksAre(s, [k, v]);
    assert [s] + [k, v] == [s, k, v];
    BulksAre(k, [v]);
    assert [k] + [v] == [k, v];
    BulksAre(v, []);
    assert [v] + [] == [v];
    BulkOf(s, 51);
    BulkOf(k, 49);
    BulkOf(v, 49);
    assert Bulk(v) + [] == Bulk(v);
  }

  lemma BulksAre(arg: seq<byte>, more: Args)
    ensures Bulks([arg] + more) == Bulk(arg) + Bulks(more) && Bulks([]) == []
  {
    assert ([arg] + more)[1..] == more;
  }

  lemma BulkOf(arg: seq<byte>, digit: byte)
    requires |arg| < 10 && digit == 48 + |arg|
    ensures Bulk(arg) == [36, digit, 13, 10] + arg + [13, 10]
  {
  }
}
