/** The resumable request parser of networking.c. */
module Requests {
  import opened Bytes
  import D = Decimal
  import opened Resp

  const IOBUF_LEN := 16 * 1024
  const INLINE_MAX_SIZE := 64 * 1024
  const MBULK_BIG_ARG := 32 * 1024
  const MAX_ARGS := 1024 * 1024
  const MAX_BULK := 512 * 1024 * 1024
  const MAX_QUERYBUF_LEN := 1024 * 1024 * 1024

  // ---- streams of commands

  /** Commands within the limits of the protocol. */
  predicate Fits(argv: Args) {
    |argv| <= MAX_ARGS && forall i :: 0 <= i < |argv| ==> |argv[i]| <= MAX_BULK
  }

  predicate AllFit(cmds: seq<Args>) {
    forall i :: 0 <= i < |cmds| ==> cmds[i] != [] && Fits(cmds[i])
  }

  function EncodeAll(cmds: seq<Args>): seq<byte> {
    if cmds == [] then [] else Encode(cmds[0]) + EncodeAll(cmds[1..])
  }

  /** What is still to come: the rest of the current command, then whole commands. */
  function Awaited(bulklen: int, need: Args, todo: seq<Args>): seq<byte> {
    (if need == [] then []
     else if bulklen == -1 then Bulks(need)
     else need[0] + CRLF + Bulks(need[1..])) + EncodeAll(todo)
  }

  lemma AwaitCommand(todo: seq<Args>)
    requires todo != []
    ensures Awaited(-1, [], todo) == Header(STAR, |todo[0]|) + Awaited(-1, todo[0], todo[1..])
  {
    hide Header;
    NoBulks(todo[0]);
  }

  lemma AwaitHeader(need: Args, todo: seq<Args>)
    requires need != []
    ensures Awaited(-1, need, todo) == Header(DOLLAR, |need[0]|) + Awaited(|need[0]|, need, todo)
  {
    hide Header, EncodeAll;
    assert Bulks(need) == Header(DOLLAR, |need[0]|) + (need[0] + CRLF + Bulks(need[1..]));
  }

  lemma AwaitBody(need: Args, todo: seq<Args>)
    requires need != []
    ensures Awaited(|need[0]|, need, todo) == need[0] + CRLF + Awaited(-1, need[1..], todo)
  {
    hide EncodeAll;
    NoBulks(need[1..]);
  }

  lemma AwaitNothing(bulklen: int, need: Args, todo: seq<Args>)
    ensures need == [] && todo == [] ==> Awaited(bulklen, need, todo) == []
  {
  }

  // ---- strchr

  /** strchr(s, '\r') on a buffer that is followed by its terminating NUL. */
  function FindCR(s: seq<byte>, i: nat): (r: Option<nat>)
    requires i <= |s|
    ensures r.Some? ==> i <= r.value < |s| && s[r.value] == CR
    decreases |s| - i
  {
    if i == |s| || s[i] == 0 then None else if s[i] == CR then Some(i) else FindCR(s, i + 1)
  }

  lemma {:induction false} FindsCR(s: seq<byte>, i: nat, k: nat)
    requires i <= k && i <= |s| && forall j :: i <= j < k && j < |s| ==> s[j] != CR && s[j] != 0
    requires k < |s| ==> s[k] == CR
    ensures FindCR(s, i) == if k < |s| then Some(k) else None
    decreases |s| - i
  {
    if i < k && i < |s| { FindsCR(s, i + 1, k); }
  }

  lemma HeaderBytes(mark: byte, n: nat)
    requires n <= INT_MAX && mark != CR && mark != 0
    ensures var h := Header(mark, n);
      && |h| == |D.Print(n)| + 3 <= 13 && h[0] == mark && h[|h| - 2..] == CRLF
      && h[1..|h| - 2] == D.Print(n) && D.Parse(D.Print(n)) == Some(n)
      && forall j :: 0 <= j < |h| - 2 ==> h[j] != CR && h[j] != 0
  {
    PrintedLength(n);
    D.ParsePrint(n);
    var h, digits := Header(mark, n), D.Print(n);
    assert forall j :: 1 <= j < |h| - 2 ==> h[j] == digits[j - 1];
  }

  lemma FrontOf(b: seq<byte>, unread: seq<byte>, whole: seq<byte>)
    requires b + unread == whole
    ensures |b| + |unread| == |whole| && b == whole[..|b|]
    ensures forall k :: 0 <= k <= |b| ==> b[k..] + unread == whole[k..]
  {
    forall k | 0 <= k <= |b| ensures b[k..] + unread == whole[k..] {
      assert (b + unread)[k..] == b[k..] + unread;
    }
  }

  /** A buffer that holds the front of a line: how far the line is visible in it. */
  lemma VisibleLine(b: seq<byte>, unread: seq<byte>, h: seq<byte>, rest: seq<byte>, k: nat)
    requires b + unread == h + rest && |h| == k + 2 && h[k] == CR
    requires forall j :: 0 <= j < k ==> h[j] != CR && h[j] != 0
    ensures FindCR(b, 0) == if k < |b| then Some(k) else None
    ensures k + 2 <= |b| ==> b[k + 2..] + unread == rest
    ensures |b| < k + 2 ==> unread != []
    ensures forall j :: 0 <= j < |b| && j < |h| ==> b[j] == h[j]
  {
    FrontOf(b, unread, h + rest);
    FindsCR(b, 0, k);
  }

  datatype Line = NoCR | NoLF | Found(end: nat, value: Option<int>)

  /** A header line at the front of a buffer: where it ends and the number after its first byte. */
  function ScanLine(b: seq<byte>): (r: Line)
    ensures r.Found? ==> 2 <= r.end <= |b|
  {
    var newline := FindCR(b, 0);
    if newline == None then NoCR
    else if newline.value > |b| - 2 then NoLF
    else Found(newline.value + 2, if newline.value == 0 then None else D.Parse(b[1..newline.value]))
  }

  lemma VisibleHeader(b: seq<byte>, unread: seq<byte>, mark: byte, n: nat, rest: seq<byte>)
    requires b + unread == Header(mark, n) + rest && n <= INT_MAX && mark != CR && mark != 0
    ensures match ScanLine(b)
      case Found(end, value) => b[0] == mark && value == Some(n) && b[end..] + unread == rest
      case _ => unread != [] && |b| <= 12
  {
    hide Header, D.Print, D.Parse, FindCR;
    HeaderBytes(mark, n);
    var h := Header(mark, n);
    var k := |h| - 2;
    assert h[k] == h[k..][0];
    VisibleLine(b, unread, h, rest, k);
    if k < |b| { assert b[1..k] == h[1..k]; }
  }

  /** The same for the body of an argument. */
  lemma VisibleBody(b: seq<byte>, unread: seq<byte>, arg: seq<byte>, rest: seq<byte>)
    requires b + unread == arg + CRLF + rest
    ensures |b| >= |arg| + 2 ==> b[..|arg|] == arg && b[|arg| + 2..] + unread == rest
    ensures |b| < |arg| + 2 ==> unread != []
  {
    var whole := arg + CRLF + rest;
    if |b| >= |arg| + 2 {
      assert b[..|arg|] == whole[..|arg|];
      assert b[|arg| + 2..] + unread == whole[|arg| + 2..];
    } else {
      assert |b| + |unread| == |whole|;
    }
  }

  // ---- where a client is in its stream

  /** The buffer and the unread bytes are the rest of the current command and the commands after it. */
  ghost predicate Stream(b: seq<byte>, unread: seq<byte>, bulklen: int, need: Args, todo: seq<Args>) {
    && b + unread == Awaited(bulklen, need, todo)
    && Fits(need) && AllFit(todo)
    && (bulklen == -1 || (need != [] && bulklen == |need[0]|))
  }

  lemma CountArrives(b: seq<byte>, unread: seq<byte>, todo: seq<Args>)
    requires Stream(b, unread, -1, [], todo) && b != []
    ensures todo != []
    ensures match ScanLine(b)
      case Found(end, value) => value == Some(|todo[0]|) && 0 < |todo[0]| <= MAX_ARGS
                                && Stream(b[end..], unread, -1, todo[0], todo[1..])
      case _ => unread != [] && |b| <= 12
  {
    hide Awaited, ScanLine;
    AwaitNothing(-1, [], todo);
    AwaitCommand(todo);
    VisibleHeader(b, unread, STAR, |todo[0]|, Awaited(-1, todo[0], todo[1..]));
  }

  lemma LengthArrives(b: seq<byte>, unread: seq<byte>, need: Args, todo: seq<Args>)
    requires Stream(b, unread, -1, need, todo) && need != []
    ensures match ScanLine(b)
      case Found(end, value) => b[0] == DOLLAR && value == Some(|need[0]|) && |need[0]| <= MAX_BULK
                                && Stream(b[end..], unread, |need[0]|, need, todo)
      case _ => unread != [] && |b| <= 12
  {
    hide Awaited, ScanLine;
    AwaitHeader(need, todo);
    VisibleHeader(b, unread, DOLLAR, |need[0]|, Awaited(|need[0]|, need, todo));
  }

  lemma BodyArrives(b: seq<byte>, unread: seq<byte>, bulklen: nat, need: Args, todo: seq<Args>)
    requires Stream(b, unread, bulklen, need, todo)
    ensures |b| < bulklen + 2 ==> unread != []
    ensures |b| >= bulklen + 2 ==> b[..bulklen] == need[0] && Stream(b[bulklen + 2..], unread, -1, need[1..], todo)
  {
    hide Awaited;
    AwaitBody(need, todo);
    VisibleBody(b, unread, need[0], Awaited(-1, need[1..], todo));
  }

  /** All commands of a stream, in order, wherever they are now. */
  ghost function Commands(executed: seq<Args>, argv: Args, need: Args, todo: seq<Args>): seq<Args> {
    executed + (if argv + need == [] then [] else [argv + need]) + todo
  }

  // ---- the client

  datatype Progress = Ready | Wait | Failed

  /** What a count line means: too long, incomplete, not a number, a number too large, or a number of arguments. */
  predicate CountAnswer(b: seq<byte>, r: Progress, pos: nat, multibulklen: nat) {
    match ScanLine(b)
    case NoCR => r == if |b| > INLINE_MAX_SIZE then Failed else Wait
    case NoLF => r == Wait
    case Found(end, None) => r == Failed
    case Found(end, Some(n)) =>
      if n > MAX_ARGS then r == Failed else r == Ready && pos == end && multibulklen == if n > 0 then n else 0
  }

  /** What a length line means; it needs a dollar sign and a number that is neither negative nor too large. */
  predicate LengthAnswer(b: seq<byte>, pos: nat, r: Progress, bulklen: int, rest: seq<byte>)
    requires pos <= |b|
  {
    match ScanLine(b[pos..])
    case NoCR => r == if |b| > INLINE_MAX_SIZE then Failed else Wait
    case NoLF => r == Wait
    case Found(end, None) => r == Failed
    case Found(end, Some(n)) =>
      if b[pos] != DOLLAR || n < 0 || n > MAX_BULK then r == Failed
      else r == Ready && bulklen == n && rest == b[pos..][end..]
  }

  class Client {
    var querybuf: seq<byte>
    var multibulk: bool
    var inline: bool
    var multibulklen: nat
    var bulklen: int
    var argv: Args
    var closing: bool
    /** The argument vectors handed to processCommand. */
    var executed: seq<Args>

    constructor ()
      ensures querybuf == [] && argv == [] && executed == [] && !closing && !multibulk && !inline
      ensures multibulklen == 0 && bulklen == -1
    {
      querybuf, argv, executed, closing, multibulk, inline := [], [], [], false, false, false;
      multibulklen, bulklen := 0, -1;
    }

    ghost predicate Tracks(pos: nat, unread: seq<byte>, need: Args, todo: seq<Args>)
      reads this
    {
      && pos <= |querybuf| && Stream(querybuf[pos..], unread, bulklen, need, todo)
      && multibulklen == |need| && !closing && !inline
    }

    /** The query buffer is never larger than this while there is something to parse. */
    ghost predicate Bounded(pos: nat)
      reads this
    {
      && (|querybuf| <= MBULK_BIG_ARG + IOBUF_LEN || (bulklen >= MBULK_BIG_ARG && |querybuf| <= bulklen + 2))
      && (bulklen >= MBULK_BIG_ARG ==> pos == 0)
    }

    method SetProtocolError(pos: nat)
      requires pos <= |querybuf|
      modifies this`closing, this`querybuf
      ensures closing && querybuf == old(querybuf)[pos..]
    {
      closing := true;
      querybuf := querybuf[pos..];
    }

    /** The first part of processMultibulkBuffer: the line that announces the number of arguments. */
    method ReadCount(ghost unread: seq<byte>, ghost todo: seq<Args>) returns (r: Progress, pos: nat)
      requires !closing && multibulklen == 0 && bulklen == -1 && querybuf != [] && querybuf[0] == STAR
      modifies this`querybuf, this`multibulklen, this`closing
      ensures pos <= |querybuf| && (r == Wait ==> multibulklen == 0)
      ensures (r == Failed <==> closing) && (r == Ready ==> pos > 0)
      ensures !closing ==> querybuf == old(querybuf)
      ensures CountAnswer(old(querybuf), r, pos, multibulklen)
      ensures old(Tracks(0, unread, [], todo) && Bounded(0)) ==>
                && r != Failed && todo != []
                && (r == Ready ==> todo[0] != [] && Tracks(pos, unread, todo[0], todo[1..]))
                && (r == Wait ==> Tracks(0, unread, [], todo) && unread != [] && |querybuf| <= MBULK_BIG_ARG)
    {
      hide Stream, ScanLine;
      pos := 0;
      assert querybuf[0..] == querybuf;
      if old(Tracks(0, unread, [], todo)) {
        CountArrives(querybuf, unread, todo);
      }
      match ScanLine(querybuf) {
        case NoCR =>
          if |querybuf| > INLINE_MAX_SIZE {
            SetProtocolError(0);
            return Failed, 0;
          }
          return Wait, 0;
        case NoLF =>
          return Wait, 0;
        case Found(end, ll) =>
          if ll == None || ll.value > MAX_ARGS {
            SetProtocolError(0);
            return Failed, 0;
          }
          if ll.value > 0 {
            multibulklen := ll.value;
          }
          return Ready, end;
      }
    }

    /** The length line of the next argument. A large argument is moved to the front of the buffer. */
    method ReadLength(pos: nat, ghost unread: seq<byte>, ghost need: Args, ghost todo: seq<Args>)
      returns (r: Progress, next: nat)
      requires !closing && bulklen == -1 && pos <= |querybuf|
      modifies this`querybuf, this`bulklen, this`closing
      ensures next <= |querybuf| && (r != Failed ==> |querybuf| - next <= old(|querybuf|) - pos)
      ensures r == Failed <==> closing
      ensures r == Ready ==> bulklen >= 0
      ensures r != Ready ==> bulklen == -1
      ensures r == Wait ==> querybuf == old(querybuf) && next == pos
      ensures LengthAnswer(old(querybuf), pos, r, bulklen, querybuf[next..])
      ensures old(Tracks(pos, unread, need, todo) && Bounded(pos)) && need != [] ==>
                && r != Failed && Tracks(next, unread, need, todo) && Bounded(next)
                && (r == Wait ==> unread != [] && |querybuf| - pos <= MBULK_BIG_ARG)
    {
      hide Stream, ScanLine;
      next := pos;
      ghost var b := querybuf[pos..];
      if old(Tracks(pos, unread, need, todo)) && need != [] {
        LengthArrives(b, unread, need, todo);
      }
      match ScanLine(querybuf[pos..]) {
        case NoCR =>
          if |querybuf| > INLINE_MAX_SIZE {
            SetProtocolError(0);
            return Failed, 0;
          }
          return Wait, pos;
        case NoLF =>
          return Wait, pos;
        case Found(end, ll) =>
          if querybuf[pos] != DOLLAR {
            SetProtocolError(pos);
            return Failed, 0;
          }
          if ll == None || ll.value < 0 || ll.value > MAX_BULK {
            SetProtocolError(pos);
            return Failed, 0;
          }
          next := pos + end;
          assert querybuf[next..] == b[end..];
          if ll.value >= MBULK_BIG_ARG {
            querybuf := querybuf[next..];
            next := 0;
            assert querybuf[0..] == b[end..];
          }
          bulklen := ll.value;
          return Ready, next;
      }
    }

    /**
      * The body of the next argument, once all of it is there. When the buffer holds nothing else and
      * the argument is large, the buffer itself becomes the argument.
      */
    method ReadBody(pos: nat, ghost unread: seq<byte>, ghost need: Args, ghost todo: seq<Args>)
      returns (done: bool, next: nat)
      requires !closing && bulklen >= 0 && pos <= |querybuf| && multibulklen > 0
      modifies this`querybuf, this`bulklen, this`multibulklen, this`argv
      ensures next <= |querybuf|
      ensures done ==> |querybuf| - next < old(|querybuf|) - pos && bulklen == -1
                       && multibulklen == old(multibulklen) - 1 && |argv| == old(|argv|) + 1
      ensures !done ==> next == pos && querybuf == old(querybuf) && bulklen == old(bulklen)
                        && multibulklen == old(multibulklen) && argv == old(argv)
      ensures old(Tracks(pos, unread, need, todo) && Bounded(pos)) && need != [] ==>
                && (done ==> Tracks(next, unread, need[1..], todo) && Bounded(next)
                             && argv == old(argv) + [need[0]])
                && (!done ==> unread != [] && |querybuf| - pos < bulklen + 2)
    {
      hide Stream;
      next := pos;
      ghost var b := querybuf[pos..];
      if old(Tracks(pos, unread, need, todo)) && need != [] {
        BodyArrives(b, unread, bulklen, need, todo);
      }
      if |querybuf| - pos < bulklen + 2 { return false, pos; }
      assert querybuf[pos..pos + bulklen] == b[..bulklen];
      assert querybuf[pos + bulklen + 2..] == b[bulklen + 2..];
      if pos == 0 && bulklen >= MBULK_BIG_ARG && |querybuf| == bulklen + 2 {
        argv := argv + [querybuf[..|querybuf| - 2]];
        querybuf := [];
        next := 0;
        assert querybuf[0..] == b[bulklen + 2..];
      } else {
        argv := argv + [querybuf[pos..pos + bulklen]];
        next := pos + bulklen + 2;
      }
      bulklen := -1;
      multibulklen := multibulklen - 1;
      return true, next;
    }

    /** Where parsing stops for want of bytes: there are more to come, and room to read them into. */
    ghost predicate Starved(unread: seq<byte>)
      reads this
    {
      unread != [] && if bulklen >= MBULK_BIG_ARG then |querybuf| < bulklen + 2 else |querybuf| <= MBULK_BIG_ARG
    }

    /**
      * processMultibulkBuffer. Whatever the buffer holds of a stream, no error is raised; parsing
      * stops at the end of a command or where the buffer ends, and no command is lost or changed.
      */
    method ProcessMultibulkBuffer(ghost unread: seq<byte>, ghost need: Args, ghost todo: seq<Args>)
      returns (ok: bool, ghost need': Args, ghost todo': seq<Args>)
      requires !closing && -1 <= bulklen && querybuf != []
      requires multibulklen == 0 ==> querybuf[0] == STAR && argv == [] && bulklen == -1
      modifies this`querybuf, this`bulklen, this`multibulklen, this`argv, this`closing
      ensures ok ==> |querybuf| < old(|querybuf|) && multibulklen == 0 && bulklen == -1 && !closing
      ensures closing ==> !ok
      ensures !ok && !closing && multibulklen == 0 ==> querybuf == old(querybuf) && old(multibulklen) == 0
      ensures -1 <= bulklen && (multibulklen == 0 && !closing ==> bulklen == -1 && (ok || argv == []))
      ensures old(Tracks(0, unread, need, todo) && Bounded(0)) ==>
                && Tracks(0, unread, need', todo') && Bounded(0)
                && Commands(executed, argv, need', todo') == old(Commands(executed, argv, need, todo))
                && (ok ==> need' == [] && argv != [])
                && (!ok ==> Starved(unread))
    {
      hide Stream, CountAnswer, LengthAnswer;
      ghost var conforming := Tracks(0, unread, need, todo) && Bounded(0);
      need', todo' := need, todo;
      var pos: nat := 0;
      if multibulklen == 0 {
        var r, p := ReadCount(unread, todo);
        match r {
          case Wait => assert querybuf[0..] == querybuf; return false, need', todo';
          case Failed => return false, need', todo';
          case Ready =>
        }
        pos := p;
        if multibulklen == 0 {
          querybuf := querybuf[pos..];
          return true, need', todo';
        }
        if conforming {
          need', todo' := todo[0], todo[1..];
          assert [] + todo[0] == todo[0] && executed + [] + todo == executed + [todo[0]] + todo[1..];
        }
      }
      ok := true;
      while multibulklen > 0
        invariant !closing && -1 <= bulklen && pos <= |querybuf| && |querybuf| - pos <= old(|querybuf|)
        invariant multibulklen == 0 ==> bulklen == -1 && |querybuf| - pos < old(|querybuf|)
        invariant conforming ==>
          && Tracks(pos, unread, need', todo') && Bounded(pos)
          && Commands(executed, argv, need', todo') == old(Commands(executed, argv, need, todo))
          && (need' == [] ==> argv != [])
        decreases multibulklen
      {
        if bulklen == -1 {
          var r, next := ReadLength(pos, unread, need', todo');
          match r {
            case Wait => ok := false; break;
            case Failed => return false, need', todo';
            case Ready =>
          }
          pos := next;
        }
        ghost var before := argv;
        var done, next := ReadBody(pos, unread, need', todo');
        if !done { ok := false; break; }
        pos := next;
        if conforming {
          assert before + need' == argv + need'[1..];
          need' := need'[1..];
        }
      }
      querybuf := querybuf[pos..];
      assert querybuf[0..] == querybuf;
    }

    /** The command is executed and the client reset. */
    method ProcessCommand()
      modifies this`executed, this`argv, this`multibulk, this`multibulklen, this`bulklen
      ensures executed == old(executed) + [old(argv)]
      ensures argv == [] && !multibulk && multibulklen == 0 && bulklen == -1
    {
      executed := executed + [argv];
      ResetClient();
    }

    method ResetClient()
      modifies this`argv, this`multibulk, this`multibulklen, this`bulklen
      ensures argv == [] && !multibulk && multibulklen == 0 && bulklen == -1
    {
      argv := [];
      multibulk := false;
      multibulklen := 0;
      bulklen := -1;
    }

    /** Between two commands the request type is open; inside one it is multi bulk. */
    ghost predicate Valid()
      reads this
    {
      && -1 <= bulklen
      && (!closing && multibulklen == 0 ==> argv == [] && bulklen == -1)
      && (multibulklen > 0 ==> multibulk)
      && (multibulk && multibulklen == 0 && !closing ==> querybuf != [] && querybuf[0] == STAR)
    }

    /** processInputBuffer: every complete command in the buffer is executed, and nothing else. */
    method ProcessInputBuffer(ghost unread: seq<byte>, ghost need: Args, ghost todo: seq<Args>)
      returns (ghost need': Args, ghost todo': seq<Args>)
      requires Valid() && querybuf != []
      modifies this
      ensures Valid()
      ensures old(Tracks(0, unread, need, todo) && Bounded(0)) ==>
                && Tracks(0, unread, need', todo')
                && Commands(executed, argv, need', todo') == old(Commands(executed, argv, need, todo))
                && (Starved(unread) || querybuf == [])
    {
      hide Stream;
      ghost var conforming := Tracks(0, unread, need, todo) && Bounded(0);
      need', todo' := need, todo;
      while |querybuf| > 0
        invariant Valid()
        invariant conforming ==>
          && Tracks(0, unread, need', todo') && Bounded(0)
          && Commands(executed, argv, need', todo') == old(Commands(executed, argv, need, todo))
          && (need' == [] || querybuf != [])
        decreases |querybuf|
      {
        if closing { return; }
        if conforming && need' == [] { StarFirst(querybuf, unread, todo'); }
        if !multibulk && !inline {
          if querybuf[0] == STAR { multibulk := true; } else { inline := true; }
        }
        if inline { return; }
        var ok;
        ok, need', todo' := ProcessMultibulkBuffer(unread, need', todo');
        if !ok { break; }
        if argv == [] {
          ResetClient();
        } else {
          Hand(executed, argv, todo');
          ProcessCommand();
        }
      }
    }

    /** How much the next read(2) may bring: never more of a large argument than is missing of it. */
    function ReadLen(): (n: int)
      requires -1 <= bulklen
      reads this
    {
      if multibulk && multibulklen > 0 && bulklen != -1 && bulklen >= MBULK_BIG_ARG
         && bulklen + 2 - |querybuf| < IOBUF_LEN
      then bulklen + 2 - |querybuf|
      else IOBUF_LEN
    }

    /** Ready for the next read: nothing that could be executed is left in the buffer. */
    ghost predicate Idle(unread: seq<byte>, need: Args, todo: seq<Args>)
      reads this
    {
      && Valid() && Tracks(0, unread, need, todo)
      && (if bulklen >= MBULK_BIG_ARG then |querybuf| < bulklen + 2 else |querybuf| <= MBULK_BIG_ARG)
      && (unread == [] ==> querybuf == [])
    }

    /** readQueryFromClient, for the `nread` bytes read(2) brings. */
    method ReadQueryFromClient(incoming: seq<byte>, ghost unread: seq<byte>, ghost need: Args, ghost todo: seq<Args>)
      returns (freed: bool, ghost need': Args, ghost todo': seq<Args>)
      requires Valid() && incoming != [] && |incoming| <= ReadLen()
      modifies this
      ensures !freed ==> Valid()
      ensures old(Idle(incoming + unread, need, todo)) ==>
                && !freed && Idle(unread, need', todo')
                && Commands(executed, argv, need', todo') == old(Commands(executed, argv, need, todo))
    {
      hide Stream;
      ghost var before := querybuf;
      querybuf := querybuf + incoming;
      assert before[0..] == before && querybuf[0..] == querybuf;
      assert before + (incoming + unread) == querybuf + unread;
      if old(Idle(incoming + unread, need, todo)) {
        Arrived(before, incoming, unread, bulklen, need, todo);
      }
      if |querybuf| > MAX_QUERYBUF_LEN {
        return true, need, todo;
      }
      need', todo' := ProcessInputBuffer(unread, need, todo);
      return false, need', todo';
    }
  }

  lemma Arrived(b: seq<byte>, incoming: seq<byte>, unread: seq<byte>, bulklen: int, need: Args, todo: seq<Args>)
    requires Stream(b, incoming + unread, bulklen, need, todo)
    ensures Stream(b + incoming, unread, bulklen, need, todo) && bulklen <= MAX_BULK
  {
    hide Awaited;
    assert b + (incoming + unread) == b + incoming + unread;
  }

  lemma Hand(executed: seq<Args>, argv: Args, todo: seq<Args>)
    requires argv != []
    ensures Commands(executed + [argv], [], [], todo) == Commands(executed, argv, [], todo)
  {
    assert argv + [] == argv;
  }

  /** A stream that is between two commands goes on with an asterisk. */
  lemma StarFirst(b: seq<byte>, unread: seq<byte>, todo: seq<Args>)
    requires Stream(b, unread, -1, [], todo) && b != []
    ensures b[0] == STAR
  {
    hide Awaited;
    AwaitNothing(-1, [], todo);
    AwaitCommand(todo);
    assert (b + unread)[0] == b[0];
  }

  /**
    * Fragmentation independence: however the bytes of a list of commands are cut into reads, exactly
    * those commands are executed, in order, and the connection stays open. `cuts(k)` is how much
    * read(2) would give the k-th time if it were not limited by the length asked for.
    */
  method Serve(cmds: seq<Args>, cuts: nat -> nat) returns (client: Client)
    requires AllFit(cmds) && forall k :: cuts(k) > 0
    ensures client.executed == cmds && !client.closing && client.querybuf == []
  {
    hide Stream, ScanLine, EncodeAll;
    client := new Client();
    var unread := EncodeAll(cmds);
    ghost var need: Args, todo := [], cmds;
    assert client.querybuf[0..] + unread == unread;
    StreamOf(cmds, unread);
    assert [] + cmds == cmds;
    var k := 0;
    while unread != []
      invariant client.Idle(unread, need, todo) && fresh(client)
      invariant Commands(client.executed, client.argv, need, todo) == cmds
      decreases |unread|
    {
      var n := client.ReadLen();
      if cuts(k) < n { n := cuts(k); }
      if |unread| < n { n := |unread|; }
      assert unread == unread[..n] + unread[n..];
      var freed;
      freed, need, todo := client.ReadQueryFromClient(unread[..n], unread[n..], need, todo);
      unread := unread[n..];
      k := k + 1;
    }
    assert client.querybuf[0..] == client.querybuf;
    Exhausted(client.bulklen, need, todo);
    assert client.executed + [] + [] == client.executed;
  }

  /** When all bytes are used up, so are the commands. */
  lemma Exhausted(bulklen: int, need: Args, todo: seq<Args>)
    requires Stream([], [], bulklen, need, todo)
    ensures need == [] && todo == []
  {
    if need != [] {
      if bulklen == -1 { AwaitHeader(need, todo); } else { AwaitBody(need, todo); }
    } else if todo != [] {
      assert bulklen == -1;
      AwaitCommand(todo);
    }
  }

  lemma StreamOf(cmds: seq<Args>, unread: seq<byte>)
    requires AllFit(cmds) && unread == EncodeAll(cmds)
    ensures Stream([], unread, -1, [], cmds)
  {
    hide EncodeAll;
    assert [] + unread == unread;
  }
}
