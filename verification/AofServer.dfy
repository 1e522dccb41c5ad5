/** aof.c over the server's fields: each method is one step of the protocol of module Aof. */
module AofServer {
  import opened Bytes
  import D = Decimal
  import opened Resp
  import opened Aof
  import RB = RewriteBuffer

  class AppendOnly<S(==, !new)> {
    const e: Engine<S>
    var data: S
    var script: Option<Script>
    var open: bool
    var mode: Mode
    var file: seq<byte>
    var fd: bool
    var currentSize: int
    var buf: seq<byte>
    var selected: int
    var child: Option<seq<byte>>
    var postponedStart: int
    const diff: RB.Buffer
    ghost var base: S
    ghost var live: S
    ghost var shadow: S
    ghost var durable: S

    ghost predicate Valid()
      reads this, diff, diff.blocks
    {
      diff.Valid() && this !in RB.Bufs(diff.blocks)
    }

    ghost function View(): Server<S>
      requires Valid()
      reads this, diff, diff.blocks, RB.Bufs(diff.blocks)
    {
      Server(data, base, live, shadow, durable, script, open, mode, file, fd, currentSize, buf, selected, child,
          diff.View())
    }

    /** A server whose append only file is off, or on and just loaded. */
    constructor (e: Engine<S>, on: bool, data: S, file: seq<byte>)
      ensures Valid() && this.e == e && fresh(diff)
      ensures View() == Boot(on, data, file)
    {
      this.e, this.data, this.file := e, data, file;
      base, live, shadow, durable := data, data, data, data;
      script, open, buf, selected, child, postponedStart := None, false, [], NO_DB, None, 0;
      mode, fd, currentSize := if on then On else Off, on, if on then |file| else 0;
      diff := new RB.Buffer();
    }

    method FeedAppendOnlyFile(db: nat, argv: Command)
      requires Valid()
      modifies this`buf, this`selected, diff, diff.blocks, RB.Bufs(diff.blocks)
      ensures Valid() && View() == Feed(old(View()), db, argv)
    {
      hide Encode, RB.Chain, RB.Contents;
      var text := [];
      if db != selected {
        text := CatAppendOnlyGenericCommand(text, [SELECT, D.Print(db)]);
        selected := db;
      }
      text := CatAppendOnlyGenericCommand(text, argv);
      assert [] + Encode(argv) == Encode(argv) && [] + Encode([SELECT, D.Print(db)]) == SelectText(db);
      if mode == On {
        buf := buf + text;
      }
      if child.Some? {
        diff.Append(text);
      }
    }

    method PropagateCommand(db: nat, argv: Command)
      requires Valid()
      modifies this`buf, this`selected, diff, diff.blocks, RB.Bufs(diff.blocks)
      ensures Valid() && View() == Propagate(old(View()), db, argv)
    {
      if mode != Off {
        FeedAppendOnlyFile(db, argv);
      }
    }

    /** call: a command that changes the data set is propagated after it has run. */
    method Call(db: nat, argv: Command)
      requires Valid() && Legal(e, View(), Write(db, argv))
      modifies this`data, this`base, this`live, this`shadow, this`buf, this`selected
      modifies diff, diff.blocks, RB.Bufs(diff.blocks)
      ensures Valid() && View() == Step(e, old(View()), Write(db, argv))
    {
      hide Feed, Encode, Named, RB.Chain, RB.Contents;
      Execute(db, argv);
      PropagateCommand(db, argv);
    }

    /** What a command does to the data set, and will have done to what the logs amount to. */
    method Execute(db: nat, argv: Command)
      requires Valid()
      modifies this`data, this`base, this`live, this`shadow
      ensures Valid() && View() == Ran(e, old(View()), db, argv)
    {
      data := e.exec(data, db, argv);
      base := e.exec(base, db, argv);
      Log(db, argv);
    }

    ghost method Log(db: nat, argv: Command)
      requires Valid()
      modifies this`live, this`shadow
      ensures Valid() && View() == Logged(e, old(View()), db, argv)
    {
      if mode != Off {
        live, shadow := e.exec(live, db, argv), e.exec(shadow, db, argv);
      }
    }

    method Disturb()
      requires Valid()
      modifies this`script
      ensures Valid() && View() == Disturbed(old(View()))
    {
      if script.Some? {
        script := Some(script.value.(disturbed := true));
      }
    }

    /** propagateExpire, and the deletion that goes with it, wherever it happens. */
    method DeleteExpired(db: nat, argv: Command)
      requires Valid() && Legal(e, View(), Delete(db, argv))
      modifies this`data, this`script, this`base, this`live, this`shadow, this`buf, this`selected
      modifies diff, diff.blocks, RB.Bufs(diff.blocks)
      ensures Valid() && View() == Step(e, old(View()), Delete(db, argv))
    {
      hide Ran, Propagate, Disturbed, Encode, Named, RB.Chain, RB.Contents;
      Disturb();
      FeedFirst(e, View(), db, argv);
      PropagateCommand(db, argv);
      Execute(db, argv);
    }

    /** evalGenericCommand starts a script. */
    method BeginScript(db: nat)
      requires Valid() && Legal(e, View(), ScriptBegin(db))
      modifies this`script
      ensures Valid() && View() == Step(e, old(View()), ScriptBegin(db))
    {
      script := Some(Script(db, false));
    }

    /** luaRedisGenericCommand: what a script calls is run, and not propagated. */
    method ScriptCall(run: S -> S)
      requires Valid() && script.Some?
      modifies this`data
      ensures Valid() && View() == Step(e, old(View()), Touch(run(old(data))))
    {
      data := run(data);
    }

    /** The end of call for a script that has made a change: it is propagated for the database its client is in now. */
    method EndScript(db: nat, argv: Command)
      requires Valid() && Legal(e, View(), ScriptEnd(db, argv))
      modifies this`script, this`base, this`live, this`shadow, this`buf, this`selected
      modifies diff, diff.blocks, RB.Bufs(diff.blocks)
      ensures Valid() && View() == Step(e, old(View()), ScriptEnd(db, argv))
    {
      hide Feed, Encode, Named, RB.Chain, RB.Contents;
      script := None;
      base := data;
      Log(db, argv);
      PropagateCommand(db, argv);
    }

    /** execCommandPropagateMulti, before the first queued command that may write. */
    method PropagateMulti(db: nat)
      requires Valid() && Legal(e, View(), BeginExec(db))
      modifies this`open, this`buf, this`selected, diff, diff.blocks, RB.Bufs(diff.blocks)
      ensures Valid() && View() == Step(e, old(View()), BeginExec(db))
    {
      hide Feed, Encode, Named, RB.Chain, RB.Contents;
      open := true;
      PropagateCommand(db, [MULTI]);
    }

    /** The end of call for an EXEC that has propagated its MULTI. */
    method PropagateExec(db: nat, argv: Command)
      requires Valid() && Legal(e, View(), EndExec(db, argv))
      modifies this`open, this`buf, this`selected, diff, diff.blocks, RB.Bufs(diff.blocks)
      ensures Valid() && View() == Step(e, old(View()), EndExec(db, argv))
    {
      hide Feed, Encode, Named, RB.Chain, RB.Contents;
      open := false;
      PropagateCommand(db, argv);
    }

    /**
      * flushAppendOnlyFile. `written` is what write(2) returns. A short write ends the process, and
      * the truncation before that takes the file back to what it was before the call.
      */
    method FlushAppendOnlyFile(everysec: bool, syncInProgress: bool, now: int, force: bool, written: int)
      returns (alive: bool, postponed: bool)
      requires Valid() && -1 <= written <= |buf| && (mode == On ==> currentSize == |file|)
      requires buf != [] ==> mode == On
      modifies this`file, this`buf, this`currentSize, this`postponedStart, this`durable
      ensures Valid()
      ensures alive && !postponed ==> View() == Flush(old(View()))
      ensures alive && postponed ==> View() == old(View())
      ensures postponed <==> old(buf) != [] && everysec && !force && syncInProgress
                             && (old(postponedStart) == 0 || now - old(postponedStart) < 2)
      ensures postponedStart == if old(buf) == [] then old(postponedStart)
                                else if !postponed then 0
                                else if old(postponedStart) == 0 then now else old(postponedStart)
      ensures !alive <==> old(buf) != [] && !postponed && written != |old(buf)|
      ensures !alive ==> file == old(file)
    {
      hide RB.Chain, RB.Contents;
      if |buf| == 0 { return true, false; }
      if everysec && !force {
        if syncInProgress {
          if postponedStart == 0 {
            postponedStart := now;
            return true, true;
          } else if now - postponedStart < 2 {
            return true, true;
          }
        }
      }
      postponedStart := 0;
      file := file + if written == -1 then [] else buf[..written];
      if written != |buf| {
        if written != -1 {
          file := file[..currentSize];
        }
        return false, false;
      }
      currentSize := currentSize + written;
      buf := [];
      durable := live;
      return true, false;
    }

    /** rewriteAppendOnlyFileBackground in the parent; `dump` is what the child is going to write. */
    method RewriteBackground(forked: bool, dump: seq<byte>) returns (ok: bool)
      requires Valid()
      modifies this`child, this`shadow, this`selected
      ensures Valid() && View() == Background(old(View()), forked, dump)
      ensures ok <==> old(child) == None && forked
    {
      if child.Some? { return false; }
      if !forked { return false; }
      child := Some(dump);
      shadow := data;
      selected := NO_DB;
      return true;
    }

    method Start(canOpen: bool, forked: bool, dump: seq<byte>) returns (ok: bool)
      requires Valid() && mode == Off
      modifies this`fd, this`mode, this`child, this`shadow, this`selected
      ensures Valid() && View() == StartAppendOnly(old(View()), canOpen, forked, dump)
      ensures ok <==> mode == WaitRewrite
    {
      fd := canOpen;
      if !fd { return false; }
      var started := RewriteBackground(forked, dump);
      if !started { return false; }
      mode := WaitRewrite;
      return true;
    }

    /** stopAppendOnly, when the forced flush goes through. */
    method Stop()
      requires Valid() && mode != Off && (mode == On ==> currentSize == |file|) && (buf != [] ==> mode == On)
      requires child == None ==> diff.View() == []
      modifies this`file, this`buf, this`currentSize, this`postponedStart, this`durable
      modifies this`fd, this`mode, this`child, this`selected, diff
      ensures Valid() && View() == StopAppendOnly(old(View()))
    {
      hide RB.Chain, RB.Contents;
      var alive, postponed := FlushAppendOnlyFile(false, false, 0, true, |buf|);
      fd := false;
      selected := NO_DB;
      mode := Off;
      if child.Some? {
        diff.Reset();
        child := None;
      }
    }

    /** The rename has put the new file in place: the live log goes on in it, its buffer is dropped. */
    method Switch(grown: seq<byte>)
      modifies this`file, this`buf, this`currentSize, this`live, this`durable, this`mode, this`selected
      ensures file == grown
      ensures if !old(fd) then (buf, currentSize, live, durable, mode, selected)
                               == old((buf, currentSize, live, durable, mode, selected))
              else && buf == [] && currentSize == |grown| && selected == NO_DB
                   && mode == (if old(mode) == Off then Off else On)
                   && live == durable == shadow
    {
      file := grown;
      if fd {
        selected := NO_DB;
        currentSize := |file|;
        live, durable := shadow, shadow;
        buf := [];
        if mode == WaitRewrite { mode := On; }
      }
    }

    /**
      * backgroundRewriteDoneHandler: how the child ended, whether its file opens, what write(2)
      * accepts of each block, and whether the rename works decide the outcome.
      */
    method RewriteDoneHandler(exitcode: int, bysignal: bool, canOpen: bool, accepted: nat -> int, renamed: bool)
      returns (outcome: Outcome)
      requires Valid() && child.Some?
      modifies this`file, this`buf, this`currentSize, this`live, this`durable, this`mode, this`child, this`selected,
          diff
      ensures Valid() && View() == RewriteDone(old(View()), outcome)
      ensures outcome == Success <==>
                !bysignal && exitcode == 0 && canOpen && old(RB.Accepted(diff.blocks, accepted)) && renamed
    {
      hide RB.Chain, RB.Contents, RB.Accepted;
      if !bysignal && exitcode == 0 {
        if !canOpen {
          outcome := OpenFailed;
        } else {
          var count, grown := diff.Write(child.value, accepted);
          if count == -1 {
            outcome := WriteFailed;
          } else if !renamed {
            outcome := RenameFailed;
          } else {
            outcome := Success;
            Switch(grown);
          }
        }
      } else if !bysignal {
        outcome := ExitFailure;
      } else {
        outcome := BySignal;
      }
      diff.Reset();
      child := None;
    }
  }

  // ---- loading

  /** What the arguments read so far and the rest of the file amount to. */
  function Joined(args: Args, more: Loaded<Args>): Loaded<Args> {
    match more
    case Ok(tail, rest) => Ok(args + tail, rest)
    case UnexpectedEnd => UnexpectedEnd
    case BadFormat => BadFormat
  }

  /** The argument loop of the loader. */
  method ReadArgs(b: seq<byte>, argc: nat) returns (r: Loaded<Args>)
    ensures r == LoadArgs(b, argc)
  {
    hide ReadHeader;
    var argv, rest := [], b;
    JoinNothing(LoadArgs(b, argc));
    for j := 0 to argc
      invariant LoadArgs(b, argc) == Joined(argv, LoadArgs(rest, argc - j))
    {
      if rest == [] { return UnexpectedEnd; }
      var line := ReadHeader(rest);
      if line.mark != DOLLAR { return BadFormat; }
      var len: int := if line.number < 0 then line.number + 0x1_0000_0000_0000_0000 else line.number;
      if len > |line.rest| { return BadFormat; }
      if len + 2 > |line.rest| { return BadFormat; }
      JoinStep(argv, rest, argc - j);
      argv := argv + [line.rest[..len]];
      rest := line.rest[len + 2..];
    }
    r := Ok(argv, rest);
    assert argv + [] == argv;
  }

  lemma JoinNothing(more: Loaded<Args>)
    ensures Joined([], more) == more
  {
    if more.Ok? { assert [] + more.value == more.value; }
  }

  lemma JoinStep(args: Args, b: seq<byte>, k: nat)
    requires k > 0
    ensures LoadArg(b).Ok? ==>
              Joined(args, LoadArgs(b, k)) == Joined(args + [LoadArg(b).value], LoadArgs(LoadArg(b).rest, k - 1))
  {
    hide LoadArg;
    if LoadArg(b).Ok? && LoadArgs(LoadArg(b).rest, k - 1).Ok? {
      var arg, tail := LoadArg(b).value, LoadArgs(LoadArg(b).rest, k - 1).value;
      assert args + ([arg] + tail) == args + [arg] + tail;
    }
  }

  /** loadAppendOnlyFile: reads and runs one command at a time, and loads exactly what Load says. */
  method LoadAppendOnlyFile<S(==)>(e: Engine<S>, file: seq<byte>) returns (r: Loaded<S>)
    ensures r == Load(e, file)
  {
    hide ReadHeader, LoadArgs, Perform;
    var client, rest := Fresh(e), file;
    while rest != []
      invariant Replay(e, file, Fresh(e)) == Replay(e, rest, client)
      decreases |rest|
    {
      var line := ReadHeader(rest);
      if line.mark != STAR { return BadFormat; }
      var argc := ToInt(line.number);
      if argc < 1 { return BadFormat; }
      var args := ReadArgs(line.rest, argc);
      match args {
        case UnexpectedEnd => return UnexpectedEnd;
        case BadFormat => return BadFormat;
        case Ok(argv, tail) =>
          client := Perform(e, client, argv);
          rest := tail;
      }
    }
    if client.multi { return UnexpectedEnd; }
    r := Ok(client.data, []);
  }
}
