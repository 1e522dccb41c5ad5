/** The append only file as a protocol: the live log, the rewriting child and the log of what it misses. */
module Aof {
  import opened Bytes
  import D = Decimal
  import opened Resp

  const SELECT: seq<byte> := [83, 69, 76, 69, 67, 84]
  const MULTI: seq<byte> := [77, 85, 76, 84, 73]
  const EXEC: seq<byte> := [69, 88, 69, 67]
  const DISCARD: seq<byte> := [68, 73, 83, 67, 65, 82, 68]

  // ---- executing a loaded command

  /** The data set is abstract: what commands do to it is a parameter. */
  datatype Engine<!S> = Engine(empty: S, exec: (S, nat, Command) -> S, dbnum: nat)

  /** What the fake client of the loader carries from one command to the next. */
  datatype Session<+S> = Session(data: S, db: nat, multi: bool)

  function Lower(c: byte): byte { if 65 <= c <= 90 then c + 32 else c }

  /** Command names are looked up without regard to case. */
  predicate Named(word: seq<byte>, name: seq<byte>) {
    |word| == |name| && forall i :: 0 <= i < |name| ==> Lower(word[i]) == Lower(name[i])
  }

  /** selectCommand: an argument that is no number, or no database, leaves the client where it is. */
  function Selected(dbnum: nat, db: nat, arg: seq<byte>): nat {
    var scan := D.StrToL(arg);
    if (arg != [] && D.IsSpace(arg[0])) || (scan.end < |arg| && arg[scan.end] != 0) || scan.overflow then db
    else
      var id := ToInt(scan.value);
      if 0 <= id < dbnum then id else db
  }

  function Perform<S>(e: Engine<S>, r: Session<S>, argv: Command): Session<S> {
    if Named(argv[0], SELECT) then (if |argv| > 1 then r.(db := Selected(e.dbnum, r.db, argv[1])) else r)
    else if Named(argv[0], MULTI) then r.(multi := true)
    else if Named(argv[0], EXEC) || Named(argv[0], DISCARD) then r.(multi := false)
    else r.(data := e.exec(r.data, r.db, argv))
  }

  predicate Ordinary(argv: Command) {
    !Named(argv[0], SELECT) && !Named(argv[0], MULTI) && !Named(argv[0], EXEC) && !Named(argv[0], DISCARD)
  }

  /** The loop of loadAppendOnlyFile: every command is run as soon as it is read. */
  function Replay<S>(e: Engine<S>, b: seq<byte>, r: Session<S>): Loaded<Session<S>>
    decreases |b|
  {
    if b == [] then Ok(r, [])
    else match LoadCommand(b)
      case Ok(argv, rest) => Replay(e, rest, Perform(e, r, argv))
      case UnexpectedEnd => UnexpectedEnd
      case BadFormat => BadFormat
  }

  function Fresh<S>(e: Engine<S>): Session<S> { Session(e.empty, 0, false) }

  /** Loading a file: a file that ends inside a transaction is an error. */
  function Load<S>(e: Engine<S>, b: seq<byte>): Loaded<S> {
    match Replay(e, b, Fresh(e))
    case Ok(r, _) => if r.multi then UnexpectedEnd else Ok(r.data, [])
    case UnexpectedEnd => UnexpectedEnd
    case BadFormat => BadFormat
  }

  lemma {:induction false} ReplayConcat<S>(e: Engine<S>, b: seq<byte>, x: seq<byte>, r: Session<S>)
    requires Replay(e, b, r).Ok?
    ensures Replay(e, b + x, r) == Replay(e, x, Replay(e, b, r).value)
    decreases |b|
  {
    hide LoadCommand, Perform;
    if b == [] {
      assert b + x == x;
    } else {
      CommandStable(b, x);
      ReplayConcat(e, LoadCommand(b).rest, x, Perform(e, r, LoadCommand(b).value));
    }
  }

  /** Appending one encoded command to a log runs that command after it. */
  lemma ReplayAppend<S>(e: Engine<S>, b: seq<byte>, argv: Command, r: Session<S>)
    requires Replay(e, b, r).Ok? && Sized(argv)
    ensures Replay(e, b + Encode(argv), r) == Ok(Perform(e, Replay(e, b, r).value, argv), [])
  {
    hide LoadCommand, Perform;
    ReplayConcat(e, b, Encode(argv), r);
    assert Encode(argv) + [] == Encode(argv);
    LoadEncoded(argv, []);
    assert Encode(argv) != [] by { assert Encode(argv)[0] == STAR; }
  }

  /** A log that is cut in the middle of its last command does not load. */
  lemma TornLog<S>(e: Engine<S>, b: seq<byte>, argv: Command, n: nat)
    requires Replay(e, b, Fresh(e)).Ok? && Sized(argv) && 0 < n < |Encode(argv)|
    ensures !Load(e, b + Encode(argv)[..n]).Ok?
  {
    hide LoadCommand, Perform, Encode;
    ReplayConcat(e, b, Encode(argv)[..n], Fresh(e));
    TornCommand(argv, n);
  }

  // ---- the server

  datatype Mode = Off | On | WaitRewrite

  /** A script under way: the database it was called in, and whether a key was evicted or expired since. */
  datatype Script = Script(db: nat, disturbed: bool)

  /**
    * `child` is the file the running child will leave behind when it succeeds. `open` holds between
    * the MULTI and the EXEC that an executing transaction propagates. Four data sets besides `data`
    * are bookkeeping: `base` is the one without what the script under way has done, which is logged
    * when it ends; `live` is what file and buffer amount to while the log is on, `shadow` what the file of the
    * child and the rewrite buffer amount to, and `durable` what a crash now would come back to.
    */
  datatype Server<S> = Server(
    data: S, base: S, live: S, shadow: S, durable: S, script: Option<Script>,
    open: bool, mode: Mode, file: seq<byte>, fd: bool, size: int,
    buf: seq<byte>, selected: int, child: Option<seq<byte>>, rewrite: seq<byte>)

  /** A server as it comes up: with the file off, or with it on and the data set loaded from it. */
  function Boot<S>(on: bool, data: S, file: seq<byte>): Server<S> {
    if on then Server(data, data, data, data, data, None, false, On, file, true, |file|, [], NO_DB, None, [])
    else Server(data, data, data, data, data, None, false, Off, file, false, 0, [], NO_DB, None, [])
  }

  /** What the logs amount to once a command is fed, unless the append only file is off and nothing is. */
  function Logged<S>(e: Engine<S>, s: Server<S>, db: nat, argv: Command): Server<S> {
    if s.mode == Off then s
    else s.(live := e.exec(s.live, db, argv), shadow := e.exec(s.shadow, db, argv))
  }

  /** A command has run, on the data set and on what the logs amount to. */
  function Ran<S>(e: Engine<S>, s: Server<S>, db: nat, argv: Command): Server<S> {
    Logged(e, s, db, argv).(data := e.exec(s.data, db, argv), base := e.exec(s.base, db, argv))
  }

  /** A script has ended: the data set is what it has made of it, and the logs are to run it again. */
  function Scripted<S>(e: Engine<S>, s: Server<S>, db: nat, argv: Command): Server<S> {
    Logged(e, s, db, argv).(base := s.data, script := None)
  }

  const NO_DB := -1

  function SelectText(db: nat): seq<byte> { Encode([SELECT, D.Print(db)]) }

  /** What feedAppendOnlyFile writes for one command. */
  function Text(selected: int, db: nat, argv: Command): seq<byte> {
    (if db != selected then SelectText(db) else []) + Encode(argv)
  }

  function Feed<S>(s: Server<S>, db: nat, argv: Command): Server<S> {
    var text := Text(s.selected, db, argv);
    s.(selected := db,
       buf := if s.mode == On then s.buf + text else s.buf,
       rewrite := if s.child.Some? then s.rewrite + text else s.rewrite)
  }

  /** propagate: nothing is fed while the append only file is off. */
  function Propagate<S>(s: Server<S>, db: nat, argv: Command): Server<S> {
    if s.mode == Off then s else Feed(s, db, argv)
  }

  lemma FeedFirst<S>(e: Engine<S>, s: Server<S>, db: nat, argv: Command)
    ensures Propagate(Ran(e, s, db, argv), db, argv) == Ran(e, Propagate(s, db, argv), db, argv)
  {
  }

  function Flush<S>(s: Server<S>): Server<S> {
    if s.buf == [] then s
    else s.(file := s.file + s.buf, size := s.size + |s.buf|, buf := [], durable := s.live)
  }

  function Background<S>(s: Server<S>, forked: bool, dump: seq<byte>): Server<S> {
    if s.child.Some? || !forked then s else s.(child := Some(dump), shadow := s.data, selected := NO_DB)
  }

  function StartAppendOnly<S>(s: Server<S>, canOpen: bool, forked: bool, dump: seq<byte>): Server<S> {
    if !canOpen then s.(fd := false)
    else if s.child.Some? || !forked then s.(fd := true)
    else Background(s.(fd := true, mode := WaitRewrite), forked, dump)
  }

  function StopAppendOnly<S>(s: Server<S>): Server<S> {
    Flush(s).(fd := false, selected := NO_DB, mode := Off, child := None, rewrite := [])
  }

  datatype Outcome = Success | BySignal | ExitFailure | OpenFailed | WriteFailed | RenameFailed

  function RewriteDone<S>(s: Server<S>, outcome: Outcome): Server<S>
    requires s.child.Some?
  {
    var file := s.child.value + s.rewrite;
    var switched :=
      if outcome != Success then s
      else if !s.fd then s.(file := file)
      else s.(file := file, size := |file|, durable := s.shadow, live := s.shadow,
              selected := NO_DB, buf := [], mode := if s.mode == WaitRewrite then On else s.mode);
    switched.(child := None, rewrite := [])
  }

  // ---- runs

  /**
    * Write is a command of a client, and Delete a DEL that an eviction or an expiry feeds at once, in the
    * middle of a script, too. A script begins; what it calls changes the data set and is not logged
    * (Touch); it ends and is logged as a whole under the database its client is in by then (ScriptEnd),
    * unless it has changed nothing (ScriptIdle).
    */
  datatype Event<S> =
    | Write(db: nat, argv: Command)
    | Delete(db: nat, argv: Command)
    | ScriptBegin(db: nat)
    | Touch(data: S)
    | ScriptEnd(db: nat, argv: Command)
    | ScriptIdle
    | BeginExec(db: nat)
    | EndExec(db: nat, argv: Command)
    | BeforeSleep(postponed: bool)
    | BgRewrite(forked: bool, dump: seq<byte>)
    | Start(canOpen: bool, forked: bool, dump: seq<byte>)
    | Stop
    | ChildDone(outcome: Outcome)

  /**
    * When an event can happen. A dump is what a child forked now writes when it succeeds. A script that
    * was not disturbed has done what running it does.
    */
  predicate Legal<S(==)>(e: Engine<S>, s: Server<S>, event: Event<S>) {
    match event
    case Write(db, argv) => s.script.None? && db < e.dbnum && Sized(argv) && Ordinary(argv)
    case Delete(db, argv) => db < e.dbnum && Sized(argv) && Ordinary(argv)
    case ScriptBegin(_) => s.script.None?
    case Touch(_) => s.script.Some?
    case ScriptEnd(db, argv) =>
      && s.script.Some? && db < e.dbnum && Sized(argv) && Ordinary(argv)
      && (!s.script.value.disturbed ==> s.data == e.exec(s.base, s.script.value.db, argv))
    case ScriptIdle => s.script.Some? && s.data == s.base
    case BeginExec(db) => s.script.None? && db < e.dbnum && !s.open
    case EndExec(db, argv) => s.script.None? && db < e.dbnum && s.open && Sized(argv) && Named(argv[0], EXEC)
    case BeforeSleep(_) => s.script.None? && !s.open
    case BgRewrite(_, dump) => Load(e, dump) == Ok(s.data, [])
    case Start(_, _, dump) => s.mode == Off && Load(e, dump) == Ok(s.data, [])
    case Stop => s.mode != Off
    case ChildDone(_) => s.script.None? && s.child.Some? && !s.open
  }

  function Disturbed<S>(s: Server<S>): Server<S> {
    if s.script.None? then s else s.(script := Some(s.script.value.(disturbed := true)))
  }

  function Step<S(==)>(e: Engine<S>, s: Server<S>, event: Event<S>): Server<S>
    requires Legal(e, s, event)
  {
    match event
    case Write(db, argv) => Propagate(Ran(e, s, db, argv), db, argv)
    case Delete(db, argv) => Propagate(Ran(e, Disturbed(s), db, argv), db, argv)
    case ScriptBegin(db) => s.(script := Some(Script(db, false)))
    case Touch(data) => s.(data := data)
    case ScriptEnd(db, argv) => Propagate(Scripted(e, s, db, argv), db, argv)
    case ScriptIdle => s.(script := None)
    case BeginExec(db) => Propagate(s.(open := true), db, [MULTI])
    case EndExec(db, argv) => Propagate(s.(open := false), db, argv)
    case BeforeSleep(postponed) => if postponed then s else Flush(s)
    case BgRewrite(forked, dump) => Background(s, forked, dump)
    case Start(canOpen, forked, dump) => StartAppendOnly(s, canOpen, forked, dump)
    case Stop => StopAppendOnly(s)
    case ChildDone(outcome) => RewriteDone(s, outcome)
  }

  predicate LegalRun<S(==)>(e: Engine<S>, s: Server<S>, run: seq<Event<S>>)
    decreases |run|
  {
    run == [] || (Legal(e, s, run[0]) && LegalRun(e, Step(e, s, run[0]), run[1..]))
  }

  function Run<S(==)>(e: Engine<S>, s: Server<S>, run: seq<Event<S>>): Server<S>
    requires LegalRun(e, s, run)
    decreases |run|
  {
    if run == [] then s else Run(e, Step(e, s, run[0]), run[1..])
  }

  // ---- what every run keeps

  /** The log replays to this data set, in the database the next command is written for. */
  predicate Follows<S(==)>(e: Engine<S>, log: seq<byte>, s: Server<S>, data: S) {
    var r := Replay(e, log, Fresh(e));
    && r.Ok? && r.value.data == data
    && (s.selected >= 0 ==> r.value.db == s.selected)
    && (r.value.multi ==> s.open)
  }

  predicate Live<S(==)>(e: Engine<S>, s: Server<S>) {
    var log := s.file + s.buf;
    && Follows(e, log, s, s.live)
    && Replay(e, log, Fresh(e)).value.multi == s.open
    && Load(e, s.file) == Ok(s.durable, [])
    && s.size == |s.file|
  }

  predicate Inv<S(==)>(e: Engine<S>, s: Server<S>) {
    && (s.script.None? ==> s.data == s.base)
    && (s.mode == On ==> Live(e, s))
    && (s.mode != On ==> s.buf == [])
    && (s.mode != Off ==> s.fd)
    && (s.child.None? || s.mode == Off ==> s.rewrite == [])
    && (s.child.Some? && s.mode != Off ==> Follows(e, s.child.value + s.rewrite, s, s.shadow))
    && (s.child.Some? && s.mode == Off ==> Load(e, s.child.value) == Ok(s.shadow, []))
  }

  lemma SelectWorks<S>(e: Engine<S>, r: Session<S>, db: nat)
    requires db < e.dbnum <= INT_MAX
    ensures Perform(e, r, [SELECT, D.Print(db)]) == r.(db := db)
  {
    D.ScanPrint(db, []);
    assert D.Print(db) + [] == D.Print(db);
  }

  lemma SelectRuns<S>(e: Engine<S>, b: seq<byte>, db: nat)
    requires Replay(e, b, Fresh(e)).Ok? && db < e.dbnum <= INT_MAX
    ensures Replay(e, b + SelectText(db), Fresh(e)) == Ok(Replay(e, b, Fresh(e)).value.(db := db), [])
  {
    hide Replay, Encode, Perform, D.Print;
    PrintedLength(db);
    SelectWorks(e, Replay(e, b, Fresh(e)).value, db);
    ReplayAppend(e, b, [SELECT, D.Print(db)], Fresh(e));
  }

  /** Feeding a command to a log that follows the server leaves it where that command takes it. */
  lemma TextRuns<S>(e: Engine<S>, log: seq<byte>, s: Server<S>, data: S, db: nat, argv: Command)
    requires Follows(e, log, s, data) && db < e.dbnum <= INT_MAX && Sized(argv)
    ensures Replay(e, log + Text(s.selected, db, argv), Fresh(e))
         == Ok(Perform(e, Replay(e, log, Fresh(e)).value.(db := db), argv), [])
  {
    hide Replay, SelectText, Encode, Perform;
    var before := if db != s.selected then log + SelectText(db) else log;
    if db != s.selected { SelectRuns(e, log, db); }
    ReplayAppend(e, before, argv, Fresh(e));
    assert log + Text(s.selected, db, argv) == before + Encode(argv);
  }

  /** What feeding a command does to a log, whichever of the two logs it is and whatever it amounts to. */
  lemma FedFollows<S>(e: Engine<S>, log: seq<byte>, s: Server<S>, t: Server<S>, data: S, db: nat, argv: Command)
    requires Follows(e, log, s, data) && db < e.dbnum <= INT_MAX && Sized(argv) && t.selected == db
    requires
      || (Ordinary(argv) && t.open == s.open)
      || (argv == [MULTI] && t.open)
      || Named(argv[0], EXEC)
    ensures Follows(e, log + Text(s.selected, db, argv), t, if Ordinary(argv) then e.exec(data, db, argv) else data)
    ensures Named(argv[0], EXEC) ==> !Replay(e, log + Text(s.selected, db, argv), Fresh(e)).value.multi
    ensures argv == [MULTI] ==> Replay(e, log + Text(s.selected, db, argv), Fresh(e)).value.multi
    ensures Ordinary(argv) ==>
              var before := Replay(e, log, Fresh(e)).value.multi;
              Replay(e, log + Text(s.selected, db, argv), Fresh(e)).value.multi == before
  {
    hide Replay, Text;
    TextRuns(e, log, s, data, db, argv);
  }

  lemma FeedKeeps<S>(e: Engine<S>, s: Server<S>, t: Server<S>, db: nat, argv: Command)
    requires Inv(e, s) && db < e.dbnum <= INT_MAX && Sized(argv)
    requires
      || (Ordinary(argv) && (t == Ran(e, s, db, argv) || t == Scripted(e, s, db, argv)))
      || (argv == [MULTI] && t == s.(open := true))
      || (Named(argv[0], EXEC) && t == s.(open := false))
    ensures Inv(e, Propagate(t, db, argv))
  {
    hide Replay, Text, Perform;
    if s.mode != Off {
      var after := Feed(t, db, argv);
      var text := Text(s.selected, db, argv);
      if s.mode == On {
        FedFollows(e, s.file + s.buf, s, after, s.live, db, argv);
        assert s.file + s.buf + text == after.file + after.buf;
      }
      if s.child.Some? {
        FedFollows(e, s.child.value + s.rewrite, s, after, s.shadow, db, argv);
        assert s.child.value + s.rewrite + text == s.child.value + after.rewrite;
      }
    }
  }

  lemma FlushKeeps<S>(e: Engine<S>, s: Server<S>)
    requires Inv(e, s) && !s.open
    ensures Inv(e, Flush(s))
  {
    hide Replay;
    assert s.file + s.buf + [] == s.file + s.buf;
    assert s.buf == [] ==> s.file + s.buf == s.file;
  }

  lemma BackgroundKeeps<S>(e: Engine<S>, s: Server<S>, forked: bool, dump: seq<byte>)
    requires Inv(e, s) && Load(e, dump) == Ok(s.data, [])
    ensures Inv(e, Background(s, forked, dump))
  {
    hide Replay;
    assert dump + [] == dump;
  }

  lemma StartKeeps<S>(e: Engine<S>, s: Server<S>, canOpen: bool, forked: bool, dump: seq<byte>)
    requires Inv(e, s) && Load(e, dump) == Ok(s.data, []) && s.mode == Off
    ensures Inv(e, StartAppendOnly(s, canOpen, forked, dump))
  {
    hide Replay;
    assert dump + [] == dump;
  }

  lemma DoneKeeps<S>(e: Engine<S>, s: Server<S>, outcome: Outcome)
    requires Inv(e, s) && s.child.Some? && !s.open
    ensures Inv(e, RewriteDone(s, outcome))
  {
    hide Replay;
    var log := s.child.value + s.rewrite;
    assert log + [] == log;
  }

  lemma StepKeeps<S>(e: Engine<S>, s: Server<S>, event: Event<S>)
    requires Inv(e, s) && Legal(e, s, event) && e.dbnum <= INT_MAX
    ensures Inv(e, Step(e, s, event))
  {
    hide Inv, Replay, Load, Feed, Ran, Scripted, Disturbed;
    match event
    case Write(db, argv) => FeedKeeps(e, s, Ran(e, s, db, argv), db, argv);
    case Delete(db, argv) =>
      DisturbedKeeps(e, s);
      FeedKeeps(e, Disturbed(s), Ran(e, Disturbed(s), db, argv), db, argv);
    case ScriptBegin(db) => ScriptKeeps(e, s, s.data, Some(Script(db, false)));
    case Touch(data) => ScriptKeeps(e, s, data, s.script);
    case ScriptEnd(db, argv) => FeedKeeps(e, s, Scripted(e, s, db, argv), db, argv);
    case ScriptIdle => ScriptKeeps(e, s, s.data, None);
    case BeginExec(db) => FeedKeeps(e, s, s.(open := true), db, [MULTI]);
    case EndExec(db, argv) => FeedKeeps(e, s, s.(open := false), db, argv);
    case BeforeSleep(postponed) => FlushKeeps(e, s);
    case BgRewrite(forked, dump) => BackgroundKeeps(e, s, forked, dump);
    case Start(canOpen, forked, dump) => StartKeeps(e, s, canOpen, forked, dump);
    case Stop => StopKeeps(e, s);
    case ChildDone(outcome) => DoneKeeps(e, s, outcome);
  }

  lemma ScriptKeeps<S>(e: Engine<S>, s: Server<S>, data: S, script: Option<Script>)
    requires Inv(e, s) && (script.None? ==> data == s.base)
    ensures Inv(e, s.(data := data, script := script))
  {
    hide Replay;
  }

  lemma DisturbedKeeps<S>(e: Engine<S>, s: Server<S>)
    requires Inv(e, s)
    ensures Inv(e, Disturbed(s))
  {
    hide Replay;
  }

  lemma StopKeeps<S>(e: Engine<S>, s: Server<S>)
    requires Inv(e, s)
    ensures Inv(e, StopAppendOnly(s))
  {
  }

  /** The protocol: whatever is written, flushed, forked, lost or switched, the invariant holds on. */
  lemma {:induction false} RunKeeps<S>(e: Engine<S>, s: Server<S>, run: seq<Event<S>>)
    requires Inv(e, s) && LegalRun(e, s, run) && e.dbnum <= INT_MAX
    ensures Inv(e, Run(e, s, run))
    decreases |run|
  {
    hide Inv, Legal, Step;
    if run != [] {
      StepKeeps(e, s, run[0]);
      RunKeeps(e, Step(e, s, run[0]), run[1..]);
    }
  }

  // ---- what the logs amount to

  /** Each log amounts to the data set without what the script under way has done. */
  predicate InStep<S(==)>(s: Server<S>) {
    && (s.mode == On ==> s.live == s.base)
    && (s.mode != Off && s.child.Some? ==> s.shadow == s.base)
  }

  /** A fork finds nothing done by a script, and a script, run again where it is logged, makes the same. */
  predicate Repeatable<S(==)>(e: Engine<S>, s: Server<S>, event: Event<S>) {
    match event
    case BgRewrite(_, _) => s.data == s.base
    case Start(_, _, _) => s.data == s.base
    case ScriptEnd(db, argv) => s.data == e.exec(s.base, db, argv)
    case _ => true
  }

  predicate AllRepeatable<S(==)>(e: Engine<S>, s: Server<S>, run: seq<Event<S>>)
    requires LegalRun(e, s, run)
    decreases |run|
  {
    run == [] || (Repeatable(e, s, run[0]) && AllRepeatable(e, Step(e, s, run[0]), run[1..]))
  }

  lemma StepInStep<S>(e: Engine<S>, s: Server<S>, event: Event<S>)
    requires Inv(e, s) && InStep(s) && Legal(e, s, event) && Repeatable(e, s, event)
    ensures InStep(Step(e, s, event))
  {
    hide Replay, Load, Text;
  }

  lemma {:induction false} RunInStep<S>(e: Engine<S>, s: Server<S>, run: seq<Event<S>>)
    requires Inv(e, s) && InStep(s) && LegalRun(e, s, run) && e.dbnum <= INT_MAX && AllRepeatable(e, s, run)
    ensures InStep(Run(e, s, run))
    decreases |run|
  {
    hide Inv, Legal, Step, InStep, Repeatable;
    if run != [] {
      StepKeeps(e, s, run[0]);
      StepInStep(e, s, run[0]);
      RunInStep(e, Step(e, s, run[0]), run[1..]);
    }
  }

  /**
    * Nothing comes between a script and its log: it forks no rewrite after a change, no key is evicted or
    * expires while it runs, and it ends in the database it was called in.
    */
  predicate Calm<S(==)>(s: Server<S>, event: Event<S>) {
    match event
    case BgRewrite(_, _) => s.data == s.base
    case Start(_, _, _) => s.data == s.base
    case Delete(_, _) => s.script.None?
    case ScriptEnd(db, _) => s.script.Some? && db == s.script.value.db
    case _ => true
  }

  predicate AllCalm<S(==)>(e: Engine<S>, s: Server<S>, run: seq<Event<S>>)
    requires LegalRun(e, s, run)
    decreases |run|
  {
    run == [] || (Calm(s, run[0]) && AllCalm(e, Step(e, s, run[0]), run[1..]))
  }

  predicate Untroubled<S>(s: Server<S>) { s.script.Some? ==> !s.script.value.disturbed }

  lemma CalmStep<S>(e: Engine<S>, s: Server<S>, event: Event<S>)
    requires Legal(e, s, event) && Calm(s, event) && Untroubled(s)
    ensures Repeatable(e, s, event) && Untroubled(Step(e, s, event))
  {
    hide Load, Text;
  }

  /** What is calm is repeatable. */
  lemma {:induction false} CalmRepeats<S>(e: Engine<S>, s: Server<S>, run: seq<Event<S>>)
    requires LegalRun(e, s, run) && AllCalm(e, s, run) && Untroubled(s)
    ensures AllRepeatable(e, s, run)
    decreases |run|
  {
    hide Legal, Step, Calm, Repeatable, Untroubled;
    if run != [] {
      CalmStep(e, s, run[0]);
      CalmRepeats(e, Step(e, s, run[0]), run[1..]);
    }
  }

  function CursorOf<S>(e: Engine<S>, log: seq<byte>): Option<int> {
    match Replay(e, log, Fresh(e))
    case Ok(r, _) => Some(r.db)
    case UnexpectedEnd => None
    case BadFormat => None
  }

  /** A log that is on loads: in the database last selected, and the file alone to what was last flushed. */
  predicate Loads<S(==)>(e: Engine<S>, t: Server<S>) {
    t.mode == On ==>
      && (!t.open ==> Load(e, t.file + t.buf) == Ok(t.live, []))
      && (t.selected >= 0 ==> CursorOf(e, t.file + t.buf) == Some(t.selected))
      && Load(e, t.file) == Ok(t.durable, [])
  }

  /** And it is complete: with the buffer it is the data set. */
  predicate Recovers<S(==)>(e: Engine<S>, t: Server<S>) {
    t.mode == On && !t.open && t.script.None? ==> Load(e, t.file + t.buf) == Ok(t.data, [])
  }

  lemma LogLoads<S>(e: Engine<S>, s: Server<S>, run: seq<Event<S>>)
    requires Inv(e, s) && LegalRun(e, s, run) && e.dbnum <= INT_MAX
    ensures Loads(e, Run(e, s, run))
  {
    hide LegalRun, Run, Replay;
    RunKeeps(e, s, run);
  }

  lemma LiveLogLoads<S>(e: Engine<S>, s: Server<S>, run: seq<Event<S>>)
    requires Inv(e, s) && InStep(s) && LegalRun(e, s, run) && e.dbnum <= INT_MAX && AllRepeatable(e, s, run)
    ensures Recovers(e, Run(e, s, run))
  {
    hide LegalRun, AllRepeatable, Run, Replay;
    RunKeeps(e, s, run);
    RunInStep(e, s, run);
  }

  /** The switch drops the live buffer, and with it nothing: the new file alone is the data set. */
  lemma SwitchLosesNothing<S>(e: Engine<S>, t: Server<S>)
    requires Inv(e, t) && t.child.Some? && t.mode != Off && !t.open && t.script.None?
    ensures var u := RewriteDone(t, Success);
            && u.mode == On && u.buf == [] && u.data == t.data && u.child == None
            && Load(e, u.file) == Ok(t.shadow, []) && (InStep(t) ==> t.shadow == t.data)
  {
    hide Replay;
  }

  /** A flush that is not postponed takes the data set to disk. */
  lemma FlushIsDurable<S>(e: Engine<S>, s: Server<S>)
    requires Inv(e, s) && InStep(s) && s.mode == On && Legal(e, s, BeforeSleep(false))
    ensures Load(e, Step(e, s, BeforeSleep(false)).file) == Ok(s.data, [])
  {
    hide Replay;
    assert s.buf == [] ==> s.file + s.buf == s.file;
  }

  // ---- a rewrite while the file is off

  /** While a child runs the append only file cannot be switched on: nothing is fed, and the dump stays what it is. */
  lemma OffStep<S>(e: Engine<S>, s: Server<S>, event: Event<S>)
    requires Legal(e, s, event) && s.mode == Off && s.child.Some? && !event.ChildDone?
    ensures var t := Step(e, s, event);
            t.mode == Off && t.child == s.child && t.shadow == s.shadow && t.rewrite == s.rewrite
  {
    hide Load, Text;
  }

  lemma {:induction false} OffRun<S>(e: Engine<S>, s: Server<S>, run: seq<Event<S>>)
    requires LegalRun(e, s, run) && s.mode == Off && s.child.Some? && forall i :: 0 <= i < |run| ==> !run[i].ChildDone?
    ensures var t := Run(e, s, run);
            t.mode == Off && t.child == s.child && t.shadow == s.shadow && t.rewrite == s.rewrite
    decreases |run|
  {
    hide Legal, Step;
    if run != [] {
      OffStep(e, s, run[0]);
      OffRun(e, Step(e, s, run[0]), run[1..]);
    }
  }

  /** A rewrite that is forked while the file is off and succeeds leaves a file with the data set at the fork. */
  lemma RewriteWhileOff<S>(e: Engine<S>, s: Server<S>, dump: seq<byte>, run: seq<Event<S>>)
    requires Inv(e, s) && s.mode == Off && s.child.None? && e.dbnum <= INT_MAX
    requires LegalRun(e, s, [BgRewrite(true, dump)] + run + [ChildDone(Success)])
    requires forall i :: 0 <= i < |run| ==> !run[i].ChildDone?
    ensures var t := Run(e, s, [BgRewrite(true, dump)] + run + [ChildDone(Success)]);
            t.mode == Off && Load(e, t.file) == Ok(s.data, [])
  {
    hide Replay, Legal, LegalRun, Run, Load, Text;
    var all := [BgRewrite(true, dump)] + run + [ChildDone(Success)];
    OnlyLegal(e, s, all);
    FirstStep(e, s, all);
    assert all[1..] == run + [ChildDone(Success)];
    var t := Step(e, s, all[0]);
    StepKeeps(e, s, all[0]);
    LastStep(e, t, run, ChildDone(Success));
    RunKeeps(e, t, run);
    OffRun(e, t, run);
    RenamedOver(e, Run(e, t, run));
  }

  lemma RenamedOver<S>(e: Engine<S>, t: Server<S>)
    requires Inv(e, t) && t.mode == Off && Legal(e, t, ChildDone(Success))
    ensures var u := Step(e, t, ChildDone(Success)); u.mode == Off && Load(e, u.file) == Ok(t.shadow, [])
  {
    hide Load, Replay;
    assert t.child.value + [] == t.child.value;
  }

  lemma OnlyLegal<S>(e: Engine<S>, s: Server<S>, run: seq<Event<S>>)
    requires run != [] && LegalRun(e, s, run)
    ensures Legal(e, s, run[0])
  {
  }

  lemma {:induction false} LastStep<S>(e: Engine<S>, s: Server<S>, run: seq<Event<S>>, event: Event<S>)
    requires LegalRun(e, s, run + [event])
    ensures LegalRun(e, s, run) && Legal(e, Run(e, s, run), event)
    ensures Run(e, s, run + [event]) == Step(e, Run(e, s, run), event)
    decreases |run|
  {
    hide Legal, Step;
    if run == [] {
      assert run + [event] == [event] && [event][1..] == [];
    } else {
      assert (run + [event])[1..] == run[1..] + [event];
      LastStep(e, Step(e, s, run[0]), run[1..], event);
    }
  }

  // ---- scripts

  /** A script is logged as what it makes of the data set the log amounts to; that is right if it made the same. */
  lemma ScriptLogged<S>(e: Engine<S>, s: Server<S>, db: nat, argv: Command)
    requires Inv(e, s) && InStep(s) && s.mode == On && !s.open && e.dbnum <= INT_MAX
    requires Legal(e, s, ScriptEnd(db, argv))
    ensures var t := Step(e, s, ScriptEnd(db, argv));
            && t.data == s.data && Load(e, t.file + t.buf) == Ok(e.exec(s.base, db, argv), [])
            && (Load(e, t.file + t.buf) == Ok(t.data, []) <==> Repeatable(e, s, ScriptEnd(db, argv)))
  {
    hide Replay, Text;
    StepKeeps(e, s, ScriptEnd(db, argv));
  }

  /** One command per name of a command, for the runs below. */
  const A: Command := [[97 as byte]]
  const B: Command := [[98 as byte]]

  lemma SmallCommands()
    ensures Sized(A) && Ordinary(A) && Sized(B) && Ordinary(B)
  {
  }

  /** Which of two keys are there: the command B deletes the first, and the script A copies it to the second. */
  datatype Present = Present(first: bool, second: bool)

  function TwoKeys(): Engine<Present> {
    Engine(Present(true, false),
           (data: Present, db, argv) => if argv == B then data.(first := false) else data.(second := data.first), 16)
  }

  /** A script reads a key, which is evicted before the script writes what it has read: that is not on the log. */
  lemma EvictedInScript()
    ensures var e, s := TwoKeys(), Boot(true, Present(true, false), []);
            var run := [ScriptBegin(0), Delete(0, B), Touch(Present(false, true)), ScriptEnd(0, A)];
            LegalRun(e, s, run) && var t := Run(e, s, run);
            t.data == Present(false, true) && Load(e, t.file + t.buf) == Ok(Present(false, false), [])
  {
    hide Replay, Inv, Text;
    var e, s := TwoKeys(), Boot(true, Present(true, false), []);
    var run := [ScriptBegin(0), Delete(0, B), Touch(Present(false, true)), ScriptEnd(0, A)];
    SmallCommands();
    EmptyBoot(e);
    var t := Step(e, Step(e, s, run[0]), run[1]);
    StepKeeps(e, s, run[0]);
    StepKeeps(e, Step(e, s, run[0]), run[1]);
    StepKeeps(e, t, run[2]);
    ScriptLogged(e, Step(e, t, run[2]), 0, A);
    RunOfFour(e, s, run);
  }

  /** Every command adds the number of its database, and one. */
  function Counting(): Engine<int> { Engine(0, (data, db, argv) => data + db + 1, 16) }

  /** A script that leaves its client in another database is logged in that one. */
  lemma SelectedInScript()
    ensures var e, s := Counting(), Boot(true, 0, []);
            var run := [ScriptBegin(0), Touch(1), ScriptEnd(7, A)];
            LegalRun(e, s, run) && var t := Run(e, s, run);
            t.data == 1 && Load(e, t.file + t.buf) == Ok(8, [])
  {
    hide Replay, Inv, Text;
    var e, s := Counting(), Boot(true, 0, []);
    var run := [ScriptBegin(0), Touch(1), ScriptEnd(7, A)];
    SmallCommands();
    EmptyBoot(e);
    StepKeeps(e, s, run[0]);
    StepKeeps(e, Step(e, s, run[0]), run[1]);
    ScriptLogged(e, Step(e, Step(e, s, run[0]), run[1]), 7, A);
    RunOfThree(e, s, run);
  }

  /**
    * A rewrite forked in the middle of a script, when the script has made the data set `s.data`, is fed
    * the whole script at its end, and the new file holds the script run on what it had half done.
    */
  lemma ForkInScript<S>(e: Engine<S>, s: Server<S>, fork: Event<S>, dump: seq<byte>, db: nat, argv: Command)
    requires Inv(e, s) && InStep(s) && s.child.None? && !s.open && e.dbnum <= INT_MAX
    requires s.script == Some(Script(db, false)) && db < e.dbnum && Sized(argv) && Ordinary(argv)
    requires (fork == BgRewrite(true, dump) && s.mode == On) || fork == Start(true, true, dump)
    requires Legal(e, s, fork)
    ensures var made := e.exec(s.base, db, argv);
            var run := [fork, Touch(made), ScriptEnd(db, argv), ChildDone(Success)];
            && LegalRun(e, s, run) && Run(e, s, run).mode == On && Run(e, s, run).data == made
            && Load(e, Run(e, s, run).file) == Ok(e.exec(s.data, db, argv), [])
            && (Load(e, Run(e, s, run).file) == Ok(made, []) <==> e.exec(s.data, db, argv) == e.exec(s.base, db, argv))
  {
    hide Inv, Replay, Load, Text;
    var run := [fork, Touch(e.exec(s.base, db, argv)), ScriptEnd(db, argv), ChildDone(Success)];
    var t := Step(e, s, run[0]);
    StepKeeps(e, s, run[0]);
    var u := Step(e, t, run[1]);
    StepKeeps(e, t, run[1]);
    var v := Step(e, u, run[2]);
    StepKeeps(e, u, run[2]);
    SwitchLosesNothing(e, v);
    RunOfFour(e, s, run);
  }

  /** A run that shows it: the script adds its one and forks, and the new file has added it twice. */
  lemma ForkedTwice()
    ensures var e, s := Counting(), Boot(true, 0, []);
            var run := [ScriptBegin(0), Touch(1), BgRewrite(true, Encode(A)), Touch(1), ScriptEnd(0, A),
                ChildDone(Success)];
            LegalRun(e, s, run) && Run(e, s, run).data == 1 && Load(e, Run(e, s, run).file) == Ok(2, [])
  {
    hide Replay, Inv, Encode, Text;
    var e, s := Counting(), Boot(true, 0, []);
    var run := [ScriptBegin(0), Touch(1), BgRewrite(true, Encode(A)), Touch(1), ScriptEnd(0, A), ChildDone(Success)];
    SmallCommands();
    CountedOnce(e);
    EmptyBoot(e);
    var t := Step(e, s, run[0]);
    StepKeeps(e, s, run[0]);
    var u := Step(e, t, run[1]);
    StepKeeps(e, t, run[1]);
    ForkInScript(e, u, run[2], Encode(A), 0, A);
    FirstStep(e, s, run);
    FirstStep(e, t, run[1..]);
    assert run[1..][1..] == [BgRewrite(true, Encode(A)), Touch(1), ScriptEnd(0, A), ChildDone(Success)];
  }

  lemma CountedOnce(e: Engine<int>)
    requires e == Counting()
    ensures Load(e, Encode(A)) == Ok(1, [])
  {
    hide Encode;
    SmallCommands();
    ReplayAppend(e, [], A, Fresh(e));
    assert [] + Encode(A) == Encode(A);
  }

  lemma EmptyBoot<S>(e: Engine<S>)
    ensures Load(e, []) == Ok(e.empty, [])
    ensures Inv(e, Boot(true, e.empty, [])) && InStep(Boot(true, e.empty, []))
  {
    BootOk(e, e.empty, []);
  }

  lemma FirstStep<S>(e: Engine<S>, s: Server<S>, run: seq<Event<S>>)
    requires run != [] && Legal(e, s, run[0])
    ensures LegalRun(e, s, run) <==> LegalRun(e, Step(e, s, run[0]), run[1..])
    ensures LegalRun(e, s, run) ==> Run(e, s, run) == Run(e, Step(e, s, run[0]), run[1..])
  {
  }

  lemma RunOfThree<S>(e: Engine<S>, s: Server<S>, run: seq<Event<S>>)
    requires |run| == 3 && Legal(e, s, run[0]) && Legal(e, Step(e, s, run[0]), run[1])
    requires Legal(e, Step(e, Step(e, s, run[0]), run[1]), run[2])
    ensures LegalRun(e, s, run)
    ensures Run(e, s, run) == Step(e, Step(e, Step(e, s, run[0]), run[1]), run[2])
  {
    hide Legal, Step;
    FirstStep(e, s, run);
    FirstStep(e, Step(e, s, run[0]), run[1..]);
    assert run[1..][1..] == [run[2]];
    FirstStep(e, Step(e, Step(e, s, run[0]), run[1]), [run[2]]);
    assert [run[2]][1..] == [];
  }

  lemma RunOfFour<S>(e: Engine<S>, s: Server<S>, run: seq<Event<S>>)
    requires |run| == 4 && Legal(e, s, run[0]) && Legal(e, Step(e, s, run[0]), run[1])
    requires Legal(e, Step(e, Step(e, s, run[0]), run[1]), run[2])
    requires Legal(e, Step(e, Step(e, Step(e, s, run[0]), run[1]), run[2]), run[3])
    ensures LegalRun(e, s, run)
    ensures Run(e, s, run) == Step(e, Step(e, Step(e, Step(e, s, run[0]), run[1]), run[2]), run[3])
  {
    hide Legal, Step;
    FirstStep(e, s, run);
    RunOfThree(e, Step(e, s, run[0]), run[1..]);
  }

  /** A rewrite that fails at any stage leaves the live log and its file as they were. */
  lemma FailureLosesNothing<S>(s: Server<S>, outcome: Outcome)
    requires s.child.Some? && outcome != Success
    ensures var t := RewriteDone(s, outcome);
            && t.file == s.file && t.buf == s.buf && t.selected == s.selected && t.mode == s.mode && t.data == s.data
            && t.child == None
  {
  }

  // ---- switching off

  /**
    * Switching the append only file off flushes the log. The file that is left behind loads to the data
    * set exactly if this happens neither inside a transaction nor in a script that has changed something.
    */
  lemma StoppedFileLoads<S>(e: Engine<S>, s: Server<S>)
    requires Inv(e, s) && InStep(s) && s.mode == On
    ensures Load(e, StopAppendOnly(s).file) == Ok(s.base, []) <==> !s.open
    ensures Load(e, StopAppendOnly(s).file) == Ok(s.data, []) <==> !s.open && s.data == s.base
  {
    hide Replay;
    assert s.buf == [] ==> s.file + s.buf == s.file;
  }

  /** A run that shows it: a server whose log is switched off inside a transaction leaves a file that does not load. */
  lemma StopInTransaction<S>(e: Engine<S>, data: S, file: seq<byte>, db: nat)
    requires Load(e, file) == Ok(data, []) && db < e.dbnum <= INT_MAX
    ensures var s := Boot(true, data, file); var run := [BeginExec(db), Stop];
            LegalRun(e, s, run) && Run(e, s, run).data == data && !Load(e, Run(e, s, run).file).Ok?
  {
    hide Replay, Load, Text;
    var s := Boot(true, data, file);
    var run := [BeginExec(db), Stop];
    BootOk(e, data, file);
    var t := Step(e, s, run[0]);
    StepKeeps(e, s, run[0]);
    NotLoaded(e, t);
    FirstStep(e, s, run);
    assert run[1..] == [Stop];
    FirstStep(e, t, [Stop]);
    assert run[1..][1..] == [];
  }

  lemma NotLoaded<S>(e: Engine<S>, s: Server<S>)
    requires Inv(e, s) && s.mode == On && s.open
    ensures Load(e, StopAppendOnly(s).file) == UnexpectedEnd
  {
    hide Replay;
    assert s.buf == [] ==> s.file + s.buf == s.file;
  }

  /** And one in a script: what the script does is on no file, whatever it does. */
  lemma StopInScript<S>(e: Engine<S>, data: S, file: seq<byte>, db: nat, argv: Command)
    requires Load(e, file) == Ok(data, []) && db < e.dbnum <= INT_MAX && Sized(argv) && Ordinary(argv)
    ensures var s, made := Boot(true, data, file), e.exec(data, db, argv);
            var run := [ScriptBegin(db), Stop, Touch(made), ScriptEnd(db, argv)];
            && LegalRun(e, s, run) && Run(e, s, run).data == made
            && Load(e, Run(e, s, run).file) == Ok(data, [])
  {
    hide Replay, Load, Text;
    RunOfFour(e, Boot(true, data, file), [ScriptBegin(db), Stop, Touch(e.exec(data, db, argv)), ScriptEnd(db, argv)]);
  }

  // ---- from the start

  /** Both ways a server comes up satisfy the invariant, with every log in step. */
  lemma BootOk<S>(e: Engine<S>, data: S, file: seq<byte>)
    ensures Inv(e, Boot(false, data, file)) && InStep(Boot(false, data, file))
    ensures Load(e, file) == Ok(data, []) ==> Inv(e, Boot(true, data, file)) && InStep(Boot(true, data, file))
  {
    hide Replay;
    assert file + [] == file;
  }

  /** From its start on, whatever happens as long as scripts are left in peace, a log that is on recovers. */
  lemma RecoversFromBoot<S>(e: Engine<S>, on: bool, data: S, file: seq<byte>, run: seq<Event<S>>)
    requires on ==> Load(e, file) == Ok(data, [])
    requires e.dbnum <= INT_MAX && LegalRun(e, Boot(on, data, file), run)
    ensures Loads(e, Run(e, Boot(on, data, file), run))
    ensures AllCalm(e, Boot(on, data, file), run) ==> Recovers(e, Run(e, Boot(on, data, file), run))
  {
    hide Inv, InStep, Load, LegalRun, AllCalm, AllRepeatable, Run, Loads, Recovers;
    BootOk(e, data, file);
    LogLoads(e, Boot(on, data, file), run);
    if AllCalm(e, Boot(on, data, file), run) {
      CalmRepeats(e, Boot(on, data, file), run);
      LiveLogLoads(e, Boot(on, data, file), run);
    }
  }
}
