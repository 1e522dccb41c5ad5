# A Dafny model of Redis 2.6.17

This project models the algorithmic cores of Redis 2.6.17 in Dafny and proves what they are for. Each
core has its own module:

| module | models |
|---|---|
| PartialSort | the partial quicksort behind SORT ... LIMIT |
| Lzf | the LZF compressor, with its uninitialised hash table, and the decompressor |
| DictModel, DictGrowth, DictIteration, DictHeap | the incrementally rehashed hash table: on values, how it grows, its safe iteration, and as linked entries relinked in place |
| Decimal, Resp | decimal numbers; the command encoding and the loader of the append only file |
| Aof, RewriteBuffer, AofServer, Objects, AofDump | the append only file: the protocol with the rewriting child, its buffer of blocks, the server's fields, and the log a rewrite writes |
| Requests | the resumable request parser |
| Replies | the reply queue |
| Sha1, Sha1Vector | SHA-1, streaming, against FIPS 180-4, and a test vector |
| Crc64Table, Crc64, Rio | the table-driven CRC and the streams that compute it |
| Little, RdbString, RdbFile, Dump, RdbIntegrity | the string codec of dump files, whole files, DUMP payloads, and what checksums protect |
| Intset | the packed integer set, byte by byte |
| Transactions, TransactionServer | WATCH, MULTI, EXEC |
| Bitops | bit counting, BITOP, SETBIT and GETBIT |

Throughout, a specification on values (functions, predicates, relations) says what the code is to do;
classes and methods over arrays, linked nodes and fields do it the way the C code does and are proved
equal to the specification; and the lemmas about the specification are the properties of the system.
`dafny verify dfyconfig.toml` checks the whole project.

Parameters of the model: the comparator of the sort is any total preorder; the hash function is any
function; the contents of the LZF hash table and the address of its input are arbitrary; what commands do
to the data set is a parameter of the append only file protocol, and AofDump instantiates it for the
commands a rewrite emits; the answers of read(2), write(2), fork, open, rename and the clock are arguments.

Where the code and its comments disagree the code is followed. The head of crc64.c gives an initial
exclusive-or of all ones, but the code starts from zero, and so do both callers. The comment over
loadAppendOnlyFile has its return values the wrong way round.

Some results qualify what one might expect.

- A log that is switched off in the middle of a transaction or of a script (CONFIG SET appendonly no is
  allowed in both) leaves a file that does not hold the data set. `Aof.StoppedFileLoads` shows that it does
  exactly if no transaction was open and no script under way had changed anything; `Aof.StopInTransaction` and
  `Aof.StopInScript` give the runs.
- A script is logged as a whole when it ends, and only what comes between it and its log can make that wrong. A
  key that is evicted or expires while it runs is logged before it, and a script that leaves its client in
  another database is logged in that one. `Aof.ScriptLogged` says what the log then amounts to, and that this
  is the data set exactly if the script, run on what the log amounts to, makes the same; `Aof.EvictedInScript`
  and `Aof.SelectedInScript` give runs where it does not. A rewrite that a script forks after it has changed
  something (BGREWRITEAOF is allowed, too) is fed the whole script again: `Aof.ForkInScript` says the same of
  the new file, and `Aof.ForkedTwice` gives the run. In all other runs, the calm ones, the log recovers the
  data set (`Aof.RecoversFromBoot`).
- RDB lengths cannot reach 2^32-1, because that length is the error code of the loader.

## Model

| member | source | states |
|---|---|---|
| PartialSort.OutsideIsDisjoint | redis-2.6.17/src/pqsort.c:168-186 | the two byte-level pruning tests are true exactly when no element of the window lies in the sub-array |
| PartialSort.Med3IsMedian | redis-2.6.17/src/pqsort.c:88-96 | the element chosen is one of the three and lies between the other two |
| PartialSort.InsertionSort | redis-2.6.17/src/pqsort.c:108-114 | the range comes out sorted, permuted, and nothing outside it changes |
| PartialSort.VecSwap | redis-2.6.17/src/pqsort.c:78-86 | two disjoint ranges are exchanged element by element |
| PartialSort.Partition | redis-2.6.17/src/pqsort.c:127-154 | equal, smaller, greater and equal elements end in four consecutive zones, and without a swap nothing has moved, so the range was already split by the pivot |
| PartialSort.ThreeWayCross | redis-2.6.17/src/pqsort.c:163-167 | after the two vector swaps everything smaller than the pivot is in front of everything equal, and that in front of everything greater |
| PartialSort.QuickSort | redis-2.6.17/src/pqsort.c:98-188 | terminates, permutes the range, and places every window position: nothing before it compares greater and nothing after it smaller |
| PartialSort.PQSort | redis-2.6.17/src/pqsort.c:190-196 | the same for the whole array, for every window inside it and every total preorder |
| PartialSort.PlacedAgreesWithSort | redis-2.6.17/src/pqsort.c:98-188 | an element that is placed in this sense compares equal to the element a full sort has at the same index |
| Lzf.DecompressExact | redis-2.6.17/src/lzf_d.c:55-149 | decoding succeeds with s exactly if the input is a compressed form of s and s fits the output |
| Lzf.CopyBackMatches | redis-2.6.17/src/lzf_d.c:136-143 | an overlapping back reference copies what the compressor compared, each byte after the one before it was written |
| Lzf.CopyRef | redis-2.6.17/src/lzf_d.c:133-143 | the copy loop realises an overlapping copy and leaves the bytes behind it alone |
| Lzf.DecodeOne | redis-2.6.17/src/lzf_d.c:64-146 | one control byte is handled as the format says, with every bound of input and output checked before use |
| Lzf.LzfDecompress | redis-2.6.17/src/lzf_d.c:55-149 | on every non-empty input: the decoded string and its length, or 0; all accesses stay inside the two buffers |
| Lzf.MatchLength | redis-2.6.17/src/lzf_c.c:169-211 | the unrolled comparison finds a length up to which both places agree, and that is the longest the format and the input allow or the next bytes differ |
| Lzf.Probe | redis-2.6.17/src/lzf_c.c:149-166 | whatever word the hash slot holds, a match is reported exactly if it points behind the first byte and to a legal offset, the three bytes agree and more than four are left |
| Lzf.StopRun | redis-2.6.17/src/lzf_c.c:173-174 | patching the run header backwards closes the run, or removes it when it is empty |
| Lzf.PutMatch | redis-2.6.17/src/lzf_c.c:167-259 | a back reference of the full length of the match is emitted, and it extends the compressed form of the input read so far; refused exactly if four bytes are not left |
| Lzf.PutLiteral | redis-2.6.17/src/lzf_c.c:260-273 | one more byte joins the open run, which is closed at 32 |
| Lzf.SlotOfThree | redis-2.6.17/src/lzf_c.c:39-60 | the running hash finds the slot of the last three bytes, whatever it has seen before |
| Lzf.EnterLast | redis-2.6.17/src/lzf_c.c:219-237 | the last two places of a match are entered into the table, under their own slots |
| Lzf.Round | redis-2.6.17/src/lzf_c.c:142-273 | one round keeps the open run, the running hash and, for a run of one byte, the bound on what it takes |
| Lzf.LzfCompress | redis-2.6.17/src/lzf_c.c:99-294 | for arbitrary hash table contents: a positive result is the length of a compressed form of the input, at most n + (n+31)/32 bytes, every write inside the extra byte of the buffer; success is certain with n + n/32 + 4 bytes of room, and for 20 or more equal bytes with n - 4, in 8 + 3 (n+261)/264 bytes |
| Lzf.RoundTrip | redis-2.6.17/src/lzf_c.c:99-294 | whatever the hash table holds and whatever the room, every input of two bytes or more that was compressed comes back from the decompressor; and with room for the worst case it is compressed |
| Lzf.FormByExample | redis-2.6.17/src/lzf_d.c:64-146 | the five bytes of two literals and a short back reference decompress as the format says |
| DictModel.MaskIsModulo | redis-2.6.17/src/dict.c:695-717 | hash and size mask is the hash modulo the table size |
| DictModel.NextPowerOk | redis-2.6.17/src/dict.c:677-688 | sizes are powers of two, so masks are valid |
| DictModel.ExpandKeeps | redis-2.6.17/src/dict.c:210-235 | starting a new table keeps the invariant and the map |
| DictModel.ScanStops | redis-2.6.17/src/dict.c:258-261 | while entries are left, the assertion holds and the scan for a non-empty bucket stops inside the table |
| DictModel.RehashStepKeeps | redis-2.6.17/src/dict.c:243-278 | moving one bucket, or ending the rehashing, keeps the invariant and the map |
| DictModel.RehashKeeps | redis-2.6.17/src/dict.c:243-280 | so does any number of steps |
| DictModel.ExpandIfNeededKeeps | redis-2.6.17/src/dict.c:654-674 | growing on demand keeps the map and leaves a table to insert into |
| DictModel.KeyIndexFitsTarget | redis-2.6.17/src/dict.c:338-360 | an index other than -1 is that of the key's bucket in the table the insertion uses, and -1 means that the key is there |
| DictModel.AddRefines | redis-2.6.17/src/dict.c:314-360 | adding succeeds exactly for a new key and then extends the map by it |
| DictModel.FindRefines | redis-2.6.17/src/dict.c:480-499 | finding answers as the map does and leaves the map unchanged, migration included |
| DictModel.ReplaceRefines | redis-2.6.17/src/dict.c:367-392 | replacing updates the map and says whether the key was new |
| DictModel.DeleteRefines | redis-2.6.17/src/dict.c:401-440 | deleting removes the key from the map and says whether it was there |
| DictModel.RunRefines | redis-2.6.17/src/dict.c:210-499 | every sequence of operations, with rehashing anywhere in between, answers as one finite map and ends in it |
| DictModel.SizeIsCardinality | redis-2.6.17/src/dict.h:137 | the two counters add up to the number of keys in the map |
| DictGrowth.StepMoves | redis-2.6.17/src/dict.c:243-278 | a step moves at least one entry and loses none, or ends the rehashing when none is left |
| DictGrowth.RehashEnds | redis-2.6.17/src/dict.c:243-280 | dictRehash with more steps than entries to move answers that nothing is left |
| DictGrowth.OperationsMigrate | redis-2.6.17/src/dict.c:309-311 | without an iterator every find, add, replace and delete takes the rehashing at least a step further |
| DictGrowth.RunRoomy | redis-2.6.17/src/dict.c:314-674 | over every run without iterators and explicit resizing, with growing allowed, there is at most one entry more than there are buckets in the table being filled |
| DictIteration.ScanSkipsNothing | redis-2.6.17/src/dict.c:566-599 | the bucket scan passes over empty buckets only, across both tables |
| DictIteration.NextTakesOne | redis-2.6.17/src/dict.c:566-599 | the entry returned was ahead of the iterator and is not any more, and nothing else changes sides |
| DictIteration.AddKeepsAhead | redis-2.6.17/src/dict.c:309-360 | adding, with a rehashing that may start, leaves what is ahead of the iterator ahead of it |
| DictIteration.DropKeepsAhead | redis-2.6.17/src/dict.c:401-440 | so does deleting any other key |
| DictIteration.ExactlyOnce | redis-2.6.17/src/dict.c:559-610 | over every legal run, a key is returned at most once, even when it is deleted after that, unless it is added again; and when the walk has ended every key that was there at the start and was not deleted before its turn has been returned |
| DictHeap.LinkHead | redis-2.6.17/src/dict.c:348-359 | linking a node in front of a chain yields the chain with the entry in front |
| DictHeap.UnlinkAt | redis-2.6.17/src/dict.c:411-434 | unlinking a node, first or later, yields the chain without it |
| DictHeap.EmptyBucketInto | redis-2.6.17/src/dict.c:262-276 | the nodes of one bucket are relinked one by one into the other table, as the value model says |
| DictHeap.HashTable.DictExpand | redis-2.6.17/src/dict.c:210-235 | on the heap, the value model's expansion |
| DictHeap.HashTable.RehashOne | redis-2.6.17/src/dict.c:243-278 | on the heap, one step of the value model's rehashing |
| DictHeap.HashTable.DictRehash | redis-2.6.17/src/dict.c:243-280 | on the heap, n steps |
| DictHeap.HashTable.DictFind | redis-2.6.17/src/dict.c:480-499 | the node returned is the one that holds the key; with an iterator under way no node moves |
| DictHeap.HashTable.KeyIndexOf | redis-2.6.17/src/dict.c:695-717 | the value model's index, after growing if needed |
| DictHeap.HashTable.DictAdd | redis-2.6.17/src/dict.c:314-360 | the value model's addition; with an iterator under way every node stays in its bucket |
| DictHeap.HashTable.DictReplace | redis-2.6.17/src/dict.c:367-392 | the value model's replacement, likewise |
| DictHeap.HashTable.DictDelete | redis-2.6.17/src/dict.c:401-440 | the value model's deletion; with an iterator under way every other node stays in its bucket |
| DictHeap.SafeIterator.DictNext | redis-2.6.17/src/dict.c:566-599 | follows the saved pointer or scans on, exactly as the value model's iterator |
| DictHeap.SafeIterator.DeleteMeanwhile | redis-2.6.17/src/dict.c:401-440 | the saved pointer of an iterator outlives the deletion of any other entry |
| DictHeap.SafeIterator.FindMeanwhile | redis-2.6.17/src/dict.c:480-499 | and every lookup |
| DictHeap.SafeIterator.AddMeanwhile | redis-2.6.17/src/dict.c:314-360 | and every addition, a rehashing started by it included |
| DictHeap.SafeIterator.ReplaceMeanwhile | redis-2.6.17/src/dict.c:367-392 | and every replacement |
| DictHeap.SafeIterator.Release | redis-2.6.17/src/dict.c:601-610 | exactly a walk that was begun gives its count back, so migration can resume |
| DictHeap.Iterate | redis-2.6.17/src/dict.c:559-610 | a whole walk on the heap, with any legal calls in between: returned exactly once is every key that was there at the start and not deleted before its turn, at most once every other, a key added again after it was returned and deleted excepted; and the iterator is released |
| Decimal.ParsePrint | redis-2.6.17/src/util.c:220-305 | parsing what was printed gives the number back, for all 64-bit integers |
| Decimal.PrintParse | redis-2.6.17/src/util.c:244-305 | only the printed form of a number is accepted |
| Decimal.ScanPrint | redis-2.6.17/src/aof.c:514-524 | strtol reads a printed number up to the first byte that is no digit |
| Resp.CatAppendOnlyGenericCommand | redis-2.6.17/src/aof.c:322-345 | appends the encoding of the command, leaving what is before it alone |
| Resp.LoadEncoded | redis-2.6.17/src/aof.c:509-527 | the loader reads an encoded command back whole, whatever follows it |
| Resp.CommandStable | redis-2.6.17/src/aof.c:509-527 | a command that could be read is read the same after more has been appended |
| Resp.TornCommand | redis-2.6.17/src/aof.c:509-537 | an encoded command that is cut short anywhere is not taken for a command |
| Resp.MarksMatter | redis-2.6.17/src/aof.c:521-528 | nothing is taken for a command that lacks the asterisk or the first dollar sign |
| Resp.EncodedSet | redis-2.6.17/src/aof.c:322-345 | SET k v, byte by byte |
| Aof.ReplayConcat | redis-2.6.17/src/aof.c:495-547 | loading a log and then another is loading their concatenation |
| Aof.ReplayAppend | redis-2.6.17/src/aof.c:495-547 | appending an encoded command to a log runs that command after it |
| Aof.TornLog | redis-2.6.17/src/aof.c:509-573 | a log that is cut in the middle of its last command does not load |
| Aof.TextRuns | redis-2.6.17/src/aof.c:384-432 | what is fed for a command selects its database when needed and then runs it |
| Aof.FeedKeeps | redis-2.6.17/src/aof.c:384-432 | feeding both logs keeps the protocol invariant: each log replays to the data set it is said to amount to |
| Aof.DoneKeeps | redis-2.6.17/src/aof.c:1042-1176 | so does every way a rewrite can end |
| Aof.StepKeeps | redis-2.6.17/src/aof.c:165-209 | so does every event: writes, evictions and expiries, the steps of scripts, transactions, flushes, forks, switching on and off |
| Aof.RunKeeps | redis-2.6.17/src/aof.c:165-1176 | the invariant holds over every legal run |
| Aof.RunInStep | redis-2.6.17/src/aof.c:165-1176 | over every legal run that is repeatable (no script forks a rewrite after a change, and each script makes what it makes where it is logged), live log, and dump with rewrite buffer, both amount to the data set without what the script under way has done |
| Aof.CalmRepeats | redis-2.6.17/src/scripting.c:787-890 | a run is repeatable if no script forks a rewrite after a change, sees a key evicted or expire, or ends in another database than it began in |
| Aof.LogLoads | redis-2.6.17/src/aof.c:165-432 | in every legal run, while the file is on, file and buffer load, in the database last selected, and the file alone to what was last flushed |
| Aof.LiveLogLoads | redis-2.6.17/src/aof.c:165-432 | in every such run, while the file is on, file and buffer load to the data set |
| Aof.RecoversFromBoot | redis-2.6.17/src/aof.c:165-1176 | from its start on: every log that is on loads, and to the data set in every calm run |
| Aof.SwitchLosesNothing | redis-2.6.17/src/aof.c:1118-1155 | the switch to the rewritten file drops the live buffer, and the new file alone loads to what dump and rewrite buffer amount to, which is the data set when they are in step |
| Aof.FlushIsDurable | redis-2.6.17/src/aof.c:229-320 | after a flush that is not postponed the file alone loads to the data set |
| Aof.RewriteWhileOff | redis-2.6.17/src/aof.c:1113-1155 | in every legal run that forks a rewrite while the file is off and ends it with success, the file then loads to the data set at the fork |
| Aof.ScriptLogged | redis-2.6.17/src/redis.c:1693-1703 | after a script the log amounts to the script run on what it amounted to before, which is the data set exactly if the script has made the same |
| Aof.EvictedInScript | redis-2.6.17/src/redis.c:2514-2518 | a legal run, with an eviction between a read and a write of a script, in which that is wrong |
| Aof.SelectedInScript | redis-2.6.17/src/scripting.c:885 | a legal run, with a script that ends in another database, in which that is wrong |
| Aof.ForkInScript | redis-2.6.17/src/aof.c:955-1003 | a rewrite forked by a script, or a log switched on by it, ends in a file that holds the whole script run on what it had half done, which is the data set exactly if that makes the same |
| Aof.ForkedTwice | redis-2.6.17/src/aof.c:955-1003 | a legal run in which that file is wrong |
| Aof.FailureLosesNothing | redis-2.6.17/src/aof.c:1056-1176 | a rewrite that fails at any stage leaves the live file, buffer, cursor and state |
| Aof.StoppedFileLoads | redis-2.6.17/src/aof.c:165-188 | after switching off, the file loads to the data set exactly if no transaction was open and no script under way had changed it |
| Aof.StopInTransaction | redis-2.6.17/src/aof.c:165-188 | a legal run, for every start with the log on, that leaves a file that does not load |
| Aof.StopInScript | redis-2.6.17/src/aof.c:165-188 | a legal run that leaves a file without the script |
| Aof.BootOk | redis-2.6.17/src/aof.c:476-573 | a server that starts off, or on with the file loaded, satisfies the invariant, with its logs in step |
| RewriteBuffer.Buffer.Append | redis-2.6.17/src/aof.c:88-125 | the contents grow by exactly the bytes given, across block boundaries |
| RewriteBuffer.Buffer.Size | redis-2.6.17/src/aof.c:77-86 | counting whole blocks and the last one is the number of bytes |
| RewriteBuffer.Buffer.Write | redis-2.6.17/src/aof.c:131-151 | either all of the contents is appended to the file, or the answer is -1, which happens exactly when some block is written short |
| AofServer.AppendOnly.FeedAppendOnlyFile | redis-2.6.17/src/aof.c:384-432 | the fields change as the protocol's feed |
| AofServer.AppendOnly.Call | redis-2.6.17/src/redis.c:1661-1703 | the protocol's write: run, and then logged if the log is not off |
| AofServer.AppendOnly.DeleteExpired | redis-2.6.17/src/db.c:486-500 | a DEL for an evicted or expired key is logged at once, in the middle of a script, too |
| AofServer.AppendOnly.BeginScript | redis-2.6.17/src/scripting.c:855-856 | a script begins in the database of its client |
| AofServer.AppendOnly.ScriptCall | redis-2.6.17/src/scripting.c:293 | what a script calls changes the data set and is not logged |
| AofServer.AppendOnly.EndScript | redis-2.6.17/src/redis.c:1693-1703 | a script that has made a change is logged as a whole when it ends, for the database its client is in then |
| AofServer.AppendOnly.PropagateMulti | redis-2.6.17/src/multi.c:106-112 | a transaction is opened in the log |
| AofServer.AppendOnly.PropagateExec | redis-2.6.17/src/redis.c:1693-1703 | and closed |
| AofServer.AppendOnly.FlushAppendOnlyFile | redis-2.6.17/src/aof.c:229-320 | written, or postponed only while a sync is in progress and for less than two seconds; a short write ends the process with the file as it was |
| AofServer.AppendOnly.Stop | redis-2.6.17/src/aof.c:165-188 | the protocol's stop: flushed, no child, no buffer, no cursor |
| AofServer.AppendOnly.Start | redis-2.6.17/src/aof.c:192-209 | the protocol's start, waiting for a rewrite only if one was forked |
| AofServer.AppendOnly.RewriteBackground | redis-2.6.17/src/aof.c:955-1003 | one child at a time, and the cursor forgotten at the fork |
| AofServer.AppendOnly.RewriteDoneHandler | redis-2.6.17/src/aof.c:1042-1176 | the protocol's outcome, which is success exactly if the child, the open, all writes and the rename succeed |
| AofServer.LoadAppendOnlyFile | redis-2.6.17/src/aof.c:476-573 | loads every file to exactly what the specification says, errors included |
| AofDump.PendingHeader | redis-2.6.17/src/aof.c:640-646 | a header announces exactly the arguments that follow up to the next header |
| AofDump.RewriteItems | redis-2.6.17/src/aof.c:603-703 | the counting loop writes commands of at most 64 items that together hold all items in order |
| AofDump.KeyRuns | redis-2.6.17/src/aof.c:603-830 | replaying the commands of an object on an absent key rebuilds its value, for every size |
| AofDump.RewriteAppendOnlyFile | redis-2.6.17/src/aof.c:839-900 | writes the log of all non-empty databases |
| AofDump.DumpLoads | redis-2.6.17/src/aof.c:839-900 | that log loads to the data set it was written for |
| AofDump.RewriteIsLegal | redis-2.6.17/src/aof.c:955-975 | so the child does what the protocol expects of it |
| Requests.Client.ReadCount | redis-2.6.17/src/networking.c:848-890 | the count line is read whole or not at all; it is refused exactly if it is too long, no number or a number too large, and on a conforming stream never |
| Requests.Client.ReadLength | redis-2.6.17/src/networking.c:893-942 | the same for a length line, which needs a dollar sign and a number within the limit; large arguments are moved to the front |
| Requests.Client.ReadBody | redis-2.6.17/src/networking.c:944-972 | an argument is taken when all of it is there, and is the same argument whether copied or taken with its buffer |
| Requests.Client.ProcessMultibulkBuffer | redis-2.6.17/src/networking.c:848-982 | whatever part of a conforming stream the buffer holds, parsing resumes and stops without loss, and the size guards do not fire |
| Requests.Client.ProcessInputBuffer | redis-2.6.17/src/networking.c:984-1021 | every complete command in the buffer is executed, in order, and nothing else |
| Requests.Client.ReadQueryFromClient | redis-2.6.17/src/networking.c:1023-1081 | no read makes the buffer exceed its bounds or loses a command |
| Requests.Serve | redis-2.6.17/src/networking.c:848-1081 | however the bytes of a list of commands are cut into reads, exactly those commands are executed and the connection stays open |
| Sha1.SwapTurns | redis-2.6.17/src/sha1.c:35-39 | the masked rotations turn a little-endian word into the big-endian one |
| Sha1.FastIsF | redis-2.6.17/src/sha1.c:48-52 | the rewritten logical functions are those of FIPS 180-4 section 4.1.1 |
| Sha1.CircularWord | redis-2.6.17/src/sha1.c:44-45 | the 16-word circular schedule of section 6.1.3 is the 80-word schedule of section 6.1.2 |
| Sha1.R | redis-2.6.17/src/sha1.c:47-52 | a macro is one round of section 6.1.2, with the variables renamed instead of moved |
| Sha1.Transform | redis-2.6.17/src/sha1.c:57-114 | the state becomes the hash of one more block |
| Sha1.CountOk | redis-2.6.17/src/sha1.c:137-142 | two words with a carry found by comparison count bits modulo 2 to the 64 |
| Sha1.Context.Update | redis-2.6.17/src/sha1.c:133-155 | the context after an update is that of the longer message, wherever it was cut |
| Sha1.MaskedPosition | redis-2.6.17/src/sha1.c:187 | the mask of the padding loop keeps the number of whole bytes in the block, in bits |
| Sha1.Context.Final | redis-2.6.17/src/sha1.c:160-206 | the digest of section 6.1.2 of the padded message, section 5.1.1 |
| Sha1.DigestInPieces | redis-2.6.17/src/sha1.c:133-206 | any way of cutting a message into updates gives the digest of the whole |
| Sha1Vector.DigestOfAbc | redis-2.6.17/src/sha1.c:10-12 | the definition gives the documented digest of "abc" |
| Crc64Table.TableOk | redis-2.6.17/src/crc64.c:43-171 | each of the 256 entries is its index shifted eight times through the register |
| Crc64Table.PolyIsReversed | redis-2.6.17/src/crc64.c:6-7 | the polynomial of the register is the documented one with its bits reversed |
| Crc64.BitsIsShift8 | redis-2.6.17/src/crc64.c:1-11 | letting eight bits in one by one is letting the byte in at once |
| Crc64.TableStepIsBits | redis-2.6.17/src/crc64.c:173-181 | a table step is eight bitwise steps of the reflected polynomial |
| Crc64.Compute | redis-2.6.17/src/crc64.c:173-181 | the loop computes the bitwise CRC of a message of any length |
| Crc64.CheckValue | redis-2.6.17/src/crc64.c:11 | the documented check value is the checksum of "123456789" |
| Crc64.CrcConcat | redis-2.6.17/src/rio.h:76-87 | feeding a message in two parts gives the checksum of the whole |
| Crc64.StepInjective | redis-2.6.17/src/crc64.c:173-181 | a step is injective in the register and in the byte |
| Crc64.OneByteMatters | redis-2.6.17/src/crc64.c:173-181 | messages that differ in one byte have different checksums |
| Rio.Writer.Write | redis-2.6.17/src/rio.h:76-79 | output grows by the bytes given and the checksum stays that of all output |
| Rio.Reader.Read | redis-2.6.17/src/rio.h:81-87 | all bytes asked for or none, and the checksum stays that of all input read |
| RdbString.LoadSavedLen | redis-2.6.17/src/rdb.c:82-136 | a length below 2^32-1 is read back from any of its three forms, and consumes just its bytes |
| RdbString.IntegerReads | redis-2.6.17/src/rdb.c:141-191 | an integer in 8, 16 or 32 bits loads as the decimal it was |
| RdbString.IntegersFound | redis-2.6.17/src/rdb.c:141-173 | every integer of up to 32 bits is recognised in its decimal form and takes two, three or five bytes |
| RdbString.LzfReads | redis-2.6.17/src/rdb.c:212-266 | a compressed string loads as the string |
| RdbString.VerbatimReads | redis-2.6.17/src/rdb.c:290-300 | a verbatim string loads as the string |
| RdbString.SaveRawString | redis-2.6.17/src/rdb.c:270-300 | whichever form is chosen loads as the string and ends where it was written, and when which form is chosen; a string of equal bytes is compressed |
| RdbString.SaveLongLong | redis-2.6.17/src/rdb.c:303-319 | an integer object is saved as its decimal string would be |
| RdbString.ReadString | redis-2.6.17/src/rdb.c:333-359 | reads from a stream exactly what the specification loads |
| RdbFile.SaveObject | redis-2.6.17/src/rdb.c:478-594 | the bytes of a string, list, set or hash load as its value, whatever follows |
| RdbFile.SaveKeyValuePair | redis-2.6.17/src/rdb.c:611-627 | the bytes of a key take the loader to the store with the key, or with nothing when it has expired |
| RdbFile.RdbSave | redis-2.6.17/src/rdb.c:630-680 | the file loads, checksum test included, to all keys that survive, with value and expire time |
| RdbFile.RestoredExactly | redis-2.6.17/src/rdb.c:1062-1152 | a key is in the loaded database exactly if it has no expire time or one that had not come on saving nor, without a master, on loading, and nothing else is |
| RdbFile.RdbLoad | redis-2.6.17/src/rdb.c:1062-1179 | loads every file to exactly what the specification says, with the checksum fed read by read |
| RdbFile.RoundTrip | redis-2.6.17/src/rdb.c:630-1179 | what was saved and is loaded is every key that survives and nothing else, whatever the settings of either side |
| RdbIntegrity.LoopTakes | redis-2.6.17/src/rdb.c:1090-1152 | the entries of any file are read from a prefix that ends with them, whatever is behind it |
| RdbIntegrity.AcceptedHasSum | redis-2.6.17/src/rdb.c:1155-1167 | a file that is accepted with checksums on has a sum behind its entries |
| RdbIntegrity.SumMatters | redis-2.6.17/src/rdb.c:1155-1167 | changing one byte of the stored sum of a file that loads makes it fail, unless all eight become zero, and makes no difference with checksums off |
| RdbIntegrity.BodyMatters | redis-2.6.17/src/rdb.c:1155-1167 | changing one byte in front of the sum makes a file that loads fail, if its entries still end at the sum and it still claims a version with sums |
| RdbIntegrity.VersionsAccepted | redis-2.6.17/src/rdb.c:1079-1091 | only files of version 1 to 6 load |
| RdbIntegrity.SecondsOrMilliseconds | redis-2.6.17/src/rdb.c:1104-1120 | an expire time in seconds and the same in milliseconds load as the same time |
| RdbIntegrity.LengthsByExample | redis-2.6.17/src/rdb.h:43-56 | one length in each of the three forms |
| RdbIntegrity.FileByExample | redis-2.6.17/src/rdb.c:1062-1179 | a file with one key, byte by byte |
| Dump.CreateDumpPayload | redis-2.6.17/src/migrate.c:10-37 | the payload verifies, and its front loads as the object |
| Dump.SealVerifies | redis-2.6.17/src/migrate.c:10-60 | every sealed body verifies |
| Dump.OnlyThisVersion | redis-2.6.17/src/migrate.c:51-53 | a payload sealed for another version does not verify |
| Dump.OneByteChanged | redis-2.6.17/src/migrate.c:43-60 | changing exactly one byte of a payload that verifies, anywhere, gives one that does not |
| Dump.VerifyDumpPayload | redis-2.6.17/src/migrate.c:43-60 | answers exactly by length, version and checksum |
| Intset.ValueEncoding | redis-2.6.17/src/intset.c:45-52 | the narrowest width that holds the value |
| Intset.UnpackPack | redis-2.6.17/src/intset.c:54-94 | a packed value is read back, in every width |
| Intset.IntSet.Search | redis-2.6.17/src/intset.c:115-154 | the position of the value, or the one position where it can be inserted |
| Intset.WidenStep | redis-2.6.17/src/intset.c:170-173 | going back to front no element is overwritten before it has been read |
| Intset.IntSet.UpgradeAndAdd | redis-2.6.17/src/intset.c:157-180 | the same elements in the wider encoding, with the value in front or at the end |
| Intset.MoveSlots | redis-2.6.17/src/intset.c:182-201 | moving the tail moves each element whole |
| Intset.IntSet.Add | redis-2.6.17/src/intset.c:204-231 | the set with the value, still strictly sorted, and whether the value was new |
| Intset.IntSet.Remove | redis-2.6.17/src/intset.c:234-251 | the set without the value, and whether it was there |
| Intset.IntSet.Find | redis-2.6.17/src/intset.c:254-257 | membership in the set |
| Intset.RunOps | redis-2.6.17/src/intset.c:97-257 | every sequence of operations is answered as a mathematical set of 64-bit integers would answer |
| Transactions.WatchMirrors | redis-2.6.17/src/multi.c:202-229 | watching keeps the two tables mirror images, without duplicates |
| Transactions.UnwatchMirrors | redis-2.6.17/src/multi.c:233-257 | unwatching takes the client, and only it, off all keys, and leaves no empty list |
| Transactions.StepMirrors | redis-2.6.17/src/multi.c:56-323 | so does every event keep them mirror images |
| Transactions.UnwatchInQueue | redis-2.6.17/src/multi.c:140 | an UNWATCH in the queue of an EXEC that runs changes nothing, wherever in the queue it is |
| Transactions.ListIsHistory | redis-2.6.17/src/multi.c:202-257 | a key is in a client's list exactly if the history has a WATCH of it and nothing since that ends it |
| Transactions.DirtyIsHistory | redis-2.6.17/src/multi.c:261-323 | the flag is set exactly if the history has a touch, or flush of an existing key, of something then watched, and no EXEC, DISCARD or UNWATCH completed since the WATCH |
| Transactions.QueueIsHistory | redis-2.6.17/src/multi.c:56-112 | by the history: a client is in a transaction exactly if it sent MULTI since its connection or last completed EXEC or DISCARD, with an error exactly if it made one since, and its queue is what it has sent since, in order of arrival |
| Transactions.ExecIsHistory | redis-2.6.17/src/multi.c:114-173 | by the history: an EXEC executes all commands sent since the MULTI, in order, if nothing watched was touched and no error made, and nothing otherwise |
| Transactions.DbIsHistory | redis-2.6.17/src/db.c:257-269 | a client is in the database it selected last, and in 0 before that |
| TransactionServer.Server.WatchForKey | redis-2.6.17/src/multi.c:202-229 | on client objects, the specified watch |
| TransactionServer.Server.UnwatchAllKeys | redis-2.6.17/src/multi.c:233-257 | on client objects, the specified unwatch; its assertion never fails |
| TransactionServer.Server.TouchWatchedKey | redis-2.6.17/src/multi.c:261-277 | flags exactly the clients that watch the key |
| TransactionServer.Server.TouchOnFlush | redis-2.6.17/src/multi.c:284-305 | flags exactly the clients that watch a key that exists in the flushed database |
| TransactionServer.Server.WatchCommand | redis-2.6.17/src/multi.c:307-317 | watches all keys given, in order, and is refused inside a transaction |
| TransactionServer.Server.QueueMultiCommand | redis-2.6.17/src/multi.c:56-70 | the command joins the end of the queue and nothing else changes |
| TransactionServer.Server.DiscardTransaction | redis-2.6.17/src/multi.c:72-77 | queue, transaction and both dirty flags are gone, and nothing is watched |
| TransactionServer.Server.FreeClient | redis-2.6.17/src/networking.c:616 | a client that leaves is under no key any more |
| TransactionServer.Server.ExecCommand | redis-2.6.17/src/multi.c:114-173 | runs the whole queue in order when neither dirty flag is set, and nothing otherwise |
| TransactionServer.Server.Handle | redis-2.6.17/src/multi.c:56-323 | on client objects, every event does what it does in the model |
| TransactionServer.Play | redis-2.6.17/src/multi.c:56-323 | over every run the server has the tables of the model and has executed what the model executes |
| TransactionServer.Server.DiscardCommand | redis-2.6.17/src/multi.c:95-102 | the specified discard, refused outside a transaction |
| TransactionServer.Server.UnwatchCommand | redis-2.6.17/src/multi.c:319-323 | nothing watched, and the flag cleared |
| Replies.BufferGrows | redis-2.6.17/src/networking.c:156-171 | adding to the buffer adds at the end of what is unsent, wherever the cursor is |
| Replies.ListGrows | redis-2.6.17/src/networking.c:173-264 | so does adding to the list, glued to the tail or as a node, also when the tail is being sent |
| Replies.Client.AddReplyToBuffer | redis-2.6.17/src/networking.c:156-171 | accepted exactly if nothing is queued behind the buffer and it has room |
| Replies.Client.AddReplyToList | redis-2.6.17/src/networking.c:173-264 | the bytes are accepted at the end |
| Replies.Client.AddReply | redis-2.6.17/src/networking.c:271-305 | the bytes of the object are accepted at the end, in either encoding |
| Replies.Client.SendReply | redis-2.6.17/src/networking.c:701-783 | whatever the kernel takes, what has been sent is a prefix of what was accepted and only grows; a willing kernel drains the queue, unless more than 64 KiB went out in one event |
| Replies.Converse | redis-2.6.17/src/networking.c:156-783 | for any interleaving of replies and writes, sent and unsent bytes together are all replies in order |
| Bitops.SwarCounts | redis-2.6.17/src/bitops.c:68-88 | the parallel steps count the bits of a word |
| Bitops.TableCounts | redis-2.6.17/src/bitops.c:65 | each of the 256 table entries is the number of bits of its index |
| Bitops.Popcount | redis-2.6.17/src/bitops.c:61-94 | the sum of all bits, for every length |
| Bitops.WordIsBytes | redis-2.6.17/src/bitops.c:262-305 | an operation on words is the operation on each of their bytes |
| Bitops.FastPath | redis-2.6.17/src/bitops.c:246-306 | every byte it passes is the combination of all sources |
| Bitops.Bitop | redis-2.6.17/src/bitops.c:211-322 | as long as the longest source; GETBIT of the result answers that all sources have the bit, that some has it, that an odd number have it, or that the one has it not, where a source that has ended has no bits; whichever path wrote it |
| Bitops.SetBitThenGet | redis-2.6.17/src/bitops.c:143-183 | setting a bit changes that bit and no other, grows the string just as far as needed, and answers with the old bit |
| Bitops.StringValue.SetBitCommand | redis-2.6.17/src/bitops.c:139-157 | the in-place update is the specified one |
| Bitops.CountIsOnes | redis-2.6.17/src/bitops.c:61-94 | the count is the number of offsets at which GETBIT answers one |
| Bitops.MaskIsShift | redis-2.6.17/src/bitops.c:148-149 | the mask of an offset is one shifted by seven less the offset's place in its byte |
| Bitops.LowBits | redis-2.6.17/src/bitops.c:174-175 | mask and shift of an offset are its remainder and quotient by eight |

## Left out

- Aof.LiveLogLoads: the translation of EXPIRE into PEXPIREAT is not modelled, nor is the second clock reading of a rewrite.
- AofServer.AppendOnly.Call: what a command or a script does is a function of the data set, its database and its arguments as they are logged; a key that expires between two reads of one command is not covered.
- AofServer.AppendOnly.FlushAppendOnlyFile: the truncation after a short write is taken to succeed; fsync policies beyond the postponement are not modelled.
- AofServer.LoadAppendOnlyFile: unknown command names, wrong arities of loaded commands, and the special return value for an empty file are not modelled.
- AofDump.RewriteAppendOnlyFile: all writes succeed; keys have no expire time; sorted sets are not covered.
- AofServer.AppendOnly.Start: a data set replaced as a whole by replication is not an event of the model.
- Lzf.LzfCompress: an input of one byte is excluded because the code reads behind it; the input is assumed to lie at an address of at least 8192, where pointer differences cannot wrap.
- PartialSort.PQSort: the choice between word-wise and byte-wise swapping is not modelled; elements are array slots.
- DictModel.NextPowerOk: sizes near the limit of a long are not modelled; sizes are unbounded.
- DictHeap.HashTable.DictAdd: a table that was not allocated is an array of length zero; the value that dictAddRaw leaves unset is set at once.
- DictHeap.HashTable.DictDelete: memory is not freed, keys and values are values without reference counts.
- Requests.Serve: streams of commands in the multi bulk format within the limits of the protocol; for other input only the error branches are modelled. Inline requests, QUIT, blocked clients (whose buffer may grow past the bounds proved here) and clients that are masters are left out.
- Replies.Client.SendReply: no deferred lengths, masters, closing after the reply or accounting of reply bytes; shared reply objects are values.
- RdbFile.SaveObject: sorted sets and the ziplist, intset and zipmap encodings are not modelled.
- RdbFile.RdbLoad: a hash with repeated fields, which no save writes, is loaded with the last value.
- RdbFile.RdbSave: all writes succeed; the exchange with the old file is not modelled.
- Dump.CreateDumpPayload: on a little-endian machine, as all byte orders are in the model.
- Sha1.Context.Final: the wiping of the context is not modelled; FIPS 180-4 defines digests for messages below 2^61 bytes, and beyond that the model follows the code's wrapping counter.
- Sha1.Context.Update: each piece is at most 2^32-64 bytes long, so that the sum of position and length does not wrap.
- Intset.IntSet.Add: fewer than 2^28 elements, so that byte sizes fit 32 bits.
- TransactionServer.Server.ExecCommand: what a queued command does is the list of keys it touches, so a SELECT in the queue is an event after it; replies and monitors are not modelled.
- Bitops.Bitop: parsing of the operation and storing of the result are not modelled; memory is aligned as the code assumes.
- Random keys, table shrinking, unsafe iterators and their fingerprints, the quality of hash functions.
- Sockets, event loops, replication, persistence scheduling, configuration, the Lua interpreter, pub/sub, memory allocation.
