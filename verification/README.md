# Verified model of the tw server framework

This project models four components of the `tw` framework and proves what they
promise. `dafny verify dfyconfig.toml` checks all of it.

* **Byte buffer** (`Blocks`, `Flat`, `ByteArray`, `Words`, `Records`, `WireForm`).
  The linked list of equal blocks with its cursor pointer refines one flat byte sequence
  with a position. On top of it sit the typed members: fixed-width integers in network
  order, unsigned varints, length-prefixed strings, and the scatter/gather views.
  The growth formula is kept as written; `Fits` is the exact condition under which it
  leaves enough room.
* **Timers** (`Fronts`, `Timers`). The ordered set keyed by deadlines that change, the
  life cycle of a timer, and the one-bit flag that limits wake-ups of the poller. The
  clock is an input. `Fronts` is the protocol behind the flag as a system of steps: a
  region under the lock is one step, and the call of `addTimerFront` behind the unlock
  is another, with anything in between. Every method of the timer manager takes one step
  of it.
* **Scheduler and event manager** (`Counting`, `EventTable`, `IoManager`, `TaskList`,
  `Scheduling`, `Discipline`, `SchedulerTheorems`, `Accounting`, `Shutdown`).
  `EventTable` is the table of registrations as a value and `IoManager` the context
  objects proved to implement it.
  `Scheduling` is the system of steps: every region under a lock and every write of a
  fiber's state is one step, the kernel may refuse any change, and a run is any
  interleaving. Runs are lists of actions; the theorems hold for all of them.
* **HTTP** (`HttpText`, `HttpChars`, `HttpStatus`, `HttpMessage`, `Callbacks`,
  `ResponseAutomaton`, `ResponseReader`, `StatusReader`, `HeaderCase`, `ResponseParser`,
  `PrintedText`, `ResponseRoundTrip`, `HttpMethods`, `RequestMessage`,
  `RequestAutomaton`, `RequestReader`, `RequestParser`, `RequestRoundTrip`, `Spelling`,
  `Stream`, `Session`). Both generated automata by their state numbers, the heads of
  requests and responses against plain readers that know no states, both printers,
  print-then-parse round trips, and the receiving of a request with its body over a
  stream that cuts as it likes.

Five results say where the code does less than its shape suggests, each with the
exact condition.

* `GrowthSufficesIff` is the condition under which growing leaves enough room, and
  `GrowthCanFallShort` a request that it under-serves.
* `RequestRestored` shows that a printed request is read back exactly if its method is
  not `M-SEARCH`, whose hyphen the method states do not take, and that its close flag
  comes back exactly if it was set.
* `ToldTwice` is an interleaving in which the poller is told twice in one round; whatever
  the threads do, it is told at most once exactly if no call was owed when the round
  began (`AtMostOneIff`).
* `ReadyIsLost` is a run in which a fiber made for a callback sets itself to `READY` and
  is never woken again. Over any run, every fiber that waits has its one wake-up exactly
  if no fiber that ran for a callback left in `READY` (`AllWokenIff`).
* `UncleanShutdown` is a run in which both workers leave their loops while a timer is
  armed: a fiber in `READY` is counted out before it is put back. From the moment when
  the last idle fiber has ended nothing can be left exactly if no such fiber is owed
  (`ShutdownIsCleanIff`); it never is if no fiber sets itself to `READY`, or with one
  worker (`NeverOwing`).

How the objects map to the source: the deadline operations of `Timer` lock the
manager and work on its set, so they are methods of `TimerManager` here. Ghost fields
(`store`, `history`, `trace`, `fired` and others) record what the theorems talk
about. A header map is a map from the name in lower case to the spelling first used
and the value; the printers take any order that lists each entry once. `Wrappers` holds
the option type the modules share.

## Model

| member | source | states |
|---|---|---|
| Flat.GrowthSufficesIff | tw/bytearray.cc:535-561 | the growth formula leaves room for the request if and only if `Fits`, and never adds a whole spare block |
| Flat.GrowthCanFallShort | tw/bytearray.cc:543-544 | a request that growing under-serves: blocks of 4, 3 bytes left, 5 wanted |
| Flat.FitsAlways | tw/bytearray.cc:535-544 | requests that always fit: one-byte blocks, nothing left, enough left, or one byte |
| Flat.AllowedIff | tw/bytearray.cc:414-561 | a list of operations is allowed exactly if along its run every write fits and no empty string is read at the capacity |
| Flat.SizeIsFurthest | tw/bytearray.cc:414-483 | over any run of write, read, setPosition and clear, the size is the furthest position since the start or the last clear |
| Blocks.FlattenSlice | tw/bytearray.cc:457-483 | bytes inside one block are the flat bytes at the block's start plus the offset |
| Blocks.FlattenSplice | tw/bytearray.cc:426-456 | overwriting inside one block overwrites exactly the same flat bytes |
| ByteArrays.ByteArray.constructor | tw/bytearray.cc:27-34 | one block, position and size 0 |
| ByteArrays.ByteArray.CursorIsQuotient | tw/bytearray.cc:457-483 | in every valid state the cursor is block position/base, and null exactly at the capacity |
| ByteArrays.ByteArray.AddCapacity | tw/bytearray.cc:535-561 | appends exactly the blocks of the formula, keeps all bytes, and aims a null cursor at the first new block |
| ByteArrays.ByteArray.Write | tw/bytearray.cc:426-456 | under `Fits` the bytes from the position on become the data, every other old byte stays, the size follows the position |
| ByteArrays.ByteArray.WriteLoop | tw/bytearray.cc:430-455 | the loop over blocks splices the data into the flat bytes at the position |
| ByteArrays.ByteArray.Read | tw/bytearray.cc:457-483 | returns exactly the next bytes and moves past them, or throws and changes nothing if more than the readable bytes are asked for |
| ByteArrays.ByteArray.ReadLoop | tw/bytearray.cc:461-482 | the loop over blocks collects the flat bytes from the position on |
| ByteArrays.ByteArray.SetPosition | tw/bytearray.cc:518-534 | moves the position, the size and the cursor, or throws exactly beyond the capacity |
| ByteArrays.ByteArray.Clear | tw/bytearray.cc:414-425 | back to the first block, position and size 0 |
| ByteArrays.ByteArray.GetReadBuffers | tw/bytearray.cc:327-353 | the pieces lie side by side from the position on and hold exactly the next min(len, readable) bytes |
| ByteArrays.ByteArray.GatheredIs | tw/bytearray.cc:327-353 | pieces that lie side by side hold the flat bytes under them, in order |
| ByteArrays.ByteArray.PiecesDisjoint | tw/bytearray.cc:386-413 | no two pieces share a byte |
| ByteArrays.ByteArray.GetWriteBuffers | tw/bytearray.cc:386-413 | makes room and returns pieces that cover [position, position+len) |
| ByteArrays.ByteArray.RunOps | tw/bytearray.cc:414-561 | any run of write, read, setPosition and clear on the object is a run of the flat state that ends in the object's own; its size is the furthest position, and the cursor is right after every run |
| ByteArrays.ByteArray.FillAndMove | example/echo_server.cc:22-37 | filling the pieces in order and moving the position splices the bytes at the position |
| ByteArrays.ByteArray.Receive | example/echo_server.cc:22-37 | asking for write views, filling them and moving the position has the effect of a write |
| Words.SwapIsBigEndian | tw/bytearray.cc:562-567 | storing a swapped word puts its bytes down in network order |
| Words.SwapTwice | tw/bytearray.cc:562-567 | the byte swap is its own inverse |
| Words.LoadStored | tw/bytearray.cc:148-193 | loading network bytes and swapping gives the word back |
| Words.WordRoundTrip | tw/bytearray.cc:43-72 | signed values and their words match one to one |
| Words.ZigzagRoundTrip | tw/bytearray.cc:73-92 | zigzag counts 0, -1, 1, -2, ..., and decoding undoes encoding on every even word size |
| Words.ZigzagDecodeRoundTrip | tw/bytearray.cc:73-92 | encoding undoes decoding on every even word size |
| Words.VarintLength | tw/bytearray.cc:96-118 | the encoding takes at most k groups if and only if the value is below 128 to the k, so it is the shortest |
| Words.VarintFitsBuffer | tw/bytearray.cc:96-118 | 32-bit values take at most 5 groups and 64-bit values at most 10 |
| Words.VarintRoundTrip | tw/bytearray.cc:197-225 | the decoder takes exactly the encoding off any longer stream, and it stands for the value |
| Records.RecordRoundTrip | tw/bytearray.cc:43-265 | decoding the encoding of a record, whatever follows, gives the record and its length |
| Records.NumberImage | tw/bytearray.cc:96-118 | the loop that fills the temporary buffer produces the encoding |
| Records.ReadGroups | tw/bytearray.cc:197-225 | the byte-by-byte reading loop decodes the same number from the unread bytes, or consumes them all and throws |
| Records.WriteRecord | tw/bytearray.cc:129-144 | a typed write puts down exactly the record's encoding |
| Records.ReadRecord | tw/bytearray.cc:238-265 | a typed read decodes the unread bytes and moves past them, or throws with the position behind what it had consumed |
| Records.UnitBlocksFit | tw/bytearray.cc:543-544 | with one-byte blocks every list of writes fits |
| Records.WriteSeekRead | tw/bytearray.cc:43-265 | writing any list of mixed records, seeking back and reading the same types returns the list and ends at the same position |
| Records.UnitBlocksUnconditional | tw/bytearray.cc:43-265 | with one-byte blocks and no empty strings the round trip asks nothing of the list |
| WireForm.BigEndianAt | tw/bytearray.cc:43-72 | byte i of an n-byte word in network order is the digit of weight 256 to the n-1-i |
| WireForm.VarintAt | tw/bytearray.cc:96-118 | byte i of a varint holds the digit of weight 128 to the i, with the top bit on all bytes but the last |
| WireForm.NumberForm | tw/bytearray.cc:43-118 | fixed-width integers go out in two's complement and network order, varints in groups |
| WireForm.TextForm | tw/bytearray.cc:129-144 | the four string members write the length in 2, 4 or 8 bytes in network order or in groups, and then the characters |
| WireForm.LengthReads | tw/bytearray.cc:238-265 | a string's length can be read back as the number it is written as, whatever follows |
| WireForm.PrefixLength | tw/bytearray.cc:141-144 | a varint prefix takes at most k bytes exactly if the string is shorter than 128 to the k |
| WireForm.VarDecoded | tw/bytearray.cc:197-225 | reading a varint takes at most 5 or 10 bytes, stops behind the first without its top bit, cuts the value to the word, and throws exactly if the bytes run out |
| WireForm.FixedDecoded | tw/bytearray.cc:148-193 | reading a fixed-width integer throws exactly if its bytes run out |
| Timers.DeadlineWrapsIff | tw/timer.cc:31 | the deadline is at or after the period exactly if the 64-bit sum does not wrap |
| Timers.LessIsStrictOrder | tw/timer.cc:6-23 | the comparator is a strict total order that only ties equal deadlines at equal addresses |
| Timers.TimerManager.Find | tw/timer.cc:40 | the lookup finds a member and nothing else |
| Fronts.NoMissedFront | tw/timer.cc:103-129 | in every interleaving of locked regions and calls: if something armed is earlier than what the poller saw, exactly one call was decided in this round, and it has been made or is still owed; no round decides more than one |
| Fronts.AtMostOneInRound | tw/timer.cc:103-129 | a round decides at most one call of its own, so it makes more than one only with calls left over from earlier rounds |
| Fronts.AtMostOneIff | tw/timer.cc:103-118 | whatever happens until the next getNextTime, the poller is told at most once exactly if no call is owed when the round begins |
| Fronts.ToldTwice | tw/timer.cc:103-112 | an interleaving that tells the poller twice in one round, and the window in which an earlier timer is armed and nobody has called yet |
| Timers.TimerManager.NoMissedFront | tw/timer.cc:103-129 | the same of the object, whose state is where its own steps lead: an armed timer earlier than what the poller saw has exactly one call made or owed in this round |
| Timers.TimerManager.LifeCycle | tw/timer.cc:36-81 | in the set exactly while the callback is there; a one-shot timer is fired or cancelled, never both, never twice; the deadline never drops below the period |
| Timers.TimerManager.Arm | tw/timer.cc:103-108 | the region under the lock: inserts in order and decides a call exactly if the timer became the first and the flag was clear |
| Timers.TimerManager.AddTimerFront | tw/timer.cc:109-112 | the call behind the unlock, for a round in which one was decided and not yet made |
| Timers.TimerManager.AddTimer | tw/timer.cc:87-108 | arms a new timer up to the unlock, even if the clock was read before the lock |
| Timers.TimerManager.Cancel | tw/timer.cc:36-45 | cancels exactly an armed timer; the lookup never misses |
| Timers.TimerManager.Refresh | tw/timer.cc:46-59 | restarts the period; the deadline only moves back, so no call is needed |
| Timers.TimerManager.Reset | tw/timer.cc:60-80 | new period from now, or from exactly the same start |
| Timers.TimerManager.GetNextTime | tw/timer.cc:115-129 | opens a round; the time to the earliest deadline, 0 if it has passed, and the largest 64-bit word, at least every other answer, if nothing is armed |
| Timers.TimerManager.ListExpired | tw/timer.cc:130-161 | hands out exactly the callbacks due, each once, in deadline order, whatever the probe's address; the set keeps the rest and the re-armed ones, all later than now for positive periods |
| Timers.TimerManager.Rearm | tw/timer.cc:149-160 | the loop over the timers taken out |
| EventTable.ReserveSuffices | tw/iomanager.cc:83-91 | growing to half again the descriptor always makes room for it |
| EventTable.PerformConserves | tw/iomanager.cc:80-180 | one addEvent or cancelEvent, accepted or refused by the kernel, keeps the conservation invariant |
| EventTable.EventsConserved | tw/iomanager.cc:80-180 | over any run the pending count is the number of set event bits, and every registration is in exactly one place with its own fiber or callback |
| EventTable.HandedOnce | tw/iomanager.cc:26-38 | no registration is handed to the task list twice, whether readiness or a timer comes first |
| EventTable.PendingIsBits | tw/iomanager.cc:111-112 | the pending count is the number of event bits set over all descriptors |
| IoManagers.FdContext.Arm | tw/iomanager.cc:111-121 | sets the event bit and fills an empty context with the callback if there is one, else with the running fiber |
| IoManagers.FdContext.TriggerEvent | tw/iomanager.cc:26-38 | clears the bit, hands out who waited, leaves the context empty |
| IoManagers.IoManager.constructor | tw/iomanager.cc:40-56 | starts with an empty table |
| IoManagers.IoManager.Resize | tw/iomanager.cc:190-201 | contexts that exist are kept, new ones are empty |
| IoManagers.IoManager.Control | tw/iomanager.cc:99-104 | the operation asked of the kernel always fits what it watches |
| IoManagers.IoManager.AddEvent | tw/iomanager.cc:80-123 | does to the objects what the table does; accepted, the context holds the callback or the running fiber and the count is one more; refused, nothing is registered |
| IoManagers.IoManager.CancelEvent | tw/iomanager.cc:153-180 | succeeds exactly if the bit is set and the kernel accepts; then who waited is the next task, and else nothing changes |
| IoManagers.IoManager.AddThenCancel | tw/iomanager.cc:80-180 | a registration that is triggered puts exactly its callback on the task list, or the running fiber if it had none |
| TaskLists.TaskList.ScheduleNoLock | tw/scheduler.h:48-56 | appends unless empty; asks for a wake-up exactly if the list was empty |
| TaskLists.TaskList.ScheduleRange | tw/scheduler.h:33-46 | appends all callbacks of a range in order as one step |
| TaskLists.TaskList.PickTask | tw/scheduler.cc:89-103 | takes the first task that is not a fiber still in EXEC, and counts the worker active only then |
| Scheduling.FirstRunnable | tw/scheduler.cc:91-102 | everything in front of the answer is a fiber in EXEC, and the answer is not |
| Discipline.PickKeeps | tw/scheduler.cc:89-103 | taking a task keeps the token discipline |
| Discipline.DispatchKeeps | tw/scheduler.cc:104-123 | switching to a fiber or a callback keeps it |
| Discipline.SettleKeeps | tw/scheduler.cc:108-113 | writing HOLD behind a suspension keeps it |
| Discipline.Suspend | tw/hook.cc:101-114 | a suspension that makes exactly one wake token keeps it |
| Discipline.SuspendIoKeeps | tw/hook.cc:87-121 | so does waiting for an event, registered or refused |
| Discipline.SuspendSleepKeeps | tw/hook.cc:131-144 | so does sleeping, whose timer holds the token |
| Discipline.YieldReadyKeeps | tw/scheduler.cc:108-133 | so does leaving in READY, whose token its worker owes, or nobody if it ran for a callback |
| Discipline.FinishKeeps | tw/fiber.cc:114-139 | so does the end of a fiber |
| Discipline.CancelEventKeeps | tw/iomanager.cc:153-180 | a triggered registration moves its token to the task list |
| Discipline.ExpireKeeps | tw/iomanager.cc:239-244 | taking any set of due timers keeps every token |
| Discipline.StepKeeps | tw/scheduler.cc:68-151 | every step of the system keeps the discipline |
| Discipline.RunKeeps | tw/scheduler.cc:68-151 | every run keeps the discipline |
| SchedulerTheorems.Exclusion | tw/scheduler.cc:89-133 | in every interleaving no fiber is on two workers |
| SchedulerTheorems.ExactlyOneToken | tw/hook.cc:101-142 | in every interleaving a waiting fiber has exactly one wake-up on its way exactly if it never left in READY while it ran for a callback; if it did, it waits and has none; a running or ended fiber has none |
| SchedulerTheorems.AllWokenIff | tw/scheduler.cc:108-133 | over any run no waiting fiber lacks its wake-up exactly if no fiber that ran for a callback left in READY |
| SchedulerTheorems.ReadyIsLost | tw/scheduler.cc:114-133 | a run from the start in which a callback leaves in READY: its fiber ends in HOLD without a wake-up |
| SchedulerTheorems.NoLostWakeUp | tw/scheduler.cc:89-113 | a token queued while its fiber is still in EXEC stays queued until a worker takes it in HOLD |
| SchedulerTheorems.FirstComeFirstServed | tw/scheduler.cc:90-102 | over any run the callbacks picked followed by those queued are those scheduled, in order; every pick takes the first task that is not a fiber in EXEC, and none only if there is no such task |
| SchedulerTheorems.PutInOrder | tw/scheduler.h:48-56 | over any run the callbacks picked and those still queued are those that the actions put on the list, in order, read off the actions themselves |
| Accounting.DueInOrder | tw/timer.cc:144-158 | the callbacks handed over are those of the timers due, each once, in the order of the list |
| Accounting.KeptInOrder | tw/timer.cc:148-160 | the timers that stay are those not due and the recurring ones, in the order of the list |
| Accounting.CallbacksAccounted | tw/iomanager.cc:239-244 | over any run and for every callback: as often as it was asked for by a call, an accepted registration or a due timer that carries it, it was put on the task list, is in a poller's hands, or still waits for its event |
| Accounting.TimersAccounted | tw/timer.cc:36-161 | over any run, a timer armed and neither cancelled nor gone off for good is still armed |
| Shutdown.CleanShutdown | tw/scheduler.cc:159-163 | if nothing is scheduled from outside after a stop, and no fiber is owed when the last idle fiber ends, once all workers have left no task, active worker, timer or pending event is left and every fiber has ended but those lost in READY; the counts are never negative |
| Shutdown.ShutdownStep | tw/iomanager.cc:284-289 | the stopping check holds for good once every idle fiber has ended and no fiber is owed |
| Shutdown.ShutdownIsCleanIff | tw/scheduler.cc:104-109 | once every idle fiber has ended, all continuations without outside scheduling leave nothing behind exactly if no worker owes a fiber in READY to the list |
| Shutdown.UncleanShutdown | tw/scheduler.cc:104-109 | a run of two workers that both leave while a timer is armed |
| Shutdown.NeverOwing | tw/scheduler.cc:104-113 | no fiber is owed at that moment if none sets itself to READY, or with one worker |
| HttpText.DecimalRoundTrip | tw/http/http.cc:145 | printing and reading a number gives the number |
| HttpText.ToIntIs | tw/http/httpclient_parser.rl.cc:2248-2343 | a number below 2^31 is read as it is, one beyond a 64-bit long as -1, and one between as its low 32 bits |
| HttpChars.TokenClass | tw/http/httpclient_parser.rl.cc:641-672 | the characters of a header name are the token characters of section 3.2.6 of RFC 7230, listed one by one |
| HttpChars.LowerPairs | tw/http/http.cc:54-56 | the comparison pairs the 26 capitals with their letters and changes nothing else |
| HttpChars.BlankClass | tw/http/httpclient_parser.rl.cc:1083-1121 | what is skipped in front of a value: the space and codes 9, 11 and 12 |
| HttpChars.MethodClass | tw/http/http11_parser.rl.cc:113-152 | the characters of a method are the digits and the capitals |
| HttpChars.PathClass | tw/http/http11_parser.rl.cc:734-1169 | the characters of a path that stand for themselves, listed; a query or fragment may also hold question marks |
| HttpChars.NameClass | tw/http/http11_parser.rl.cc:369-630 | a request's header names may hold token characters and control characters |
| HeaderCase.CaseIgnored | tw/http/httpclient_parser.rl.cc:641-1135 | two heads that differ at most in the case of letters in header names: the automaton finishes on both or neither, at the same place, with the same close, chunked, length and values |
| ResponseReader.NameStep | tw/http/httpclient_parser.rl.cc:810-1083 | the name states are the nodes of the three keyword tries |
| ResponseReader.ColonStep | tw/http/httpclient_parser.rl.cc:1083-1121 | at the colon the trie knows which keyword the name is, ignoring case |
| ResponseReader.TextStep | tw/http/httpclient_parser.rl.cc:2252-2330 | the value states follow close, chunked and all-digit values |
| ResponseReader.LineRun | tw/http/httpclient_parser.rl.cc:641-1135 | one line: read by the reader, the automaton is behind it; not read, it never finishes |
| ResponseReader.HeadRun | tw/http/httpclient_parser.rl.cc:641-3158 | the automaton finishes exactly when the line reader finds a whole head; it reports the lines in order, close, chunked and the last length |
| StatusReader.StatusRun | tw/http/httpclient_parser.rl.cc:461-600 | the status line states get behind exactly the lines of the protocol name, digits, dot, digits, space, digits, space, reason and line break, and report them |
| StatusReader.ResponseRun | tw/http/httpclient_parser.rl.cc:96-3158 | the automaton finishes on a response exactly if a plain reader reads its status line and all its header lines |
| PrintedText.LinesReported | tw/http/httpclient_parser.rl.cc:641-1135 | lines of tokens, colon, blanks, value and line break are reported exactly, in order |
| ResponseParser.ExecBounded | tw/http/httpclient_parser.rl.cc:3289-3307 | marks and lengths stay inside the buffer |
| ResponseParser.ClientParser.Execute | tw/http/httpclient_parser.rl.cc:96-116 | the loop computes the run of the automaton and makes its callbacks; the closing checks fail only on an empty buffer |
| ResponseParser.ClientParser.ExecuteAndShift | tw/http/http_parser.cc:159-166 | what was parsed is cut off the front of the buffer |
| ResponseParser.ClientParser.Finish | tw/http/httpclient_parser.rl.cc:3310-3331 | error, finished or more to come |
| ResponseParser.ErrorFreeIff | tw/http/http_parser.cc:102-137 | there is no error exactly if every version reported is one of the two and no field has an empty name |
| HttpMessage.PrintMap | tw/http/http.cc:138-143 | the loop prints every header but the connection header |
| HttpStatus.StatusPrinted | tw/http/http.cc:43-53 | every standard text, and the one for an unknown code, fits on the status line |
| HttpMessage.DumpResponse | tw/http/http.cc:177-202 | prints the status line with the reason or the standard text, the headers, the connection header, the length of a body that is not empty, and the body |
| HttpMessage.MapLinesSet | tw/http/http.cc:169-171 | setting the printed headers one by one rebuilds the map |
| HttpMessage.SetHeaderTwice | tw/http/http.cc:169-171 | names that differ in case are one header: the first spelling and the last value stay |
| HttpMessage.ConnectionLast | tw/http/http.cc:187-200 | reading the lines of a response gives its map with connection and content-length rewritten |
| HttpMessage.ConnectionFirst | tw/http/http.cc:137-149 | the same for the order of a request |
| ResponseRoundTrip.StatusRun | tw/http/httpclient_parser.rl.cc:461-600 | the status line states report version, status and reason |
| ResponseRoundTrip.CallbacksRestore | tw/http/http_parser.cc:102-137 | the callbacks rebuild the response |
| ResponseRoundTrip.ResponseRestored | tw/http/http.cc:177-202 | parsing a printed response finishes in state 120, restores version, status, the reason as printed and headers, agrees on close and content length, and leaves exactly the body |
| HttpMethods.NoneStarts | tw/http/http.h:10-52 | no method name starts another |
| HttpMethods.NameRecognised | tw/http/http.cc:15-23 | the prefix comparison in map order recognises every name as its own method |
| HttpMethods.FirstMethodIs | tw/http/http.cc:15-23 | a text is recognised as a method whose name it starts with, and as none only if there is none |
| Callbacks.VersionIs | tw/http/http_parser.cc:48-63 | a version text counts as 1.1 exactly if it starts that literal, even cut short, and as 1.0 exactly if it is that literal |
| RequestMessage.PrintLine | tw/http/http.cc:125-136 | the first line as printed |
| RequestMessage.DumpRequest | tw/http/http.cc:125-151 | prints the request line, the connection header, the headers, the length of a body that is not empty, and the body |
| Spelling.RequestSpelled | tw/http/http.cc:125-151 | the printed request as one formula over its parts |
| Spelling.ResponseSpelled | tw/http/http.cc:177-202 | the printed response as one formula over its parts |
| RequestParser.StepBounded | tw/http/http11_parser.rl.cc:6625-6640 | marks and lengths stay inside the buffer |
| RequestParser.RequestLoop.Execute | tw/http/http11_parser.rl.cc:91-112 | the loop computes the run of the automaton and makes its callbacks; the closing assertions hold |
| RequestParser.RequestLoop.ExecuteAndShift | tw/http/http_parser.cc:81-85 | what was parsed is cut off the front of the buffer |
| RequestParser.RequestLoop.Finish | tw/http/http11_parser.rl.cc:6642-6659 | error, finished or more to come |
| RequestParser.ErrorFreeIff | tw/http/http_parser.cc:11-63 | there is no error exactly if every method text starts with a known name, every version is one of the two and no field has an empty name; else the last refusal left its code |
| RequestReader.TargetRun | tw/http/http11_parser.rl.cc:734-1169 | the target states get behind exactly the targets that a plain reader reads, and report their parts |
| RequestReader.HeadRun | tw/http/http11_parser.rl.cc:91-1169 | the request automaton finishes exactly on the heads that a plain reader reads, stops at their end, and makes the callbacks for what the reader finds |
| RequestRoundTrip.MethodRun | tw/http/http11_parser.rl.cc:3476-3700 | a method of up to 20 letters and digits is reported as it stands |
| RequestRoundTrip.TargetRun | tw/http/http11_parser.rl.cc:734-1169 | path, query and fragment with percent escapes are reported as they stand |
| RequestRoundTrip.VersionRun | tw/http/http11_parser.rl.cc:273-365 | version 1.0 or 1.1 is reported |
| RequestRoundTrip.LineRun | tw/http/http11_parser.rl.cc:369-630 | a clean header line is reported as one field |
| RequestRoundTrip.CallbacksRestore | tw/http/http_parser.cc:11-63 | the callbacks rebuild the request |
| RequestRoundTrip.SearchRejected | tw/http/http11_parser.rl.cc:134-152 | a printed M-SEARCH request ends in the error state |
| RequestRoundTrip.RequestRestored | tw/http/http.cc:125-151 | parsing a printed request finishes exactly if the method is not M-SEARCH; it then restores method, path, query, fragment, version and headers, leaves exactly the body, and gives the whole request back exactly if its close flag was set |
| Streams.Stream.ReadFixSize | tw/stream.cc:3-15 | all bytes asked for, in order, however the stream cuts them, and their number below 2^31, or 0 if it ends before |
| Streams.Stream.WriteFixSize | tw/stream.cc:27-39 | the peer gets all bytes in order, and their number below 2^31 is returned, or the prefix it accepts |
| Streams.AsIntIs | tw/stream.cc:3-15 | a count is returned as it is exactly below 2^31, and is positive exactly if its low 32 bits are positive as an int |
| Session.RecvRequest | tw/http/http_session.cc:10-62 | with a whole head in the first read, the request is received exactly if its content length in bytes comes behind the head, and they are its body; with fewer the stream is closed; without a length the body is empty and nothing more is read |
| Session.ReadBody | tw/http/http_session.cc:40-60 | the body is the content-length bytes behind the head, wherever the first read ended; fewer close the stream |
| Session.SendResponse | tw/http/http_session.cc:63-68 | the peer gets the printed response, or the prefix it accepts |
| Session.RequestReceived | tw/http/http_session.cc:10-62 | a printed request that is received gives the request with its body, for every way the stream is cut, if the first read holds the head |

## Left out

- ByteArrays.ByteArray.Write: requires `Fits`, because without it the source runs off its list through a null pointer; `GrowthSufficesIff` says exactly when.
- ByteArrays.ByteArray.GetWriteBuffers: requires `Fits` for the same reason.
- ByteArrays.ByteArray.Read: does not model a zero-length read with the cursor at the capacity, where the source reads through a null pointer.
- ByteArrays.ByteArray.constructor: does not model a block size of 0, with which every operation divides by zero.
- Records.WriteSeekRead: asks that no empty string ends at the capacity, because reading it is the zero-length read above.
- Timers.TimerManager.AddTimer: does not model a sum of clock and period that wraps around 64 bits; `DeadlineWrapsIff` says when it would.
- Timers.TimerManager.Refresh: asks that the new deadline does not wrap around 64 bits.
- Timers.TimerManager.Reset: asks that the new deadline does not wrap around 64 bits.
- Timers.TimerManager.ListExpired: asks that re-armed deadlines do not wrap around 64 bits.
- ResponseParser.ClientParser.ExecuteAndShift: requires a buffer that is not empty, because the source shifts by the -1 that `Execute` answers for an empty one.
- Session.RecvRequest: does not model a head that arrives in several reads, where the read count accumulates and marks go stale; the answer is then `Unfinished`.
- RequestRoundTrip.RequestRestored: leaves out requests whose parts are not accepted as they stand (two leading slashes, characters outside the accepted sets, values with a leading blank).
- ResponseRoundTrip.ResponseRestored: asks that a content-length header in the map comes with a body, which then overrides it.
- Signed varint members: the writers call the decoder and one reader calls itself; zigzag is proved on the static functions.
- Floating-point members of the byte buffer: their bits go through the 32- and 64-bit members.
- Positioned read, `toString` across blocks, the positioned read views, and the file members of the byte buffer.
- Words on a big-endian host: bytes in memory are little-endian.
- `delEvent`, `resetContext`, `cancelAll`, and the EPOLLERR and EPOLLHUP path of the idle loop.
- Who is woken when: the idle count and the pipe behind `tickle` are not modelled, only when `addTimerFront` is called.
- Fibers that set their own state in any other way than to `READY` before they leave, and what the destructor of a lost fiber asserts.
- The retry loop, the time-out result and the pass-through cases of `do_io`; what it does to the scheduler is the step `SuspendIo` with its timer and `CancelTimer`.
- A fiber that ends by an exception: the source overwrites that state with `TERM` before it switches away, so it ends like any other.
- The caller's own worker and the joining of threads in `stop`: all workers run the same loop here and may start at any time.
- The stopping check of the I/O manager is one step, with no other step between its three parts.
- Absolute-form and other request targets, the XML and JSON branches, and the three characters that depend on a flag the constructor does not set: the automaton goes to a state outside the model.
- Chunk sizes, and blank values of the three keyword names in responses: the automaton stops at the first state of that part.
- `boost::lexical_cast` of the content length: a function parameter.
- Query parameters and cookies of requests, which neither printer nor parser touches.
- Negative returns of `read` and `write`, which the loops of the stream hold in an unsigned variable.
- System calls, sockets, addresses, logging, threads and locks themselves, context switching, and the other hooked calls.
