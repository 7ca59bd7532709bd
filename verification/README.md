# Verified model of go-spidermonkey's runtime layers

go-spidermonkey embeds a JavaScript engine in Go and builds Web and Node.js APIs
around it. This project models the parts of it whose correctness rests on more
than one function: the concurrent protocols between goroutines, the event loop,
the text and byte codecs, two AES modes, the structured-clone graph copy, the
in-memory file system, the key table and the choice of package subpaths.
`dafny verify dfyconfig.toml` checks everything.

## How it is laid out

| file | models |
|---|---|
| `WorkerExit.dfy` | the exit protocol of `worker_threads`: agent, pump and loop |
| `Agents.dfy` | the agent cluster's custody of clone handles, message order and lifetimes |
| `HalfOpen.dfy` | TCP half-open teardown and its pending token |
| `WriteActor.dfy` | `connWriter`, the off-loop writer with a one-slot wake channel |
| `ZlibStream.dfy` | the rendezvous of feeder and decoder in streaming decompression, and the unzip sniff |
| `EventLoop.dfy` | timers, posts and immediates, their handles and their order |
| `TimerTimes.dfy` | when its timers are due, from the arguments of `SetTimer` |
| `LoopWake.dfy` | when the event loop sleeps, wakes and returns |
| `MemFS.dfy`, `Paths.dfy` | the in-memory file system as a table of paths that stays a tree |
| `StructuredClone.dfy` | the graph copy with sharing and cycles |
| `Punycode.dfy`, `PunycodeEnds.dfy`, `Utf16.dfy` | Punycode over UTF-16 strings, and when its decoder ends |
| `Doubles.dfy` | the arithmetic of JavaScript's numbers that Punycode runs on |
| `PunycodeStandard.dfy` | the encoder and decoder of RFC 3492 in whole numbers, to compare with |
| `Utf8.dfy`, `TextStreams.dfy` | TextEncoder, TextDecoder and their streaming forms |
| `Utf8Standard.dfy` | the Unicode Standard's tables of UTF-8, to compare with |
| `KeyWrap.dfy`, `Ctr.dfy` | AES Key Wrap and AES-CTR over an arbitrary block function |
| `ByteNumbers.dfy` | byte strings as big-endian numbers |
| `KeyTable.dfy` | the host key table with least-recently-used eviction |
| `Subpaths.dfy` | the choice among subpath patterns |
| `Options.dfy` | the option type |

**Protocols** are state machines. A critical section under a lock is one step; a
call that works outside the lock is several. `After(steps)` is the state after a
sequence of steps, in which a step that is not enabled is passed over, so a lemma
about `After(steps)` for all `steps` is about every interleaving. Results of reads,
writes, dials, clone reads and callbacks are chosen by the steps.

**Imperative code** is methods, with classes for objects that are updated in place
and loops where the source loops. Each is proved against a function or relation
that does not mention the loop, and what stands behind the function is compared with a
second definition where a standard gives one: RFC 3492, RFC 3394, SP 800-38A and the
Unicode Standard are written out with their own constants. Iteration over a Go map picks the keys in an
arbitrary order; in `Rename`, which inserts while it ranges, an inserted key may or
may not be visited again, any number of times.

**Parameters** stand for what is outside: the block cipher (a permutation where
decryption is needed), the decompressor (any deterministic stream machine), random
draws, the clock, and the resolution of a conditions object. The decompressor is
taken to ask for more input only when its output for what it has read has been
handed over.

## What turned out false, and when it holds

- A clean exit of a worker can be reported as a crash when a `Receive` fails
  (`WorkerExit.FailedReceiveBreaksCleanExit`). The exit that a worker emits is its
  farewell, right behind all its earlier messages, if and only if no failed `Receive`
  did that worker harm: popped one of its messages before its farewell was queued, or
  came when it had been seen dead once and still had such messages waiting
  (`WorkerExit.Harms`, `WorkerExit.CleanExit`). Messages and exits are numbered in the
  model, so that a crash exit is told from a farewell with code 1.
- `Rename` accepts a directory's move beneath itself (`MemFS.RenameBeneathAccepted`)
  and the table is then not a tree; a successful `Rename` leaves a tree exactly when
  the new name is not below the old one.
- A streaming `TextDecoder` strips a byte order mark at the front of every call, not
  of the stream (`TextStreams.MidStreamMarkLost`); it agrees with decoding at once
  exactly when no call but the one at the front found a mark.
- Punycode decoding does not end on every input (`PunycodeEnds.NineDiverges`). The model
  computes in doubles, with rounding, the infinities and NaN, and decode goes on for ever
  exactly when, at the last unit behind the last delimiter, it is already caught in
  `adapt`'s loop at infinity, or the digit does not end the number it is read in, for
  which a NaN threshold is one reason, or it does and `adapt` then starts from infinity
  (`PunycodeEnds.DecodeEnds`). A last digit of 26 or more never ends. With at most 150
  units behind the delimiter nothing overflows, the second reason is the only one, and a
  last digit of 0 always ends (`PunycodeEnds.ShortEnds`). With 342 nines or more in
  front, the last digits 1 and 0 do not (`PunycodeEnds.OverflowDiverges`). Rounding alone
  decides on an input of 18 units (`PunycodeEnds.RoundingDecides`).
- The round trip holds although `adapt` halves with a 32-bit shift, because encoder and
  decoder call it on the same arguments; below 2^31 it is the standard's function
  (`Punycode.AdaptIsExact`), and at 2^31 it is not (`Punycode.AdaptWraps`). It is stated for strings of up to 2^31 units, more than engines allow,
  for which every number is exact.
- `structuredClone` returns an isomorphic copy exactly when no function or symbol and no
  awkward Error can be reached: one whose name is a key of `Object.prototype`, which the
  lookup of its constructor finds, or which has a field of its own called `__proto__`,
  which is stored by assignment (`StructuredClone.Clone`,
  `StructuredClone.CloneInherited`, `StructuredClone.AwkwardExamples`).
- The event loop can sleep although nothing keeps it alive any more
  (`LoopWake.SleepsThroughClear`), but only when a timer was cleared since it went to
  sleep, and then until its alarm (`LoopWake.SleepsForSomething`).
- The comment on `Broadcast` says a superseded clone is kept until `Close`, but `close`
  does not free it (`Agents.FirstBroadcastNotFreed`): of the broadcasts latched before
  the close exactly the last is freed (`Agents.OnlyLastBroadcastFreed`).
- A callback error leaves handles held: exactly those of the rest of the batch, which a
  `Reset` releases unless a later turn has replaced that batch
  (`EventLoop.HeldExactly`, `EventLoop.ResetReleases`, `EventLoop.HeldAfterReset`).
- An immediate queued in a turn's posts phase can run behind a timer armed there
  (`EventLoop.TimerBeforeImmediate`), but only when an error in a posted completion or
  the stop condition of `RunUntil` ends the run between that turn's posts and check
  phases (`EventLoop.ImmediateBeforeTimer`).
- A package target can get a `..` segment from a capture that passed the check, but
  exactly when the target itself has `..` between slashes and stars
  (`Subpaths.CannotClimb`, `Subpaths.ClimbingEntry`).

## Model

| member | source | states |
|---|---|---|
| `WorkerExit.Invariant` | compat/nodejs/worker.go:248-375 | in every interleaving, for every agent: the tables, the two-cycle dead count and the three queues together account for each of its messages and for its one exit |
| `WorkerExit.CleanExit` | compat/nodejs/worker.go:326-394 | of an agent that posted a farewell: the exit emitted is that one, with its code and right behind all its earlier messages, if and only if no failed Receive did the worker harm; unharmed, nothing else is emitted before it, and once its posts are drained it has been |
| `WorkerExit.ExitIsLast` | compat/nodejs/worker.go:353-375 | in every run, failing Receives included, a worker emits at most one exit and nothing behind it |
| `WorkerExit.SilentExit` | compat/nodejs/worker.go:284-323 | of an agent that posted no farewell: an exit has code 1 and is of a dead agent, and comes behind a message for everything it sent if and only if no failed Receive did the worker harm |
| `WorkerExit.ReleasedOnce` | compat/nodejs/worker.go:353-375 | the instance handle and the loop's pending are each released at most once, failed Receives included, and before close exactly together with the exit event |
| `WorkerExit.ExitedAgentForgotten` | agents.go:327-338 | in that protocol too, an exited agent ends in neither of the cluster's tables |
| `WorkerExit.FailedReceiveBreaksCleanExit` | compat/nodejs/worker.go:248-275 | a schedule in which one failed Receive turns a clean exit with code 0 into exit 1 and loses a message |
| `Agents.Invariant` | agents.go:132-147 | in every run, every clone handle the cluster refers to is in one container, once, and every container holds exactly the handles recorded there |
| `Agents.DeliveredIsTheAgents` | agents.go:281-311 | a handle given to an agent is given once, and is never freed, kept or given again by the cluster; no handle is freed twice |
| `Agents.SentIsSettled` | agents.go:235-257 | once close has freed what it took, a handle sent before it was delivered to its addressee or freed, and not both |
| `Agents.PostIsSettled` | agents.go:191-213 | likewise a handle posted before close is freed, exactly unless a Receive is still reading it or failed to |
| `Agents.DeliveredInOrder` | agents.go:281-311 | until an agent ends or the cluster closes, what it took followed by its inbox is what was sent to it, in order; what it took is always a prefix |
| `Agents.PostsInOrder` | agents.go:315-320 | until close, what Receive popped followed by the posts waiting is what was posted, in order and with senders |
| `Agents.SpawnAndExitAgree` | agents.go:111-127 | whichever of Spawn's bookkeeping and the exit comes first, an ended agent whose Spawn returned is in neither set, and a running one is alive exactly when Spawn returned |
| `Agents.OnlyLastBroadcastFreed` | agents.go:171-184 | once close has freed what it took, a broadcast latched before it was freed exactly when no later one superseded it |
| `Agents.SupersededNeverFreed` | agents.go:235-257 | a superseded broadcast is not freed in any continuation |
| `Agents.FirstBroadcastNotFreed` | agents.go:235-257 | a schedule of two broadcasts and a close that frees only the second |
| `HalfOpen.Invariant` | compat/nodejs/net.go:673-753 | what every step of pump, net_end, net_close and closeNet keeps of a connection |
| `HalfOpen.OneOwner` | compat/nodejs/net.go:673-753 | the pending of a connection has exactly one owner, pump, readEnded flag or a release under way, until it is released, once |
| `HalfOpen.HalfOpenIsWritable` | compat/nodejs/net.go:816-842 | readEnded implies the connection is in both tables with its write side open and no close requested |
| `HalfOpen.BothHalvesEnded` | compat/nodejs/net.go:816-842 | once the peer's FIN and the guest's end are both processed, in either order, exactly one path took the id out, one close and one release are requested or done |
| `HalfOpen.ClosedByHalves` | compat/nodejs/net.go:673-753 | without errors and closes, a FIN alone leaves the connection half open and the guest's end alone half closed, in every run, and it is taken out exactly when both have ended |
| `HalfOpen.TakenOnlyByAPath` | compat/nodejs/net.go:844-874 | a close is requested exactly by the one path that took the connection out of the tables |
| `HalfOpen.PendingCountsHolders` | compat/nodejs/net.go:1279-1329 | the loop's pending counter is the number of connections that still hold it |
| `WriteActor.Invariant` | compat/nodejs/net.go:278-341 | what every step of the callers and of run keeps |
| `WriteActor.AcknowledgedOnce` | compat/nodejs/net.go:227-240 | onDone fires for accepted chunks in order, each at most once, and for all of them by the time run has returned |
| `WriteActor.WrittenInOrder` | compat/nodejs/net.go:278-341 | chunks reach Write in the order accepted, none twice; without a failure none is skipped |
| `WriteActor.FlushedBeforeClose` | compat/nodejs/net.go:278-341 | the connection is closed at most once and last, and without a failure after every accepted chunk was written |
| `WriteActor.ClosedWhenAttached` | compat/nodejs/net.go:278-341 | a run that has returned closed the connection exactly when its last snapshot had one, and otherwise nothing reached any |
| `WriteActor.FinAfterEarlierChunks` | compat/nodejs/net.go:259-268 | CloseWrite happens at most once, and after every chunk accepted before the half-close request |
| `WriteActor.FinAfterRequest` | compat/nodejs/net.go:259-268 | of every run through a first half-close request: what was accepted before it is handed to Write before the FIN |
| `WriteActor.NoLostWakeup` | compat/nodejs/net.go:205-225 | run never waits on an empty wake slot with something to do and nobody about to signal |
| `ZlibStream.Invariant` | compat/nodejs/zlib.go:212-360 | what every step of feeder and decoder keeps |
| `ZlibStream.NeverBothAsleep` | compat/nodejs/zlib.go:212-231 | feeder and decoder never wait for each other, in feed or in end |
| `ZlibStream.FeedWaitsForDecoder` | compat/nodejs/zlib.go:303-319 | with no feed under way all input is decoded and its output ready, unless the decoder ended or was aborted |
| `ZlibStream.StreamingIsOneShot` | compat/nodejs/zlib.go:333-348 | for every split and schedule, end reports an error exactly when decoding the whole input fails or exceeds the output cap, and otherwise all that was handed out is that decoding |
| `ZlibStream.ChunkingIndependent` | compat/nodejs/zlib.go:237-296 | two runs over the same input agree, however it was cut and scheduled |
| `ZlibStream.UnzipStream.Write` | compat/nodejs/zlib.go:453-488 | nothing is fed until two bytes have come, then all that was held, and the codec is the one of the first two bytes |
| `ZlibStream.WriteAll` | compat/nodejs/zlib.go:390-406 | for every split, what reaches feed is the whole input and the codec is sniffed from its first two bytes; with fewer, nothing is fed and the end is Z_BUF_ERROR |
| `ZlibStream.UnzipIsOneShot` | compat/nodejs/zlib.go:518-552 | unzip from end to end: for every split and schedule, Z_BUF_ERROR exactly below two bytes, and otherwise the outcome of decoding in one piece with the codec sniffed |
| `EventLoop.Invariant` | compat/internal/eventloop/eventloop.go:356-512 | what every operation and phase keeps of a registration |
| `EventLoop.HandleSafety` | compat/internal/eventloop/eventloop.go:122-150 | in every run, with clears at any moment, errors and resets, no callback is invoked after its clear or release and no handle is released twice; one-shots and immediates are invoked at most once |
| `EventLoop.HeldExactly` | compat/internal/eventloop/eventloop.go:386-415 | between turns, in every run, exactly the armed timers, the queued immediates and what an error left behind hold a handle; a one-shot that fired never does |
| `EventLoop.ResetReleases` | compat/internal/eventloop/eventloop.go:204-239 | a Reset leaves held exactly what an error left behind in a batch since replaced |
| `EventLoop.HeldAfterReset` | compat/internal/eventloop/eventloop.go:204-239 | a schedule with such a handle: an error, another turn, a Reset, and a timer in no table is still held |
| `EventLoop.FiresInTurnOrder` | compat/internal/eventloop/eventloop.go:386-415 | in every run, the timers invoked in one turn, repeats and one-shots, are invoked in strict (due, id) order, so none twice |
| `EventLoop.ShotsAreCalls` | compat/internal/eventloop/eventloop.go:386-415 | those are all the invocations of timers there are |
| `EventLoop.NoTimerPassedOver` | compat/internal/eventloop/eventloop.go:516-551 | when a timer is invoked, every timer that takeDue saw armed with a smaller (due, id) was invoked before it in that turn or has been cleared |
| `EventLoop.SortDue` | compat/internal/eventloop/eventloop.go:516-551 | the in-place insertion sort gives the same timers in strict (due, id) order |
| `EventLoop.ChooseDue` | compat/internal/eventloop/eventloop.go:516-551 | whatever the map order, the batch is exactly the due timers in that order |
| `EventLoop.DueBatchUnique` | compat/internal/eventloop/eventloop.go:516-551 | there is only one such batch |
| `EventLoop.FiresInOrder` | compat/internal/eventloop/eventloop.go:386-415 | in every run, once a timer has fired, every timer registered before it and first due no later has fired too, or was cleared, reset or abandoned by an error |
| `EventLoop.OrderlyRun` | compat/internal/eventloop/eventloop.go:356-512 | without errors and resets that means fired or cleared |
| `EventLoop.ImmediateBeforeTimer` | compat/internal/eventloop/eventloop.go:419-466 | in every run, an immediate queued in the posts phase of a turn is settled before a timer armed there fires, unless the run left that very turn between posts and check |
| `EventLoop.TimerBeforeImmediate` | compat/internal/eventloop/eventloop.go:419-466 | a schedule that leaves the turn there, in which the timer fires first |
| `EventLoop.ImmediatesInOrder` | compat/internal/eventloop/eventloop.go:439-466 | in every run, once an immediate has run, every immediate queued before it has run too, or was cleared, reset or abandoned by an error |
| `TimerTimes.DueExactly` | compat/internal/eventloop/eventloop.go:516-551 | in every run through a SetTimer, whenever takeDue sees the timer it is due at the time of setting plus the delay, clamped as written out, or, for a repeat, one delay behind the last call that saw it due |
| `TimerTimes.PutOff` | compat/internal/eventloop/eventloop.go:516-551 | what one takeDue saw, due or not, is due after that turn's time when a later one sees it |
| `TimerTimes.SpacedOut` | compat/internal/eventloop/eventloop.go:516-551 | between two invocations of a repeat the clock has moved on by its delay or more |
| `TimerTimes.NotEarly` | compat/internal/eventloop/eventloop.go:88-116 | no timer is invoked before the time of setting plus its delay |
| `TimerTimes.ArmedExactly` | compat/internal/eventloop/eventloop.go:516-551 | a timer is armed exactly as long as it is neither cleared nor released and, if no repeat, was never seen due |
| `TimerTimes.EveryDueFires` | compat/internal/eventloop/eventloop.go:386-415 | when a turn's timers phase is over, every timer that its takeDue saw due was invoked in that turn or has been cleared |
| `LoopWake.Invariant` | compat/internal/eventloop/eventloop.go:356-512 | in every interleaving with the goroutines that post, arm, clear and count: what came behind its phase is announced on the wake channel, or about to be |
| `LoopWake.NeverSleepsOnWork` | compat/internal/eventloop/eventloop.go:468-508 | asleep on an empty channel with nobody about to signal, no post and no immediate is queued and no armed timer is due before the alarm |
| `LoopWake.SleepsForSomething` | compat/internal/eventloop/eventloop.go:468-508 | and something keeps the loop alive, unless a timer was cleared since it decided, and then there is an alarm |
| `LoopWake.SleepsThroughClear` | compat/internal/eventloop/eventloop.go:122-150 | a schedule of that exception, for every due time |
| `LoopWake.ReturnsIdle` | compat/internal/eventloop/eventloop.go:484-491 | about to return for being idle with nothing announced, no post, immediate or timer that keeps it alive has come since the decision |
| `LoopWake.FindEarliest` | compat/internal/eventloop/eventloop.go:472-483 | the walk over the timers finds the earliest due time and whether one keeps the loop alive, whatever the order |
| `LoopWake.DecidesIdle` | compat/internal/eventloop/eventloop.go:483-491 | the decision to return is taken exactly when no timer keeps the loop alive, pending does not exceed the unreferenced, and nothing is queued |
| `LoopWake.PendingCounts` | compat/internal/eventloop/eventloop.go:288-302 | pending is the operations begun less those done, in every run |
| `MemFS.FileSystem.constructor` | fs/memfs.go:40-44 | a new file system is a tree with only its root |
| `MemFS.FileSystem.OpenFile` | fs/memfs.go:67-103 | keeps a tree; its error; only the file opened changes, created or truncated as the flags say |
| `MemFS.FileSystem.Mkdir` | fs/memfs.go:106-120 | keeps a tree; its error; adds exactly the directory |
| `MemFS.FileSystem.MkdirAll` | fs/memfs.go:123-145 | fails exactly when a file is in the way and then changes nothing; otherwise adds exactly the missing directories on the way, and is a tree |
| `MemFS.FileSystem.Remove` | fs/memfs.go:148-167 | keeps a tree; removes exactly the node, unless it is missing, the root or has a child |
| `MemFS.FileSystem.Rename` | fs/memfs.go:171-202 | its error; on success, for every order of its range loop, exactly the subtree is relocated, and the table is a tree exactly when the new name is not below the old |
| `MemFS.FileSystem.MoveSubtree` | fs/memfs.go:190-200 | the mutate-while-ranging loop moves every node below the old name once, or, beneath itself, always leaves an orphan |
| `MemFS.RelocatedTree` | fs/memfs.go:171-202 | relocating a subtree, outside itself, keeps a tree |
| `MemFS.RelocatedUnique` | fs/memfs.go:190-200 | the outcome does not depend on the order |
| `MemFS.RenameBack` | fs/memfs.go:171-202 | where nothing was replaced, renaming back is accepted and restores every node |
| `MemFS.RenameBeneathAccepted` | fs/memfs.go:171-202 | a directory renamed beneath itself is accepted |
| `MemFS.FileSystem.Chmod` | fs/memfs.go:207-219 | keeps a tree and all but the permission bits |
| `MemFS.FileSystem.Entries` | fs/memfs.go:264-273 | lists every child once and nothing else, sorted by name |
| `MemFS.SortByName` | fs/memfs.go:264-273 | for distinct names the result holds the same entries in strict order of names |
| `Paths.BeforeMeans` | fs/memfs.go:271-271 | the order of names is that of strings, character by character |
| `Paths.ValidPathMeans` | fs/memfs.go:71-73 | a path is valid exactly when it is "." or elements joined by slashes, none of them empty, "." or ".." |
| `MemFS.FileSystem.RemoveAll` | compat/nodejs/fsextra.go:195-211 | for a directory other than the root no error, and exactly it and all in it are gone; at the root all in it is gone and the error is the root's; otherwise nothing changes |
| `StructuredClone.Clone` | compat/web/js/extended.js:127-203 | terminates on every graph and leaves the source unchanged; returns an isomorphic copy on fresh nodes exactly when no function or symbol and no awkward Error is reachable; a DataCloneError only for the former, and always then if there is none of the latter; a TypeError only for the latter |
| `StructuredClone.IsomorphicFields` | compat/web/js/extended.js:138-200 | an isomorphic copy agrees field by field: kind and data, constructor, offset and length, entries, members, items, names and order, name, message and stack, with corresponding values |
| `StructuredClone.CopyOfIsImage` | compat/web/js/extended.js:138-200 | and what agrees so is the image |
| `StructuredClone.AwkwardIsNoCopy` | compat/web/js/extended.js:171-187 | what is returned when an awkward Error is reachable is not isomorphic under any renaming |
| `StructuredClone.FillAwkward` | compat/web/js/extended.js:171-187 | an Error named constructor, or with a field called __proto__, is not made into a copy of itself, whatever its references become |
| `StructuredClone.CloneInherited` | compat/web/js/extended.js:175-176 | an Error named like a method of Object.prototype, each of them by name, throws a TypeError |
| `StructuredClone.AwkwardExamples` | compat/web/js/extended.js:175-185 | one named constructor becomes a String object; a field called __proto__ is lost |
| `StructuredClone.Cloner.FullClone` | compat/web/js/extended.js:127-200 | what one call of the recursion adds to the copy and to seen, and what each error means for the value |
| `StructuredClone.FillComplete` | compat/web/js/extended.js:153-200 | filling a container that is no awkward Error child by child gives the image of the original node |
| `StructuredClone.WalkCommutes` | compat/web/js/extended.js:127-200 | every path exists in both graphs or in neither and ends at corresponding values |
| `StructuredClone.SharingKept` | compat/web/js/extended.js:127-200 | two paths meet in the copy exactly when they meet in the original |
| `StructuredClone.ReachesByPath` | compat/web/js/extended.js:127-200 | an uncloneable value is reachable, in the sense of closed sets in which Clone is stated, exactly when a path leads to one |
| `Punycode.ComputeAdapt` | compat/nodejs/js/extras.js:1183-1189 | the loop computes the bias function in doubles with the 32-bit shift, and ends exactly unless it starts from infinity |
| `Punycode.AdaptIsExact` | compat/nodejs/js/extras.js:1183-1189 | adapt is the function of section 6.1 of RFC 3492 for every first delta below 2^53 and every other below 2^31 |
| `Punycode.AdaptWraps` | compat/nodejs/js/extras.js:1183-1189 | at 2^31 it is not |
| `Doubles.FloorExact` | compat/nodejs/js/extras.js:1184-1185 | the floor of a rounded quotient of whole numbers below 2^53 is that of the exact quotient |
| `Doubles.RoundLargeIs` | compat/nodejs/js/extras.js:1241-1244 | rounding is to the nearest multiple of the unit of 53 bits, and of two to the even one |
| `Punycode.IntRoundTrip` | compat/nodejs/js/extras.js:1237-1245 | reading the digits of a number at the same bias gives the number back below 2^53, whatever follows |
| `Punycode.InsertionStep` | compat/nodejs/js/extras.js:1231-1253 | the decoder inserts next exactly what the encoder counted next, at its place |
| `Punycode.ComputeEncode` | compat/nodejs/js/extras.js:1198-1230 | for every string of up to 2^31 units, the result is ASCII and decodes, in doubles, to the string; up to 1926 code points it is the output of the encoder of section 6.3 of RFC 3492 |
| `Punycode.ComputeDecode` | compat/nodejs/js/extras.js:1231-1253 | the loops compute the decoding in doubles, its RangeError, and that an inner loop or adapt does not end; whatever the decoder of section 6.2 of RFC 3492 in 32 bits accepts gives the same code points |
| `Punycode.DecodeStandard` | compat/nodejs/js/extras.js:1190-1195 | the same of the decoding function, uppercase digits included |
| `Punycode.EncodeIntStandard` | compat/nodejs/js/extras.js:1213-1221 | the digits of a delta are the standard's at every bias |
| `PunycodeEnds.DecodeEnds` | compat/nodejs/js/extras.js:1237-1251 | decode diverges exactly when the guard at the last unit says so; then the three loops, taken turn by turn with NaN read as 36, have not ended after any number of turns, and otherwise they end |
| `PunycodeEnds.StuckMeansForever` | compat/nodejs/js/extras.js:1237-1251 | the turn-by-turn loops, adapt's included, agree with the decoding function in both outcomes |
| `PunycodeEnds.LastDigitSettles` | compat/nodejs/js/extras.js:1237-1251 | a last digit of 26 or more always diverges |
| `PunycodeEnds.ShortEnds` | compat/nodejs/js/extras.js:1237-1251 | up to 150 units behind the delimiter nothing overflows: decode diverges exactly when the last digit is at or above a threshold between 1 and 26, so a last digit below 1 ends |
| `PunycodeEnds.OverflowDiverges` | compat/nodejs/js/extras.js:1237-1251 | behind 342 or more nines, b and aa diverge, for adapt at infinity and for a NaN bias |
| `PunycodeEnds.RoundingDecides` | compat/nodejs/js/extras.js:1237-1251 | an input that ends only because a number of it is rounded |
| `PunycodeEnds.NineDiverges` | compat/nodejs/js/extras.js:1237-1251 | the input 9 diverges |
| `Punycode.RoundTrip` | compat/nodejs/js/extras.js:1198-1253 | both directions one after the other give every string of up to 2^31 units back |
| `Utf16.CodePointRoundTrip` | compat/nodejs/js/extras.js:1190-1190 | reading a string as code points and writing them back loses nothing, lone surrogates included |
| `Utf16.CombineOrder` | compat/nodejs/js/extras.js:1190-1190 | the code points of surrogate pairs are in the order of the pairs and fill 0x10000 to 0x10FFFF |
| `Utf8.Utf8Encode` | compat/web/js/builtins.js:112-129 | the loop computes the encoding |
| `Utf8.EncodeIsPoints` | compat/web/js/builtins.js:112-129 | that encoding is the string's code points, lone surrogates as U+FFFD, each encoded |
| `Utf8.EncodeConcat` | compat/web/js/builtins.js:112-129 | encoding commutes with any cut that does not part a surrogate pair |
| `Utf8.Utf8Decode` | compat/web/js/builtins.js:157-198 | the state machine's loop computes the decoding; fatal mode throws exactly when something is replaced |
| `Utf8.DecodeEncoded` | compat/web/js/builtins.js:157-198 | decoding the encoding of scalar values gives them back with nothing replaced |
| `Utf8.WellFormed` | compat/web/js/builtins.js:157-198 | bytes in which nothing is replaced are the encoding of what they decode to, so the decoder accepts exactly the encodings |
| `Utf8Standard.DecodesStandard` | compat/web/js/builtins.js:157-198 | for all bytes: well-formed sequences by table 3-7 of the Unicode Standard give their code points by table 3-6, and each maximal subpart of what is ill formed one replacement |
| `Utf8Standard.DecodingUnique` | compat/web/js/builtins.js:157-198 | there is one such decoding |
| `Utf8Standard.EncodesStandard` | compat/web/js/builtins.js:112-129 | the encoding of a scalar value is the table's sequence for it |
| `Utf8.StringRoundTrip` | compat/web/js/builtins.js:112-198 | a string encoded and decoded is the string with lone surrogates replaced |
| `TextStreams.TextEncoderStream.Write` | compat/web/js/extended.js:241-254 | holds back at most a trailing high surrogate; the bytes so far are the encoding of the rest |
| `TextStreams.TextEncoderStream.Close` | compat/web/js/extended.js:255-260 | at the close the bytes are the encoding of the whole text |
| `TextStreams.EncodeChunks` | compat/web/js/extended.js:231-266 | for every way of cutting a text, the bytes are its UTF-8 encoding at once |
| `TextStreams.ComputeIncompleteTail` | compat/web/js/builtins.js:134-150 | the loop computes the length of an incomplete sequence at the end |
| `TextStreams.TailHeld` | compat/web/js/builtins.js:134-150 | holding that tail back for the next call changes nothing, for all bytes, well formed or not |
| `TextStreams.HeldIsNoText` | compat/web/js/builtins.js:134-150 | what is held back, three bytes at most, holds no character that could be put out |
| `TextStreams.TextDecoder.DecodeInput` | compat/web/js/builtins.js:243-291 | one call in the UTF-8 encodings: what it puts out, throws and holds |
| `TextStreams.StreamedIgnoringBom` | compat/web/js/extended.js:267-304 | with marks left alone, every way of cutting any bytes decodes as at once |
| `TextStreams.StreamedLikeOneShot` | compat/web/js/builtins.js:279-281 | with marks stripped, streaming equals decoding at once exactly when no call but the front one found a mark |
| `TextStreams.MidStreamMarkLost` | compat/web/js/builtins.js:279-281 | two chunks for which they differ |
| `KeyWrap.ComputeXorT` | compat/web/subtle2.go:428-432 | the in-place loop xors the step counter into the register |
| `KeyWrap.ComputeWrap` | compat/web/subtle2.go:434-453 | the in-place rounds give, for every block function, the shifting form of section 2.2.1 of RFC 3394, or the length error |
| `KeyWrap.WrapShifts` | compat/web/subtle2.go:434-453 | the same of the wrapping function: the counter runs from 1 to 6n in eight big-endian bytes, and eight bytes 0xA6 are in front at the start |
| `KeyWrap.CounterIsNumber` | compat/web/subtle2.go:428-432 | the counter's bytes spell the number below 2^64 |
| `KeyWrap.ComputeUnwrap` | compat/web/subtle2.go:455-477 | for a permutation, gives a plaintext exactly when the shifting form of it is the input; the length error exactly for other lengths, and otherwise the integrity error |
| `KeyWrap.StepsInvert` | compat/web/subtle2.go:434-477 | one unwrapping step undoes one wrapping step and conversely |
| `KeyWrap.UnwrapInvertsWrap` | compat/web/subtle2.go:434-477 | for every permutation, unwrapping c gives p exactly when wrapping p gives c, so the check accepts exactly the image of wrap |
| `KeyWrap.RoundTrip` | compat/web/subtle2.go:434-477 | every plaintext of an accepted size comes back |
| `Ctr.IncrCounterBits` | compat/web/subtle2.go:177-186 | as a big-endian number the block has its low bits counted up by one modulo 2^bits and the rest kept |
| `Ctr.CounterIs` | compat/web/subtle2.go:156-173 | block k has the low bits of block 0 plus k modulo 2^bits, and the other bits |
| `Ctr.CounterNumber` | compat/web/subtle2.go:156-173 | the same in numbers: block k spells the start with its low bits counted up k times |
| `Ctr.CountersRepeat` | compat/web/subtle2.go:150-173 | two counter blocks are equal exactly when they are a multiple of 2^bits apart |
| `Ctr.AesCtr` | compat/web/subtle2.go:150-173 | byte i of the output is byte i of the input xored with byte i mod 16 of the encrypted block that spells the counter with its low bits counted up i / 16 times |
| `Ctr.CryptTwice` | compat/web/subtle2.go:150-173 | applying the mode twice is the identity for every length |
| `KeyTable.SubtleKeys.Put` | compat/web/subtle.go:93-116 | the id is the low 52 bits of the first draw for which they are neither zero nor in use; the map, the element map and the list agree and hold the 1024 most recently used ids |
| `KeyTable.SubtleKeys.Store` | compat/web/subtle.go:93-116 | storing and evicting over the cap keeps them so |
| `KeyTable.SubtleKeys.Get` | compat/web/subtle.go:118-131 | succeeds exactly for an id since whose last use fewer than 1024 others were used, with the key last put there, and counts as a use |
| `KeyTable.SubtleKeys.Reset` | compat/web/subtle.go:136-142 | empties all three |
| `KeyTable.LostAfterOthers` | compat/web/subtle.go:56-65 | a key is out of reach exactly when as many distinct other ids as the cap were used since its last use |
| `Subpaths.ResolveSubpathMap` | compat/nodejs/resolve.go:537-579 | an exact key wins; otherwise the best pattern's target filled with the capture, an invalid capture, or no entry |
| `Subpaths.ChoosePattern` | compat/nodejs/resolve.go:541-563 | for every order of the map, the match whose prefix is longest and, among those, whose suffix is |
| `Subpaths.MatchesMeans` | compat/nodejs/resolve.go:541-563 | a pattern matches exactly when it has one star and the key has something in its place, and the parts are determined |
| `Subpaths.SameParts` | compat/nodejs/resolve.go:541-563 | two matching patterns with parts of equal lengths are the same pattern |
| `Subpaths.CaptureFills` | compat/nodejs/resolve.go:541-563 | the key is prefix, capture and suffix, and the capture is not empty |
| `Subpaths.ResolvesUnique` | compat/nodejs/resolve.go:537-579 | result and failure depend on the map and the key alone |
| `Subpaths.CheckCapture` | compat/nodejs/resolve.go:569-573 | the loop finds a `.` or `..` segment or a backslash exactly when there is one |
| `Subpaths.CannotClimb` | compat/nodejs/resolve.go:566-579 | no capture let through gives a target a `..` segment exactly when the target has no `..` between its slashes and stars |
| `Subpaths.ClimbingEntry` | compat/nodejs/resolve.go:566-579 | a map and a key whose target does get one |

## Left out

- The engine, its wasm bridge and the generated bindings: their behaviour is not in this repository.
- Sockets, DNS, TLS, subprocesses, signals and standard input; reads, writes and dials are nondeterministic results.
- Liveness and wall-clock behaviour: that a parked read pump is always woken, how long a poll takes.
- The HTTP response queue of compat/nodejs/http.go: the shape of `connWriter`, but simpler.
- RSA, ECDSA, ECDH, key derivation, JWK and AES-GCM and AES-CBC: wrappers over Go libraries.
- The concrete gzip, zlib, flate and brotli codecs.
- `resolveConditions` and `isSubpathMap`: JSON decoding and map order; the first is a parameter here.
- File handles of the in-memory file system, `Chtimes` and `WriteFile`: they write one existing node.
- WorkerExit.CleanExit: does not order the 'online' event, whose post can be queued behind a dispatch of the same worker, nor the console lines a worker posts, which are not emitted.
- Agents.Invariant: does not say that a handle appended after close or one whose CloneRead failed is ever freed; the source leaves these.
- EventLoop.Invariant: does not model the pending and unref counters, which are in LoopWake, nor one callback object registered twice; every registration has a handle of its own.
- MemFS.FileSystem.RemoveAll: does not model changes by other goroutines between its calls.
- MemFS.FileSystem.OpenFile: does not model the handle returned; strings are sequences of characters, so UTF-8 validity of a path is not checked.
- StructuredClone.Clone: does not model Errors whose name, message or stack is not a string, an inherited name becoming an Error's own, a File becoming a Blob without a name, the transfer list, sparse arrays and their non-index properties, SharedArrayBuffer views, getters, and the identity of NaN and negative zero as keys.
- Punycode.ComputeDecode: does not model the engine's limit on the number of arguments, which `String.fromCodePoint(...output)` meets on a very long output.
- Punycode.RoundTrip: does not model that limit.
- LoopWake.Invariant: does not model microtasks, contexts and the stop condition beyond that a run can be left at any point.
- Ctr.AesCtr: takes the library that the source calls for a 128-bit counter to be the standard mode.
- Punycode.ComputeEncode: does not compare with RFC 3492 above 1926 code points, where a delta can reach 2^31 and adapt differ.
- KeyTable.SubtleKeys.Get: does not model the conversion of a JavaScript number to an id.
- KeyTable.SubtleKeys.Put: does not model a draw that never ends; without a usable draw nothing is stored.
- TextStreams.TextDecoder.DecodeInput: does not model the windows-1252 and UTF-16 encodings.
- TextStreams.TextEncoderStream.Write: does not model cancel and abort of the streams.
