# br_logger, modelled and proved in Dafny

br_logger is an asynchronous C++ logger. Threads format an entry and push it onto a lock-free
bounded ring; one consumer pops entries and hands them to sinks, which format and store them. This
project models that core and proves what it promises for every input, every run and every
interleaving.

`dafny verify dfyconfig.toml` verifies everything.

## What is here

**The ring (`Bits`, `MpscRing`, `MpscSafety`, `MpscWrap`, `MpscCode`, `MpscRetry`, `MpscSolo`,
`MpscLimits`, `MpscCapacity`).** `TryPush` and `TryPop` are machines of atomic steps: load the position,
load the slot's sequence, compare-exchange (which may fail spuriously), copy the item word by word,
publish. A run is a schedule, a sequence that says who moves next; every theorem is about all schedules
of any number of producers and one consumer. One step function serves two machines. With modulus 0 the
counters are unbounded and the machine carries its history: the claims in order (W is their number) and
the released slots (R, advanced when `TryPop` stores the slot's sequence). With modulus 2^32 it is the
code. `MpscRing.Inv` is inductive; the safety, first-in-first-out and "false means full" theorems follow
from it.

`MpscCode` follows the code exactly. The code's equality tests see counters modulo 2^32, so they may
accept a snapshot that is whole turns of the counter old. At the sequence load that never matters. At
the compare-exchange it amounts to claiming the current position, which is right as long as there is
room. Only on a full ring does it do harm. So the invariant, slot exclusivity and first-in-first-out
delivery hold of the 32-bit code in every run without such a harmful compare-exchange, and slot
exclusivity fails in every run with one (`MpscCode.ExclusiveExactly`). Runs with fewer than 2^32 claims
have none (`MpscCode.ShortHarmless`).

Four things do not hold of the code as they might be read. Each is stated exactly, with a run that
shows it:

- "False means full" holds until a counter wraps. After that, on a fresh snapshot, the unsigned
  comparison `seq < pos` is right if and only if the two numbers are equal or no multiple of 2^32 lies
  between them (`MpscWrap.RejectExact`). For a current snapshot on a full ring: if and only if the 32-bit
  write counter is at least Capacity - 1, or at least Capacity while the oldest item is still being
  written (`MpscWrap.RejectByCount`). It fails both ways. A full ring may give no answer: `TryPush` spins
  without changing memory until the consumer moves (`MpscLimits.CodeSpins`). And a ring with room may
  answer false: with the write position at 2^32 - 1, a producer that is overtaken between its two loads
  returns false and its entry is dropped, with one entry in the ring (`MpscLimits.RejectsWithRoom`).
- Retries are paid for by other producers' claims and by spurious failures, except for rounds that
  start stuck in that way; a round goes unpaid if and only if it starts stuck (`MpscRetry.UnpaidExactly`).
  Counting those, the bound holds in every run of the unbounded machine, however large its counters, and
  in every harmless run of the code (`MpscRetry.RetryBound`, `MpscRetry.CodeRetryBound`); without them it
  fails (`MpscRetry.StuckBreaksBound`).
- Slot exclusivity of the code fails if and only if a compare-exchange succeeds on a full ring with a
  snapshot that lags by whole turns of the counter. With a lag of exactly 2^32 on a full ring an unread
  item is overwritten (`MpscLimits.StaleOverwrites`); with the same lag and room in the ring nothing is
  (`MpscLimits.StaleHarmless`).
- The static assertion admits capacity 1, where "published" and "free again" are one number. Two
  pushes in a row both return true and the first item is lost; among powers of two that is the only
  such capacity (`MpscCapacity.CapacityExactly`).

**Logger and backend (`LogSystem`, `LogDelivery`, `LogWorker`, `LogCode`, `LogLimits`, `RingObject`).** Any number of
threads in `LogImpl` (take a sequence id, push, count a drop), the worker loop, `Start`, `Stop` and
`Drain` run interleaved on top of the ring as `MpscCode` follows it. `LogCode` has the same system on the
code's 32-bit memory and carries the results over. While producers stand still, the running worker hands
every sink all entries before the frontier within a computed number of its steps, and a manual `Drain`
the next min(max, those) and returns. If producers stand still, `Stop` ends and delivers the
entries before the frontier, the first claimed position whose producer has not published yet; these are
all accepted entries if and only if no producer is between its compare-exchange and publishing. If they
keep logging, `Stop` need not end, but when it does every sink has what was published before it began.
`RingObject` has the ring and the backend as objects with arrays and loops, for the mode without a worker
thread and for the tail of `Stop`; `RingObject.QuietHolds` says that every concurrent run that comes to
rest leaves a state the object can continue from.

**Formatters (`Text`, `Pieces`, `JsonText`, `JsonFormat`, `JsonRoundTrip`, `JsonCut`, `JsonLayout`,
`JsonWriter`, `PatternFormat`, `PatternMeaning`, `PatternWriter`, `LogMessage`).** The JSON formatter fills a buffer in place. Its
output is described as pieces made of units that are written whole or not at all: characters, or
whole escapes; a text cut to a buffer is a prefix of the whole text if and only if the buffer does not
end inside an escape. A reader written from sections 4, 6 and 7 of RFC 8259 recovers the entry from it. The
pattern formatter is a compiler and an interpreter; both are compared with a direct reading of the
pattern string, and compiling is inverse to printing operation lists as patterns.

**Rotating files (`RotatingFiles`, `RotatingHistory`, `RotatingWrites`).** The file system is a map from names to
contents. The class follows the code's loops; the theorems follow the records through any sequence
of writes, level changes, rotations and failing opens.

**Memory sink and tags (`MemorySink`, `Tags`, `LogContext`).** Array-backed structures against the
last entries of a history, a bounded map and lexical scoping.

Where code and documentation disagree the model follows the code: `%k` prints the thread name and
`%q` the sequence number (README.md:128-129 name other letters), `%r` and `%s` are therefore literal
text, and rotated files are called `app.log.1.log` (the comment in the sink's header says
`app.1.log`).

## Model

| member | source | states |
|---|---|---|
| Bits.PowerOfTwoTest | br_logger_core/include/br_logger/ring_buffer.hpp:15 | the bit test of the static assertion accepts a positive capacity if and only if it is a power of two |
| MpscRing.SlotIsMod | br_logger_core/include/br_logger/ring_buffer.hpp:32 | masking with Capacity - 1 addresses slots modulo the capacity |
| MpscRing.SlotReading | br_logger_core/include/br_logger/ring_buffer.hpp:33-48 | what a producer's load of its slot's sequence says about its snapshot, however old: smaller if and only if the ring is full at the snapshot, larger only if the snapshot is stale |
| MpscRing.StepInv | br_logger_core/include/br_logger/ring_buffer.hpp:19-65 | every atomic step of every thread keeps the ring invariant |
| MpscRing.ExecInv | br_logger_core/include/br_logger/ring_buffer.hpp:19-65 | so does every schedule |
| MpscSafety.ReachedInv | br_logger_core/include/br_logger/ring_buffer.hpp:19-65 | the invariant holds in every state reachable from the constructor |
| MpscSafety.SlotMeaning | br_logger_core/include/br_logger/ring_buffer.hpp:19-65 | R <= W <= R + Capacity always; a slot's sequence says exactly whether it is free, claimed or published for the one window position that uses it, and a published slot holds that claim's whole item |
| MpscSafety.ClaimedOnce | br_logger_core/include/br_logger/ring_buffer.hpp:36-41 | no two producers ever hold the same position |
| MpscSafety.Exclusive | br_logger_core/include/br_logger/ring_buffer.hpp:39-59 | no two threads are ever entitled to touch the same slot's data |
| MpscSafety.Fifo | br_logger_core/include/br_logger/ring_buffer.hpp:36-62 | the items popped are the first claimed items, in claim order: none lost, duplicated, torn or reordered |
| MpscSafety.FifoPerThread | br_logger_core/include/br_logger/ring_buffer.hpp:36-62 | each producer's popped items are, in order, the first whose push has returned true |
| MpscSafety.FalseMeansFull | br_logger_core/include/br_logger/ring_buffer.hpp:29-48 | before wrapping, TryPush decides to return false if and only if at its sequence load W = R + Capacity and its snapshot is W |
| MpscRetry.UnpaidExactly | br_logger_core/include/br_logger/ring_buffer.hpp:30-50 | a round ends in a retry although nobody has claimed a position since its snapshot, if and only if it starts stuck on a full ring |
| MpscRetry.RetryBound | br_logger_core/include/br_logger/ring_buffer.hpp:30-50 | in every run a TryPush has started at most (claims by others since it began) + (spurious failures) + 1 + (rounds that started stuck) rounds, and at least the stuck ones |
| MpscRetry.CodeRetryBound | br_logger_core/include/br_logger/ring_buffer.hpp:30-50 | the same bound for the 32-bit code in every run without a harmful step |
| MpscRetry.UnwrappedNeverSpins | br_logger_core/include/br_logger/ring_buffer.hpp:30-50 | while no counter has wrapped no round starts stuck, so the last term is 0 |
| MpscRetry.StuckBreaksBound | br_logger_core/include/br_logger/ring_buffer.hpp:45-49 | from a stuck state the thread alone exceeds the bound without the last term, with no further claim |
| MpscWrap.RefineStep | br_logger_core/include/br_logger/ring_buffer.hpp:27-65 | if the equality tests of the moving thread decide alike on truncated counters, one step of the 32-bit code is the unbounded step with counters truncated |
| MpscCode.CodeStepInv | br_logger_core/include/br_logger/ring_buffer.hpp:27-65 | every step of the code, but a compare-exchange on a snapshot whole turns old on a full ring, keeps the ring invariant |
| MpscCode.CodeStepRefines | br_logger_core/include/br_logger/ring_buffer.hpp:27-65 | and is a step of the 32-bit memory with counters truncated, however old snapshots are |
| MpscCode.CodeFollows | br_logger_core/include/br_logger/ring_buffer.hpp:27-65 | so is every schedule without such a harmful step, through any number of wrap-arounds |
| MpscCode.CodeRefines | br_logger_core/include/br_logger/ring_buffer.hpp:27-65 | if no thread moves on a snapshot that lags by more than 2^32 - Capacity at the load or 2^32 - 1 at the compare-exchange, the code runs exactly like the unbounded machine |
| MpscCode.ShortHarmless | br_logger_core/include/br_logger/ring_buffer.hpp:36-37 | a run with fewer than 2^32 claims has no harmful step, whatever the schedule |
| MpscCode.CodeExclusive | br_logger_core/include/br_logger/ring_buffer.hpp:32-60 | slot exclusivity for the 32-bit code in every run without a harmful step |
| MpscCode.CodeFifo | br_logger_core/include/br_logger/ring_buffer.hpp:32-62 | first-in-first-out delivery of whole items for the 32-bit code, overall and per producer, in every run without a harmful step |
| MpscCode.HarmfulTakes | br_logger_core/include/br_logger/ring_buffer.hpp:36-39 | a harmful step puts its thread into the oldest slot |
| MpscCode.OldestInUse | br_logger_core/include/br_logger/ring_buffer.hpp:36-39 | which on a full ring is still being written by another thread, or published and unread |
| MpscCode.ExclusiveExactly | br_logger_core/include/br_logger/ring_buffer.hpp:32-60 | for every schedule: no two threads get to touch one slot, whatever the consumer does at any point, if and only if there is no harmful step |
| MpscWrap.ShortRunsFresh | br_logger_core/include/br_logger/ring_buffer.hpp:29 | runs with at most 2^32 - Capacity claims are fresh whatever the schedule |
| MpscWrap.CasExactly | br_logger_core/include/br_logger/ring_buffer.hpp:36-37 | the 32-bit compare-exchange decides like the unbounded comparison if and only if the snapshot is current or does not lag by a multiple of 2^32 |
| MpscWrap.RejectExact | br_logger_core/include/br_logger/ring_buffer.hpp:45-48 | the comparison answers "full" rightly if and only if the loaded sequence equals the snapshot or lies in the same block of 2^32 numbers |
| MpscWrap.RejectByCount | br_logger_core/include/br_logger/ring_buffer.hpp:45-48 | on a full ring a current TryPush returns false if and only if the 32-bit write counter is at least Capacity - 1, or Capacity while the oldest item is still being written |
| MpscWrap.SpinsWhenFull | br_logger_core/include/br_logger/ring_buffer.hpp:45-49 | in the other case, on a full ring, n rounds leave memory and claims unchanged and add n to the rounds: the call does not return |
| MpscSolo.SoloPush | br_logger_core/include/br_logger/ring_buffer.hpp:27-51 | an uncontended push onto a ring with room claims the next position and returns true |
| MpscSolo.SoloPop | br_logger_core/include/br_logger/ring_buffer.hpp:53-65 | an uncontended pop of a published position releases it and returns the item claimed for it |
| MpscLimits.StuckReachable | br_logger_core/include/br_logger/ring_buffer.hpp:45-49 | for every capacity a schedule leads to such a full ring |
| MpscLimits.CodeSpins | br_logger_core/include/br_logger/ring_buffer.hpp:45-49 | the same for the 32-bit code itself |
| MpscLimits.RejectsWithRoom | br_logger_core/include/br_logger/ring_buffer.hpp:29-48 | for every capacity a schedule leads the 32-bit code to return false from TryPush with a single entry in the ring |
| MpscLimits.StaleOverwrites | br_logger_core/include/br_logger/ring_buffer.hpp:36-40 | for every capacity a compare-exchange delayed for exactly 2^32 claims succeeds on a full ring: writer and reader are in one slot, and an unread item is overwritten |
| MpscLimits.StaleHarmless | br_logger_core/include/br_logger/ring_buffer.hpp:36-40 | for every capacity, with the same delay on an empty ring it claims the next position and the invariant holds |
| MpscCapacity.CapacityOneOverwrites | br_logger_core/include/br_logger/ring_buffer.hpp:15 | on a one-slot ring two pushes in a row return true and the first item is gone |
| MpscCapacity.CapacityExactly | br_logger_core/include/br_logger/ring_buffer.hpp:15 | among powers of two up to 2^31, exactly capacity 1 can be overrun, for any item size and any set of producers |
| LogSystem.RingRuns | br_logger_core/src/backend.cpp:14-102 | inside the logger the ring runs one of its own schedules, so the ring theorems apply; one is harmless if and only if the other is |
| LogSystem.SysStepInv | br_logger_core/include/br_logger/logger.hpp:58-113 | every step of callers, worker, Start, Stop and Drain, but a harmful compare-exchange, keeps the system invariant |
| LogDelivery.Accounting | br_logger_core/include/br_logger/logger.hpp:79-112 | in every state reached without a harmful step sequence_ = popped + claimed and not popped + drop_count_ + undecided calls |
| LogCode.CodeSysStepRefines | br_logger_core/src/backend.cpp:14-102 | one event of the logger on the 32-bit ring is one event of the system that follows it, with counters truncated |
| LogCode.CodeAccounting | br_logger_core/include/br_logger/logger.hpp:79-112 | the same accounting of the 32-bit code |
| LogDelivery.Delivered | br_logger_core/include/br_logger/logger.hpp:79-112 | every sink has the first claimed entries in claim order, all popped ones but at most the one being dispatched; ids are all different and strictly increase per thread |
| LogCode.CodeDelivered | br_logger_core/include/br_logger/logger.hpp:79-112 | the same of the 32-bit code's sinks |
| LogCode.ShortSysHarmless | br_logger_core/include/br_logger/logger.hpp:79-112 | runs that accept fewer than 2^32 entries have no harmful step |
| LogDelivery.FrontierExists | br_logger_core/src/backend.cpp:51-61 | every state has a frontier: the first claimed position still being written, or the end |
| LogDelivery.FrontierAtEnd | br_logger_core/src/backend.cpp:51-61 | the frontier is the end if and only if no producer is between its compare-exchange and publishing |
| LogDelivery.FrontierPop | br_logger_core/src/backend.cpp:51-61 | TryPop succeeds if and only if an entry before the frontier is left |
| LogDelivery.StopBegins | br_logger_core/src/backend.cpp:33-41 | Stop called while no Stop or Drain runs, worker running or not, starts a stop |
| LogDelivery.StopDelivers | br_logger_core/src/backend.cpp:33-102 | with no producer moving inside TryPush, under any interleaving of the rest, the drain loops end within a computed number of consumer steps; then every sink has, flushed, every entry before the frontier exactly once in claim order |
| LogDelivery.StopAfterAnyRun | br_logger_core/src/backend.cpp:33-102 | the same from every reachable state; all accepted entries are delivered if and only if no producer is between its compare-exchange and publishing |
| LogDelivery.StopDeliversAll | br_logger_core/src/backend.cpp:33-102 | so with no producer mid-push the ring ends empty and every sink has every accepted entry exactly once in claim order |
| LogCode.CodeStopDeliversAll | br_logger_core/src/backend.cpp:33-102 | the same of the 32-bit code |
| LogDelivery.StopServes | br_logger_core/src/backend.cpp:33-102 | whatever producers and owner do meanwhile: Stop is still under way, or every sink has, flushed, at least the entries that were published when it began, in claim order |
| LogDelivery.StopServesAfterAnyRun | br_logger_core/src/backend.cpp:33-102 | the same from every state reached without a harmful step |
| LogWorker.WorkerDelivers | br_logger_core/src/backend.cpp:72-98 | a running worker hands every entry before the frontier to every sink, exactly once and in claim order, within a computed number of its steps, and keeps it so |
| LogWorker.WorkerAfterAnyRun | br_logger_core/src/backend.cpp:72-98 | the same from every state reached without a harmful step in which the worker runs |
| LogWorker.StartWorks | br_logger_core/src/backend.cpp:21-31 | Start on an idle backend sets the worker running |
| LogWorker.StartAfterAnyRun | br_logger_core/src/backend.cpp:21-98 | and it delivers, from every state reached without a harmful step |
| LogWorker.DrainDelivers | br_logger_core/src/backend.cpp:51-61 | Drain(max) on an idle backend returns within a computed number of steps, having handed the next min(max, entries before the frontier) entries to every sink and no other |
| LogWorker.DrainAfterAnyRun | br_logger_core/src/backend.cpp:51-61 | the same from every state reached without a harmful step |
| LogWorker.WorkerExitsDrained | br_logger_core/src/backend.cpp:99-101 | the worker returns only after a TryPop has failed, with every sink holding all entries that are published |
| LogWorker.BatchesOf64 | br_logger_core/src/backend.cpp:75-101 | the worker and Stop drain in batches of at most 64 |
| LogCode.CodeWorkerDelivers | br_logger_core/src/backend.cpp:72-98 | the worker's delivery on the 32-bit ring |
| LogCode.CodeStartDelivers | br_logger_core/src/backend.cpp:21-98 | the same for the worker Start sets running |
| LogCode.CodeDrainDelivers | br_logger_core/src/backend.cpp:51-61 | the manual Drain's delivery on the 32-bit ring |
| LogLimits.StopLeavesEntry | br_logger_core/src/backend.cpp:33-49 | for every ring and entry a run in which Stop returns with the entry accepted and in no sink |
| RingObject.QuietHolds | br_logger_core/include/br_logger/ring_buffer.hpp:19-65 | a concurrent run at rest leaves slots that hold exactly the claimed and unreleased items, oldest first |
| RingObject.RingBuffer.constructor | br_logger_core/include/br_logger/ring_buffer.hpp:19-25 | an empty ring |
| RingObject.RingBuffer.TryPush | br_logger_core/include/br_logger/ring_buffer.hpp:27-51 | appends the item if and only if there is room; on a full ring it reports full if and only if the 32-bit write counter is at least Capacity - 1, and otherwise keeps reloading, however long it is followed |
| RingObject.RingBuffer.TryPop | br_logger_core/include/br_logger/ring_buffer.hpp:53-65 | removes and returns the oldest item if and only if there is one |
| RingObject.RingBuffer.Empty | br_logger_core/include/br_logger/ring_buffer.hpp:67-71 | true if and only if the ring holds nothing |
| RingObject.LoggerBackend.Dispatch | br_logger_core/src/backend.cpp:63-69 | every sink gets the entry once |
| RingObject.LoggerBackend.Drain | br_logger_core/src/backend.cpp:51-61 | hands the min(max, length) oldest entries to every sink, in order, and removes just those |
| RingObject.LoggerBackend.Stop | br_logger_core/src/backend.cpp:33-49 | empties the ring into every sink in order and flushes all |
| LogMessage.CopiedConsistent | br_logger_core/include/br_logger/logger.hpp:93-99 | without arguments the recorded length is the stored text's, for every format string |
| LogMessage.PrintedConsistentExactly | br_logger_core/include/br_logger/logger.hpp:101-105 | with arguments it is if and only if the text fits or its length modulo 2^16 is the buffer's last index |
| LogMessage.FittedExactly | br_logger_core/include/br_logger/logger.hpp:95-98 | what is stored is the longest prefix that leaves room for the terminator |
| LogMessage.PrintedFails | br_logger_core/include/br_logger/logger.hpp:103-104 | if snprintf fails the length 0 is recorded |
| LogMessage.PrintedOffByOne | br_logger_core/include/br_logger/logger.hpp:101-105 | a text one character too long records a length beyond the stored text |
| JsonText.FitCountLongest | br_logger_core/src/formatters/json_formatter.cpp:30-114 | a prefix's escape fits the room if and only if the prefix is no longer than the one the formatter keeps |
| JsonText.EscapedReads | br_logger_core/src/formatters/json_formatter.cpp:39-112 | an RFC 8259 string reader maps every escaped string back to itself |
| JsonText.CutEscapes | br_logger_core/src/formatters/json_formatter.cpp:39-112 | escaped text cut to a room is the escape of that longest prefix, never a split escape |
| JsonWriter.EscapeJsonString | br_logger_core/src/formatters/json_formatter.cpp:30-114 | writes exactly that escape behind what is there and touches nothing beyond the room |
| JsonWriter.Cursor.Append | br_logger_core/src/formatters/json_formatter.cpp:10-26 | safe_append adds as much of a text as there is room for, in every buffer |
| JsonWriter.Cursor.AppendEscaped | br_logger_core/src/formatters/json_formatter.cpp:126-139 | append_escaped adds as many whole escapes as there is room for |
| JsonWriter.Cursor.AppendTags | br_logger_core/src/formatters/json_formatter.cpp:241-256 | the tag loop adds all tags with commas between them |
| JsonWriter.Format | br_logger_core/src/formatters/json_formatter.cpp:116-273 | for every buffer the result is at most buf_size - 1 long, terminated, and the pieces cut to the buffer; whenever the whole text fits it is exactly the whole text |
| JsonCut.CutIsPrefixExactly | br_logger_core/src/formatters/json_formatter.cpp:10-139 | for every entry and buffer the cut text is a prefix of the whole text if and only if the buffer does not end inside an escape |
| JsonCut.CutInsideEscape | br_logger_core/src/formatters/json_formatter.cpp:30-139 | a quoted line feed in two characters becomes two quotes |
| JsonLayout.EscapeForms | br_logger_core/src/formatters/json_formatter.cpp:46-110 | the five two-character escapes, upper-case hexadecimal ones for the other control characters, and everything else as itself |
| JsonLayout.CompactIsTight | br_logger_core/src/formatters/json_formatter.cpp:141-144 | the compact text of every entry has no white space outside strings |
| JsonLayout.PrettyHasLines | br_logger_core/src/formatters/json_formatter.cpp:141-144 | the pretty text of every entry is an opening brace, one line for each member after two spaces with ": " behind the name and a comma behind all but the last, and a closing brace |
| JsonFormat.PiecesText | br_logger_core/src/formatters/json_formatter.cpp:141-270 | the formatter's pieces spell the JSON object of the fields, pretty or compact |
| Pieces.BoundedFits | br_logger_core/src/formatters/json_formatter.cpp:10-26 | if the unbounded text fits, the buffer receives exactly it |
| JsonRoundTrip.TagsRead | br_logger_core/src/formatters/json_formatter.cpp:237-257 | the reader recovers any list of tags, whatever their characters |
| JsonRoundTrip.DocumentReads | br_logger_core/src/formatters/json_formatter.cpp:116-273 | the reader recovers the ordered field list from the pretty and from the compact text |
| JsonRoundTrip.EntryRoundTrip | br_logger_core/src/formatters/json_formatter.cpp:116-273 | for every entry, formatting and reading gives the entry's members back |
| JsonRoundTrip.MembersOf | br_logger_core/src/formatters/json_formatter.cpp:149-268 | which are the eleven named members with the entry's values, in order |
| PatternFormat.CompileCorrect | br_logger_core/src/formatters/pattern_formatter.cpp:17-337 | compiling a pattern and running the operations prints what a direct reading prints, for every pattern and entry |
| PatternFormat.CompileNormal | br_logger_core/src/formatters/pattern_formatter.cpp:17-132 | compiling never yields an empty literal or two literals side by side |
| PatternFormat.UnparseCompiles | br_logger_core/src/formatters/pattern_formatter.cpp:17-132 | compiling the pattern of a normal operation list returns that list |
| PatternFormat.NormalExactly | br_logger_core/src/formatters/pattern_formatter.cpp:17-132 | the compiler's results are exactly the normal lists |
| PatternFormat.Canonical | br_logger_core/src/formatters/pattern_formatter.cpp:17-132 | every pattern has a canonical form with the same operations and the same text |
| PatternMeaning.PlainText | br_logger_core/src/formatters/pattern_formatter.cpp:31-38 | text without percent signs prints itself, in front of any pattern |
| PatternMeaning.OtherPercents | br_logger_core/src/formatters/pattern_formatter.cpp:40-126 | a doubled percent sign is one, an unknown placeholder and a final percent sign are themselves |
| PatternMeaning.PlacedIn | br_logger_core/src/formatters/pattern_formatter.cpp:170-333 | a placeholder prints the same wherever it stands |
| PatternMeaning.GivenTexts | br_logger_core/src/formatters/pattern_formatter.cpp:178-291 | %m is the message, %k the thread name, %D and %T date and time |
| PatternMeaning.SourceTexts | br_logger_core/src/formatters/pattern_formatter.cpp:218-229 | %f, %F, %n and %N are file name, path, function and full function |
| PatternMeaning.NullPrintsNothing | br_logger_core/src/formatters/pattern_formatter.cpp:161-168 | a null pointer prints nothing |
| PatternMeaning.Numbers | br_logger_core/src/formatters/pattern_formatter.cpp:231-269 | %#, %t, %P and %q are the decimal line, thread id, process id and sequence id |
| PatternMeaning.SixDigits | br_logger_core/src/formatters/pattern_formatter.cpp:197-206 | %e is a point and six digits, the microseconds within the second |
| PatternMeaning.LevelTexts | br_logger_core/src/formatters/pattern_formatter.cpp:207-218 | %L is the level's name and %l its initial |
| PatternMeaning.ColorTexts | br_logger_core/src/formatters/pattern_formatter.cpp:293-331 | %C and %R are the level's colour and the reset, or nothing if colours are off |
| PatternMeaning.TagsPrinted | br_logger_core/src/formatters/pattern_formatter.cpp:271-289 | %g is nothing without tags, and otherwise the tags in order in brackets with bars between |
| PatternMeaning.TagsReadBack | br_logger_core/src/formatters/pattern_formatter.cpp:271-289 | from which the tags are read back, if they hold no separators |
| PatternWriter.PatternFormatter.constructor | br_logger_core/src/formatters/pattern_formatter.cpp:11-15 | a formatter with its pattern compiled |
| PatternWriter.PatternFormatter.CompilePattern | br_logger_core/src/formatters/pattern_formatter.cpp:17-132 | the loop over the pattern computes the operation list, which is normal |
| PatternWriter.AppendData | br_logger_core/src/formatters/pattern_formatter.cpp:144-159 | after appending, the buffer shows as much of the longer text as fits, terminated |
| PatternWriter.PatternFormatter.AppendField | br_logger_core/src/formatters/pattern_formatter.cpp:170-333 | each placeholder appends its own text |
| PatternWriter.PatternFormatter.Format | br_logger_core/src/formatters/pattern_formatter.cpp:134-337 | the buffer gets exactly the first min(length, buf_size - 1) characters of the directly read pattern, and a terminator |
| RotatingFiles.NamesDiffer | br_logger_core/src/sinks/rotating_file_sink.cpp:67-69 | file names of the family coincide if and only if their numbers do |
| RotatingWrites.FamilyNames | br_logger_core/src/sinks/rotating_file_sink.cpp:67-69 | the backups of app.log are app.log.1.log and so on |
| RotatingFiles.ShiftedSlot | br_logger_core/src/sinks/rotating_file_sink.cpp:57-76 | a rotation moves every file up by one, drops the last and frees the base name, whichever files exist |
| RotatingFiles.ShiftedOther | br_logger_core/src/sinks/rotating_file_sink.cpp:57-76 | and leaves every other file alone |
| RotatingFiles.RotatingFileSink.constructor | br_logger_core/src/sinks/rotating_file_sink.cpp:15-24 | a sink on whatever files exist |
| RotatingFiles.RotatingFileSink.OpenFile | br_logger_core/src/sinks/rotating_file_sink.cpp:36-55 | opens or creates the base file and takes over its size, or stays closed |
| RotatingFiles.RotatingFileSink.Rotate | br_logger_core/src/sinks/rotating_file_sink.cpp:57-80 | the rename loop performs that rotation and reopens |
| RotatingFiles.RotatingFileSink.Write | br_logger_core/src/sinks/rotating_file_sink.cpp:82-120 | one call is one step of the sink: filter, rotate if needed, append the record |
| RotatingHistory.RunHolds | br_logger_core/src/sinks/rotating_file_sink.cpp:36-120 | after any run every file holds exactly the records the archive says, and current_size_ is the base file's length |
| RotatingHistory.RunAll | br_logger_core/src/sinks/rotating_file_sink.cpp:82-120 | dropped and kept records together are all records, in order |
| RotatingHistory.Retention | br_logger_core/src/sinks/rotating_file_sink.cpp:57-120 | from any initial files and after any run, files max_files, ..., 1, base spell all records but the first k, cut at record boundaries |
| RotatingHistory.RotationDiscards | br_logger_core/src/sinks/rotating_file_sink.cpp:57-120 | byte for byte, a call appends its record and a rotation discards the old file max_files and nothing else |
| RotatingHistory.FileSizes | br_logger_core/src/sinks/rotating_file_sink.cpp:36-120 | with max_files >= 1 every file is within the limit or exactly one record, and an open sink's current_size_ is the base file's length |
| RotatingHistory.OthersUntouched | br_logger_core/src/sinks/rotating_file_sink.cpp:36-120 | no run creates, changes or removes a file outside the max_files + 1 names of the family |
| RotatingHistory.GrowsForever | br_logger_core/src/sinks/rotating_file_sink.cpp:65 | with max_files 0 the base file grows by every record |
| RotatingHistory.SizeKeptExactly | br_logger_core/src/sinks/rotating_file_sink.cpp:101-119 | a write keeps the base file within the limit or to its own record if and only if max_files >= 1, or the record fits, or the file was empty |
| RotatingWrites.WriteIgnored | br_logger_core/src/sinks/rotating_file_sink.cpp:84-99 | an entry below the level, an empty one, or one for a closed sink changes nothing |
| RotatingWrites.WriteFits | br_logger_core/src/sinks/rotating_file_sink.cpp:101-119 | a record with which the base file stays within the limit is appended to it, and no other file changes |
| RotatingWrites.WriteRotates | br_logger_core/src/sinks/rotating_file_sink.cpp:101-119 | another one starts a new base file, file k becomes file k + 1, and files outside the family stay |
| RotatingWrites.WriteCannotOpen | br_logger_core/src/sinks/rotating_file_sink.cpp:101-108 | if the new base file cannot be opened the files have moved and the sink is closed |
| RotatingWrites.WriteWithoutBackups | br_logger_core/src/sinks/rotating_file_sink.cpp:65-119 | with max_files 0 a record that does not fit is appended all the same |
| RotatingWrites.DropsOnlyWhenFull | br_logger_core/src/sinks/rotating_file_sink.cpp:101-119 | records are discarded only by a write that does not fit |
| RotatingWrites.FittingRunKeepsAll | br_logger_core/src/sinks/rotating_file_sink.cpp:82-120 | a run whose records fit the limit appends all of them to the base file and changes no other file |
| Text.ShouldLogExactly | br_logger_core/include/br_logger/sinks/sink_interface.hpp:34 | the level filter lets through the minimum level and those after it in the enumeration, and no other |
| MemorySink.AcceptedExactly | br_logger_core/src/sinks/ring_memory_sink.cpp:18-23 | an entry is kept if and only if its level is at or above the last one set |
| MemorySink.SinkRemembers | br_logger_core/src/sinks/ring_memory_sink.cpp:18-81 | after any run of Write and SetLevel, Size is min(accepted, capacity) and At(i) is the i-th oldest of the last Size accepted entries |
| MemorySink.RunHolds | br_logger_core/src/sinks/ring_memory_sink.cpp:18-30 | the same, from any ring state |
| MemorySink.RingMemorySink.Write | br_logger_core/src/sinks/ring_memory_sink.cpp:18-30 | records the entry if the level lets it through |
| MemorySink.RingMemorySink.Size | br_logger_core/src/sinks/ring_memory_sink.cpp:67 | the smaller of accepted entries and capacity |
| MemorySink.RingMemorySink.At | br_logger_core/src/sinks/ring_memory_sink.cpp:69-81 | the index-th oldest of the last accepted entries |
| Tags.MatchesExactly | br_logger_core/src/log_context.cpp:45-55 | a stored key matches the very same key only; a key that was cut on storing never matches again |
| Tags.StoredWhole | br_logger_core/src/log_context.cpp:53-57 | keys of up to 31 and values of up to 63 characters are stored whole, longer ones are not |
| Tags.RoomForTags | br_logger_core/src/log_context.cpp:58-151 | there is room for 16 global and 8 scoped tags |
| Tags.ScopesRestore | br_logger_core/src/log_context.cpp:140-173 | leaving any well-nested block of scopes with short keys and enough room restores the tags exactly, repeated keys included |
| Tags.ScopesAreLexical | br_logger_core/src/log_context.cpp:140-173 | inside every scope the thread has exactly the tags of the enclosing scopes, outermost first |
| Tags.ScopeRestoresExactly | br_logger_core/src/log_context.cpp:140-222 | one scope restores the tags if and only if it has no key, or was pushed with a key that fits, or was not pushed and no tag has its key |
| Tags.PopScopedExactly | br_logger_core/src/log_context.cpp:154-173 | leaving a scope removes the last tag with its key: the last tag of all takes its place, and every other one stays where it is |
| Tags.NinthScopePops | br_logger_core/src/log_context.cpp:140-173 | on a full list a scope that repeats an enclosing key pushes nothing and, when left, removes the last tag with that key |
| Tags.AllRestoreExactly | br_logger_core/src/log_context.cpp:140-222 | for every block, with any keys, values and depth, all scopes restore if and only if each meets that condition among its enclosing scopes' tags |
| Tags.SetGlobalIsMapSet | br_logger_core/src/log_context.cpp:36-59 | for a key that fits, SetGlobalTag is setting a key of a bounded map to the cut value; new keys are ignored when it is full |
| Tags.RemoveGlobalIsMapRemove | br_logger_core/src/log_context.cpp:61-81 | for every key, RemoveGlobalTag is removing it from the map, despite the swap with the last tag |
| Tags.RemoveGlobalExactly | br_logger_core/src/log_context.cpp:61-81 | it removes the first tag with the key: the last tag of all takes its place, and every other one stays where it is |
| Tags.MissingKeyStays | br_logger_core/src/log_context.cpp:61-173 | a key no tag has removes nothing |
| Tags.SetGlobalExactly | br_logger_core/src/log_context.cpp:36-59 | SetGlobalTag changes the value of the first tag with the key, or appends a new tag if there is room |
| Tags.UniqueExactly | br_logger_core/src/log_context.cpp:36-59 | SetGlobalTag keeps keys unique if and only if not (the key is too long, there is room, and its cut form is in use) |
| Tags.LongKeyTwice | br_logger_core/src/log_context.cpp:36-59 | setting a key of 32 or more characters twice leaves two tags with one key |
| Tags.GlobalsRefineMap | br_logger_core/src/log_context.cpp:36-81 | any run of calls with short keys keeps keys unique and is a run of the bounded map |
| LogContext.FixedVector.PushBack | br_logger_core/include/br_logger/fixed_vector.hpp:12-17 | appends if and only if there is room |
| LogContext.FixedVector.PopBack | br_logger_core/include/br_logger/fixed_vector.hpp:19-24 | drops the last element if and only if there is one |
| LogContext.FixedVector.Clear | br_logger_core/include/br_logger/fixed_vector.hpp:38 | empties the vector |
| LogContext.LogContext.SetGlobalTag | br_logger_core/src/log_context.cpp:36-59 | the search loop and update perform Tags.SetGlobal |
| LogContext.LogContext.RemoveGlobalTag | br_logger_core/src/log_context.cpp:61-81 | performs Tags.RemoveGlobal |
| LogContext.LogContext.PushScopedTag | br_logger_core/src/log_context.cpp:140-152 | performs Tags.PushScoped |
| LogContext.LogContext.PopScopedTag | br_logger_core/src/log_context.cpp:154-173 | performs Tags.PopScoped |
| LogContext.LogContext.FillTags | br_logger_core/src/log_context.cpp:175-200 | fills in exactly the first BR_LOG_MAX_TAGS of the global tags followed by the thread's |

## Left out

- Weak memory: atomics are sequentially consistent steps. The acquire/release pairs on `sequence` are what would justify that and are not modelled.
- MpscWrap.RejectExact: about the unbounded machine on a fresh snapshot, like MpscSafety.FalseMeansFull; there the code runs alike (MpscCode.CodeRefines). What the comparison answers on older snapshots is not described.
- MpscCode.CodeFifo: what is delivered after a harmful compare-exchange is not described.
- LogDelivery.Accounting: sequence_ and drop_count_ are unbounded (64 bits in the code), and ResetDropCount is not modelled.
- LogDelivery.StopDelivers: that Stop ends is shown for producers that stand still inside TryPush or stay outside; LogDelivery.StopServes has no such condition but does not say that Stop ends. Start and Drain take effect only while nothing else consumes, the single-consumer discipline the code asks of its callers.
- RingObject.RingBuffer.TryPush: the source's loop has no limit; the model follows it for a given number of reloads and then reports that it spins.
- Back-off in the worker loop (spin, yield, sleep): timing only.
- JsonRoundTrip.EntryRoundTrip: the time stamp's text is an argument, required to hold no quote, backslash or control character; clocks and time zones are not modelled. Characters above 0x1F pass unescaped, as in the code.
- PatternWriter.PatternFormatter.Format: the local date and time texts are arguments; decimal text is computed.
- LogMessage.PrintedConsistentExactly: what snprintf prints is an argument; the formatters' results are about the msg_len characters an entry holds, which presupposes a consistent length.
- RotatingFiles.RotatingFileSink.Write: takes the formatted text; writes are whole, renames and removals succeed, nobody else touches the files; only open() may fail. File descriptors, fsync, short writes and size_t overflow of the size are not modelled.
- RotatingHistory.FileSizes: text found in a file when the sink starts counts as one record.
- LogContext.LogContext.SetGlobalTag: the calls are atomic, as under the mutex; one thread's scoped tags are modelled, since they are thread-local.
- MemorySink.RingMemorySink.Write: with capacity 0 only entries that the level filters out may be written; the code divides by the capacity otherwise. DumpToFile is not modelled.
- DailyFileSink: mostly calendar, directory scan and unlink calls.
- Console, callback and UART sinks, AddSink, the logger's level macros, thread and process ids, version strings: thin wrappers or platform calls.
- The ROS2 package, examples and benchmarks: wrappers over other libraries.
