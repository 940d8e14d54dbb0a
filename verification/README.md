# Models and proofs for a native plugin support library

This project models the self-contained parts of the library that carry real invariants and proves
properties of them. Check it with `dafny verify dfyconfig.toml` (Dafny 4.11).

| module | models | how |
|---|---|---|
| `Hash` | case folding, `stricmp`, `iequal_to`, the FNV-1 and FNV-1a hashers | bytes and 64-bit words as bit-vectors; the loops are methods proved against functions |
| `StringPool`, `StringPoolCounts`, `StringPoolLeaks`, `StringPoolOutcomes`, `StringPoolSafety`, `StringPoolRaces`, `StringPoolViolations` | the interned, reference-counted strings behind `fixed_string` | a step system over every interleaving of any number of threads |
| `WorkerPool` | the blocking queue, the pump threads, `Start` and `Stop` | a step system with a mutex, a waiter set and notifications |
| `Barrier` | `RunConcurrentTasks` | a step system |
| `IniSyntax`, `IniRoundTrip`, `IniLaws`, `IniStore`, `IniReader` | the INI parser, its store and its reader object | functions for what lines mean, a printer, laws in the bytes of a line, and the parser itself on one buffer it cuts in place |
| `AddressEncoding`, `VersionDb` | the delta-coded address database | an encoder, a decoder function, and the object that loads a file |
| `Ordered`, `SortedMap`, `SortedSet` | the map and the set kept as sorted vectors | binary search and objects with a mathematical map or set as contents |
| `VectorMap` | the map that also keeps its nodes in a vector | objects with node identities |
| `Words`, `Flags` | flag sets printed and parsed | words as sets of bit positions |
| `TaskQueue` | the re-entrant task queue and its budgeted variant | objects with a history of what ran |
| `Counting`, `Options` | sums over sequences; optional values | helpers |

## How the concurrent parts are modelled

Each access to shared state is one step: an atomic decrement, taking or giving back a lock, reading a
count, changing the pool, overwriting a handle's pointer. A state is a value and a run is any sequence
of enabled steps, so a statement about all runs covers every interleaving. Entry identities of the
string pool are positions in a heap that only grows, so none is ever reused.

Callers keep the language's own rule: no thread writes a handle that another thread is using, and none
reads one that another is writing (`StringPool.CanBegin`). Different handles to the same entry are shared
freely.

Three things hold in every run of the string pool whatever: exact counts, a pool without equal keys
(`StringPoolCounts.CountsAlwaysExact`), and no leak (`StringPoolLeaks.NoLeakAlways`,
`StringPoolLeaks.QuiescentAlways`). Unless the process halts every operation returns, and whatever all other
threads do meanwhile it then has done to its own handles what it is for
(`StringPoolOutcomes.OperationsReturn`, `StringPoolOutcomes.OperationOutcome`).

Handle safety, and that the HALT is never reached, need a hypothesis: an entry is not driven to zero
again while an earlier releaser of the same entry is still pending (`StringPoolSafety.Undisturbed`). A run
that respects it at every step is safe (`StringPoolSafety.ReachedStatesAreSafe`). The first step that breaks
it leaves two threads on their way to erase one entry (`StringPoolSafety.StepKeepsExactly`). That alone is
not a failure yet, but from every such step there is a continuation that halts the process, and one that
leaves a handle at rest outside the pool (`StringPoolViolations.ViolationCanHalt`,
`StringPoolViolations.ViolationCanUnseat`). So these failures are reachable from exactly the states from
which some run breaks the hypothesis (`StringPoolViolations.FailsExactly`), and from a fresh pool exactly
when at least two threads use it (`StringPoolViolations.FreshPoolFailsExactly`).

## What the proofs found

* Two threads are enough to break the string pool. `release` erases by key (ext/StringCache.cpp:44), not
  by identity, so a late releaser can erase a fresh entry of the same text under a live handle, and two
  pending releasers of one entry reach the HALT. A pool used by a single thread never does either
  (`StringPoolViolations.FreshPoolFailsExactly`, `StringPoolRaces.HypothesisIsNeeded`).
* `RunConcurrentTasks` notifies without the mutex (ext/TaskQueue.cpp:78-79), on a condition variable of the
  caller's own frame. Both resulting failures can happen in every call with a task and a free pump thread,
  and in no other: the notification can fall between the caller's test of the counter and its wait and
  leave it waiting for ever (`Barrier.MissedExactly`), and it can come after the caller has returned
  (`Barrier.LateExactly`). In a given schedule without spurious wake-ups the caller returns exactly if there
  was a free pump thread, or nothing to do, and the notification was not missed
  (`Barrier.ReturnsUnlessMissed`). Without a free pump thread, as in a pool never started or in a call from
  its only thread, a call with a task never returns (`Barrier.ReturnsExactly`).
* `Stop` of a pool with a thread leaves every task that was queued before processed. Without threads it
  returns at once, and a task that is still queued then stays in the queue
  (`WorkerPool.StopWithoutThreads`). So it drains exactly if there is a thread or nothing but markers is
  queued (`WorkerPool.DrainsExactly`).
* A value that begins with a comment character is not a comment even after a blank, because skipping the
  blank forgets that there was white space (`IniRoundTrip.SpacedPair`), although inline comments are
  described as starting after white space. The values that survive are exactly those without surrounding
  white space and without a comment character after white space inside them
  (`IniRoundTrip.SurvivesExactly`); a further line of a value must besides not be empty or begin with a
  comment character (`IniRoundTrip.MoreLine`).
* For consecutive flags the integer cast compares bounds only and accepts values without a name, such as
  3 for the flags 2 and 4. The values with a name are exactly those it accepts that have no bit below the
  lowest flag (`Flags.DenseCast`, `Flags.CastAcceptsNameless`).
* When the version of the executable cannot be read, `Load` returns false before it clears anything
  (ext/versiondb.h:155-163). Every other call that returns false leaves nothing to be found, so this holds
  exactly if the version was readable or the database was empty (`VersionDb.VersionDb.LoadOwn`).
* Assigning a `vectormap` to itself empties it, because it clears first (`VectorMap.VectorMap.Assign`).
* Folded characters are sign-extended before they are mixed into the hash, so outside ASCII the result can
  differ from the published one (section 2 of draft-eastlake-fnv). On ASCII it never does
  (`Hash.AsciiIsStandard`), with exactly one byte outside ASCII it always does (`Hash.OneByteOutsideAscii`),
  and with two the effects can cancel (`Hash.TwoBytesCanAgree`). The two hashes of a string that is not
  ASCII agree exactly if, before its last byte outside ASCII, the running hashes differ in all bits above
  the lowest eight and in no other (`Hash.AgreesExactly`).

## Model

| member | source | states |
|---|---|---|
| `Hash.StriCmp` | ext/Hash.h:85-104 | the comparison loop returns zero exactly if the C strings end together with the same letter at each place, and a negative or positive number exactly if, at the first place where they differ, the left or the right one comes first; same letter means equal bytes, or bytes 0x20 apart with the smaller in 0x41..0x5A or in 0xC0..0xDE other than 0xD7, and bytes compare with every letter in upper case |
| `Hash.IEqualTo` | ext/Hash.h:187-198 | `iequal_to` answers whether the sizes agree and the C strings have the same letter at each place |
| `Hash.FoldIsCase` | ext/Hash.h:69-75 | two characters fold alike exactly if they are the same letter, and the fold orders them as said there |
| `Hash.TextOrder` | ext/Hash.h:85-104 | folded C strings are equal, or in lexicographic order, exactly as their bytes say |
| `Hash.IEqualExactly` | ext/Hash.h:187-198 | NUL-free strings are equal ignoring case if and only if their sizes agree and at each place the bytes are the same letter |
| `Hash.IEqualNulFree` | ext/Hash.h:187-198 | on NUL-free strings that is equality of the folded strings, hence an equivalence |
| `Hash.IcaseHash` | ext/Hash.h:316-328 | the hashing loop computes the fold of its round over all folded, sign-extended bytes |
| `Hash.EqualImpliesSameHash` | ext/Hash.h:187-405 | strings equal under `iequal_to` have equal hashes, for FNV-1, FNV-1a and any other round |
| `Hash.PrimeInverse` | ext/Hash.h:247-248 | multiplying by the prime is undone, modulo 2^64, by multiplying by a fixed word |
| `Hash.OneByteNeverCollides` | ext/Hash.h:316-405 | under a lossless round, strings of equal length whose folded bytes differ in exactly one place never hash alike |
| `Hash.FnvNeverCollides` | ext/Hash.h:316-405 | both FNV variants are such rounds, so they never collide there |
| `Hash.OneLetterHashes` | ext/Hash.h:316-405 | the two hashes of `a`, which are those of `A`, as numbers |
| `Hash.AsciiIsStandard` | ext/Hash.h:393-405 | on ASCII the hash is the published one of the folded string, under any round |
| `Hash.LastByteDecides` | ext/Hash.h:316-405 | for any string that is not ASCII the two hashes agree exactly when their running hashes meet at the last byte outside ASCII |
| `Hash.OneByteOutsideAscii` | ext/Hash.h:393-405 | with exactly one byte outside ASCII the hash is never the published one |
| `Hash.AgreesExactly` | ext/Hash.h:393-405 | FNV-1a agrees with the published hash exactly when, before the last byte outside ASCII, the running hashes differ in all bits above the octet and no other |
| `Hash.TwoBytesCanAgree` | ext/Hash.h:393-405 | after the byte 0xA5, any second byte outside ASCII makes the two hashes agree again |
| `StringPoolCounts.ShapeStays` | ext/StringCache.h:264-343 | every step of every run keeps pointers within the entries created and operations on one handle apart |
| `StringPoolCounts.StepAlways` | ext/StringCache.cpp:25-72 | every step, whatever other releasers are pending, keeps every count equal to the number of owning handles and the pool without equal keys |
| `StringPoolCounts.CountsAlwaysExact` | ext/StringCache.h:264-301 | in every state of every interleaving each count is exactly the number of live handles that own the entry, and no two pool entries have equal keys |
| `StringPoolLeaks.UncountedHasReleaser` | ext/StringCache.cpp:54-66 | whenever the lock is free, a pool entry with count zero has a pending releaser |
| `StringPoolLeaks.NoLeakAlways` | ext/StringCache.cpp:50-72 | and that holds in every state of every interleaving, with no hypothesis |
| `StringPoolLeaks.QuiescentAlways` | ext/StringCache.cpp:13-23 | after any run, when no operation is in progress, the pool holds the permanent entry and otherwise only entries of live handles, counted once per handle; all of them exactly when no handle was unseated |
| `StringPoolOutcomes.OperationOutcome` | ext/StringCache.h:255-343 | in every interleaving, when an operation returns, a copied or moved-to handle has the pointer its source had, a copied-from handle keeps its pointer and a moved-from one is empty, a reset handle is empty, a destructed one is gone, a set one points to an entry with an equal key, and no thread is writing the handle |
| `StringPoolOutcomes.OperationsReturn` | ext/StringCache.cpp:50-72 | each thread takes boundedly many steps in an operation, and when no thread can go on every operation has returned, unless the process has halted |
| `StringPoolOutcomes.TextsAreGiven` | ext/StringCache.cpp:25-39 | after any run from a fresh pool each entry but the permanent one has, byte for byte, a text that was given to a `set`, and the permanent one is empty; no entry ever changes its text |
| `StringPoolSafety.StepKeepsExactly` | ext/StringCache.cpp:50-72 | a step keeps the whole invariant, which includes that at most one thread is on its way to erase an entry, if and only if it does not drive an entry to zero under a pending releaser |
| `StringPoolSafety.RunSafeExactly` | ext/StringCache.cpp:41-72 | the whole invariant holds throughout a run if and only if the run makes no such step |
| `StringPoolSafety.ReachedStatesAreSafe` | ext/StringCache.h:264-301 | then a handle at rest points into the pool, is among the counted owners, and the process has not halted |
| `StringPoolSafety.QuiescentPool` | ext/StringCache.cpp:13-23 | after a run without such a step, when no operation is in progress, the pool is exactly the permanent entry and the entries of the live handles |
| `StringPoolSafety.PointerEquality` | ext/StringCache.h:403-408 | two handles hold the same pointer exactly when their NUL-free strings are equal ignoring case: the same size, and the same letter at each place |
| `StringPoolSafety.LessIsOrder` | ext/StringCache.h:411-437 | `operator<` says that the left text comes first at the first place where the two differ in more than case |
| `StringPoolSafety.HandleOrder` | ext/StringCache.h:411-437 | `operator<` is a strict order on handles at rest, transitive and asymmetric, whose ties are exactly pointer equality |
| `StringPoolRaces.SetAlone` | ext/StringCache.h:494-506 | `set_impl` run alone on an empty handle makes it the owner of the one entry with an equal key, found or inserted |
| `StringPoolRaces.SecondReleaserHalts` | ext/StringCache.cpp:41-48 | from any state with two releasers pending on one uncounted entry there is a run that halts |
| `StringPoolRaces.LateReleaserUnseats` | ext/StringCache.cpp:41-48 | a pending releaser whose key now finds another entry erases that entry under the handle that owns it |
| `StringPoolRaces.HypothesisIsNeeded` | ext/StringCache.cpp:50-72 | any two threads can reach the halt from a fresh pool |
| `StringPoolViolations.ViolationCanHalt` | ext/StringCache.cpp:41-72 | from every step that drives an entry to zero under a pending releaser, wherever all other threads stand, there is a continuation that halts the process |
| `StringPoolViolations.ViolationCanUnseat` | ext/StringCache.cpp:41-72 | and one that leaves a handle at rest pointing outside the pool |
| `StringPoolViolations.FailsExactly` | ext/StringCache.cpp:41-72 | from a state of the invariant the halt is reachable, and so is a handle at rest outside the pool, if and only if some run makes such a step |
| `StringPoolViolations.FreshPoolFailsExactly` | ext/StringCache.cpp:13-72 | from a fresh pool each of the two is reachable if and only if at least two threads use it |
| `WorkerPool.StepKeeps` | ext/queue.h:14-58 | every step of pumps, clients and controller keeps order, conservation, mutual exclusion, the notification bound and the marker balance |
| `WorkerPool.ReachableInv` | ext/workerpool.h:73-139 | the invariant holds in every reachable state |
| `WorkerPool.EachSubmissionIsQueued` | ext/queue.h:14-33 | in every run each call that adds a task has queued exactly one task, or has not inserted it yet |
| `WorkerPool.StartCreates` | ext/workerpool.h:73-83 | in every interleaving `Start` of n threads can go on until it returns, and then there are n threads more |
| `WorkerPool.NoLostWakeup` | ext/queue.h:14-58 | with a consumer asleep and the mutex free, queued items are at most pending notifications plus woken consumers, so someone is about to wake or to take an item |
| `WorkerPool.ShutdownDrains` | ext/workerpool.h:86-98 | when `Stop` returns from at least one thread, every task queued before it began has been processed exactly once, no marker is left and every pump has ended |
| `WorkerPool.DrainsExactly` | ext/workerpool.h:86-98 | when `Stop` returns, each task queued before it began has been processed once if and only if there was a thread or only markers were still queued |
| `WorkerPool.StopWithoutThreads` | ext/workerpool.h:86-98 | a run in which a task is pushed, `Stop` returns, and the task is still queued and unprocessed |
| `WorkerPool.ProcessedAtMostOnce` | ext/workerpool.h:126-139 | at no time in any run has a task been processed twice, or before it was taken out |
| `WorkerPool.StopNeverStuck` | ext/workerpool.h:86-98 | until `Stop` returns some thread can take a step |
| `WorkerPool.StopReturns` | ext/workerpool.h:86-98 | left to themselves the threads take boundedly many steps, and when none can go on `Stop` has returned |
| `Barrier.CounterIsExact` | ext/TaskQueue.cpp:68-80 | the counter is the number of closures that incremented it, each after its body ended; exactly one notification is issued in the end; never more closures are in progress than there are free pump threads |
| `Barrier.ReturnsAfterAll` | ext/TaskQueue.cpp:53-84 | the caller returns only after every listed task ran to its end exactly once |
| `Barrier.ReturnsUnlessMissed` | ext/TaskQueue.cpp:78-83 | when no thread can go on, and without spurious wake-ups, the caller has returned exactly if there was a free pump thread or no task, and the notification did not fall between its test and its wait |
| `Barrier.MissedExactly` | ext/TaskQueue.cpp:78-83 | a run that leaves the caller waiting for ever because it missed the notification exists if and only if there is a task and a free pump thread |
| `Barrier.LostExactly` | ext/TaskQueue.cpp:53-83 | a run that leaves it waiting for ever for any reason exists if and only if there is a task |
| `Barrier.ReturnsExactly` | ext/TaskQueue.cpp:53-83 | a run in which the caller returns exists if and only if there is a free pump thread or no task |
| `Barrier.LateExactly` | ext/TaskQueue.cpp:78-83 | a run in which the caller has returned while the notification is still to come exists if and only if there is a task and a free pump thread |
| `IniSyntax.ErrorIsFirst` | ext/INIReader.cpp:80-155 | the reported error is the number of the first malformed line, or zero when there is none |
| `IniSyntax.QuietLineChangesNothing` | ext/INIReader.cpp:91-109 | a blank or comment-only line anywhere, even inside a multi-line value, changes nothing that is emitted; a later error moves by one |
| `IniRoundTrip.ParsePrinted` | ext/INIReader.cpp:80-149 | parsing a printed document adds no error and emits exactly its section, name and value triples in order, whichever separator and indentation the writer chose for each |
| `IniRoundTrip.SurvivesExactly` | ext/INIReader.cpp:136-142 | a value is taken over unchanged if and only if it has no surrounding white space and no comment character after white space inside it |
| `IniRoundTrip.MoreLine` | ext/INIReader.cpp:91-112 | a further line of a value, indented with a blank, a tab or other white space, is read back if and only if it is not empty, has no surrounding white space and no inline comment, and does not begin with a comment character |
| `IniRoundTrip.PairText` | ext/INIReader.cpp:126-142 | a name and a value next to a `=` or a `:` are read back if and only if the value survives |
| `IniRoundTrip.SpacedPair` | ext/INIReader.cpp:126-142 | a value after a blank or a tab is taken whole even if it begins with a comment character |
| `IniRoundTrip.StepPair` | ext/INIReader.cpp:144-149 | a name is reported whatever its size, and is open for further lines exactly below 128 characters |
| `IniRoundTrip.StepHeader` | ext/INIReader.cpp:113-120 | a section line opens its section, or the empty section from 128 characters on |
| `IniLaws.LineKind` | ext/INIReader.cpp:91-155 | by the first byte that is not white space a line emits nothing (0x3B or 0x23), continues the open value if it is indented, is a section line (0x5B), malformed exactly if no 0x5D comes before an inline comment, or is a name line, malformed exactly if neither 0x3D nor 0x3A does |
| `IniLaws.BlankLine` | ext/INIReader.cpp:91-155 | a line of white space only emits nothing |
| `IniLaws.QuietExactly` | ext/INIReader.cpp:91-95 | blank and comment lines are those without a byte other than white space and those where the first such byte is 0x3B or 0x23 |
| `IniLaws.MarkIsSkipped` | ext/INIReader.cpp:84-90 | with the bytes 0xEF 0xBB 0xBF before the first line everything comes out as without them |
| `IniLaws.MarkedDocument` | ext/INIReader.cpp:84-90 | so a printed document reads back with a byte-order mark |
| `IniStore.StoreRefinesList` | ext/INIReader.cpp:332-348 | after any handler calls a lookup gives what was there joined, in input order, with all values emitted for that section and name ignoring case |
| `IniStore.LookupAfterParse` | ext/INIReader.cpp:219-230 | after a parse a lookup is the newline-join of the matching values, and absent exactly when there are none |
| `IniStore.JoinMore` | ext/INIReader.cpp:332-348 | each further value is joined on after one line feed |
| `IniStore.PrintedDocumentReadsBack` | ext/INIReader.cpp:80-348 | a printed well-formed document parses without error and every original value is found again |
| `IniReader.RStripInPlace` | ext/INIReader.cpp:8-14 | strips the C string in the buffer and writes nowhere else |
| `IniReader.LSkipFrom` | ext/INIReader.cpp:17-22 | finds the first character that is not white space |
| `IniReader.FindCharsOrComment` | ext/INIReader.cpp:27-42 | finds the first wanted character or inline comment, or the terminator |
| `IniReader.CutComment` | ext/INIReader.cpp:101-104 | cuts the C string at an inline comment and strips it, writing nowhere else |
| `IniReader.ReadHeader` | ext/INIReader.cpp:113-125 | reads a section line, or finds it malformed |
| `IniReader.ReadPair` | ext/INIReader.cpp:126-149 | reads name and value of a line out of the one buffer, or finds it malformed |
| `IniReader.FindText` | ext/INIReader.cpp:83-91 | where the text of a line begins after white space and, on the first line, after the three bytes of a byte-order mark |
| `IniReader.FGets` | ext/INIReader.cpp:80-80 | what the line reader leaves in the buffer |
| `IniReader.LinesOfText` | ext/INIReader.cpp:80-80 | reading a file line by line gives the lines it was written with |
| `IniReader.PrintsFileLines` | ext/INIReader.cpp:80-80 | a document prints to lines of a file if and only if its sections, names and values hold no NUL and no line feed and are short enough |
| `IniReader.FileReadsBack` | ext/INIReader.cpp:53-162 | the round trip of such a document through the text of a file |
| `IniReader.MarkedFileReadsBack` | ext/INIReader.cpp:53-162 | and with a byte-order mark before the text of the file everything comes out the same |
| `IniReader.INIReader.ValueHandler` | ext/INIReader.cpp:332-348 | stores a value or appends it after a newline |
| `IniReader.INIReader.Get` | ext/INIReader.cpp:219-230 | finds the value of a section and name ignoring case, or nothing |
| `IniReader.INIReader.Exists` | ext/INIReader.cpp:314-325 | whether there is one |
| `IniReader.INIReader.RemoveSection` | ext/INIReader.cpp:327-330 | afterwards nothing is found under the section and all else is as before |
| `IniReader.INIReader.ParseLine` | ext/INIReader.cpp:80-149 | one turn of the loop, on the buffer in place, does exactly what the line means |
| `IniReader.INIReader.ParseStream` | ext/INIReader.cpp:53-162 | the loop over a stream fills the store with what the lines emit and reports the first error |
| `IniReader.INIReader.Load` | ext/INIReader.cpp:190-196 | loads once; a file that cannot be opened is error -1 and stores nothing |
| `AddressEncoding.NumberOfBytes` | ext/versiondb.h:26-32 | the tape holds the little-endian bytes of a number exactly when reading there yields it |
| `AddressEncoding.CodableIs` | ext/versiondb.h:234-271 | a mode yields a value from an operand in its range exactly when its side condition holds and the operand is the one named |
| `AddressEncoding.RecordReads` | ext/versiondb.h:230-312 | the tape holds the encoding of a valid record exactly when the decoder reads that record |
| `AddressEncoding.DecodeEncoded` | ext/versiondb.h:228-318 | decoding any valid encoding enters exactly its records in order |
| `AddressEncoding.DecodedWasEncoded` | ext/versiondb.h:228-318 | whatever decodes is the valid encoding of some records |
| `AddressEncoding.DecodeInvertsEncode` | ext/versiondb.h:217-320 | the decoder succeeds exactly on valid encodings, with the index their records give |
| `AddressEncoding.BytesAreNumber` | ext/versiondb.h:26-32 | a number of four or eight bytes is the sum of its bytes, the lowest first |
| `AddressEncoding.DecodeFollowsBytes` | ext/versiondb.h:228-317 | the decoder enters the id and the offset that the bytes of the record say, mode by mode, and goes on after them |
| `AddressEncoding.DecodeStopsExactly` | ext/versiondb.h:265-273 | it stops at a record exactly if the low half of the type byte is above 7, or the record is scaled by a pointer size of zero |
| `AddressEncoding.ScaledDelta` | ext/versiondb.h:273-312 | a scaled record in a mode from 1 to 5 adds its delta times the pointer size, modulo 2^64, to the last multiple of the pointer size at or below the previous offset, hence to the offset itself if that is a multiple |
| `AddressEncoding.ScaledStep` | ext/versiondb.h:273-312 | with pointers of eight bytes, the type byte 0x91 after id 1 at offset 16 is id 2 at offset 24 |
| `AddressEncoding.LastWriteWins` | ext/versiondb.h:314-314 | the index holds the offset of the last record of each id, and nothing for ids without one |
| `AddressEncoding.PlainIsValid` | ext/versiondb.h:236-238 | spelling every id and offset out is a valid encoding of any list |
| `AddressEncoding.ScaledOffset` | ext/versiondb.h:311-312 | a scaled record reaches every multiple of the pointer size |
| `VersionDb.LoadReadsFile` | ext/versiondb.h:187-320 | loading a valid file rebuilds its version and index |
| `VersionDb.LoadedWasFile` | ext/versiondb.h:187-320 | whatever loads is a valid file of the wanted format |
| `VersionDb.LoadsExactlyFiles` | ext/versiondb.h:187-320 | so loading succeeds exactly on these |
| `VersionDb.EveryListHasAFile` | ext/versiondb.h:217-238 | every list of mappings can be stored in a valid file |
| `VersionDb.ReadDelta` | ext/versiondb.h:234-271 | one mode switch reads the operand its mode calls for and refuses exactly the modes above 7 |
| `VersionDb.ReadRecord` | ext/versiondb.h:228-317 | one turn of the decode loop reads the id and offset that the bytes of the record say; it refuses exactly a low half of the type byte above 7, divides by zero exactly on a scaled record with a pointer size of zero, and never reaches the exception of the offset switch |
| `VersionDb.VersionDb.ReadRecords` | ext/versiondb.h:228-320 | the decode loop computes the decoder function, and clears everything on a bad mode |
| `VersionDb.VersionDb.Load` | ext/versiondb.h:165-321 | a call that returns false leaves the index empty, the base zero and every address null; the throw is unreachable |
| `VersionDb.VersionDb.LoadOwn` | ext/versiondb.h:155-163 | an unreadable version changes nothing; a call that returns false leaves the database empty if and only if the version was readable or it was empty before |
| `VersionDb.VersionDb.FindAddressById` | ext/versiondb.h:68-79 | null without a base or an entry, otherwise base plus offset modulo 2^64 |
| `VersionDb.VersionDb.FindOffsetById` | ext/versiondb.h:81-90 | the offset of an id if there is one |
| `Ordered.UpperBound` | ext/Map.h:364-372 | the binary search lands where the elements begin to satisfy the comparison |
| `Ordered.UpperBoundIsLower` | ext/Map.h:64-72 | under `less_equal` that is the first key not below, the only place where the key can be |
| `Ordered.InsertKeepsAscending` | ext/Map.h:283-301 | inserting an absent key there keeps the keys strictly ascending |
| `Ordered.AscendingIsCanonical` | ext/Set.h:231-250 | equal sets of keys have one ascending form |
| `SortedMap.FirstWins` | ext/Map.h:303-341 | of several pairs with a key the first counts, and a key already there keeps its value |
| `SortedMap.RepresentsToMap` | ext/Map.h:279-280 | with distinct keys, representing a map is being its list of pairs |
| `SortedMap.SortedIsCanonical` | ext/Map.h:380-400 | a map has one sorted form for an order |
| `SortedMap.SortedMap.Find` | ext/Map.h:105-115 | finds the pair of a key or the end |
| `SortedMap.SortedMap.Contains` | ext/Map.h:117-120 | whether the key is in the map |
| `SortedMap.SortedMap.TryEmplace` | ext/Map.h:283-301 | keeps the order; enters the pair only if the key is absent |
| `SortedMap.SortedMap.InsertOrAssign` | ext/Map.h:343-362 | keeps the order; the pair is in the map afterwards and all else is as before |
| `SortedMap.SortedMap.Erase` | ext/Map.h:223-227 | keeps the order; exactly the key is gone |
| `SortedMap.SortedMap.Index` | ext/Map.h:254-257 | the value of a key, entered with a default if absent |
| `SortedMap.SortedMap.At` | ext/Map.h:259-277 | the value of a key, or the error |
| `SortedMap.SortedMap.InsertAll` | ext/Map.h:205-211 | enters pairs in turn, the first of each key counting |
| `SortedMap.SortedMap.Load` | ext/Map.h:386-400 | whatever order the archive was saved under, the same map comes back, sorted by this one |
| `SortedSet.SortedSet.Find` | ext/Set.h:70-74 | finds the key or the end |
| `SortedSet.SortedSet.Emplace` | ext/Set.h:182-217 | keeps the order; adds the key unless it is there |
| `SortedSet.SortedSet.Erase` | ext/Set.h:155-159 | keeps the order; removes exactly the key |
| `SortedSet.SortedSet.Load` | ext/Set.h:236-250 | whatever order the archive was saved under, the same set comes back, sorted by this one |
| `VectorMap.PermutationMatches` | ext/Vector.h:225-229 | any rearrangement of the vector still holds the map's nodes once each |
| `VectorMap.VectorMap.Emplace` | ext/Vector.h:99-109 | a new node goes into the map and to the end of the vector; an existing key changes nothing |
| `VectorMap.VectorMap.Erase` | ext/Vector.h:123-136 | removes the node of the key from both and keeps the others in order |
| `VectorMap.VectorMap.Assign` | ext/Vector.h:63-73 | copying gives fresh nodes with the same keys and values in the same order; assigning a map to itself empties it |
| `VectorMap.VectorMap.SortVec` | ext/Vector.h:225-229 | only rearranges the vector, into order under any strict weak ordering of keys and values |
| `Flags.Values` | ext/magic_enum.hpp:430-448 | the flags are exactly the named single-bit values, ascending, with distinct names |
| `Flags.EnumName` | ext/magic_enum.hpp:924-947 | prints the names of the flags a value shares bits with, or nothing if they do not make it up |
| `Flags.PrintedInOrder` | ext/magic_enum.hpp:924-947 | a name begins with the lowest flag of the value; a bar and the name of the other flags follow if there are others |
| `Flags.EnumCast` | ext/magic_enum.hpp:999-1028 | the parsing loop computes the parser function |
| `Flags.AcceptsExactlySpellings` | ext/magic_enum.hpp:999-1028 | a text is accepted exactly when it joins declared names, in any order and with repeats, perhaps with a bar at the end, and the result is their union |
| `Flags.PrintedParsesBack` | ext/magic_enum.hpp:924-1028 | a value has a name exactly when it is a non-zero union of flags, and the name parses back to it |
| `Flags.IntegerCast` | ext/magic_enum.hpp:969-995 | with gaps between flags the cast accepts exactly the values with a name, without gaps exactly those within the bounds |
| `Flags.DenseCast` | ext/magic_enum.hpp:986-991 | without gaps the values with a name are exactly those within the bounds that have no bit below the lowest flag |
| `Flags.CastAcceptsNameless` | ext/magic_enum.hpp:986-991 | of the flags 2 and 4 the cast accepts 3, which has no name |
| `TaskQueue.ProcessOneMore` | ext/ITasks.cpp:15-21 | taking one more task, with others added while it runs, keeps arrival order |
| `TaskQueue.ProcessedConserves` | ext/ITasks.cpp:4-23 | no task is lost, duplicated or invented |
| `TaskQueue.EarlierIsPrefix` | ext/ITasks.cpp:25-51 | a budgeted call runs a prefix of what draining would run, and draining has one outcome |
| `TaskQueue.OverBudgetFromThenOn` | ext/ITasks.cpp:46-49 | under a clock that does not go back, once more microseconds than the budget have passed since the first reading, more have at every later reading |
| `TaskQueue.ElapsedWithin` | ext/PerfCounter.h:46-51 | the elapsed time is within the budget exactly if the ticks since the first reading times 1000000 are less than the budget plus one times the frequency, or for a negative budget at most the budget times the frequency |
| `TaskQueue.ShiftedClock` | ext/ITasks.cpp:25-51 | a clock with all readings shifted by a constant gives the same answers |
| `TaskQueue.BudgetDecides` | ext/ITasks.cpp:25-51 | under such a clock a budgeted call runs, of the tasks draining would run after the first, exactly those with the reading before them within the budget |
| `TaskQueue.TaskQueue.AddTask` | ext/ITasks.h:109-114 | the task goes to the end of the queue |
| `TaskQueue.TaskQueue.ProcessTasks` | ext/ITasks.cpp:4-23 | drains the queue in arrival order, each task run once and then disposed once |
| `TaskQueue.TaskQueue.ProcessTasksWithin` | ext/ITasks.cpp:25-51 | the same until the ticks since the first reading exceed the budget: at least one task of a non-empty queue, and another only while within it |
| `TaskQueue.TaskQueue.ClearTasks` | ext/ITasks.cpp:53-64 | every queued task is disposed without being run |
| `TaskQueue.TaskQueueStatic.ProcessTasks` | ext/ITasks.h:152-171 | drains the queue in arrival order, each task run once and none disposed |

## Left out

- The engine and operating-system glue, tables, wrappers over other libraries, `BSTSmartPointer`, `stl_optional`, events, logging and rounding helpers: they would add foreign calls or easy members.
- The concurrent parts are step systems on values, not objects of the heap: their state is shared by threads, which a sequential method cannot express.
- Weak memory: atomic operations and locks are sequentially consistent steps.
- What a thread reads from an entry that was freed: a freed entry keeps its last contents in the model, because its identity is never reused.
- Wide-character and integer-paired keys, `_wcsicmp`, `towupper` and locale-dependent folding: foreign calls.
- Strings with embedded NULs are modelled, but equality and hashing agree only without them, as in the source.
- `strncpy_s` on a section or name of 128 characters or more: the buffer is left empty; that the runtime may stop the process instead is not modelled.
- Text-mode translation, opening and closing of files, and read errors in the middle of a file; the parser's input is the sequence of bytes the stream delivers.
- The section and previous-name buffers of the parser are values, not arrays; the line buffer is an array.
- Numeric and boolean `ParseValue`, and the iteration order of the unordered maps.
- Reading the executable's version and the name of the database file; the version, if readable, the files and the module base are parameters. Bytes past the end of a file are arbitrary.
- Iterators returned by `erase`, moved-from contents, and allocation failure in the containers.
- Custom character predicates of the flag parser, and `enum_index` and `undex`.
- Words in `Flags` are sets of bit positions below 64; narrower underlying types are the same sets with fewer positions.
- Runs of the task queue in which tasks add tasks for ever: `arrivals` is finite, so `ProcessTasks` ends. Overflow of the 64-bit tick arithmetic is not modelled.
- `Start` with a thread count of zero, which throws before it starts anything, is not a step of `WorkerPool`.
- Tasks that call `Push` from a pump thread: only client threads push in `WorkerPool`.
- The free pump threads of a `RunConcurrentTasks` call are a fixed number; that other work on the pool takes and releases threads meanwhile is not modelled.
- WorkerPool.ShutdownDrains: says nothing for a pool without threads, where draining fails; `WorkerPool.DrainsExactly` says when.
- SortedMap.SortedMap.Index: the default value is a parameter, because the model has no default constructor.
