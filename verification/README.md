# Verified models of the concurrency, protocol and data-structure exercises

The repository is a collection of small C programs. This project models the seven that carry a
real invariant and proves what they are for. `dafny verify dfyconfig.toml` verifies everything.

- **Readers-writers lock from three POSIX semaphores** (`task11`). Any number of processes,
  interleaved at every semaphore operation and at every separate load and store of `rdcount`.
  `PosixRwLock` gives each semaphore and the counter as a count of processes at program points,
  and derives mutual exclusion, the absence of lost updates, deadlock freedom, and progress of a
  waiting writer without any fairness assumption.
- **Readers-writers lock from a System V semaphore set** (`task09`). `SysVRwLock` evaluates each
  `semop` array in order, all or nothing. It shows when each call sleeps, that the turnstile
  operations are redundant, and that, unlike the first lock, this one lets a writer starve,
  exactly when there is room for two readers. To starve means here to be kept asleep with no
  instant at which the call could return; with less room a waiting writer still needs the system
  to pick it at such an instant. Both locks can do exactly what `AbstractRwLock` allows, this one
  with at most `rmax` readers.
- **Non-blocking calculator connection** (`task18`). `CalcConnection` has the expanded macro as a
  class whose loop is proved against a machine that makes one system call per step. Where EAGAIN
  strikes does not matter; every result sent is justified by the three replies before it; a finite
  supply of replies means a finite call.
  `EdgeTriggered` adds socket buffers and edge-triggered events under an arbitrary peer;
  `CalcSession` adds the client of `task18/client.c`.
- **Sorted contact list** (`task03`). `Persons` orders names by two chained `strcmp`,
  `SortedContacts` shows that the list is a map and when its file round-trips, and `ContactList`
  has the doubly linked nodes in the heap, each method proved against the list operations, and a
  whole session with what it leaves in the file and unfreed in memory.
- **File framing by an end marker** (`task16`), **producer and consumer with a flag set too early**
  (`task12`), and **in-place command-line splitting** (`task02`).

How things are represented:

- A run is a sequence of scheduling decisions; main results quantify over all of them. Where the
  code changes shared state step by step there is a class whose methods perform the steps, each
  tied to the specification function that the results about runs use; for `task12`, where runs are
  made of single statements, two lemmas over all interleavings tie the whole sections to them.
- Arithmetic on doubles is kept as terms, so a result names its operator and operands exactly;
  that each term is the right one is stated by its value over the reals.
  A reply's union is modelled by its three readings. Messages are transferred whole.
- `rdcount` is a size_t: decrementing zero wraps in the model, and this is proved never to happen.
  Incrementing does not wrap in the model; `rdcount` is proved to be at most the number of
  processes, so it could only matter with 2^64 of them.
- `SEMVMX`, the largest System V semaphore value, is taken as 32767. A larger `rmax` makes
  `semctl` fail and the process exit, so the results are about `rmax` up to that value.
- A person has all five profile slots, also those not in use. More than five profiles are refused
  by `enter_profiles`, but `task03/main.c` ignores that and `person_edit` copies them past the end
  of the array; the model answers `Undefined` there and stops. Likewise a 25th word does not fit
  `argv` in `task02`, where the model reports that it does not fit and stops.
- In `contacts_add` the `next` link of a new last node is not assigned; the model starts it as
  null, which is what the surrounding code needs.
- After an invalid reply the code reports the error and starts a new round, because `cont` is
  still non-zero; the model does the same. The report is the bare error kind of line 124 of
  `task18/conn.c`, not the message prepared on line 122.
- In `task02` a signed `char` is assumed, so that the comparison with EOF can succeed.

## Model

| member | source | states |
|---|---|---|
| `AbstractRwLock.ExecuteExclusive` | task11/rwlock.h:13-19 | the lock both programs implement never has a writer together with anyone else, whatever is executed |
| `PosixRwLock.RwLock.constructor` | task11/rwlock.c:10-27 | no reader counted, three semaphores at one; the invariant holds |
| `PosixRwLock.RwLock.ReadLock` | task11/rwlock.c:29-40 | each statement of read_lock; only the store counts the reader, and on return no writer is inside, `write_sem` is taken and `rdcount_sem` free again |
| `PosixRwLock.RwLock.ReadUnlock` | task11/rwlock.c:42-50 | each statement of read_unlock; only the store lowers the counter, by exactly one; the post of line 46 happens at zero and frees `write_sem`; on return `rdcount_sem` is free |
| `PosixRwLock.RwLock.WriteLock` | task11/rwlock.c:52-55 | each wait of write_lock; on return nobody else is inside and both semaphores are taken |
| `PosixRwLock.RwLock.WriteUnlock` | task11/rwlock.c:57-60 | each post of write_unlock: first the turnstile while `write_sem` is still held, then `write_sem`, which is free on return |
| `PosixRwLock.InvStep` | task11/rwlock.c:29-60 | the counting equations for all semaphores and the counter are inductive over every step of every process |
| `PosixRwLock.MutualExclusion` | task11/rwlock.c:29-60 | on every run of any number of processes a writer excludes all writers and readers until its last post |
| `PosixRwLock.ReaderSeesReaders` | task11/rwlock.c:35-39 | a process holding the read lock is counted, finds `write_sem` taken and no writer inside |
| `PosixRwLock.WriterIsAlone` | task11/rwlock.c:52-55 | a process holding the write lock finds turnstile and `write_sem` taken and nobody else inside |
| `PosixRwLock.CountIsExact` | task11/rwlock.c:35-45 | load and store apart lose no update; the counter equals the number of counted readers and is never decremented from zero; the semaphores stay binary |
| `PosixRwLock.DeadlockFreedom` | task11/rwlock.c:29-60 | whenever someone is inside a lock function, a process that is not idle can step, and one inside a lock function if no critical section is occupied |
| `PosixRwLock.TurnstileShut` | task11/rwlock.c:30-54 | while a writer stands between its two waits nobody passes the turnstile and every other step uses up a bounded supply |
| `PosixRwLock.WriterProgress` | task11/rwlock.c:52-55 | others take at most 12 steps each before a waiting writer moves, and when they can take none it can pass |
| `PosixRwLock.RefinesAbstractLock` | task11/rwlock.c:29-60 | every run, read as entries and exits, is a run of the abstract lock ending in the matching state |
| `PosixRwLock.TracesAreThoseOfAbstractLock` | task11/rwlock.c:29-60 | both directions: n processes can produce exactly the sequences of entries and exits that the abstract lock allows, so readers do share and no allowed entry is lost |
| `SysVRwLock.RwLock.constructor` | task09/rwlock.c:15-36 | initial values 0, 0, 1, rmax; nobody inside |
| `SysVRwLock.RwLock.DoOps` | task09/rwlock.c:44-49 | the operations happen in order and all or nothing |
| `SysVRwLock.RwLock.ReadLock` | task09/rwlock.c:51-61 | a reader gets in exactly if there is room and no writer; otherwise nothing changes |
| `SysVRwLock.RwLock.ReadUnlock` | task09/rwlock.c:63-69 | a reader leaves without sleeping |
| `SysVRwLock.RwLock.WriteLock` | task09/rwlock.c:71-79 | a writer gets in exactly if nobody is inside; otherwise nothing changes |
| `SysVRwLock.RwLock.WriteUnlock` | task09/rwlock.c:81-87 | the writer leaves without sleeping |
| `SysVRwLock.ReadLockEffect` | task09/rwlock.c:52-58 | the five operations together: when they sleep and their net change, the turnstile being restored |
| `SysVRwLock.WriteLockEffect` | task09/rwlock.c:72-77 | the four operations together: when they sleep and their net change |
| `SysVRwLock.SemaphoresCount` | task09/rwlock.c:24-28 | on every run the four values are the readers, the writers and their complements; at most rmax readers, at most one writer, never both |
| `SysVRwLock.ReturnsExactlyWhenAdmitted` | task09/rwlock.c:51-87 | a call returns at once if and only if the holders admit it; unlocking never sleeps; no call fails for range |
| `SysVRwLock.DeadlockFreedom` | task09/rwlock.c:51-87 | with room for a reader, whatever call is waiting, it or an unlock by a holder returns at once |
| `SysVRwLock.NoReaderWithoutRoom` | task09/rwlock.c:15-28 | with rmax zero no read lock ever returns |
| `SysVRwLock.ReducedReadLock` | task09/rwlock.c:52-58 | the read lock without its turnstile operations: barrier, write, read |
| `SysVRwLock.ReducedWriteLock` | task09/rwlock.c:72-77 | the write lock without its turnstile operation: read, write, write |
| `SysVRwLock.ReducedUnlocks` | task09/rwlock.c:63-87 | read unlock has none to lose; write unlock keeps only its operation on write |
| `SysVRwLock.TurnstileRedundant` | task09/rwlock.c:51-87 | with and without turnstile operations the same runs are possible, and after them the same calls return and the same calls sleep |
| `SysVRwLock.WriterCanStarve` | task09/rwlock.c:51-79 | with room for two readers, two readers taking turns keep the write lock asleep for any number of calls |
| `SysVRwLock.OneCallFreesLock` | task09/rwlock.c:51-79 | with room for one reader at most, no run of even one call keeps the write lock asleep: it can return before that call or after it |
| `SysVRwLock.WriterStarvesIffRoomForTwo` | task09/rwlock.c:51-79 | over any number of calls, one or arbitrarily many, a writer can be kept asleep throughout from some reachable state if and only if rmax is at least two |
| `SysVRwLock.RefinesAbstractLock` | task09/rwlock.c:51-87 | every run is, call by call, a run of the abstract lock |
| `SysVRwLock.RunsAreThoseOfAbstractLock` | task09/rwlock.c:51-87 | both directions: a sequence of calls can all return exactly if the abstract lock allows it with never more than rmax readers inside |
| `CalcConnection.Connection.constructor` | task18/conn.c:69-85 | a connection starts at the first request with `cont` set and nothing sent |
| `CalcConnection.Connection.CalcResult` | task18/conn.c:148-164 | NaN outside the result state; in it the number that, by its value over the reals, operator 1 adds, 2 subtracts, 3 divides, 4 multiplies the stored operands to, and NaN for any other operator |
| `CalcConnection.Connection.Msg` | task18/conn.c:18-67 | the macro's effect in every state and for every outcome of its two calls, and whether it returns |
| `CalcConnection.Connection.HandleConnInner` | task18/conn.c:109-146 | the loop over the expanded macro leaves the connection, the log and the remaining outcomes as the one-call-per-step machine does |
| `CalcConnection.Connection.HandleConn` | task18/conn.c:88-107 | a hang-up closes untouched; otherwise the connection is closed exactly when it reached the end state |
| `CalcConnection.Connection.ServeEvents` | task18/server.c:57-79 | every event up to the first hang-up, or to the last event if there is none, is one call of the machine while the connection lives; it is open afterwards exactly if it lives and no hang-up came |
| `CalcConnection.ScheduleIndependence` | task18/conn.c:18-67 | over any number of calls and any placement of EAGAIN, log and connection equal those of one call with every EAGAIN erased |
| `CalcConnection.EnoughCalls` | task18/conn.c:88-146 | enough calls bring the session where the blocking run on the whole supply ends |
| `CalcConnection.ReturnsLiveOnlyOnAgain` | task18/conn.c:26-49 | a call returns with a live connection only after a refused system call |
| `CalcConnection.ResultsAreJustified` | task18/conn.c:20-65 | for arbitrary replies, each result sent is computed from the three accepted replies of the six events before it; other messages carry NaN |
| `CalcConnection.ResultsAreRight` | task18/conn.c:148-164 | for arbitrary replies and any reading of the literals, each result sent is by its value over the reals what the operator received makes of the two operands received, and NaN exactly for an unknown operator |
| `CalcConnection.LiveMeansContinue` | task18/conn.c:137-144 | `cont` is non-zero in every live state between calls |
| `CalcConnection.ClosesExactlyWhen` | task18/conn.c:33-57 | a connection ends only on zero bytes outside the error state or on an accepted answer not to continue, and does end then |
| `CalcConnection.InvalidReplyRestartsRound` | task18/conn.c:59-142 | an invalid reply is reported once and starts a new round |
| `CalcConnection.WritesBoundedByReplies` | task18/conn.c:109-146 | over any number of calls at most one message more than replies, and at most one error report per reply |
| `CalcConnection.CallsBoundedByReplies` | task18/conn.c:109-146 | from every state, the system calls of one call, logged or not, are bounded by the replies it takes |
| `CalcConnection.FiniteRepliesFiniteCall` | task18/conn.c:109-146 | handle_conn_inner terminates on every finite supply of replies, whatever the writes do, after at most three system calls per reply and three more |
| `CalcConnection.Line137OnlyAtEnd` | task18/conn.c:111-142 | from every state line 137 is reached only in END_MSG, so its constant test decides as the comparison would |
| `EdgeTriggered.NoLostWakeup` | task18/conn.c:69-107 | whenever the idle handler's next call could succeed an event is pending, for every peer and interleaving |
| `EdgeTriggered.ActivationIsOneCall` | task18/conn.c:99-106 | the steps of an activation, in progress or finished, are those of one call of handle_conn_inner |
| `CalcSession.ClientAndServerAgree` | task18/client.c:32-80 | at most one struct in flight, no error state, every number shown is by its value the answer to that round's entries, exactly the results sent are shown, in order, and the session ends only by the client's choice |
| `CalcSession.GivesUpExactlyWhen` | task18/client.c:50-76 | in every reachable state an entry makes the client exit exactly if an operator was asked for and the entry is none of 1 to 4 |
| `CalcSession.SystemProgress` | task18/client.c:32-80 | client, server and events together are never stuck before both sides are done |
| `Persons.CompareZero` | task03/person.c:15-20 | the chained comparison is zero exactly on equal names |
| `Persons.CompareTotal` | task03/person.c:11-20 | it is antisymmetric and total |
| `Persons.BeforeTransitive` | task03/person.c:15-20 | it is transitive |
| `Persons.FirstNamesDecide` | task03/person.c:15-20 | the order is the dictionary order of first names by character, and of last names between equal first names |
| `SortedContacts.InsertRefusesDuplicates` | task03/contacts.c:93-106 | stopping at the first greater person still refuses exactly the known names |
| `SortedContacts.InsertIsMapUpdate` | task03/contacts.c:88-117 | adding is a map insertion |
| `SortedContacts.DeleteIsMapRemoval` | task03/contacts.c:119-136 | removing is a map removal, succeeds exactly on known names, and keeps the order |
| `SortedContacts.LookupIsMapLookup` | task03/contacts.c:138-148 | finding is a map lookup |
| `SortedContacts.ReplaceIsMapUpdate` | task03/main.c:60-65 | editing in place is a map update and keeps the order |
| `SortedContacts.ListRefinesMap` | task03/main.c:34-93 | for every sequence of commands contents and answers are those of a map, and the list stays strictly sorted |
| `SortedContacts.AnswersMean` | task03/contacts.c:88-148 | adding succeeds exactly on names nobody in the list has, editing and removing exactly on names somebody has, and finding returns a person of that name if there is one |
| `SortedContacts.FindReturnsEntry` | task03/main.c:34-93 | in every session an accepted entry is found under its name with exactly the names, emails and profiles entered, until it is edited again or removed |
| `SortedContacts.RemovedStaysAway` | task03/main.c:69-80 | after a removal nobody of that name is in the list until it is added again |
| `SortedContacts.OthersStay` | task03/main.c:34-93 | a command touches no person of another name |
| `SortedContacts.ListIsInDictionaryOrder` | task03/contacts.c:88-117 | after every session first names never decrease along the list, in dictionary order, and last names increase where first names are the same |
| `SortedContacts.UndefinedExactlyWhen` | task03/main.c:35-67 | a session becomes undefined exactly at its first command that adds, or edits a person known at that moment, with more than five profiles; without one every command is answered |
| `SortedContacts.FewProfilesAreSafe` | task03/main.c:130-149 | with five profiles or fewer in every command no session becomes undefined |
| `SortedContacts.MapDeterminesList` | task03/contacts.c:88-117 | one sorted list per map |
| `SortedContacts.InsertAllOutcome` | task03/contacts.c:56-82 | adding a series of persons succeeds exactly if all names are distinct, and then holds all of them in order |
| `SortedContacts.InsertionOrderIrrelevant` | task03/contacts.c:88-117 | every permutation of the same persons gives the same list |
| `SortedContacts.LoadOutcome` | task03/contacts.c:48-86 | reading into an empty list succeeds exactly on complete records with distinct names |
| `SortedContacts.WriteReadRoundTrip` | task03/contacts.c:17-86 | writing without truncation and reading back returns the list exactly if it covers the old file |
| `SortedContacts.NextSessionFindsContents` | task03/main.c:15-103 | the next session finds what a session left exactly if the list has not become shorter than when it was read |
| `ContactList.Node.PersonEdit` | task03/person.c:68-78 | names, emails, the profiles entered and their number are stored field by field, and the slots behind the new profiles keep their content |
| `ContactList.Contacts.constructor` | task03/contacts.c:9-15 | an empty valid list |
| `ContactList.Contacts.WalkPast` | task03/contacts.c:92-106 | the walk stops at the rank of the name and detects an equal one |
| `ContactList.Contacts.Add` | task03/contacts.c:88-117 | the linked list stays valid and does what insertion into the sorted list does; one node is allocated, also when the person is refused |
| `ContactList.Contacts.LinkAfter` | task03/contacts.c:108-114 | the new node stands in the chain, links mutual in both directions |
| `ContactList.Contacts.WalkTo` | task03/contacts.c:120-122 | the walk stops before the first person of that name |
| `ContactList.Contacts.Remove` | task03/contacts.c:119-136 | the linked list stays valid and does what deletion does; the node taken out, and no other, is freed |
| `ContactList.Contacts.UnlinkNext` | task03/contacts.c:123-128 | the node leaves the chain, links mutual in both directions |
| `ContactList.Contacts.FindNode` | task03/contacts.c:138-148 | the node holding the person looked up, or null |
| `ContactList.Contacts.EditContact` | task03/main.c:50-68 | find and edit in place does what replacement by the edited person does; undefined exactly if a known person gets more profiles than slots |
| `ContactList.Contacts.Execute` | task03/main.c:34-93 | a command changes contents and answers as the list specification does, for every number of profiles entered |
| `ContactList.Contacts.Menu` | task03/main.c:21-107 | a whole session of commands gives the contents and answers of the list specification, hence of the map, up to the first undefined command if there is one |
| `ContactList.Contacts.Write` | task03/contacts.c:17-46 | the file holds the list's persons from its start and behind them, record by record, what it held there before; an incomplete record at its end goes exactly when the list reaches it |
| `ContactList.Contacts.Read` | task03/contacts.c:48-86 | contents and success as the load specification says, also when a record is refused or incomplete |
| `ContactList.Contacts.Destroy` | task03/contacts.c:161-171 | the nodes of the chain are freed once each, in order, and their links are only followed while allocated; what stays allocated are the nodes not on the chain; the list is empty |
| `ContactList.Session` | task03/main.c:15-103 | a whole run of the program: answers and file as specified, and at the end as many nodes unfreed as attempts to add were refused, so none if and only if none was |
| `FileFraming.SendFile` | task16/server.c:93-114 | the stream is the file followed by the two characters CR and LF, whatever the sizes of the reads |
| `FileFraming.ReceiveFile` | task16/client.c:87-101 | output, number of reads and whether it stops, for every sequence of reads |
| `FileFraming.FramingRoundTrip` | task16/client.c:87-101 | the receiver stops at the last read with exactly the file if and only if no earlier read ends in the marker and the last has two bytes |
| `FileFraming.FramingFailures` | task16/client.c:87-101 | otherwise it either loses the end of the file or waits for ever with the marker in the output |
| `FileFraming.EveryFileHasBothSplits` | task16/client.c:87-101 | every file has a split that works and one that does not |
| `FileFraming.OneReadForSmallFiles` | task16/client.c:87-101 | a stream can arrive in one read, and then is received, exactly for files of at most 4094 bytes |
| `SharedExtrema.ShmBuf.constructor` | task12/main.c:49-52 | the block starts empty with the flag set |
| `SharedExtrema.ShmBuf.GenerateSeries` | task12/main.c:105-125 | nothing happens before evaluation; otherwise a size of one plus the first value modulo 15, the next values in the array, the rest of it untouched, the line printed, the iteration counted and the first-iteration flag cleared |
| `SharedExtrema.ShmBuf.CalcExtrema` | task12/main.c:127-142 | the extrema of the series, computed only if due |
| `SharedExtrema.ParentSection` | task12/main.c:105-125 | over every interleaving, from line 106 to the parent's next post block, printed line and counters change as GenerateSeries ensures, with exactly the values drawn |
| `SharedExtrema.ChildSection` | task12/main.c:127-142 | over every interleaving, from line 128 to the child's next post the block changes as CalcExtrema ensures |
| `SharedExtrema.SectionEnds` | task12/main.c:105-142 | a section once entered can be run to its post |
| `SharedExtrema.SectionUndisturbed` | task12/main.c:74-103 | while one process is in its section, no signal and no step of the other touches the block or the parent's counters |
| `SharedExtrema.NeverOutOfBounds` | task12/main.c:117-140 | no interleaving indexes the array out of bounds |
| `SharedExtrema.PrintedLinesAreExtrema` | task12/main.c:74-142 | over every interleaving of single statements the k-th line is the true extrema of the k-th series, and the number of lines is the number of series less one |
| `SharedExtrema.NothingLostOrEvaluatedTwice` | task12/main.c:74-142 | series are evaluated as generated, once, in order, before being overwritten; the sections exclude each other |
| `SharedExtrema.SeriesLengths` | task12/main.c:117-124 | the lengths of the series that occur are exactly those from 1 to 15 |
| `SharedExtrema.SemaphoreComesBack` | task12/main.c:74-103 | the semaphore's holder can always step and has at most 36 steps left, which nothing else adds to; while it is free every process not done can step |
| `SharedExtrema.OvertakenExactlyWhen` | task12/main.c:74-103 | in every reachable state with one process at its wait, either of them, the other can go on for ever if and only if it is not done and has not seen SIGINT; otherwise it takes at most 38 more steps |
| `SharedExtrema.WaiterGetsIn` | task12/main.c:74-103 | while one process waits and only the other moves, one of them can always step: when the other has stopped, the waiting one gets in |
| `SharedExtrema.ExtremaAreTrue` | task12/main.c:131-141 | what the loop computes from its start values is the minimum and maximum |
| `CommandLine.SplitLine` | task02/main.c:15-46 | the loop leaves one NUL-terminated string per word, a final NULL, and consumes the terminator, if and only if there are at most 24 words; otherwise it would write past `argv` |
| `CommandLine.ReadCommand` | task02/main.c:13-46 | for every line of words set apart by spaces, ended by a newline, a zero byte or the end of input or cut at 254 characters: `argv` points at exactly these words and ends in NULL, and the line and its end are consumed, if and only if there are at most 24 words |
| `CommandLine.StartsPointAtWords` | task02/main.c:31-40 | the recorded offsets point at the prefix before the first space and at the maximal space-free runs after it |
| `CommandLine.WordsOfSpaced` | task02/main.c:31-40 | splitting words set apart by any number of spaces returns the words; only the first can be empty |

## Left out

- Set-up of sockets, epoll, shared memory, pipes, processes and signals (all `addr.c`, `shared_mem.c`, `task18/server.c`): system calls, represented by queues, semaphores and record files.
- Hard input and output errors, partial transfers of a struct, EINTR: EAGAIN and zero bytes are the only unusual outcomes; the branches at lines 30 and 51 of `task18/conn.c` are empty.
- Rounding of double arithmetic: the operators are uninterpreted.
- A connection failure other than the client leaving: `CalcSession` has none; `CalcConnection` and `EdgeTriggered` allow the peer to close at any time.
- ContactList.Node.PersonEdit: bytes behind the terminator of a field are not modelled, and no entry is longer than the 255 characters a field holds.
- SharedExtrema.SemaphoreComesBack: that a waiting process gets its turn is the code's doing only once the other process has seen SIGINT or is done, as `OvertakenExactlyWhen` shows; before that it depends on the fairness of scheduler and semaphore, which is not modelled.
- SharedExtrema.ShmBuf.GenerateSeries: the sequence that `rand` produces is arbitrary, so nothing is said about the seeds.
- FileFraming.ReceiveFile: the peer closing the stream before the marker; every read delivers at least one byte.
- The request dialogue of `task16` around the file transfer, and the end of a session in `task16/server.c`, whose `break` leaves only the switch.
- `task13`, `task08`, `task10`, `task15`: the same protocols as above in simpler form; `task05`, `task06`, `task07`: correct only by timing; `task01`, `task04`, `task14`, `task17`, menus and printing: input and output or isolated loops.
