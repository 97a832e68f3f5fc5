# Ikkat in Dafny

Ikkat is a replicated file server for lists of candidate primes, written in Go: clients cache whole files,
a primary merges the numbers of every closed file into that file's set, logs the result, replicates the log
to backups and commits by majority; a Miller-Rabin test decides which numbers are prime. This project models
the parts of it where a mistake would be hard to see, and proves what they promise.

The Go sources are mostly imperative, and so is the model: `Server`, `PrimeSet`, `FileEntry`, `Membership`
and `CachingClient` are classes with the fields of the Go structs, and loops are loops. Each method is proved
against a function on values (`Close`, `AppendEntries`, `ReadPass`, `OpenFile`, ...). The theorems about runs,
that is, about every sequence of steps of any length, are then proved about those functions.

| file | contents |
|---|---|
| `Basics.dfy`, `Words.dfy` | options, set sizes; 64-bit words, int32 conversion |
| `ModularArithmetic.dfy` | Euclid's lemma, Fermat's little theorem, square roots of 1 |
| `MillerRabin.dfy`, `Pseudoprime.dfy` | the primality test on machine words; a composite that it accepts |
| `NumberText.dfy` | parsing and printing lists of numbers |
| `FileLock.dfy` | the writer-preferring lock of a file entry, any number of threads |
| `Replica.dfy` | one server's log: applying, receiving, crash recovery, incremental update |
| `Server.dfy` | the server object: replication handlers and `Close` |
| `CloseOutcomes.dfy` | how each Close is answered, by exact conditions, and what it changes |
| `PrimeFiles.dfy` | what files contain after any run of Closes |
| `CloseEffects.dfy`, `CloseVersions.dfy` | request cache and versions: sequential, and with overlapping Closes |
| `Cluster.dfy` | the replicated log under lossy, reordering, duplicating delivery |
| `FailedCloses.dfy` | what becomes of the payload of a Close that was logged but failed |
| `Availability.dfy` | what gap-free runs can reach: commits, the first gap, a panic by one gap |
| `AllRuns.dfy`, `GapCommits.dfy` | runs with gaps: commits after a failed log write, broken backups, diverging files, panics |
| `CrashRecovery.dfy` | servers of the cluster that crash and restart from their log files |
| `EndToEnd.dfy` | from a confirmed payload to the files of the backups |
| `Heartbeat.dfy` | beliefs about the primary, and election |
| `ClientCache.dfy` | the client's cache and its least-recently-used list |

## Hypotheses

The theorems of `Cluster` speak of regular runs. A regular run has one primary that runs one Close at a time;
no backup is delivered an entry more than one past the end of its log; the log stays below 2^31 entries.
`PrefixIffNoGap` and `TruncatedIndexIsSkipped` show why the last two are needed, and `CommitWith` shows that such
runs reach commits. Any number of servers, delay, loss, duplication, reordering, and Closes that miss their majority are
allowed. Failed log writes on the primary are too, but with two servers or more a gap-free run commits nothing after one
(`FailedLogWriteEndsCommits`), because the entry that could not be written is never sent.

`AllRuns`, `GapCommits` and `CrashRecovery` therefore drop the hypothesis on gaps: any enabled step may be taken. Where their runs may
contain a panic, the server goes on in the model as if the call had only failed; the results that exhibit a run exhibit one
without panics before its end.

`PrimeFiles`, `FailedCloses` and `CloseEffects` take the Closes of one primary one after the other; `CloseVersions`
lets them overlap on one file; `FileLock` interleaves critical sections of any number of threads with matched releases.
`EndToEnd` runs the Closes of `PrimeFiles` on the primary of a `Cluster`, in regular runs. `Heartbeat` starts every server
on its own, non-empty id, without timeouts.

What the outside world decides is a parameter: the clock, whether a log write succeeds, which acknowledgements
arrive before the timeout, the order in which Go ranges over a map, and the server's answers to a client.
Results that the Go code cannot return are outcomes of the model: an index panic in `applyCommitted`, a failed
type assertion on a cached reply (`Panics`), and a mutex locked twice (`Hangs`).

## Where the code falls short of its comments or intent

- The comment at common.go:104 calls the primality test deterministic for 64-bit integers. It never rejects a
  prime, but it accepts the composite 341550071728321 (`AcceptedComposite`). It is exact below 361
  (`ExactBelow361`), and in general it accepts exactly what `Accepted` describes.
- `modExp(b, 0, 1)` is 1, not 0 (`ModExp`). `IsPrime` never makes that call.
- `AppendEntries` appends across a gap where `ApplyUpdate` stops with an error; the backup's log is then no longer
  a prefix of the primary's (`PrefixIffNoGap`), and a commit index past its end panics (`PanicsIffCommitPastLog`). Both can
  come up as soon as there is a backup (`GapReachableIff`, `PanicReachableIff`).
- A failed log write on the primary leaves the entry in memory and never sends it. The next Close then commits across the gap:
  every backup takes the later entry and acknowledges it (`CommitAcrossGap`). From the first such commit on, so many
  backups have broken logs that with the primary they make a majority, for ever (`CommitAfterFailureBreaksBackups`,
  `RunKeepsBroken`), and servers that have applied equally far can hold different files (`FilesDiverge`).
- The primary itself can recover what it has committed exactly when no commit came after a failed log write
  (`CommittedIsDurableIff`), whatever the number of servers (`CommittedCanBeLost`).
- A Close that fails after logging leaves its entry in the log and, for a file that has a set, its numbers in the set;
  the next success on any file applies the entry. `FailedPayloadsAppearIff` says exactly when a number of a failed payload
  ends up in the file, for any number of failures before the success. So file contents are bounded by the accepted payloads
  and not by the confirmed ones (`ConfirmedWithinFileWithinAccepted`); they are exact where the two agree
  (`NothingInVainMeansExact`).
- A write of the log file that a crash cuts short leaves a line without its newline. Recovery skips the line, but the next
  entry is written onto it, so that one is lost at the following recovery (`NextAppendIsDurableIff`).
- Close locks up the server exactly when the file is open but not for this client and no fresh reply is cached
  (`CloseHangsIff`), which is what happens when a file is closed a second time under a new request ID (`SecondCloseHangs`).
- File versions are int32 and wrap, so optimistic concurrency and at-most-once hold within 2^32 successes and
  not beyond (`NoLostUpdate`, `AtMostOnce`, `SecondRaise`).
- An empty server id breaks both the monotone belief and the election; `BeliefIsLeastIff` and `ElectionIsStableIff` say exactly
  when (`EmptyIdResets` and `EmptyIdMakesElectionUnstable` are the smallest cases).
- The client's eviction takes descriptor 0 for "none", but the server hands out descriptors from 0. A created file is marked
  closed yet keeps its descriptor, so it blocks its place in the cache unless that descriptor is 0
  (`CreatedFileIsEvictableIffFdZero`); 20 creations block the whole cache (`TwentyCreationsBlockTheCache`).

## Model

Members are named as declared, qualified by module and class; `Server.Server` is the class `Server` of the module `Server`.

| member | source | states |
|---|---|---|
| `ModularArithmetic.Euclid` | common.go:90-102 | a prime that divides a product divides a factor; proved by descent, no number theory is taken for granted |
| `ModularArithmetic.ResiduesAreAll` | common.go:90-102 | for a prime p not dividing a, the residues of a, 2a, ..., (p-1)a are exactly 1, ..., p-1 |
| `ModularArithmetic.Fermat` | common.go:90-102 | Fermat's little theorem, from the two permuted products |
| `ModularArithmetic.SquareRootsOfOne` | common.go:96-100 | modulo a prime, y*y = 1 forces y = 1 or y = -1: why the squaring loop looks for n-1 |
| `MillerRabin.Mul64` | common.go:84 | the two words of bits.Mul64 are the exact 128-bit product |
| `MillerRabin.Div64` | common.go:85 | bits.Div64: quotient and remainder of the double word, defined (no panic) when the high word is below the divisor; the quotient then fits a word |
| `MillerRabin.MulMod` | common.go:83-87 | mulMod is multiplication modulo mod |
| `MillerRabin.HighWordBelowModulus` | common.go:70-87 | one factor below mod keeps the high word below mod, so no mulMod call made by modExp or check makes Div64 panic |
| `MillerRabin.ModExp` | common.go:70-81 | modExp is base^exp mod mod for all words and every mod > 0, with the one exception mod = 1, exp = 0, where it returns 1; the loop is proved, including every Div64 precondition |
| `MillerRabin.Check` | common.go:90-102 | check is true exactly when a^d = 1 or a^(d*2^i) = -1 mod n for some i < r (i = 0 is always tried), for every n > 0 and every r |
| `MillerRabin.OddTimesPowerOfTwo` | common.go:116-122 | n-1 is the odd part times a power of two, the decomposition that the loop of IsPrime reaches |
| `MillerRabin.IsPrime` | common.go:105-133 | for every 64-bit n: the result is exactly the loop-free predicate Accepted; a prime is never rejected; an accepted n > 17 has no factor from 2 to 18 and satisfies Fermat's congruence for all seven bases |
| `MillerRabin.DescendFromOne` | common.go:96-100 | walking the squarings of a^d back from a 1: -1 turns up, or a^d is 1 |
| `MillerRabin.PrimePassesBase` | common.go:90-102 | a prime passes check for every base that it does not divide |
| `MillerRabin.PrimeIsAccepted` | common.go:105-133 | every prime, of any size, is accepted |
| `MillerRabin.PassingImpliesFermat` | common.go:90-102 | an odd n that passes check for base a satisfies a^(n-1) = 1 mod n |
| `MillerRabin.AcceptedFacts` | common.go:105-133 | what acceptance means above 17: no factor below 19, Fermat's congruence for 2, 3, 5, 7, 11, 13, 17 |
| `MillerRabin.ExactBelow361` | common.go:105-133 | below 19*19 accepted and prime are the same |
| `Pseudoprime.AcceptedComposite` | common.go:104-133 | 341550071728321 = 10670053 * 32010157 is composite and is accepted: the seven bases do not make the test deterministic on 64 bits, against the comment |
| `NumberText.DecimalIsNumeral` | server_basics.go:866 | the printed form of a number consists of digits, and its decimal value is the number |
| `NumberText.DecimalIsCanonical` | server_basics.go:866 | without leading zeros |
| `NumberText.ParseUintIff` | common.go:139 | a field is read as n exactly when it is the printed form of n with any zeros before it |
| `NumberText.LoneField` | common.go:135-145 | a text without white space gives its number if it is one, and otherwise nothing; with ParseConcat and SpaceIsNothing this says what every text parses to |
| `NumberText.SpaceIsNothing` | common.go:137 | white space alone gives no numbers |
| `NumberText.PrintFormat` | server_basics.go:864-868 | the logged text consists of digits and newlines, one newline per number, the last at the end |
| `NumberText.ParsePrintedNumber` | common.go:139 | strconv.ParseUint of the decimal numeral of a 64-bit number is that number |
| `NumberText.ParseNumbers` | common.go:135-145 | the loop keeps, in order, the fields that are 64-bit numerals and silently drops the rest |
| `NumberText.ParseConcat` | common.go:135-145 | parsing distributes over concatenation wherever the parts meet at white space or one is empty |
| `NumberText.NoBoundaryMerges` | common.go:135-145 | why the boundary is needed: two numerals without white space between them give at most one number |
| `NumberText.RoundTrip` | server_basics.go:864-868 | parsing the newline-terminated printing of any sequence of 64-bit numbers returns the sequence |
| `NumberText.NormalForm` | server_basics.go:859-868 | printing what was parsed loses no number, whatever the payload looked like |
| `FileLock.FileEntry.AcquireReadNoPriority` | server_basics.go:177-184 | one pass under the mutex: enter unless a writer is active, else sleep; whole new lock state given |
| `FileLock.FileEntry.AcquireRead` | server_basics.go:186-193 | one pass: enter unless a writer is active or waiting, else sleep |
| `FileLock.FileEntry.ReleaseRead` | server_basics.go:195-202 | counts down, never below 0, and wakes every sleeper |
| `FileLock.FileEntry.AcquireWrite` | server_basics.go:204-208 | announces the writer, then makes a first pass |
| `FileLock.FileEntry.AcquireWriteAgain` | server_basics.go:206-212 | a pass of a writer: enter when nobody holds the lock, else sleep |
| `FileLock.FileEntry.ReleaseWrite` | server_basics.go:215-220 | frees the lock and wakes every sleeper |
| `FileLock.FileEntry.TryLockForDelete` | server_basics.go:513-525 | Delete takes the lock as a writer exactly when nobody holds it, and never waits |
| `FileLock.StepKeepsInv` | server_basics.go:168-220 | every critical section of every thread keeps the invariant (exact counters, sleepers' guards false) |
| `FileLock.MutualExclusion` | server_basics.go:168-220 | in every interleaving of any number of threads: the three counters count exactly their threads, a writer holds alone, and every sleeping thread's guard is false (no lost wake-up) |
| `FileLock.NeverStuck` | server_basics.go:177-220 | in every reachable state, while a thread wants the lock, some thread holds it or an awake thread can enter |
| `FileLock.DrainIsBounded` | server_basics.go:177-220 | without new arrivals a run has at most Work(s) steps, so spurious retries cannot go on for ever |
| `FileLock.DrainGoesOn` | server_basics.go:177-220 | and it can stop only when nobody waits or holds: with DrainIsBounded, every waiting thread is served |
| `FileLock.WriterPreference` | server_basics.go:168-213 | from the moment a writer waits until one enters, readers by AcquireRead do not get in, holders go down by exactly one per release, and CanWrite holds exactly after as many releases as there were holders |
| `FileLock.NoPriorityReaderOvertakes` | server_basics.go:176-184 | where writer preference ends: AcquireReadNoPriority enters past a waiting writer, AcquireRead does not |
| `FileLock.ReaderEntersIff` | server_basics.go:177-193 | a reader that tries enters exactly when no thread writes and, with AcquireRead, none waits to write; otherwise it sleeps |
| `FileLock.WriterEntersIff` | server_basics.go:204-213 | a writer that tries enters exactly when no thread holds the lock; otherwise it sleeps |
| `FileLock.DeleteEntersIff` | server_basics.go:513-525 | Delete gets the lock exactly when no thread holds it, whoever waits; a refused attempt changes nothing |
| `FileLock.ReleaseWakesAll` | server_basics.go:195-220 | a release wakes every sleeper and moves nobody but the releasing thread |
| `FileLock.UnmatchedReadRelease` | server_basics.go:195-202 | a read release without a reader keeps the counter at 0 and still wakes everybody |
| `Server.Server.ApplyEntry` | server_replication.go:322-347 | a WRITE entry replaces the whole file, any other entry changes nothing |
| `Server.Server.ApplyCommittedEntries` | server_replication.go:448-456 | the loop is ApplyCommitted: the entries from lastApplied to commitIndex replayed in order, or, when commitIndex lies past the log, all of the log and then an index panic |
| `Server.Server.AppendToDisk` | server_replication.go:215-230 | one more line in the log file |
| `Server.Server.HandleAppendEntries` | server_replication.go:405-445 | the RPC loop is AppendEntries: skip covered indexes, append everything else (no gap check), persist what was appended, raise commitIndex, apply |
| `Server.Server.ApplyIncrementalUpdate` | server_replication.go:374-396 | the loop is ApplyUpdate and writes exactly the appended entries to the log file |
| `Server.Server.RecoverFromLog` | server_replication.go:233-250 | the loop is Recover: unparseable lines are skipped, every other entry is appended and applied |
| `Replica.ParsedPicksEntries` | server_replication.go:240-247 | the entries recovered are the lines that parse, all of them, in the order of the file |
| `Replica.GarbageIsSkipped` | server_replication.go:242-245 | a line that does not parse, wherever it stands, makes no difference to the log and the files recovered |
| `Replica.TornLineIsSkipped` | server_replication.go:233-250 | after a crash in the middle of a log write exactly the entries before it are recovered and replayed; commitIndex and lastApplied stay 0 |
| `Replica.LastWriteWins` | server_replication.go:322-347 | after a replay a file holds the content of the last entry that writes it |
| `Replica.UnwrittenStays` | server_replication.go:322-347 | a file that no entry writes is as before, present or absent |
| `Replica.ReplayConcat` | server_replication.go:448-456 | replaying in two parts is replaying at once |
| `Replica.ReplayForgets` | server_replication.go:233-250 | a replay hides every difference between two file systems on the names it writes |
| `Replica.RecoveryIsIdempotent` | server_replication.go:233-250 | after any number of crashes, at any point of applying or of recovering, torn last write included, recovery gives the files of one uninterrupted replay of the durable log; recovering again changes nothing |
| `Replica.AppendIsDurableIffPersisted` | server_basics.go:876-882 | a local append keeps log file and log equal exactly when the write succeeds; the entry stays in memory either way |
| `Replica.AppendAllExtends` | server_replication.go:410-432 | AppendEntries never removes or changes an entry |
| `Replica.AppendAllConcat` | server_replication.go:410-432 | entries in one call are taken as in several |
| `Replica.StretchIsTaken` | server_replication.go:410-432 | a stretch of an indexed log that starts no later than the received part ends brings the receiver exactly to the stretch's end, or changes nothing if it is covered |
| `Replica.PanicAppliesRest` | server_replication.go:448-456 | a panic comes after the whole rest of the log has been applied, with lastApplied one past it |
| `Replica.UpdateExtends` | server_replication.go:374-396 | ApplyUpdate, on any list in any order: only extends the log, keeps log[i].Index == i+1, adds nothing but entries of the list |
| `Replica.UpdateStopsAtFirstGap` | server_replication.go:382-388 | it covers every entry up to the first that leaves a gap and fails exactly there, otherwise covers all |
| `Replica.UpdateTakesFirst` | server_replication.go:374-396 | of several entries with one index it takes the first of the list |
| `Replica.UpdateAgainIsNoOp` | server_replication.go:374-396 | the same list again changes nothing and reports the same |
| `Server.Server.constructor` | connection.go:19-31 | a new server is a backup with an empty log and no prime sets |
| `Server.Server.FilterUniquePrimes` | server_basics.go:295-304 | adds the payload's numbers to the caller's set in place and returns those that were new, each once |
| `Server.FirstNewIsListing` | server_basics.go:295-304 | the numbers returned list the difference of the two sets, without repetition |
| `Server.FirstNewInOrder` | server_basics.go:295-304 | and they come in the order in which the payload first has them |
| `Server.Server.PrintSet` | server_basics.go:864-868 | ranging over the map prints every element exactly once, in an order left open: parsing the text gives the set back |
| `Server.Server.WaitForMajority` | server_basics.go:883-921 | the channel loop ends with a majority exactly when the successful replies among those before the timeout, plus the server itself, reach len(servers)/2+1 |
| `Server.AcksAreSuccesses` | server_basics.go:907-917 | what Close counts is the number of successful replies that arrive in time; failed replies and everything after the timeout do not count |
| `Server.Server.MergePayload` | server_basics.go:847-861 | an existing set is aliased, so it holds the payload at once; a new set belongs to nobody yet; nothing else changes |
| `Server.Server.StoreSet` | server_basics.go:936-948 | after the commit the file keeps the merged set, and different files keep different set objects |
| `Server.Server.AppendLocally` | server_basics.go:876-882 | the entry goes into the log, and into the log file if the write succeeds |
| `Server.Server.CommitLocally` | server_basics.go:923-927 | the commit index is set and everything up to it applied |
| `Server.Server.LogAndCommit` | server_basics.go:869-935 | append, persist, wait, commit, apply: the new log, disk, indexes and files in each of the three outcomes |
| `Server.Server.GetFileEntry` | server_basics.go:306-319 | an unseen name gets version 1, a known one keeps its version |
| `Server.Server.RaiseVersion` | server_basics.go:950-959 | the int32 version goes up by one, with wrap-around |
| `Server.Server.FinishClose` | server_basics.go:969-985 | the client leaves the open file and the reply is cached under the request ID |
| `Server.Server.HandleClose` | server_basics.go:766-988 | the method is the function Close on the whole abstract state: cache hit, not open, already closed (hangs), wrong mode, version conflict, failed write, missed majority, success; what it logs lists the old set and the payload, each number once |
| `CloseOutcomes.RefusedIff` | server_basics.go:766-840 | each refusal by its exact condition: not primary, reply less than five minutes old, not open, not open for this client, dirty but not opened in Write mode, dirty on another version |
| `CloseOutcomes.ClosedIff` | server_basics.go:829-987 | a dirty Close succeeds exactly when it is opened by this client in Write mode, on the current version, the log write succeeds and enough replies arrive; it fails after logging exactly when one of the last two is missing; and the version it answers with |
| `CloseOutcomes.RefusalChangesNothing` | server_basics.go:766-840 | a refused Close changes nothing, except that a wrong mode or version gives a name not met before its first version |
| `CloseOutcomes.LoggedEntryIs` | server_basics.go:864-876 | the one entry a Close logs: next index, WRITE, the file's name, the next version, and a content that parses to the listing |
| `CloseOutcomes.SuccessEffect` | server_basics.go:950-987 | a success takes this client off this open file, caches one reply, sets one version, and leaves other open files, replies and versions alone; a clean one leaves log, files and sets alone |
| `PrimeFiles.CloseView` | server_basics.go:847-948 | every Close leaves log, files and sets alone, or appends, or appends and commits, whatever branch it takes |
| `PrimeFiles.AppendKeepsInv` | server_basics.go:847-882 | accepting a payload keeps the invariant, in the aliased and in the new-set case |
| `PrimeFiles.CommitKeepsInv` | server_basics.go:923-948 | committing applies also entries left over from Closes that missed their majority, and keeps the invariant |
| `PrimeFiles.ConfirmedWithinFileWithinAccepted` | server_basics.go:847-948 | over every run of non-overlapping Closes on any files, failures included: a file is untouched, or it lists each number once, contains every number confirmed on it, and none that was not accepted for logging |
| `PrimeFiles.SuccessfulCloseContent` | server_basics.go:847-948 | after a run, a successful dirty Close leaves in the file exactly the file's set united with the payload |
| `FailedCloses.FailedPayloadsAppearIff` | server_basics.go:847-948 | any number of dirty Closes are logged but fail (log write or majority), then one succeeds: a number of a failed payload on f is in f exactly when f had a set to begin with, or the last of all these Closes on f has the number in its own payload |
| `FailedCloses.FailedPayloadAppearsIff` | server_basics.go:847-948 | the case of one failure: the number is in f exactly when the success was on another file, or f already had a set, or the second payload has the number too |
| `FailedCloses.EntriesInVain` | server_basics.go:869-882 | each failure leaves its entry at the end of the log, and nothing is applied |
| `FailedCloses.SetsInVain` | server_basics.go:847-861 | and its numbers in the set of its file, if there is one: failures make no sets |
| `FailedCloses.UnconfirmedNumberIsApplied` | server_basics.go:919-926 | a smallest run that shows it: f holds a number although nothing was ever confirmed on f |
| `FailedCloses.NothingInVainMeansExact` | server_basics.go:847-948 | where a file's accepted and confirmed numbers agree, the file is untouched or holds exactly the confirmed numbers |
| `CloseEffects.FreshReplyStays` | server_basics.go:790-796 | a cached reply is not overwritten while it is fresh, whatever Closes run |
| `CloseEffects.RepeatedCloseIsAnswered` | server_basics.go:790-796 | a repeat within the TTL of a successful Close gets the stored reply and changes nothing, even after other activity |
| `CloseEffects.SuccessRaisesVersion` | server_basics.go:838-840 | a dirty Close succeeds only on the current version, then sets the next one, and moves no other file's version |
| `CloseEffects.FailureIsHarmless` | server_basics.go:766-988 | a Close without success changes no version, file, cached reply, open file or commit index, and only extends the log |
| `CloseEffects.CloseHangsIff` | server_basics.go:790-822 | Close locks up exactly when the server is primary, has no fresh reply for the ID, and has the file open but not for this client: a condition known before the call |
| `CloseEffects.ClosePanicsIff` | server_basics.go:790-796 | Close panics exactly when the fresh reply under its ID is of another kind |
| `CloseEffects.SecondCloseHangs` | server_basics.go:809-822 | the usual way to get there: closing again under a new ID reaches the branch that calls getFileEntry while holding the server mutex |
| `CloseEffects.CloseTakesTheseSteps` | server_basics.go:790-987 | Close on the server object is a run of the concurrent step system of CloseVersions, with the same result, version and cached reply |
| `CloseVersions.RaiseKeepsInv` | server_basics.go:829-959 | only the holder of the write lock is past its version check, so raising the version invalidates nobody else's check |
| `CloseVersions.NoLostUpdate` | server_basics.go:829-959 | in every interleaving of overlapping Closes on a created file the successful dirty ones carry base versions 0, 1, 2, ... in order; two carry the same base exactly when a multiple of 2^32 successes lies between them |
| `CloseVersions.AtMostOnce` | server_basics.go:790-987 | one request ID raises the version at most once within 2^32 successes, even if its repeats overlap or the cache has forgotten it |
| `CloseVersions.SecondRaise` | server_basics.go:829-959 | the bound is sharp: with a request for every version, some run lets one ID raise the version twice, 2^32 successes apart |
| `CloseVersions.RepliesAgree` | server_basics.go:790-987 | every positive reply to one dirty request ID reports the same version, and that ID did succeed |
| `CloseVersions.RepeatGetsStoredReply` | server_basics.go:790-796 | from the moment the reply is cached until it expires, a repeat gets it and changes nothing else |
| `CloseVersions.AloneRuns` | server_basics.go:790-987 | a request that nothing disturbs runs to the result its cache entry, version and write outcome dictate |
| `Cluster.AppendKeepsNode` | server_replication.go:405-445 | a backup that receives, without a gap, an entry of the primary's log keeps a prefix of that log, replayed files and a faithful log file, and does not panic |
| `Cluster.StepKeepsInv` | server_basics.go:869-935 | every step (submit, deliver, count, commit, give up) keeps the cluster invariant, only extends logs and only raises the commit index |
| `Cluster.LogsArePrefixes` | server_replication.go:405-456 | in every regular run every log is a prefix of the primary's, log[i].Index == i+1, lastApplied <= commitIndex <= len(log) |
| `Cluster.BackupLogsAreDurable` | server_replication.go:427-431 | and a backup's log file parses to its log |
| `Cluster.DeliveriesDoNotPanic` | server_replication.go:448-456 | no delivery in a regular run makes applyCommitted index past the log |
| `Cluster.CommittedStaysOnMajority` | server_basics.go:883-927 | an entry whose Close counts a majority is at its index in the logs of a majority of the servers, then and after any further steps |
| `Cluster.QuorumsIntersect` | server_basics.go:902 | two sets of len(servers)/2+1 servers share a server |
| `Cluster.MajorityKnowsCommitted` | server_basics.go:883-927 | every majority of servers contains one server that holds all committed entries |
| `Cluster.FilesAreReplayedLog` | server_replication.go:322-347 | on every server the files are the start files with log[..lastApplied] replayed |
| `Cluster.EquallyAppliedServersAgree` | server_replication.go:448-456 | two servers with the same start files and equal lastApplied hold the same files |
| `Cluster.CloseTakesTheseSteps` | server_basics.go:869-935 | the append inside Close on the server object is Submit; it reaches its majority exactly when the acknowledgements counted by the cluster enable Commit, misses it exactly when they enable GiveUp, and its commit is Commit |
| `Cluster.PrefixIffNoGap` | server_replication.go:420-425 | a delivery leaves the backup a prefix of the primary's log exactly when its index is at most one past the backup's log: the check that AppendEntries lacks |
| `Cluster.PanicsIffCommitPastLog` | server_replication.go:435-456 | AppendEntries panics exactly when LeaderCommit exceeds the length of the resulting log |
| `Cluster.FailedLogWriteEndsCommits` | server_basics.go:876-882 | a remark on gap-free runs, which with two servers or more have no commit after a failed log write: the entry stays in memory but is never sent, so the next call leaves a gap (what the code then does is in `AllRuns` and `GapCommits`) |
| `Cluster.TruncatedIndexIsSkipped` | server_replication.go:467-472 | an index of 2^31 or more is truncated by int32: the backup skips the entry and still reports success |
| `Availability.CommitWith` | server_basics.go:883-935 | a waiting Close can always be brought to commit by any backups that make a majority with the primary: deliveries in index order, counted acknowledgements, commit |
| `Availability.CommitPossibleIff` | server_basics.go:876-935 | a remark on gap-free runs: some gap-free continuation commits something more exactly when there is one server or no log write of the primary has failed |
| `Availability.GapReachableIff` | server_replication.go:420-425 | a delivery that leaves a gap is reachable by a regular run exactly when there is a backup (Submit, GiveUp, Submit) |
| `Availability.PanicByOneGapIff` | server_replication.go:435-456 | a single delivery with a gap, after a regular run, can make a backup panic exactly when there are three servers or more |
| `AllRuns.CommitAfterFailureBreaksBackups` | server_basics.go:876-927 | in every run, gaps included: once something is committed after a failed log write, so many backups have a log that is not 1, 2, 3, ... (hence no prefix of the primary's) that with the primary they make a majority |
| `AllRuns.RunKeepsBroken` | server_replication.go:420-425 | such a log stays so for ever |
| `GapCommits.CommitAcrossGap` | server_replication.go:405-445 | and such commits do happen: after any failed writes the next entry is taken, acknowledged and committed by all, with no call lost, late or refused |
| `GapCommits.FilesDiverge` | server_replication.go:405-456 | then a backup that has applied as far as the primary lacks a file that the primary has |
| `GapCommits.PanicReachableIff` | server_replication.go:435-456 | over all runs without an earlier panic, a call that makes a backup panic can be reached exactly when there is a backup |
| `AllRuns.RegularIsCalm` | server_replication.go:448-456 | gap-free runs are among these runs |
| `CrashRecovery.BackupRecovers` | server_replication.go:233-250 | a backup that crashes after any run without panics, gaps or not, anywhere in applying and again while recovering, restarts with its whole log and the files of one replay of it |
| `CrashRecovery.CallReplays` | server_replication.go:405-456 | a call with any entries that does not panic applies up to its commit index, keeps the files a replay of the applied log, and the log file equal to the log |
| `CrashRecovery.BackupRecoversFromTornAppend` | server_replication.go:215-250 | a backup that crashes while writing an entry to its log file recovers the entries before, and that one exactly when all but its newline was written |
| `CrashRecovery.NextAppendIsDurableIff` | server_replication.go:215-230 | the next entry written after such a crash is durable exactly when the torn write left nothing, for it continues the torn line |
| `CrashRecovery.EveryMomentIsACrashPoint` | server_replication.go:448-456 | in every run without panics, gaps or not, on every server: the files are the start files with log[..lastApplied] replayed, a crash may leave them so, and a backup's log file parses to its log |
| `CrashRecovery.PrimaryLogIsDurableIff` | server_basics.go:876-882 | in every run, the primary's log file gives back its log exactly when every log write succeeded |
| `CrashRecovery.PrimaryRecovers` | server_replication.go:233-250 | then the primary recovers as a backup does |
| `CrashRecovery.CommittedIsDurableIff` | server_basics.go:876-927 | in every run, for any number of servers: what the primary has committed is at the beginning of what it would recover exactly when nothing was committed after a failed log write |
| `CrashRecovery.CommittedCanBeLost` | server_basics.go:876-927 | whatever the number of servers, some run commits such an entry, with no call lost, late or refused |
| `CrashRecovery.SingleServerLosesWrite` | server_basics.go:876-927 | a single server does so in a gap-free run |
| `EndToEnd.SegmentKeepsJoined` | server_basics.go:847-935 | a Close on the server, with the deliveries and acknowledgements during it, keeps the server's state equal to the primary of the cluster, whatever the outcome |
| `EndToEnd.RunSplits` | server_basics.go:847-935 | hence a joint run is a run of Closes and a regular run of the cluster at once |
| `EndToEnd.ConfirmedIsOnBackups` | server_basics.go:847-948 | a backup that has applied up to the primary's commit index has the primary's files: in every file on which something was confirmed, every confirmed number, once, and none that was not accepted |
| `EndToEnd.ConfirmedSurvivesInMajority` | server_basics.go:883-948 | every majority contains a server whose own log, replayed up to the primary's commit index, gives files with every confirmed number |
| `Heartbeat.LessIsTotal` | server_replication.go:96 | Go's string order is total and asymmetric |
| `Heartbeat.Membership.SendHeartbeat` | server_replication.go:79-106 | the handler's new table, belief, reply and timestamp |
| `Heartbeat.Membership.ElectPrimary` | server_replication.go:200-211 | whatever order the map is ranged over, the leader is the least id alive, or none (when no alive id is empty) |
| `Heartbeat.BeliefIsLeast` | server_replication.go:92-105 | the belief is the least of its start value and everything heard |
| `Heartbeat.BeliefIsLeastIff` | server_replication.go:92-105 | in general, empty ids included, the belief is the least exactly when no id is empty or the last one heard is |
| `Heartbeat.OrderDoesNotMatter` | server_replication.go:92-105 | hence it depends neither on the order nor on the number of heartbeats |
| `Heartbeat.BeliefsAreLeast` | server_replication.go:79-106 | in every run of the cluster each belief is the least of the own id and the ids heard |
| `Heartbeat.Convergence` | server_replication.go:79-106 | once the least id has reached every server all believe in it, and no later heartbeat changes that |
| `Heartbeat.ElectIsLeastAlive` | server_replication.go:200-211 | election by folding the table in any order gives the least id alive |
| `Heartbeat.ElectionIsStableIff` | server_replication.go:200-211 | every order of ranging over the table elects the same leader exactly when the empty id is not alive together with another id |
| `Heartbeat.SenderIsElectable` | server_replication.go:82-91 | after a heartbeat its sender counts as alive: the elected server is the sender or a lesser id |
| `Heartbeat.MarkedTouchesSender` | server_replication.go:82-91 | a heartbeat changes the sender's line of the table only: alive, with its old id and timestamp, or new with those of the heartbeat |
| `Heartbeat.EmptyIdResets` | server_replication.go:93-105 | how it fails: a heartbeat with an empty id lets the next one win, greater or not |
| `Heartbeat.EmptyIdMakesElectionUnstable` | server_replication.go:206 | the smallest table whose election depends on the map order |
| `ClientCache.CachingClient.TouchLRU` | client_basics.go:93-101 | the in-place loop moves the name to the end of the list |
| `ClientCache.CachingClient.EvictFromCache` | client_basics.go:76-90 | the loop removes the first closed, clean entry with descriptor 0 from cache and list, or fails and changes nothing |
| `ClientCache.CachingClient.MakeRoom` | client_basics.go:154-159 | eviction happens only at 20 entries |
| `ClientCache.CachingClient.CreateInCache` | client_basics.go:153-214 | the new cache and list, also when eviction or the server fails |
| `ClientCache.CachingClient.OpenInCache` | client_basics.go:217-327 | the new cache and list in every branch: dirty, unauthorised, up to date, reopened in another mode, outdated, new |
| `ClientCache.CachingClient.CloseInCache` | client_basics.go:500-556 | the entry becomes clean, closed, with descriptor 0 and the server's version |
| `ClientCache.CachingClient.DeleteInCache` | client_basics.go:559-594 | entry and list, including the case where the server refuses after the entry is gone |
| `ClientCache.CachingClient.DropFromLRU` | client_basics.go:587-592 | the in-place loop removes the name from the list |
| `ClientCache.StepKeepsInv` | client_basics.go:76-101 | every client operation keeps: no duplicates in the list, every cached name listed, at most 20 cached |
| `ClientCache.CacheIsBounded` | client_basics.go:76-101 | hence so in every run |
| `ClientCache.ListIsOrderedByLastUse` | client_basics.go:92-101 | in every run the list holds the names used and not since dropped, in the order of their last uses |
| `ClientCache.EvictsLeastRecentlyUsed` | client_basics.go:76-90 | in every run, if a cached file may be evicted then eviction succeeds and removes an evictable file whose last use is not later than that file's, and nothing else |
| `ClientCache.RoomIffEvictable` | client_basics.go:154-159 | a full cache can take another file exactly when some cached file may be evicted |
| `ClientCache.OpenUncached` | client_basics.go:253-324 | a file that is not cached is cached exactly when there is room and the server replies: in the mode asked for, with the server's version and descriptor, open, clean, not yet valid |
| `ClientCache.OpenLeavesDirty` | client_basics.go:220-227 | a dirty file, or one the server does not answer for, is left as it is |
| `ClientCache.OpenKeepsReadMode` | client_basics.go:230-232 | so is an up-to-date file that is open for reading, when another mode is asked for |
| `ClientCache.OpenUpToDate` | client_basics.go:233-252 | any other up-to-date file keeps its version, becomes valid and gets the mode; with a reply the descriptor is the server's and the file open |
| `ClientCache.OpenOutdated` | client_basics.go:263-326 | an outdated file is replaced by a new entry with the server's version and descriptor in the mode asked for, if the server replies |
| `ClientCache.WriteAfterOpen` | client_basics.go:399-415 | after opening a new file a write makes it dirty exactly when it was opened in a writing mode and the local write succeeds |
| `ClientCache.WriteEffect` | client_basics.go:399-415 | a write marks the entry dirty and not valid and changes nothing else of it |
| `ClientCache.CreateEffect` | client_basics.go:153-214 | a created file has the server's version and descriptor, closed and clean, in mode Read; without room nothing changes |
| `ClientCache.CommitEffect` | client_basics.go:441-497 | a commit takes the server's version and clears the dirty flag exactly for an open, dirty file that the server accepts |
| `ClientCache.CloseEffect` | client_basics.go:500-556 | a close leaves the entry clean, closed, with descriptor 0 and the server's version exactly when the server accepts it |
| `ClientCache.DeleteEffect` | client_basics.go:559-594 | a delete drops the entry unless it is dirty or its local file cannot be removed, and the name from the list only when the server agrees too |
| `ClientCache.OthersUntouched` | client_basics.go:76-90 | no operation changes another file's entry; it can only be evicted, from a full cache, when closed, clean and with descriptor 0 |
| `ClientCache.UnsavedWritesStay` | client_basics.go:82-86 | a dirty entry survives every operation but commit, close and re-creation of the same file |
| `ClientCache.OpenFilesStay` | client_basics.go:82-86 | an open entry survives every operation but its own deletion |
| `ClientCache.ClosedFileIsEvictable` | client_basics.go:549-554 | a successfully closed file may be evicted until it is used again |
| `ClientCache.CreatedFileIsEvictableIffFdZero` | client_basics.go:204-214 | a created file counts as closed but keeps its descriptor: it may be evicted exactly when that is 0 |
| `ClientCache.TwentyCreationsBlockTheCache` | client_basics.go:153-214 | after 20 creations of different files with descriptors other than 0, every further creation, and opening any file not cached, fails and changes nothing |

## Left out

- gRPC, dialling, deadlines, retries and sleeping: a timeout is an event, a call is a message that may be delivered.
- Disk and file system errors other than the primary's log write (server_replication.go:215-230, 322-347): backups only report such errors and go on; the model's backups write without errors.
- A panic ends the process of a backup; the model's runs let the server go on, and only report that the call panicked.
- JSON encoding and the scanner's line limit: a line of the log file is an entry or garbage. Torn lines that later appends continue are modelled in `CrashRecovery` only, not inside cluster runs.
- Which of its three errors a server that is not primary answers with (server_basics.go:767-776): one outcome, `NotLeader`.
- UTF-8: a text is a sequence of characters; `NumberText` starts after decoding. `ParseUint`'s error kinds are one `None`.
- Path cleaning, metadata files and file offsets (common.go:23-68, server_basics.go:90-159): a file is a name with a content.
- Bit operations `exp&1` and `exp >>= 1` are written as remainder and quotient by 2.
- Leader change, full-sync recovery, terms and uniqueness of the `Primary` role: the log theorems cover one primary's reign.
- CommittedStaysOnMajority: speaks of the logs in memory and of backups' log files that are written without errors; a server that loses its disk is not modelled (`CrashRecovery` restarts servers from their log files, outside runs).
- Overlapping Closes on different files: server_basics.go:870 computes the index before taking the lock at 876, so the log theorems take one Close at a time.
- The file lock inside `Server.Server`: `HandleClose` is one Close without rivals for the lock. `FileLock` proves the lock, `CloseVersions` proves what it protects, and `CloseEffects.CloseTakesTheseSteps` connects the two views of Close.
- `Write`, `HandleWrite`, `Create`, `Open`, `Read`, `TestAuth` and `Delete` on the server, apart from Delete's attempt at the lock: in runs of Closes they appear as other activity that leaves log, files and prime sets alone.
- `RebuildPrimeSet` and restarting the server object: `ConfirmedWithinFileWithinAccepted` starts without prime sets, so numbers that were in a file before are replaced by the first Close on it, as in the code.
- `cleanupRequests` is an expiry step that may come at any time; `cleanupLeases` is not started by the code and not modelled.
- Request IDs shared between kinds of requests, beyond the panic they cause in Close.
- The bytes of the client's local files, reads by streaming, and two handles on one cache entry: cache entries are values here.
- Liveness beyond `DrainIsBounded` and `DrainGoesOn`: with new readers by AcquireReadNoPriority a writer can wait for ever.
- Test programs, data sets, scripts and the duplicate checker.
