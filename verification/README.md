# Bogofilter: a verified model of its storage, its crash handling and its in-place algorithms

Bogofilter keeps word counts in a database that several processes share, learns from
messages by adding to these counts, and scores messages by looking them up. This
project models the parts where that is delicate and proves what they promise. The
modules follow the program's files.

Storage and crash handling:

- `CrashDetector`, `CrashSafety`, `CrashReports`, `CrashRaces`, `CrashAlone`: the cell file and the
  environment lock as a transition system. One step is one system call; any number of processes interleave,
  and any of them may die before any step, losing its locks and keeping its bytes.
  `CrashAlone` says what each call achieves when nobody else moves.
- `ReplayLog`, `LmdbCalls`, `LmdbPlans`, `LmdbStore`: the log of a transaction as bytes in a
  stack of chunks, the LMDB back end that replays it whenever the map is full, and which
  answers of LMDB let a transaction through.
- `Datastore`, `TaQueue`, `Maint`, `MergeTotals`: packed values in either byte order, the
  write-behind queue, and the merge of non-ASCII tokens.
- `Registration`, `Schedules`, `Register`: learning a message, with retries after deadlock aborts.

Algorithms:

- `Exchange`, `Getopt`, `GetoptRun`, `CommandLines`: argument permutation in place, and
  command lines as they are written.
- `Words`, `HashNodes`, `ListSort`, `WordHash`, `WordCounts`, `Arenas`: the word order, the list
  sort, the hash table and its arenas.
- `MimeLines`, `MimeStack`: the stack of MIME containers.
- `Base64`, `QuotedPrintable`: the in-place decoders.
- `Horspool`: the search of bogogrep.
- `ScoreBoundary`: the choice of the tokens that count.

Code that updates fields or buffers is modelled by classes and methods over them, each
proved against functions on sequences and maps; the lemmas are about these functions.
`Options` holds the optional value.

## Where the code does not meet its promise

Each of these is followed as the code has it, with the exact condition or a concrete case.

- Recovery without the lock. `dbx_recover` takes the exclusive lock only while the test of
  its loop sees a zombie, and recovers if its second test sees one. When only the second
  one does, it recovers without the lock and can erase the mark of a live process
  (`CrashRaces.RecoveryCanEraseLiveMark`). It holds the lock if and only if the loop test saw the
  zombie (`CrashSafety.RecoveryIsExclusive`). The second test can be wrong without any crash, because
  a scan reads the byte before it tests the lock. The field `raced` of the state records
  that this has happened.
- Missed zombies. A process that read a cell as free just before its owner died may lock
  it for a moment before it looks again. A scan that tests the cell at this moment passes
  over the mark (`CrashRaces.ScanCanMissZombie`), and at no other (`CrashSafety.ScanMissesOnlyContendedZombie`).
- Large log entries. An entry too large for an ordinary chunk gets a chunk of its own
  size, and leaves the caster past max (`ReplayLog.TxnLog.Put`). The next put subtracts the two as
  unsigned numbers, finds room, and writes past the end of the chunk
  (`ReplayLog.LargeEntryOverruns`); `Put` therefore asks for a caster that is not past max. Keys of at
  most 511 bytes and values of at most 12 never come near this.
- Growing past 4 GB. The rounding mask is 32 bits wide, so that larger maps do not grow
  (`LmdbCalls.GrowsIffBelow32Bits`).
- Reading back a dated write with timestamps off gives the date, which the commit drops
  (`TaQueue.ReadYourWrites`).
- Counts are 32 bits wide and added without a test. Unregistering restores the counts,
  and merging keeps the totals, exactly when no sum overflows (`Registration.UnregisterRestores`,
  `MergeTotals.MergeConservesCounts`).
- `begin_wordlist` does not look for a deadlock abort when it reads the list's version. The
  next read then has no transaction and stops the program on an assertion. On a store that
  never breaks this is the only way for `begin_wordlist` to fail, and `register_words`, with
  fewer than sixty deadlocks, fails exactly when it happens between two of its tries
  (`Register.WordList.BeginWordlist`, `Register.RegisterWords`, `Schedules.StopsAtVersion`).
- `base64_init` also enters the NUL at the end of the character set, as number 64, so that
  `base64_validate` lets NUL through; a pad in the first or second place of a group moves
  the reading on by less than the four characters that are counted off (`Base64.PadFallsBehind`).
- `get_boundary_props` takes a line with any two bytes after the boundary for an opening
  line. Nested boundaries are told apart exactly under the condition `MimeLines.Apart`.
- The comments in `score.c` speak of an ascending sort; the code sorts in descending order,
  as it has to.

## Model

| member | source | states |
|---|---|---|
| CrashDetector.ProgramGuarantees | bogofilter/src/db_lock.c:97-382 | Each single call of the program, whatever it is shown, keeps what the program relies on: it holds its cell lock from the lock call to the unlock, writes a mark only on a cell it has re-read as free under the lock, and enters recovery with the exclusive lock or in the named race only |
| CrashDetector.StepPerforms | bogofilter/src/db_lock.c:97-382 | Every enabled step of a process is one of those guaranteed effects, with the lock calls granted only where the other locks allow it |
| CrashDetector.ApplyKeepsInv | bogofilter/src/datastore_db_trans.c:436-477 | Start, step, end of work, alarm and death of any process, in any interleaving, keep the system invariant: lock tables, environment lock and the place of every process agree |
| CrashDetector.InitHasInv | bogofilter/src/db_lock.c:142-161 | The freshly created, all-free cell file satisfies the invariant |
| CrashSafety.ReachableInv | bogofilter/src/datastore_db_trans.c:436-477 | Hence the invariant holds in every reachable state |
| CrashSafety.ZombieKept | bogofilter/src/db_lock.c:327-382 | A mark without a live owner survives every event except a write of recovery: the re-read under the lock stops every claimer |
| CrashSafety.ContendersShrink | bogofilter/src/db_lock.c:339-366 | Only a process that read the byte as free before the crash can ever lock the cell of a dead mark |
| CrashSafety.ZombieLockHolder | bogofilter/src/db_lock.c:339-366 | Whoever holds the lock of a dead mark is such a process, between its lock call and its backing out |
| CrashReports.DeathLeavesZombie | bogofilter/src/db_lock.c:327-382 | A process that dies between the write of set_lock and the write of clear_lock leaves its mark, dead and with the lock free, if and only if the byte still says in use, which it always does in runs without the race |
| CrashSafety.CrashIsNeverForgotten | bogofilter/src/db_lock.c:327-382 | In every run a dead mark stays, or some event of the run is a recovery write that met it |
| CrashReports.MarkStays | bogofilter/src/db_lock.c:327-382 | All along a run without such a write the mark stays, and nobody begins to contend for its cell |
| CrashReports.DeathSurvivesUntilRecovery | bogofilter/src/datastore_db_trans.c:587-616 | From the death of the owner on, in every run without the race, the mark stays until clear_lockfile is called by the holder of the exclusive lock |
| CrashReports.CrashIsReported | bogofilter/src/db_lock.c:259-286 | From the death of the owner on, at every event of every run in which no recovery erases the mark, every scan that has not got past it goes on before it, dies or reports a zombie; the one exception is a test of the cell while its lock is held by a process that had read the byte as free and not looked again when the owner died |
| CrashReports.UncontendedCrashIsReported | bogofilter/src/db_lock.c:259-286 | If there is no such process at the death, no scan ever gets past the mark, so that every complete scan reports a zombie |
| CrashSafety.CrashSurvivesUntilRecovery | bogofilter/src/datastore_db_trans.c:587-616 | The same from any reachable state with a dead mark on |
| CrashSafety.ReachableWiped | bogofilter/src/datastore_db_trans.c:540-616 | In such runs the clear_lock that ends recovery always finds a file that is already all free, so it erases no mark |
| CrashSafety.RecoveryIsExclusive | bogofilter/src/datastore_db_trans.c:587-616 | A process in recovery holds the exclusive lock if and only if its loop scan saw a zombie; then no other process is inside a session, and every mark in the file is dead |
| CrashRaces.RecoveryCanEraseLiveMark | bogofilter/src/datastore_db_trans.c:592-616 | A reachable state, without any crash, in which recovery runs unlocked and its next write erases the mark of a live process |
| CrashSafety.CellOwnership | bogofilter/src/db_lock.c:339-366 | A cell has at most one live owner, who holds its lock; a cell in use without a live owner is dead, and its lock is free or held by a contender about to back out |
| CrashSafety.TestSeesQuietZombie | bogofilter/src/db_lock.c:97-120 | The test of a dead mark reports a zombie if and only if nobody holds the lock of the cell |
| CrashSafety.UnlockedIsQuietZombie | bogofilter/src/db_lock.c:97-120 | What check_celllock can observe - byte in use, neither a lock of its own nor of another - is the same as a mark with no live owner and a free lock |
| CrashSafety.CheckZombies | bogofilter/src/db_lock.c:259-286 | An uninterrupted scan returns 1 if and only if there is a dead mark with a free lock, else 0 |
| CrashSafety.ScanMissesOnlyContendedZombie | bogofilter/src/db_lock.c:259-286 | A scan interleaved with any other steps gets past a cell that is dead throughout only if it tests that cell at a moment when a contender holds the lock |
| CrashRaces.ScanCanMissZombie | bogofilter/src/db_lock.c:259-286 | A run in which this happens: the scan ends clean although the mark was dead for the whole of it |
| CrashAlone.SetLock | bogofilter/src/db_lock.c:327-368 | Undisturbed, set_lock claims the first cell whose byte is free and whose lock no other process holds: its byte then says in use, the process holds its lock and runs with it, and every other cell and lock is as before. It gives up exactly if there is no such cell, and then leaves the file as it was |
| CrashAlone.PassesOnlyRefused | bogofilter/src/db_lock.c:333-366 | In any interleaving, a process in set_lock has passed by no cell but one that it found in use or locked by another |
| CrashAlone.GivesUpOnlyIfRefused | bogofilter/src/db_lock.c:333-366 | So one that gives up at the end of the file has found each cell in use or locked |
| CrashAlone.NeedsRecovery | bogofilter/src/db_lock.c:259-286 | Undisturbed, any scan reports a zombie if and only if there is a mark without a live owner whose lock is free, and nothing changes but what its caller does next |
| CrashAlone.PeriodicCheck | bogofilter/src/db_lock.c:288-299 | Undisturbed, the check made by the alarm of a running process ends that process, as a death does, if and only if there is such a mark, and otherwise changes nothing at all |
| CrashAlone.OpenClean | bogofilter/src/datastore_db_trans.c:436-477 | Undisturbed and without such a mark, dbx_init enters a session with the first open cell and recovers nothing |
| CrashAlone.OpenAfterCrash | bogofilter/src/datastore_db_trans.c:436-616 | With such a mark and no session left, dbx_init goes through recovery under the exclusive lock: at the end the whole file is free but for cell 0, which is its own, and it holds the shared lock |
| CrashAlone.CloseSession | bogofilter/src/datastore_db_trans.c:540-569 | The end of a session frees the byte and the lock of its cell and the environment lock, and changes nothing else |
| ReplayLog.U32RoundTrip | bogofilter/src/datastore_lmdb.c:620-690 | Reading back the four bytes of a length word gives the number |
| ReplayLog.StorableMeaning | bogofilter/src/datastore_lmdb.c:620-650 | The entries that the size tests let pass, in plain numbers |
| ReplayLog.PutParses | bogofilter/src/datastore_lmdb.c:574-598 | From the bytes of a put the parser finds the flagged key length, the value length, the key and the value |
| ReplayLog.RawAt | bogofilter/src/datastore_lmdb.c:574-598 | The same at any offset of a chunk |
| ReplayLog.EncodedAppend | bogofilter/src/datastore_lmdb.c:620-690 | Appending one padded entry to the bytes of a list of entries gives bytes that stand for the longer list |
| ReplayLog.EncodedUnique | bogofilter/src/datastore_lmdb.c:553-617 | The bytes of a chunk stand for one list of entries only, whatever the padding holds |
| ReplayLog.EntryReads | bogofilter/src/datastore_lmdb.c:571-611 | Where entries are encoded, the first one can be parsed |
| ReplayLog.EntryEnds | bogofilter/src/datastore_lmdb.c:571-611 | Past that entry and its padding exactly the remaining entries are encoded |
| ReplayLog.ParseEntry | bogofilter/src/datastore_lmdb.c:571-611 | The parser returns the first encoded entry and moves to where exactly the remaining entries are encoded |
| ReplayLog.Chunk.Write | bogofilter/src/datastore_lmdb.c:666-686 | One entry written at the caster: the chunk stands for its old entries and the new one, and the caster stays aligned |
| ReplayLog.TxnLog.Put | bogofilter/src/datastore_lmdb.c:620-690 | Appends the entry to the log, or refuses it if and only if it fails a size test; writes stay in the chunk; caster <= max afterwards if and only if the entry was refused, fitted into the top chunk, or is small enough for a fresh one |
| ReplayLog.TxnLog.PushChunk | bogofilter/src/datastore_lmdb.c:652-664 | A new chunk has room for the entry, below its max exactly when the entry fits an ordinary chunk |
| ReplayLog.LargeEntryOverruns | bogofilter/src/datastore_lmdb.c:652-686 | Every accepted entry that does not fit an ordinary chunk leaves the caster past max; every entry after it then passes the wrapped test for room, and is written past the end of the chunk unless it is the four-byte delete of the empty key and just these bytes are left |
| ReplayLog.SomeEntryIsLarge | bogofilter/src/datastore_lmdb.c:620-650 | There is such an entry |
| ReplayLog.TxnLog.Rewind | bogofilter/src/datastore_lmdb.c:562-567 | The chunk stack, newest first, is relinked in place through next so that it is walked oldest first; the log is unchanged |
| ReplayLog.TxnLog.Free | bogofilter/src/datastore_lmdb.c:693-704 | The log is empty |
| LmdbStore.EffectsPush | bogofilter/src/datastore_lmdb.c:553-617 | What one more logged entry does to the map, and when its replay finds its key |
| LmdbStore.Store.ReplayChunk | bogofilter/src/datastore_lmdb.c:571-611 | Parsing and applying one chunk from its bytes has the effect of that chunk's entries in order |
| LmdbStore.Store.Replay | bogofilter/src/datastore_lmdb.c:553-617 | Replay onto a fresh transaction rebuilds the map that results from all logged entries, and every replayed delete finds its key |
| LmdbCalls.GrowsIffBelow32Bits | bogofilter/src/datastore_lmdb.c:488-500 | Growing computes a larger size if and only if the size before masking is below 2^32, or at the end of the address space |
| LmdbCalls.SmallMapsGrow | bogofilter/src/datastore_lmdb.c:488-500 | As long as no size of 4 GB or more is reported a map can be grown any number of times |
| LmdbCalls.GrownReads | bogofilter/src/datastore_lmdb.c:467-551 | Where growing succeeds, LMDB has answered in one of the ways that a grammar of its answers lists: resizes by other processes, then a new transaction, then one success for each logged entry |
| LmdbCalls.TriedMeaning | bogofilter/src/datastore_lmdb.c:412-464 | A put, a delete or a commit succeeds if and only if the coming answers have the listed form: so many full maps at most (at the commit also resized ones), each followed by a growing that succeeds, then a success |
| LmdbPlans.StepsFinal | bogofilter/src/datastore_lmdb.c:756-947 | Operations that go through leave the table of the same operations on a plain map |
| LmdbPlans.NothingFails | bogofilter/src/datastore_lmdb.c:412-464 | If no coming call of LMDB fails and no value is too long for its reader, the transaction is committed |
| LmdbPlans.CommitsMeaning | bogofilter/src/datastore_lmdb.c:412-464 | A transaction is committed if and only if there is a plan of its answers: for each operation that changes something, and for the commit, at most three full maps in that listed form, and no read of a value that is too long |
| LmdbStore.Store.GrowMap | bogofilter/src/datastore_lmdb.c:467-551 | Abort, grow, begin again and replay: it succeeds if and only if the coming answers of LMDB allow it, and then the transaction reads as before and the log still stands for it |
| LmdbStore.Store.Set | bogofilter/src/datastore_lmdb.c:813-875 | The transaction is updated at the key once, however often the map was full on the way, if and only if the coming answers let it through; keys over the limit are ignored |
| LmdbStore.Store.Delete | bogofilter/src/datastore_lmdb.c:877-947 | If and only if the coming answers let it through the key is gone, and -1 is returned exactly if it was absent |
| LmdbStore.Store.Get | bogofilter/src/datastore_lmdb.c:756-811 | The value in the transaction; nothing for absent or overlong keys; a value larger than the buffer ends the program |
| LmdbStore.Store.Commit | bogofilter/src/datastore_lmdb.c:412-464 | All changes of the transaction are committed if and only if the coming answers let the commit through, and otherwise none, also if the map is full at the commit; the log is dropped |
| LmdbStore.Store.Abort | bogofilter/src/datastore_lmdb.c:384-410 | The committed contents stay and the log is dropped |
| LmdbStore.Execute | bogofilter/src/datastore_lmdb.c:756-947 | Every operation answers and changes the transaction as the same operation on a plain map |
| LmdbStore.RunTransaction | bogofilter/src/datastore_lmdb.c:412-464 | Over any sequence of sets, deletes and gets with any answers of LMDB, all answers given are those of a plain map; the committed contents are the old ones with every operation applied once in order if and only if the answers let each operation and the commit through (Commits), and else the old ones |
| Datastore.SwapFromBytes | bogofilter/src/swap_32bit.c:4-7 | The swap puts the four bytes of a word into the opposite order |
| Datastore.SwapTwice | bogofilter/src/swap_32bit.c:4-7 | Swapping the bytes of a 32-bit word twice gives the word |
| Datastore.PackRoundTrip | bogofilter/src/datastore.c:95-133 | What is unpacked is what was packed, in either byte order; the date is lost exactly when timestamps are off |
| Datastore.OlderValues | bogofilter/src/datastore.c:95-113 | Values of one or two words, as older lists hold them, are read in either byte order with what they lack as zero |
| Datastore.Store.Read | bogofilter/src/datastore.c:192-250 | 0 and the value of the table, or 1 and zeros |
| Datastore.Store.Write | bogofilter/src/datastore.c:252-285 | The table afterwards has the value, stamped with the date of the day if there is one |
| Datastore.Store.Delete | bogofilter/src/datastore.c:287-300 | The word is gone, and -1 tells that it was absent |
| TaQueue.CommitAtWord | bogofilter/src/transaction.c:51-77 | What the table shows for a word after the commit is decided by the last thing queued for it alone |
| TaQueue.ReadYourWrites | bogofilter/src/transaction.c:151-181 | Reading through the queue gives the status and value a read will give after the commit if and only if timestamps are on or the last thing queued for the word is not a dated write |
| TaQueue.AllFoundMeaning | bogofilter/src/transaction.c:51-77 | The commit reports no error exactly if each queued delete finds its word in what the operations before it leave |
| TaQueue.Queue.Add | bogofilter/src/transaction.c:97-126 | The operation is appended to a doubly linked list |
| TaQueue.Queue.Read | bogofilter/src/transaction.c:151-181 | The walk from the end of the list finds the last operation on the word, or asks the store |
| TaQueue.Queue.Flush | bogofilter/src/transaction.c:51-77 | Commit carries out all queued operations in order and tells whether every delete found its word; rollback leaves the store as it was |
| Maint.ReplaceNonAscii | bogofilter/src/maint.c:145-157 | In place, every byte above 127 becomes a question mark, and the result tells whether anything changed |
| Maint.ImageOfImage | bogofilter/src/maint.c:145-157 | Replacing twice is replacing once |
| Maint.GroupAny | bogofilter/src/maint.c:79-100 | The combined value of all tokens with one image does not depend on the order of combining |
| Maint.MergeTokens | bogofilter/src/maint.c:79-100 | Through the queue the old token is gone and the new one has its counts added and the later date |
| Maint.MaintainHook | bogofilter/src/maint.c:164-197 | One visit of the walk has the effect of merging that token into its image, and every queued delete will find its token |
| Maint.MergeAllSoFar | bogofilter/src/maint.c:164-197 | After any part of the walk every image has the combination of its ASCII token and the tokens walked so far |
| Maint.MergeIsOrderIndependent | bogofilter/src/maint.c:278-346 | For any order of the walk the merged table maps each word to the combination of all old tokens with that image, and has no other words |
| Maint.Foreach | bogofilter/src/datastore.c:353-365 | The whole walk queues exactly this merge |
| Maint.MaintainWordlist | bogofilter/src/maint.c:278-346 | After the commit the database is the merged table (but for dates, which need timestamps) |
| MergeTotals.GroupIsSum | bogofilter/src/maint.c:79-100 | The merged count of an image is the exact sum over its tokens, cut to 32 bits |
| MergeTotals.DateOfGroup | bogofilter/src/maint.c:79-100 | The merged date is the maximum: no token of the image is later, and one has it |
| MergeTotals.TotalIsSumOfGroups | bogofilter/src/maint.c:164-197 | The total of a list is the sum of the exact sums of its images |
| MergeTotals.MergedCount | bogofilter/src/maint.c:278-346 | Each count of the merged list is the exact sum of its group cut to 32 bits |
| MergeTotals.MergeConservesCounts | bogofilter/src/maint.c:278-346 | The merge never raises a total, and keeps it if and only if every image counts less than 2^32 |
| Registration.RegisteredAt | bogofilter/src/register.c:72-156 | One registration changes every word of the message once, by its own count, the message counts by theirs, and nothing else |
| Registration.LearntCounts | bogofilter/src/register.c:40-156 | What each flag of a run does to the two counts of a word, and to the message counts: learning spam raises the spam count and learning good mail the good count, modulo 2^32; unlearning lowers the same counts, not below zero; the flag for good mail wins over the one for spam; and the date that is left |
| Registration.BackAt | bogofilter/src/register.c:72-156 | At each word, registering and then unregistering restores both counts if and only if that count did not overflow |
| Registration.UnregisterRestores | bogofilter/src/register.c:72-156 | Registering and unregistering a message restores every count of the list if and only if no count of it overflows 32 bits |
| Register.WordList.ReadOwnData | bogofilter/src/wordlists.c:74-93 | The reads of the list's own data end, leave the version and use up the schedule exactly as OwnData says, with the counts, version and encoding of the fields those of the store; on a store that never breaks they stop the program if and only if a deadlock meets the reading of an unknown version |
| Schedules.OwnDataStops | bogofilter/src/wordlists.c:74-93 | The condition for a pass to stop the program, from the schedule alone |
| Schedules.OpeningStops | bogofilter/src/wordlists.c:65-97 | On a store that never breaks begin_wordlist opens no transaction if and only if some pass meets a deadlock at an unknown version and every pass before it was ended by a deadlock elsewhere |
| Schedules.OpeningUse | bogofilter/src/wordlists.c:65-97 | The transaction opened is a later one, nothing is added to the schedule, and a known version stays |
| Register.WordList.BeginWordlist | bogofilter/src/wordlists.c:65-97 | For every schedule, ends with the transaction, version and schedule that Opening gives, open and untouched, and with the message counts and the encoding read from it, or stops where Opening gives none; on a store that never breaks it stops if and only if StopsAtVersion |
| Register.RegisterToken | bogofilter/src/register.c:82-117 | Read, change and write of one token in two calls, or an abort that leaves no transaction |
| Register.RegisterMessages | bogofilter/src/register.c:120-154 | The message counts are written through the list's fields, which then agree with the store |
| Register.RegisterTokens | bogofilter/src/register.c:86-118 | All tokens are counted, each once, or the first failing call decides how it ends |
| Register.Attempt | bogofilter/src/register.c:82-154 | One try ends with exactly one registration in the open transaction, or as the first failing one of its calls has it: rolled back after a deadlock, or stopped |
| Register.ListIsMessage | bogofilter/src/register.c:86-118 | A list of nodes with distinct keys is a list of distinct tokens |
| Register.TableIsMessage | bogofilter/src/register.c:86-118 | So is the iteration list of a hash table |
| Register.RegisteredNode | bogofilter/src/register.c:86-118 | Hence a registration changes the word of each node by that node's frequency, once |
| Schedules.EndingStops | bogofilter/src/register.c:70-156 | On a store that never breaks, with fewer deadlocks than tries, the retries end without a registration if and only if begin_wordlist stops at an unknown version between two of them |
| Schedules.EndingSucceeds | bogofilter/src/register.c:70-156 | The retries end well if and only if there is a row of tries, no more than allowed, in which each but the last is ended by a deadlock, the next is made in the transaction begin_wordlist then opens, and in the last all calls go through |
| Schedules.KnownNeverStops | bogofilter/src/wordlists.c:74-93 | A known version is never in the way |
| Register.RegisterWords | bogofilter/src/register.c:23-163 | Whatever deadlocks and other writers there are, what is left when it returns is one registration on top of what the last transaction began from, which is the one that Ending gives; it returns if and only if Ending gives one, which is if and only if one of at most sixty such tries goes through. With fewer than sixty deadlocks on a store that never breaks this is so if and only if not StopsBetweenTries, and always if the version is known |
| Exchange.SwapBlocks | bogofilter/gnugetopt/getopt.c:345-376 | Two blocks of equal length that do not overlap are swapped element by element, nothing else moves |
| Exchange.ExchangeBlocks | bogofilter/gnugetopt/getopt.c:310-387 | Terminates, and exchanges two adjacent blocks of any lengths in place, keeping the order inside each and all outside |
| Getopt.NoneIsLost | bogofilter/gnugetopt/getopt.c:547-622 | Options and other arguments, read from left to right, together are all of argv, each once |
| GetoptRun.Scanner.Exchange | bogofilter/gnugetopt/getopt.c:310-387 | The skipped arguments and the options found after them change places, and the two indices follow the skipped arguments |
| GetoptRun.Scanner.SkipNonoptions | bogofilter/gnugetopt/getopt.c:557-573 | Options found so far lie in front of all arguments skipped before optind, which now stands at an option, "--" or the end |
| GetoptRun.Scanner.EndOptions | bogofilter/gnugetopt/getopt.c:583-592 | "--" goes to the options and everything after it to the other arguments |
| GetoptRun.Scanner.Advance | bogofilter/gnugetopt/getopt.c:547-622 | Either the next option is at hand, or argv is permuted and optind is at the first non-option |
| GetoptRun.Scanner.Decode | bogofilter/gnugetopt/getopt.c:922-968 | One letter is handed out with its argument: the rest of the element, the next element, none, or the missing-argument answer |
| GetoptRun.Scanner.GetoptOut | bogofilter/gnugetopt/getopt.c:517-968 | One call hands out the first of what was still to come; -1 means nothing was |
| GetoptRun.GetAll | bogofilter/gnugetopt/getopt.c:517-968 | With an option string that asks for the permuting order and has no "W;": calling until -1 hands out exactly what a left-to-right reading of the original argv hands out, and leaves program name, options with arguments (and "--"), then non-options, each in original order, with optind at the first non-option |
| CommandLines.KindOfLetter | bogofilter/gnugetopt/getopt.c:922-936 | An option string written from a table of letters, each with no, a required or an optional argument, is read as this table |
| CommandLines.KindOfUnknown | bogofilter/gnugetopt/getopt.c:922-936 | A letter that is not in the table, or a colon, is unknown |
| CommandLines.LineRead | bogofilter/gnugetopt/getopt.c:773-968 | Reading a command line gives back what was written: clustered flags, arguments attached, separate, left out or lacking, unknown letters, other arguments, and "--"; with the options and the other arguments told apart |
| CommandLines.WholeLine | bogofilter/gnugetopt/getopt.c:547-622 | Hence what a program gets for a command line that is written like this, and the order in which argv is left: program name, options with their arguments and "--", other arguments |
| CommandLines.TablePermutes | bogofilter/gnugetopt/getopt.c:394-432 | Such an option string asks for the permuting order, if plus, minus and semicolon are no letters of it |
| CommandLines.LineOf | bogofilter/gnugetopt/getopt.c:773-968 | Every argv is such a command line |
| Words.WordCmpIsLexicographic | bogofilter/src/word.c:36-44 | word_cmp is negative exactly for the lexicographically smaller word, zero exactly for equal words, and antisymmetric |
| Words.WordCmpTransitive | bogofilter/src/word.c:36-44 | word_cmp is transitive |
| ListSort.MergeKeepsNodes | bogofilter/src/listsort.c:105-130 | A merge of two runs has all their nodes, each as often |
| ListSort.MergeOrders | bogofilter/src/listsort.c:105-130 | A merge of two ordered runs is ordered, with ties from the first run first |
| ListSort.PassDoublesRuns | bogofilter/src/listsort.c:86-135 | One pass over ordered runs of length k leaves ordered runs of length 2k |
| ListSort.MergeRuns | bogofilter/src/listsort.c:102-133 | The pointers of two runs are relinked into their merge, behind what has been merged before |
| ListSort.MergePass | bogofilter/src/listsort.c:84-135 | One pass relinks the whole list, nil-terminated, and counts its merges |
| ListSort.ListSort | bogofilter/src/listsort.c:70-144 | The result is a nil-terminated list of the same nodes, ascending in the comparator and stable on ties |
| WordHash.HashWord | bogofilter/src/wordhash.c:240-248 | The wrapping accumulator equals the base-31 value of the word taken modulo 2^32 and the table size |
| WordHash.WordHash.constructor | bogofilter/src/wordhash.c:76-108 | A new table is in order and empty |
| WordHash.WordHash.Search | bogofilter/src/wordhash.c:300-316 | The data block of the word if and only if it is in the table |
| WordHash.WordHash.Insert | bogofilter/src/wordhash.c:318-354 | An old word gives its own data block and changes nothing; a new one gets a fresh block, one node in its bin, and the last place of the list; no count of another word is written to |
| WordHash.WordHash.IterInTable | bogofilter/src/wordhash.c:386-429 | The iteration list has exactly one node for each word of the table, nil-terminated, before and after a sort |
| WordHash.WordHash.First | bogofilter/src/wordhash.c:386-406 | The first node of the list |
| WordHash.WordHash.Next | bogofilter/src/wordhash.c:408-429 | The node after the one given out last |
| WordHash.WordHash.Sort | bogofilter/src/wordhash.c:467-473 | The list is strictly ascending in word_cmp, with the same nodes; every search answers as before |
| WordCounts.AddKeysMeaning | bogofilter/src/wordhash.c:318-354 | Insertion order: old words stay in front, each new word occurs once, and nothing else is there |
| WordCounts.CollectWords | bogofilter/src/collect.c:37-63 | After the tokens of a message each word is there once, in the order of first sight, with frequency one, and no other word is |
| WordCounts.AddAllIsSum | bogofilter/src/wordhash.c:260-289 | Adding the counts word by word along the source list gives the pointwise sum of two tables |
| WordCounts.SumMeaning | bogofilter/src/wordhash.c:260-289 | That sum, field by field: frequencies are added, counts are added modulo 2^32, and a word of one table only keeps what it has |
| WordCounts.Add | bogofilter/src/wordhash.c:260-289 | The destination has the pointwise sum of frequencies and counts, with new words in the order of the source, and the source is unchanged |
| Arenas.Arena.Take | bogofilter/src/wordhash.c:188-208 | The block comes from the newest chunk if it has room and else from a new one; no two blocks handed out ever overlap |
| Arenas.Nmalloc | bogofilter/src/wordhash.c:188-208 | One more node, apart from all others |
| Arenas.Smalloc | bogofilter/src/wordhash.c:214-238 | A block of at least the size asked for, at an aligned place, apart from all others |
| MimeLines.FinalMeaning | bogofilter/src/mime.c:298-314 | A matching line closes its container if and only if exactly two dashes follow the boundary |
| MimeLines.InnermostMeaning | bogofilter/src/mime.c:335-353 | No container inside the selected one matches the line; if none is selected, none matches |
| MimeLines.ApartMeaning | bogofilter/src/mime.c:335-353 | The exact condition under which the lines of one multipart are never taken for those of a part inside it |
| MimeLines.NestedMessage | bogofilter/src/mime.c:365-399 | Reading a message nested as in section 5.1 of RFC 2046, at any depth, with messages inside messages and closing lines that may be missing, ends with the message itself in place of the current entity, above it exactly what it has left open (nothing if it is closed), and the rest of the stack as it was |
| MimeLines.LineAt | bogofilter/src/mime.c:365-399 | A line of a container, whatever has been left open above it, leaves the container on top, with one fresh part in it unless the line closes it |
| MimeStack.Stack.Push | bogofilter/src/mime.c:155-239 | One fresh child of the current entity, linked both ways, one deeper |
| MimeStack.Stack.Pop | bogofilter/src/mime.c:241-261 | The current entity is unlinked and freed, its parent current |
| MimeStack.Stack.Free | bogofilter/src/mime.c:174-198 | The entity is no longer allocated, and top and bottom let go of it |
| MimeStack.Stack.Reset | bogofilter/src/mime.c:274-285 | One fresh entity, all old ones freed |
| MimeStack.Stack.AddChild | bogofilter/src/mime.c:287-290 | A fresh child of the current entity |
| MimeStack.Stack.EndHeader | bogofilter/src/token.c:223-235 | The end of a header begins an entity inside a message, and changes nothing for any other type |
| MimeStack.Stack.SetHeader | bogofilter/src/mime.c:586-588 | A media type and a boundary, once parsed, change the current entity only |
| MimeStack.Stack.GetBoundaryProps | bogofilter/src/mime.c:322-357 | The search through the parent links finds the innermost matching container, its depth, and whether the line closes it |
| MimeStack.Stack.GotBoundary | bogofilter/src/mime.c:365-399 | A boundary line pops exactly what lies inside its container, leaving the container current, or one fresh child of it; any other line changes nothing |
| MimeStack.Stack.Cleanup | bogofilter/src/mime.c:200-221 | Every entity is freed |
| Base64.AcceptableMeaning | bogofilter/src/base64.c:73-106 | The characters that are let through: the alphabet, the pad, line ends, and NUL |
| Base64.FillXlate | bogofilter/src/base64.c:73-90 | The table that base64_init fills from the character set, NUL included, is Xlate |
| Base64.XlateChar | bogofilter/src/base64.c:73-90 | The decoding table inverts the alphabet of section 6.8 of RFC 2045 |
| Base64.GroupDecodes | bogofilter/src/base64.c:44-65 | Four characters with their pads decode to the one, two or three bytes they encode |
| Base64.DecodeOfEncoding | bogofilter/src/base64.c:23-71 | Every encoding, or several in a row, with line breaks anywhere between groups, is accepted and decodes to its data; a remainder too short for a group is dropped |
| Base64.EncodeRoundTrip | bogofilter/src/base64.c:23-71 | Every text has an encoding, which decodes to it |
| Base64.PadFallsBehind | bogofilter/src/base64.c:44-57 | A pad in the first or second place of a group moves the reading on by less than the four characters that are counted off, so that a group behind it is never read |
| Base64.EncodingAcceptable | bogofilter/src/base64.c:92-106 | Every encoding passes the check |
| Base64.Validate | bogofilter/src/base64.c:92-106 | True if and only if every character is one of those let through |
| Base64.DecodeGroup | bogofilter/src/base64.c:44-65 | One group: its bytes are written at the write position, which stays below the read position, and nothing else changes |
| Base64.Base64Decode | bogofilter/src/base64.c:23-71 | In place, for every input: a text that passes is replaced by its decoding with a NUL behind; any other text, and everything past the length, is left alone |
| QuotedPrintable.DigitValue | bogofilter/src/qp.c:20-40 | Both cases of a hexadecimal digit are read back as the number |
| QuotedPrintable.TokenDecodes | bogofilter/src/qp.c:48-86 | Each written form of a byte, or soft break, decodes to what it means |
| QuotedPrintable.DecodeOfText | bogofilter/src/qp.c:48-86 | Every quoted-printable text (section 6.7 of RFC 2045, soft breaks included) and every Q-encoded word (section 4.2 of RFC 2047) decodes to its data |
| QuotedPrintable.PlainTextStays | bogofilter/src/qp.c:48-86 | Text without underscores (in words) whose equals signs are followed by neither two hexadecimal digits nor (in bodies) a line end is left as it is |
| QuotedPrintable.EolCheck | bogofilter/src/qp.c:138-155 | The length of the line end after an equals sign, 0 if there is none, never past the end |
| QuotedPrintable.Step | bogofilter/src/qp.c:54-82 | One round of the loop: reading goes on, what is written lies before the place that is read next, and nothing else changes |
| QuotedPrintable.QpDecode | bogofilter/src/qp.c:48-86 | In place, for every input: the text is replaced by its decoding and everything past its length is left alone |
| Horspool.FillSkip | bogofilter/contrib/bogogrep.c:40-43 | The skip table gives for each byte a distance within which no place of the pattern holds it |
| Horspool.ShiftSafe | bogofilter/contrib/bogogrep.c:45-49 | No window passed over by a shift can match |
| Horspool.Search | bogofilter/contrib/bogogrep.c:32-52 | The leftmost occurrence, and nothing only if there is none |
| Horspool.NoLineInside | bogofilter/contrib/bogogrep.c:95-112 | No line begins inside a hit, so skipping the whole hit loses none |
| Horspool.Grep | bogofilter/contrib/bogogrep.c:95-112 | Exactly the lines that begin with the pattern are reported, each once, in order |
| Horspool.ReportedLines | bogofilter/contrib/bogogrep.c:95-112 | Of a file given by its lines, what is reported are the places of exactly the lines that start with the pattern, the last one also if it has no newline |
| ScoreBoundary.NeedScoringBoundary | bogofilter/src/score.c:357-366 | No boundary is sought if and only if the count meets all three limits that are set |
| ScoreBoundary.BoundaryCounts | bogofilter/src/score.c:372-418 | The deviation of the k-th token takes in at least k tokens and has fewer than k above it, ties included |
| ScoreBoundary.FindScoringBoundary | bogofilter/src/score.c:372-452 | A token is used if and only if it deviates at least as much as the boundary; with any of the limits min, max and fix set, at least so many tokens as each of them asks for are used, or all, and fewer than one of them lie strictly above the boundary; if no two tokens deviate alike exactly as many are used as the greatest limit, or all; without a limit the boundary is min_dev |
| ScoreBoundary.UsedExactly | bogofilter/src/score.c:372-418 | Without ties exactly k tokens, or all, deviate at least as much as the k-th |
| ScoreBoundary.CountUsed | bogofilter/src/score.c:287-351 | The count of the scoring loop is the size of the set of used tokens |

## Left out

- System-call errors, signals, sleeping, `alarm` timing and errno: the crash detector has lock, read, write, exit and death steps only; a process may be asked to rescan at any time while it runs.
- Forced and catastrophic recovery from bogoutil, which do not open the cell file.
- Berkeley DB, SQLite, QDBM, Tokyo Cabinet, Kyoto Cabinet and the inside of LMDB: a store is a map with begin, commit and abort, and failures may come at any call.
- Another writer that commits between the abort and the new begin of a map that grows: the old committed contents are assumed to be those of the new transaction.
- The key pointer that LMDB redirects into its own memory: keys are values.
- LmdbStore.Store.Get: takes it that mdb_cursor_get meets no error but an absent key; what the other calls of LMDB answer is given by a list, and whether a grown map has room is for that list to say.
- Maintenance by count, size, date or encoding, replacement of tokens other than merging, and the upgrade of the word list version.
- Maint.MaintainWordlist: models a walk over the list as it stood at its start, which is what the queue gives; a store that fails during the walk is not modelled.
- Register.TableIsMessage: takes it that the word ".MSG_COUNT" is not a token of the message; which tokens there are is the lexer's to say.
- Register.RegisterWords: models reads, writes, begin and aborts; the commit is made by the caller, and messages, formatting and the global run_type are not modelled.
- Word frequencies are unbounded integers in the hash table; the C int may overflow after two thousand million additions.
- WordCounts.Add: does not say what the field count is afterwards, because the source's count is added as well as the inserted words; it states the field size.
- WordHash.WordHash.Insert: nodes and data blocks are objects; that the arena blocks they live in do not overlap is proved separately in `Arenas`, and freeing them is not modelled.
- The table kinds of bogotune (counts and property lists), and the bogotune branches of scoring.
- GetoptRun.GetAll: asks for an option string that selects the ordering PERMUTE and has no "W;"; the orderings REQUIRE_ORDER and RETURN_IN_ORDER (an option string that begins with plus or minus, or POSIXLY_CORRECT in the environment), long options, error messages, and calls after -1 or with optind set back by the caller are not modelled.
- Parsing of MIME header fields, and decoding of bodies other than by base64 and quoted-printable.
- MimeStack.Stack.EndHeader: is not called at the end of a header that is longer than the longest token, where get_token goes on without a child.
- MimeStack.Stack.SetHeader: takes the media type and boundary as already parsed.
- MimeLines.IsFinal: reads up to two bytes past a line that has none of its own end; these bytes are assumed not to be dashes, since a line ends in a newline or the terminating NUL.
- `qp_validate`, `text_decode` and `uudecode`, which ignores the declared length and so has no round trip.
- The text that bogogrep prints; a hit is reported by its place in the file. The empty pattern, on which the loop of bogogrep does not move on.
- The lines of bogotune files (BOGO_LEX_LINE) in collect_words, and the lexer: the tokens are given.
- `lookup` in `score.c`, the products P and Q, and the statistics: a token's deviation is an abstract real number, so rounding is not modelled.
- ListSort.ListSort: for lists of at most 2^30 nodes, beyond which insize overflows.
- Configuration, logging, passthrough output, mailbox reading, character-set conversion and the lexer.
