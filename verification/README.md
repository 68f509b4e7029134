# Verification of the chat system's stateful core

A Dafny model of the four components of the chat system that keep real state, with proofs of what
they promise over whole runs. `dafny verify dfyconfig.toml` checks everything.

- **Hash chain** (`integrity.py`): `HashChain.dfy`. SHA-256 is a parameter of which only the shape of
  a digest is assumed; it is never assumed injective. Where a proof needs more, it says "or here is a
  break", and a function computes the collision or the preimage of GENESIS from the rows at hand.
- **The life of a message in a backend** (`app.py`, `db.py`): `ChainStore.dfy` is a step relation with
  one step per lock region or queue operation, for any interleaving of posts with the background
  writer. `ChatServer.dfy` holds the same code as objects and proves the sequential calls to be runs
  of those steps. `Durability.dfy` says when table and feed stay in step and survive crashes.
- **Feed store** (`load_balancer/main.go`, `AtomicFeedStore`): `Runes.dfy` is UTF-8, `Json.dfy` a
  parser for RFC 8259 that repairs ill-formed bytes as encoding/json does, `GoQuote.dfy` `%q` byte for
  byte, `RawText.dfy` what becomes of text inserted raw, `FeedRecord.dfy` the rendered record,
  `Decoding.dfy` what decoding into the message struct means,
  `FeedFormat.dfy` buffer, feed text and backup file, `Recovery.dfy` start-up on a torn file, `FeedStore.dfy` the object,
  `FeedProtocol.dfy` and `FeedMirror.dfy` all interleavings of posts, worker, readers, resets and
  flushes, `FeedRuns.dfy` the object's calls as runs of those. `FastUuid.dfy` is the source of made-up ids.
- **Shared database** (`SharedDB`): `SharedDb.dfy` is the object, proved to be a per-id fold over its
  delivery log, and `FoldMeaning.dfy` says what that fold is; `SharedCache.dfy` is the double-checked
  cache as a protocol of atomic accesses, `CacheRuns.dfy` the object's calls as runs of it.
- **Backends** (`Backend`, `ServerPool`): `ServerPool.dfy`.

`Text.dfy` prints and reads integers.

## Where the code and its documentation part

The model follows the code.

- `integrity.py:12-14` and `integrity.py:38-40` say that every verdict after an edited row breaks. The
  code links each row to the digest *stored* before it, so an edit of hashed fields breaks one verdict
  and an edit of a stored digest two (`EditedFieldsAreLocal`, `EditedDigestIsLocal`).
- Line 95 of the repository's README promises a feed of all accepted messages. A drainer takes a
  record off the channel before it appends it, so a concurrent call can miss it: `FeedMayMissAccepted`
  is such a run, and `FeedCompleteness` says exactly which records a call misses.
- Line 58 says that all accepted messages are mirrored to the backup file. A post that meets a full
  channel is not: `AcceptedMayBeUnmirrored`. Whoever drains, a posted record of the feed is passed to
  the file if and only if its Add found room in the channel (`MirroredUnlessOverflowed`).
- Line 60 says that a restart restores all messages. It leaves out what sits in hands and in the
  writer's 64 KiB buffer, and also accepted records that are wholly in the file: those whose name or
  text `%q` renders as no JSON string (`BellIsLost`), those whose id, as read, an earlier record has
  (`IllFormedIdsMerge`, `EmptyIdMerges`), and those at or behind a line of 64 KiB. With ids free of quotes, backslashes and control characters, and the
  worker as sole drainer, exactly the others are restored (`CrashRecovery`, `RecoveredPlaces`).
- Two posts with the same new id can both draw a link, and one of the links is then thrown away; the
  table left behind does not verify although nobody touched it (`DuplicateRaceBreaksChain`). What is
  stored verifies exactly when every row was put in the queue as the next one that was linked
  (`StoredVerifiesIffLinkOrder`); one post at a time between link and queue is a guard that keeps to
  this (`ExclusiveLife`).
- The hash payload joins its fields with `|`. It can be taken apart if and only if the link, the
  ciphertext and the signature hold no `|` (`PayloadRoundTrip`); `PayloadAmbiguous` shows two records
  with one payload otherwise.
- The load balancer inserts ids raw and quotes texts with `%q`, which is not JSON for every string.
  `FeedRoundTrip` holds if and only if every record is safe. An id that is not UTF-8 comes back
  repaired, so recovery can take two such ids for one; the recovery results speak of ids as read.
- The selector reads a threshold that never decides anything, and an open breaker whose cooldown has
  passed counts as available but is never chosen (`SelectBest`, `ThresholdIsIgnored`).

## Model

| member | source | states |
|---|---|---|
| HashChain.VerifyChain | integrity.py:35-47 | one verdict per row, each against the digest stored in the row before (GENESIS first); all True exactly when the list verifies |
| HashChain.PayloadRoundTrip | integrity.py:23 | the hashed fields can be read back from the payload if and only if link, ciphertext and signature hold no separator, whatever the username holds |
| HashChain.PayloadInjective | integrity.py:21-24 | equal payloads come from equal fields |
| HashChain.PayloadAmbiguous | integrity.py:23 | with a separator in the ciphertext two different records print the same payload |
| HashChain.SameLinks | integrity.py:35-47 | two verifying lists of any lengths with the same last digest agree link by link, or a collision or GENESIS preimage is extracted |
| HashChain.ChainBinding | integrity.py:21-47 | the last digest binds length and every hashed column of every row, up to an extracted break |
| HashChain.SelectionVerifiesIffPrefix | integrity.py:35-47 | unmodified rows deleted, reordered or repeated verify exactly when they are a prefix of the intact list, up to an extracted break |
| HashChain.EditedFieldsAreLocal | integrity.py:27-47 | an edit of hashed columns leaves every other verdict True, and its own True only with an equal payload or a collision |
| HashChain.EditedFieldsAreCaught | integrity.py:27-32 | on base64 columns every real edit of a hashed column turns its verdict False, or is a collision |
| HashChain.EditedDigestIsLocal | integrity.py:44-46 | an edit of a stored digest breaks that row and its successor and nothing else, up to a collision |
| HashChain.VerifiesAppend | app.py:160-166 | adding a row keeps a list verifying exactly when the row is linked to its tail |
| ChainStore.TableVerifiesIffPrefix | db.py:178-209 | in every interleaving of posts, writer batches, duplicate races, direct inserts and failed batches the table is drawn from the issued link log, and verifies exactly when it is a prefix of that log, up to an extracted break |
| ChainStore.ChainInvStep | app.py:160-166 | every step keeps the issued log intact, the tail in step with it, and every row in flight or stored one of its rows |
| ChainStore.DuplicateRaceBreaksChain | app.py:206-242 | a run in which two posts share an id ends at rest with a table that is no prefix of the log, and verifies only if the hash is broken |
| ChainStore.ExactlyOnceInMemory | db.py:178-209 | under concurrent saves and a writer that does not fail every accepted id is at exactly one place, and INSERT OR IGNORE never drops a row |
| ChainStore.OnceStep | db.py:186-207 | every step keeps seen ids, feed, saves in progress and stored rows in this correspondence |
| ChainStore.InsertAllUnique | db.py:73-78 | ids in the table stay distinct whatever is inserted, and a row lands exactly when its id is new |
| Durability.StoredIsPrefixIffLinkOrder | db.py:178-209 | without full queue and writer failure, however posts overlap, table, batch and queue are a prefix of the issued log if and only if every row was queued as the next linked one |
| Durability.StoredVerifiesIffLinkOrder | db.py:178-209 | so what is stored verifies if and only if every row was queued as the next linked one, up to an extracted break |
| Durability.FeedShowsStoredIffFeedOrder | db.py:191-197 | and the feed shows it in its order if and only if every row was queued as its next item |
| Durability.DurableLife | db.py:53-79 | with both orders kept, after any steps table, batch and queue are an intact chain, the feed shows them in order and nothing else while no save is between feed and queue, and the table extends the one found at start-up |
| Durability.PrefixDurability | db.py:154-175 | the same in every life across any number of crashes: a crash costs a suffix of the feed only, and every later table verifies |
| Durability.ExclusiveLife | app.py:228-242 | both orders are kept when one post at a time goes from link to queue and links no id saved since its early check, in particular when posts do not overlap |
| ChatServer.MessageDb.InitDb | db.py:154-162 | seen ids and feed are rebuilt from the table in its order, each item with id, username, plaintext and timestamp of its row |
| ChatServer.MessageDb.GetLastHash | db.py:168-175 | the digest of the last row, or GENESIS |
| ChatServer.MessageDb.MessageExists | db.py:274-277 | true exactly for ids that are stored or queued, equivalently in the feed |
| ChatServer.MessageDb.SaveMessage | db.py:178-209 | False and no change for a known id; otherwise the feed grows by id, username, plaintext and timestamp and the row goes to the queue, or to the table when 200000 rows are queued |
| ChatServer.MessageDb.WriterCycle | db.py:53-79 | moves the first 200 queued rows, or all, to the end of the table and loses none |
| ChatServer.MessageDb.ResetDb | db.py:366-392 | empties queue, seen ids, feed and table |
| ChatServer.ChatApp.StartUp | app.py:145 | takes up the chain at the tail of the table |
| ChatServer.ChatApp.Store | app.py:228-242 | link and save of one post that meets no other, as the steps of that post |
| ChatServer.ChatApp.PostMessage | app.py:191-264 | which of the four answers is given; a refused or duplicate post changes nothing; an accepted one adds a feed item and a row with its parameters in their columns, moves the tail to the digest over the old one, does what its steps do and keeps table and queue an intact chain |
| ChatServer.ChatApp.ResetState | app.py:291-302 | leaves the state of a start-up over an empty table |
| ChatServer.PostAloneIsRun | app.py:206-242 | the whole call is a run of the interleaved model |
| ChatServer.WriterIsRun | db.py:53-79 | a round of the writer is a run of the interleaved model |
| Json.TornObjectInvalid | load_balancer/main.go:71 | no proper prefix of an object is a JSON text |
| GoQuote.CodeRoundTrip | load_balancer/main.go:685 | the code point of a UTF-8 sequence, encoded again, is the sequence |
| GoQuote.EncodedIsRune | load_balancer/main.go:685 | every code point beyond ASCII that is no surrogate has a UTF-8 sequence that spells it |
| GoQuote.QuotedAsIs | load_balancer/main.go:685 | a character beyond ASCII is quoted as itself exactly when it is printable, and otherwise in ASCII |
| GoQuote.QuotedString | load_balancer/main.go:685 | a `%q` body followed by its quote parses as a JSON string exactly when the text is safe, and then to the text |
| RawText.RawReadsBack | load_balancer/main.go:685 | text inserted raw reads back as itself if and only if it is UTF-8 without quote, backslash and control character |
| RawText.PlainString | load_balancer/main.go:685 | text without quote, backslash and control character reads back with every ill-formed byte replaced by U+FFFD |
| FeedRecord.SafeIsUnchanged | load_balancer/main.go:684-686 | safe records are the readable ones that a reader sees as they were |
| FeedRecord.RecordValue | load_balancer/main.go:684-686 | a rendered record with a plain id parses, wherever it stands, up to its own end if it is readable and not at all otherwise, and any record to its own object if and only if it is safe |
| FeedRecord.UnmarshalRendered | load_balancer/main.go:70-71 | decoding a rendered readable record into the struct gives the record with its id repaired |
| FeedRecord.UnmarshalTorn | load_balancer/main.go:70-71 | of a record with a plain id no proper prefix of the rendering decodes, nor the whole of it if it is not readable |
| Decoding.DecodeMeaning | load_balancer/main.go:39-44 | decoding fails exactly when a member does not fit its field; otherwise each field is what the last member with its key that is not null says |
| Decoding.KeyMeaning | load_balancer/main.go:39-44 | a key is a tag in any mixture of upper and lower case |
| FeedFormat.BuilderAppend | load_balancer/main.go:112-120 | appending to the buffer of some entries gives the buffer of the entries and the new one |
| FeedFormat.FeedRoundTrip | load_balancer/main.go:152-183 | the feed text is a JSON array of exactly the buffered records in order, with their original strings, if and only if all are safe |
| FeedFormat.FeedAsRead | load_balancer/main.go:152-183 | with readable records the feed text is a JSON array of the buffered records in order, as a reader sees them |
| FeedFormat.SafeAsRead | load_balancer/main.go:684-686 | a reader sees safe records as they are |
| FeedFormat.JournalAppend | load_balancer/main.go:122-125 | the sole writer's file grows by the record and a newline |
| Recovery.RenderPrintable | load_balancer/main.go:685 | a record whose id holds no control character renders to one line |
| Recovery.WholeMeaning | load_balancer/main.go:64-66 | which records count as wholly in the cut: those that end within it and follow no over-long line |
| Recovery.FirstPerKeySnoc | load_balancer/main.go:72-77 | the first-per-key specification seen from the end: one more message is kept exactly when its key, as read, is new |
| Recovery.TornRecoverySeen | load_balancer/main.go:63-90 | the journal of records with plain ids cut at any byte is recovered to exactly the readable ones of the records wholly in the cut, first per key as read, in order, byte for byte |
| Recovery.TornRecovery | load_balancer/main.go:63-90 | the same for start-up |
| Recovery.RecoveredPlaces | load_balancer/main.go:63-90 | record by record: one is recovered exactly when it ends within the file and behind no over-long line, is readable, and no readable record before it has its id as read (or, for empty ids, its name, text and time) |
| Recovery.RestoredById | load_balancer/main.go:72-77 | with ids that are not empty, no two restored messages share an id as read, and a readable one is restored exactly when no readable one before it has its id |
| Recovery.ScanMeaning | load_balancer/main.go:64-66 | the next line is what stands before the newline without one carriage return; 65536 bytes or more end the scan |
| Recovery.IllFormedIdsMerge | load_balancer/main.go:70-77 | two messages with different ids that are not UTF-8 are recovered as one |
| Recovery.BellIsLost | load_balancer/main.go:70-71 | an accepted text with U+0007 is not recovered from its whole line |
| Recovery.EmptyIdMerges | load_balancer/main.go:72-77 | a message without an id is lost to one whose id spells its name, text and time |
| FeedStore.BufferedFile.Write | load_balancer/main.go:102-125 | nothing is lost or reordered between buffer and file however often the buffer overflows, and the file only grows |
| FeedStore.AtomicFeedStore.Recover | load_balancer/main.go:64-87 | the loop keeps exactly the lines that decode, first per key, as buffer and count, and their keys as seen |
| FeedStore.AtomicFeedStore.constructor | load_balancer/main.go:55-99 | start-up holds what the recovery of the file found, or nothing without a file |
| FeedStore.AtomicFeedStore.AppendLocked | load_balancer/main.go:112-120 | the lock region adds one entry to buffer and count |
| FeedStore.AtomicFeedStore.WorkerReceive | load_balancer/main.go:108-125 | one record goes from the channel to the end of the buffer and, with a newline, to the writer |
| FeedStore.AtomicFeedStore.Add | load_balancer/main.go:134-150 | never refuses; a full channel sends the record to the buffer and to no file |
| FeedStore.AtomicFeedStore.GetFeedBytes | load_balancer/main.go:152-183 | drains the channel in order into buffer and file and returns the rendering of all entries |
| FeedStore.AtomicFeedStore.Reset | load_balancer/main.go:189-210 | empties channel, buffer, seen set and file but not the worker's writer |
| FeedStore.RecoveredFeed | load_balancer/main.go:63-90 | a start-up on any prefix of the journal of records with plain ids holds exactly the readable records wholly written, each key as read once, and serves them as a JSON array |
| FeedProtocol.ConservedStep | load_balancer/main.go:101-210 | every step keeps each record at exactly one of channel, one hand, buffer, dropped by reset |
| FeedProtocol.Conservation | load_balancer/main.go:101-210 | conservation and the shape of buffer and count after every run of posts, overflows, worker, readers, resets and flushes |
| FeedProtocol.FeedCompleteness | load_balancer/main.go:152-183 | without resets a call misses, of what was accepted before it began, exactly what other drainers hold in hand: at most one record for the worker and one per other call, none if nobody holds one |
| FeedProtocol.AcceptedMeaning | load_balancer/main.go:134-150 | accepted records are those in the channel, in the buffer or in a drainer's hand |
| FeedProtocol.FeedMayMissAccepted | load_balancer/main.go:108-120 | a run in which a call returns an empty feed although a record had been accepted before it |
| FeedProtocol.CrashRecovery | load_balancer/main.go:101-132 | a crash at any moment with the worker as sole drainer, after a start-up on any journal that ends at a line boundary: the next start-up restores and serves exactly the readable records wholly in the file, older and newer, each key as read once |
| FeedMirror.MirroredUnlessOverflowed | load_balancer/main.go:101-210 | in every run of posts, worker, readers and resets from any start-up, a posted record of the feed has been passed to the file, or is about to be by the drainer that appended it, if and only if its Add found room in the channel |
| FeedMirror.WorkerJournal | load_balancer/main.go:101-132 | with the worker as sole drainer of a fresh file, file and writer's buffer hold just the journal of what it wrote |
| FeedMirror.AcceptedMayBeUnmirrored | load_balancer/main.go:138-148 | a run that ends with an accepted record in the feed that nobody passes to the file |
| FeedRuns.AddIsRun | load_balancer/main.go:134-150 | the call is a run of the interleaved model, with room and with a full channel |
| FeedRuns.ReceiveIsRun | load_balancer/main.go:108-125 | one worker round is a run of the model in which the writer flushes what bufio flushed |
| FeedRuns.GetIsRun | load_balancer/main.go:152-183 | the call is a run of the model, and its answer the model's feed text |
| FeedRuns.TickIsRun | load_balancer/main.go:126-129 | the ticker case is a run of the model |
| FeedRuns.ResetIsRun | load_balancer/main.go:189-210 | the call is a run of the model that leaves the writer's buffer as it was |
| FeedRuns.DrainersReorder | load_balancer/main.go:108-120 | a run in which two drainers exchange the order of two accepted records |
| FastUuid.UuidInjective | load_balancer/main.go:29-33 | two ids are equal exactly when both words are |
| FastUuid.UuidReadsBack | load_balancer/main.go:29-33 | an id is 16 hexadecimal digits of clock, a dash and 16 of counter |
| FastUuid.IdsDiffer | load_balancer/main.go:29-33 | two ids of one process are equal exactly when counter and clock words both recur, however far apart the calls are |
| FastUuid.IssueAll | load_balancer/main.go:29-33 | so are any two ids that the source hands out over any number of calls |
| FastUuid.UuidIsSafe | load_balancer/main.go:681-685 | a made-up id is safe to insert raw |
| SharedDb.SharedDB.constructor | load_balancer/main.go:237-247 | starts empty, clean and with the rendering of the empty list |
| SharedDb.SharedDB.AddSingle | load_balancer/main.go:270-287 | is one more delivery of the fold, and dirties the cache exactly when it changes the list |
| SharedDb.SharedDB.Append | load_balancer/main.go:273-283 | a new record goes to the end of the list and its position to the index |
| SharedDb.SharedDB.MergeInto | load_balancer/main.go:307-320 | what a redelivery replaces and fills in the record at its position |
| SharedDb.SharedDB.AddItem | load_balancer/main.go:292-340 | one batch item is one more delivery of the fold and inserts at most one record |
| SharedDb.SharedDB.AddBatch | load_balancer/main.go:289-344 | the batch is appended to the delivery log that list and index are the fold of; the result counts the inserted records |
| SharedDb.SharedDB.GetMessagesBytes | load_balancer/main.go:346-362 | returns the rendering of the list whether or not the cache was out of date |
| SharedDb.SharedDB.Reset | load_balancer/main.go:370-382 | an empty log, list and index and a clean cache |
| SharedDb.MergedSnoc | load_balancer/main.go:307-320 | the code's merge keeps the record equal to: first delivery's name and time, first non-empty plaintext, last non-empty ciphertext, signature and digest |
| FoldMeaning.RecordMeaning | load_balancer/main.go:270-340 | record i has number i+1, name and time of its id's first place in the log, the last non-empty ciphertext, signature and digest there and the first plaintext that counts |
| FoldMeaning.ListedMeaning | load_balancer/main.go:292-307 | an id is listed exactly when some place of the log carries it, batch items without an id carrying none |
| FoldMeaning.ListOrder | load_balancer/main.go:321-337 | the list is in the order of first places |
| SharedDb.FoldNew | load_balancer/main.go:321-337 | inserting a new id keeps the list the fold of the log, numbered from 1 in first-delivery order |
| SharedDb.FoldAgain | load_balancer/main.go:307-320 | merging a known id keeps the list the fold of the log |
| SharedDb.FoldSingleAgain | load_balancer/main.go:271-272 | a repeated AddSingle leaves the fold unchanged |
| SharedDb.DeliveredFolds | load_balancer/main.go:270-340 | any delivery takes the fold of the log to the fold of the longer log |
| SharedDb.FoldUnique | load_balancer/main.go:228-344 | the log determines list and index |
| SharedDb.RedeliveryIsIdle | load_balancer/main.go:289-344 | delivering a batch again right away leaves list and index unchanged |
| SharedDb.BatchAlgebra | load_balancer/main.go:289-344 | two batches leave the same list and index as their concatenation, inserted counts add, and a repeated batch inserts nothing |
| SharedCache.InvStep | load_balancer/main.go:269-382 | every atomic access keeps mutual exclusion, and a clean cache the rendering of the committed list |
| SharedCache.FoldedRun | load_balancer/main.go:269-382 | in every run list and committed list are the per-id folds of the deliveries that the steps so far made since the last clearing and committed since the last reset |
| SharedCache.Linearizable | load_balancer/main.go:346-362 | in every run what a call returns is the rendering of the fold of the deliveries that the steps up to some moment between its start and its return had committed |
| SharedCache.RendersOnlyDirty | load_balancer/main.go:347-355 | the cache is rendered anew only while the flag is dirty |
| SharedCache.NoDeadlock | load_balancer/main.go:346-382 | the holder of the lock always has a next step |
| CacheRuns.SingleIsRun | load_balancer/main.go:270-287 | the call is a run of the protocol |
| CacheRuns.BatchIsRun | load_balancer/main.go:289-344 | the call is a run of the protocol that makes the batch's deliveries in order |
| CacheRuns.GetIsRun | load_balancer/main.go:346-362 | the call is a run of the protocol and gives its answer |
| CacheRuns.ResetIsRun | load_balancer/main.go:370-382 | the call is a run of the protocol |
| CacheRuns.MayAnswerOlder | load_balancer/main.go:346-362 | a run in which a call answers with an older list than the one committed meanwhile |
| ServerPool.BreakerMeaning | load_balancer/main.go:410-442 | after any events the breaker is open exactly when since the last recovery some failure was at least the fifth bad event or some probe at least the third, and cools down for two seconds from the last such one |
| ServerPool.StreakMeaning | load_balancer/main.go:420-426 | the bad events counted are those behind the last recovery |
| ServerPool.AvailabilityMeaning | load_balancer/main.go:444-454 | a backend is available unless its breaker is open and the last trip is at most two seconds ago |
| ServerPool.BreakerBounds | load_balancer/main.go:410-442 | five bad events in a row always open it, two never do |
| ServerPool.Backend.RecordFailure | load_balancer/main.go:410-418 | is one failure event of the breaker |
| ServerPool.Backend.RecordSuccess | load_balancer/main.go:420-426 | is one recovery event of the breaker |
| ServerPool.Backend.SetAlive | load_balancer/main.go:428-442 | is one probe or recovery event of the breaker |
| ServerPool.Backend.Probe | load_balancer/main.go:569-585 | one health check is a probe or recovery event, and takes over the score only with the latter |
| ServerPool.ServerPool.SelectBest | load_balancer/main.go:479-517 | whenever an alive backend scores below the sentinel, the first alive backend of least load score plus one and a half per request in flight, whatever threshold, cooldowns and time; otherwise any backend, and none only for an empty pool |
| ServerPool.NobodyIsBetter | load_balancer/main.go:456-464 | no alive backend has a lower load score and no more in flight than that one |
| ServerPool.SentinelIsMaxFloat | load_balancer/main.go:484-487 | the sentinel is the largest finite double |
| ServerPool.FirstBestUnique | load_balancer/main.go:479-517 | that backend is unique |
| ServerPool.ThresholdIsIgnored | load_balancer/main.go:479-517 | pools over the same backends choose alike with any thresholds at any times |
| ServerPool.ServerPool.AdaptThreshold | load_balancer/main.go:525-551 | the new threshold is between 30 and 90, at an end when one and a half times the average of the counted scores is there or beyond, and else equal to it; unchanged without a counted backend |
| ServerPool.CountedMeaning | load_balancer/main.go:529-534 | the counted scores are those of the alive backends with a positive load score, each once and in order |
| ServerPool.AboveBound | load_balancer/main.go:525-551 | the scores above a threshold sum to more than their number times the threshold |
| ServerPool.LeastIsWithin | load_balancer/main.go:525-551 | the least counted score, if at most 90, does not exceed the adapted threshold |
| ServerPool.FewExceed | load_balancer/main.go:525-551 | unless the cap cuts in, fewer than two thirds of the counted scores exceed the adapted threshold |
| ServerPool.AllMayExceed | load_balancer/main.go:541-549 | with the cap every score may exceed it |
| Text.IntTextRoundTrip | integrity.py:23 | a printed integer reads back as itself |

## Left out

- The WebSocket message path (`app.py:391-424`) takes the tail of the table while rows may still be queued and never updates the in-memory tail; it is outside every chain claim.
- `save_messages_batch` (`db.py:297-350`) extends the feed without looking at seen ids; outside the exactly-once and durability claims.
- Resets of a backend that race with posts or with a writer batch, and several Gunicorn processes over one table.
- The first `reset_db` (`db.py:259-271`) is overridden by the second and not modelled.
- Fernet, ECDSA and SHA-256 themselves, key caches, HTTP routing, form and JSON request decoding with its field fallbacks, replication to the shared database, health polling, statistics, the dashboard and the load generator.
- `_background_writer`: the step model lets a batch be committed before it is full, which only adds runs; a failed batch may leave any prefix of its rows in the open transaction.
- SQLite durability: a commit is taken to be durable, although the code switches synchronous writes off.
- Durability.PrefixDurability: full queues and failed batches are not covered; a row inserted past the queue, or lost, leaves the order of the log.
- Json: nesting depth is unlimited; outside strings the parser looks at bytes only, as JSON's other tokens are ASCII.
- FeedRecord.UnmarshalRendered: ids with a raw quote, backslash or control character; what they render to may be any line, several lines, or another object.
- FeedRecord: struct keys are matched without regard to ASCII case only.
- GoQuote: the table of printable characters beyond ASCII is an unspecified constant, so every result holds for any table.
- FeedProtocol.CrashRecovery: the worker is the sole drainer and the start-up before found a file that ends at a line boundary. With GET /feed writing to the same file, or after a restart on a torn tail, lines can run together.
- FeedProtocol: the backup file can be opened; without one the worker and the readers skip it, as FeedStore models.
- FeedProtocol: a reset may come at any moment but is not assumed to reach what the worker's writer still buffers.
- `Count` of feed store and shared database, the log lines and memory hints.
- SharedCache: marshalling these records never fails, so its error branch is not modelled.
- SharedDb: batch items arrive with their fields looked up (`getStringVal`); the counter is unbounded where the code has 64 bits.
- ServerPool: scores are reals, so rounding, NaN and infinities are not modelled, and the selector looks at a pool that stands still while it loops.
- ServerPool: `URL`, `TotalServed`, `TotalErrors` and the other health figures decide nothing here.
