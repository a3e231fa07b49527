# A verified model of a link-search stack

The repository is a collection of programs around cloud-disk links: a search service that fans out to
plugins and caches what they find (`pansou`), a Telegram client library (`kurigram`), and clients for one
cloud disk (`p115client`). This project models the parts whose correctness is hard to see from the code,
and proves what they are for.

- **File ids** (`Rle`, `Base64Url`, `ByteCodes`, `Struct`, `FileIds`, `FileIdCodec`, `FileIdLayout`,
  `FileIdRoundTrip`, `FileIdLengths`). A Telegram file id goes through a versioned little-endian layout, a
  run-length code for zero bytes and unpadded base64url (section 5 of RFC 4648). The layers are functions,
  the code that moves along a buffer is imperative and proved equal to them, the round trip is proved with
  its exact domain, and the place of every field is stated in numbers, apart from the code.
- **Concurrent protocols**, as state machines over their atomic steps, with inductive invariants and
  theorems over every run: the main search cache (`Merging`, `SearchResults`, `CacheProtocol`), the
  single-flight link checker (`SingleFlight`, `SavedVerdicts`, `FreshAnswers`), background worker slots
  (`WorkerSlots`), and the update dispatcher (`DispatcherShutdown`, `HandlerTable`, `HandlerLists`,
  `Propagation`, `Callbacks`, `Dispatching`). The critical sections and atomic operations are also given as
  code, on `CacheProtocol.MainCache`, `SingleFlight.CheckService`, `DispatcherShutdown.UpdatesQueue`,
  `HandlerLists.Table` and `WorkerSlots.WorkerPool`, with contracts that say which steps of the state machine they take.
- **The plugin scheduler** (`OrderStatistics`, `Adaptive`, `Deadline`, `Sums`, `PluginTiming`,
  `SubmissionOrder`, `Liveness`): the concurrency controller, the batch deadline against every
  work-conserving execution, shortest job first with aging, and the health window.
- **Codecs and bounded reading** (`ExtDigest`, `Cipher115`, `CipherKeys`, `GroupByType`, `CappedReader`).

## Reading the model

- Bytes are integers in `[0, 256)`; Go strings are sequences of characters that stand for bytes; durations
  are whole nanoseconds; controller limits are real numbers. The factor 1.6 is `5 * p90 > 8 * floor`, an
  eighth of a difference of durations is integer division by 8, and `int(0.9 * float64(n - 1))` is
  `9 * (n - 1) / 10`.
- 64-bit wrap-around is written out where it shows, in the reading limits; so is the conversion of the task
  limit to 32 bits.
- Where iteration over a map has no order, the model takes keys in an arbitrary order.
- A run is a sequence of states in which each step is taken by any one thread.

## Properties that turn out false, with the exact condition

- A file id round-trips if and only if it is representable (not a web id, fields in range and set exactly
  where its type, source and version store them, and before major version 4 minor version 0 with a legacy
  source) and its payload has no 256 zero bytes in a row: `FileIdRoundTrip.RoundTripIff`. No web id
  round-trips: `FileIdRoundTrip.WebNeverRoundTrips`. Of the ids with a file reference of one length all
  representable ones round-trip if and only if the length is at most 211: `FileIdLengths.ReferenceLengthIff`.
- Decoding accepts version bytes that encoding cannot write: a non-web id decoded from some text can be
  encoded again if and only if both are at most 127 and the payload has no 256 zeros in a row:
  `FileIdRoundTrip.DecodedRendersIff`, `FileIdRoundTrip.AnyVersionDecodes`.
- A verdict that a link check has saved does not always stay on disk, because requests that found the old
  entry expired delete by key: `SavedVerdicts.SavedVerdictLost`. While all entries and verdicts for the key
  are valid, it stays if and only if no request for the key is about to delete: `SavedVerdicts.StaysOnDiskIff`.
- Shutdown with zero workers loses what was accepted: `DispatcherShutdown.ShutdownDrainsIff`,
  `DispatcherShutdown.NoWorkersLoseUpdates`.
- Merging keeps the most complete result of every existing key if and only if the last existing result of
  each key is the most complete: `Merging.KeepsMostCompleteIff`, `Merging.RepeatedKeyLosesTheBetter`. So a
  batch, or an entry of the initial cache, loses nothing in any run, whatever the other updates are, if and
  only if the same holds of it: `CacheProtocol.AlwaysKeptIff`, `CacheProtocol.EntryKeptIff`.
- Merging is associative in its middle list if and only if that list has the best result of each key last:
  `Merging.MergeAssociativeIff` on maps, `Merging.ListsAssociateIff` on lists.
- Results without an id do not always have a key of their own: two of them with different titles share one,
  and a merge loses one of them, if and only if the longer title is the shorter one, an underscore and some
  text, and that text and an underscore precede the channel of the longer in the channel of the shorter
  (`SearchResults.TitlesCollideIff`, with the input `SearchResults.TitlesCollide`).
- The limit on background tasks can be exceeded, because it is checked before the slot is taken:
  `WorkerSlots.TaskLimitExceededIff`.
- The limit of the controller can be above the greatest ceiling asked for if and only if the first one was
  not positive and the default that took its place is greater: `Adaptive.CeilingExceededIff`. The only
  caller, `pansou/service/search_service.go` lines 1620 to 1627, always asks for a positive one.
- The controller never recovers from a steady p90 below 19 ns that is more than 1.6 times a floor already
  set: `Adaptive.DecreasesStopIff`, `Adaptive.StalledFloor`.
- The deadline is not monotone in the p90 where the four-second default steps in:
  `Deadline.MonotoneInP90Iff`.
- With a limit of 2^63 - 1 the extra byte wraps around: `ReadAllLimited` takes every stream for an empty
  one, and the capped reader slices out of range: `CappedReader.ReadAllLimited`,
  `CappedReader.ReadAllCapped`. The product with the compression ratio can wrap around too; the limit is the
  intended one if and only if it does not, or wraps around to at least 64 MiB:
  `CappedReader.IntendedLimitIff`, `CappedReader.WrappedRatio`.

## Where code and documentation differ

- The comment on `mergeSearchResults` promises that the most complete information is kept; among existing
  results with one key the code keeps the last, whatever its completeness
  (`Merging.RepeatedKeyLosesTheBetter`).

## Model

| member | source | states |
|---|---|---|
| `Rle.RleEncode` | kurigram/pyrogram/file_id.py:60-86 | the counting loop computes the zero-run code, or the error of `bytes` on a count above 255 |
| `Rle.RleDecode` | kurigram/pyrogram/file_id.py:89-113 | the flag-driven loop computes the decoding, including dangling and doubled zero markers |
| `Rle.EncodeRaisesIff` | kurigram/pyrogram/file_id.py:60-86 | encoding raises exactly on inputs with 256 consecutive zeros |
| `Rle.DecodeAfterEncode` | kurigram/pyrogram/file_id.py:60-113 | decoding undoes encoding on exactly the inputs the encoder accepts |
| `Rle.EncodeAfterDecodeIff` | kurigram/pyrogram/file_id.py:60-113 | encoding undoes decoding if and only if the code is canonical |
| `ByteCodes.ZeroRuns` | kurigram/pyrogram/file_id.py:89-113 | what decoding makes of each form: a plain byte, a zero with its count, several zeros in a row, a zero at the end |
| `Base64Url.EncodeIsText` | kurigram/pyrogram/file_id.py:34-44 | stripping `=` on both sides removes the padding and nothing else |
| `Base64Url.DecodeAfterEncode` | kurigram/pyrogram/file_id.py:34-57 | every byte string survives the unpadded text form |
| `ByteCodes.GroupNumber` | kurigram/pyrogram/file_id.py:34-44 | three bytes and the four six-bit groups they become are the same 24-bit number, and one or two bytes at the end its upper part |
| `ByteCodes.OtherCharacters` | kurigram/pyrogram/file_id.py:47-57 | the decoder takes both alphabets and skips every character that is in neither, wherever it stands |
| `ByteCodes.PaddingEnds` | kurigram/pyrogram/file_id.py:47-57 | padding that completes a group ends the text, whatever follows |
| `Struct.UnpackPack` | kurigram/pyrogram/file_id.py:402-402 | a signed little-endian integer in range is read back |
| `Struct.ReadWriteBytes` | kurigram/pyrogram/raw/core/primitives/bytes.py:29-50 | a length-prefixed padded byte string is read back and leaves the rest of the buffer |
| `FileIdCodec.BytesIO.ReadByteString` | kurigram/pyrogram/raw/core/primitives/bytes.py:30-42 | reading advances the buffer by the prefix, the value and the padding |
| `FileIdCodec.ReadPhotoTail` | kurigram/pyrogram/file_id.py:206-287 | the ten layouts, read from the buffer, with its new position and the error cases |
| `FileIdCodec.DecodeFileId` | kurigram/pyrogram/file_id.py:387-485 | decoding on a moving buffer is the parser of the layout, errors included |
| `FileIdCodec.EncodeFileId` | kurigram/pyrogram/file_id.py:487-529 | encoding writes the layout of the file id under the version asked for |
| `FileIdLayout.LittleEndianBytes` | kurigram/pyrogram/file_id.py:402-402 | a signed 32-bit integer is packed into four bytes of ascending weight |
| `FileIdLayout.HeadLayout` | kurigram/pyrogram/file_id.py:487-503 | every id that can be written starts with its type in the low bytes, bit 25 for a reference and bit 24 for a URL, and then the data centre |
| `FileIdLayout.WrittenReference` | kurigram/pyrogram/raw/core/primitives/bytes.py:44-50 | a reference is written as its length in one byte, or as 254 and three bytes from 254 on, itself, and zeros up to a multiple of four |
| `FileIdLayout.TailLayout` | kurigram/pyrogram/file_id.py:290-336 | where each field of the tail of each of the ten sources lies, and how long the tail is |
| `FileIdLayout.PayloadLayout` | kurigram/pyrogram/file_id.py:487-529 | where every field of a representable id lies: the reference, the ids straight behind it, for types 0, 1, 2, 11 and 12 the source straight behind them from minor version 32 on and eight bytes later before, the tail of the source, and the version in the last two bytes |
| `FileIdRoundTrip.TailRoundTrip` | kurigram/pyrogram/file_id.py:206-336 | every photo tail whose fields match its source is read back, with anything behind it |
| `FileIdRoundTrip.PhotoRoundTrip` | kurigram/pyrogram/file_id.py:435-474 | the version-dependent photo part, with and without volume and local id, is read back |
| `FileIdRoundTrip.PayloadRoundTrip` | kurigram/pyrogram/file_id.py:387-529 | a representable id is read back from its binary form |
| `FileIdRoundTrip.ParseImage` | kurigram/pyrogram/file_id.py:387-485 | whatever text is decoded, the result is a web id without a media id, or has exactly the fields that its type, source and version carry, all in range; version bytes up to 255 are not bounded further |
| `FileIdLayout.DecodedFields` | kurigram/pyrogram/file_id.py:387-485 | which fields any decoded id has, in numbers: a source exactly for types 0, 1, 2, 11 and 12, the volume and local id exactly below minor version 32 or for sources 5 to 8, and so on for each field |
| `FileIdRoundTrip.DecodedRendersIff` | kurigram/pyrogram/file_id.py:387-529 | a non-web id decoded from some text can be encoded if and only if its version bytes are at most 127 and its payload has no 256 zeros in a row, and is then read back |
| `FileIdRoundTrip.AnyVersionDecodes` | kurigram/pyrogram/file_id.py:390-402 | every document id without a reference is decoded from some text, whatever its version bytes from major 4 on |
| `FileIdRoundTrip.RoundTripIff` | kurigram/pyrogram/file_id.py:387-529 | encoding succeeds and decoding gives the same id back if and only if the id is representable and its payload has no 256 zeros in a row |
| `FileIdLengths.ShortReferenceRoundTrip` | kurigram/pyrogram/file_id.py:387-529 | with a file reference of at most 211 bytes, or none, no premise on zero runs is needed |
| `FileIdLengths.ReferenceLengthIff` | kurigram/pyrogram/file_id.py:487-529 | all representable ids with a reference of one length round-trip if and only if the length is at most 211; from 212 on one exists that cannot be encoded |
| `FileIdRoundTrip.WebNeverRoundTrips` | kurigram/pyrogram/file_id.py:419-430 | no web id is read back as it was |
| `FileIdLayout.WebOutcome` | kurigram/pyrogram/file_id.py:419-430 | what the payload of a web id without a reference is read as: its media id is taken for the access hash and the rest is lost |
| `FileIdRoundTrip.RenderInjective` | kurigram/pyrogram/file_id.py:487-529 | distinct representable ids have distinct texts |
| `Merging.MergeLists` | pansou/service/search_service.go:106-140 | the map-filling loops and the sort give a merge: one result per key, newest first |
| `Merging.MergeFacts` | pansou/service/search_service.go:105-164 | the key set is the union, every result comes from a list, and none is less complete than a new one with its key, nor than an existing one when those have the best of each key last |
| `Merging.KeepsMostCompleteIff` | pansou/service/search_service.go:105-164 | every merge with new results keeps, for each existing result, one at least as complete under its key if and only if of the existing results with one key the last has the greatest score |
| `Merging.AddAllIsJoin` | pansou/service/search_service.go:116-126 | folding in the new results is one join with the best of them |
| `Merging.MergeIdempotent` | pansou/service/search_service.go:106-140 | merging the same list again changes nothing |
| `Merging.MergeAssociativeIff` | pansou/service/search_service.go:106-140 | merging associates for all outer lists if and only if the middle list has the best of each key last; distinct keys suffice |
| `Merging.ListsAssociateIff` | pansou/service/search_service.go:106-140 | whatever lists the merges return, both groupings hold the same results for all outer lists under exactly the same condition |
| `Merging.MergeAssociative` | pansou/service/search_service.go:106-140 | with distinct keys both groupings give the same results |
| `Merging.MergeNeverShrinks` | pansou/service/search_service.go:106-140 | a merge has at least as many results as either list has keys |
| `Merging.RepeatedKeyLosesTheBetter` | pansou/service/search_service.go:110-114 | a repeated key in the existing list can lose the more complete result |
| `Merging.MergeWinner` | pansou/service/search_service.go:106-126 | which result of each key a merge keeps: the last existing one unless a new one beats it, of the new ones the most complete, and of equals the first; a tie changes nothing |
| `SearchResults.MergeSearchResults` | pansou/service/search_service.go:106-199 | the merge with the program's own result key and completeness score |
| `SearchResults.MoreLinksWin` | pansou/service/search_service.go:154-199 | of two results that differ only in their links the one with more is kept, and the existing one on equal numbers |
| `SearchResults.SomeContentWins` | pansou/service/search_service.go:168-199 | some content replaces none, and nothing else does |
| `SearchResults.MoreTagsWin` | pansou/service/search_service.go:168-199 | more tags win |
| `SearchResults.SomeChannelWins` | pansou/service/search_service.go:168-199 | some channel replaces none |
| `SearchResults.LongerTitleWins` | pansou/service/search_service.go:168-199 | a longer title wins if and only if it reaches a further multiple of ten, so always when it is ten longer |
| `SearchResults.UniqueIdAgainstLinks` | pansou/service/search_service.go:168-199 | a result without the unique id replaces the same one with it if and only if it has at least six links against none, or more than ten more |
| `SearchResults.ScoreIsTheTable` | pansou/service/search_service.go:168-199 | the score is the only function of a result that gives nothing no points and each thing more its own |
| `SearchResults.MergedNewestFirst` | pansou/service/search_service.go:128-140 | a merge is ordered by the time of the results, newest first |
| `SearchResults.SameKeyIff` | pansou/service/search_service.go:142-152 | when two results share a key: with ids, without, and one of each |
| `SearchResults.TitlesCollideIff` | pansou/service/search_service.go:143-152 | two results without ids share a key if and only if title and channel agree, or part of the one title reads as the start of the other channel; of two that share a key a merge keeps one |
| `SearchResults.TitlesCollide` | pansou/service/search_service.go:151-151 | two results without ids that differ and share a key, of which a merge keeps one |
| `CacheProtocol.RunHolds` | pansou/service/main_cache_lock.go:19-33 | in every run the stripes exclude each other's critical sections, what was read is still there, and the contents and score invariants hold |
| `CacheProtocol.HashValues` | pansou/service/main_cache_lock.go:27-33 | the hash has the published values of 32-bit FNV-1a, and the stripe is its remainder by 64 |
| `CacheProtocol.NoLostUpdate` | pansou/service/search_service.go:304-390 | when all updates of any interleaving are done, the keys stored are exactly the initial ones and all submitted ones |
| `CacheProtocol.BestSurvives` | pansou/service/search_service.go:304-390 | what comes from a list with the best of each key last is covered from then on at every moment of every interleaving, with any other updates and any initial cache |
| `CacheProtocol.AlwaysKeptIff` | pansou/service/search_service.go:304-390 | a batch is covered at the end of every run that it takes part in, with any other updates and any initial cache, if and only if it has the best of each key last |
| `CacheProtocol.EntryKeptIff` | pansou/service/search_service.go:304-390 | the same for an entry of the initial cache |
| `CacheProtocol.StoredIsBest` | pansou/service/search_service.go:304-390 | with distinct keys in the lists for one cache key, what is stored there was submitted and has the greatest score ever submitted for its key |
| `CacheProtocol.NeverStuck` | pansou/service/main_cache_lock.go:23-33 | until all updates are done one of them can move |
| `CacheProtocol.RunsFinish` | pansou/service/search_service.go:304-390 | no run has more than four steps an update, and it is finished exactly when it has taken them all |
| `CacheProtocol.MainCache.WriteFinal` | pansou/service/search_service.go:304-325 | the critical section is the write step of the protocol and returns the size of the new entry |
| `CacheProtocol.MainCache.MergeInto` | pansou/service/search_service.go:335-390 | the critical section is the write step of the protocol |
| `SingleFlight.RunHolds` | pansou/service/check_service.go:110-213 | calls, leaders, waiters and caches stay consistent in every run |
| `SingleFlight.AtMostOneCheck` | pansou/service/check_service.go:120-133 | at most one check runs per key at any time |
| `SingleFlight.ClosedOnce` | pansou/service/check_service.go:192-208 | `done` is closed at most once, and once when anyone has returned from the call, which never changes afterwards |
| `SingleFlight.SharedAnswer` | pansou/service/check_service.go:120-140 | the leader and all waiters of a call return its one outcome, result or error, for their key |
| `SingleFlight.WaiterHasLeader` | pansou/service/check_service.go:177-190 | no waiter is without a finished call or exactly one leader still at work |
| `SingleFlight.OnlySuccessIsCached` | pansou/service/check_service.go:192-213 | whatever is cached, in memory or on disk, and every answer from a cache was on disk at the start or is the verdict of a check for that key that succeeded |
| `SingleFlight.NeverStuck` | pansou/service/check_service.go:110-141 | until every request has returned one of them can move |
| `SingleFlight.RequestsReturn` | pansou/service/check_service.go:110-213 | in no run do requests take more than eight steps each, and when all have returned every call was closed exactly once, with an outcome, and nothing is in flight |
| `FreshAnswers.CachedAnswersFresh` | pansou/service/check_service.go:143-175 | in every run, each verdict that a request is given from a cache was read from an entry for its key that was within its time at that moment |
| `FreshAnswers.MemoryLookUp` | pansou/service/check_service.go:143-157 | a request that looks into memory returns exactly on an entry within its time, removes exactly an expired one, and goes on to the disk exactly without one |
| `FreshAnswers.DiskLookUp` | pansou/service/check_service.go:159-175 | the same for the disk |
| `FreshAnswers.ExpiredIsRemoved` | pansou/service/check_service.go:147-169 | after an expired entry what is on disk for the key is removed |
| `FreshAnswers.ExpiredMeansChecked` | pansou/service/check_service.go:110-141 | a request that has met an expired entry is never answered from a cache, only from a call |
| `FreshAnswers.EntriesDated` | pansou/service/check_service.go:192-213 | in every run each entry was on disk at the start or expires when its own verdict says |
| `FreshAnswers.LeaderSaves` | pansou/service/check_service.go:192-213 | when a leader returns its verdict is on disk, and a failure has changed nothing there |
| `SavedVerdicts.StaysOnDiskIff` | pansou/service/check_service.go:143-213 | while all entries and verdicts for a key are valid, a saved verdict is on disk in every continuation if and only if no request for the key is about to delete it |
| `SavedVerdicts.SavedVerdictLost` | pansou/service/check_service.go:159-175 | a finished run in which a success was saved, with a fresh verdict in memory and none on disk |
| `SingleFlight.CheckService.GetCached` | pansou/service/check_service.go:143-157 | the first locked region is the look-up step |
| `SingleFlight.CheckService.AcquireInflight` | pansou/service/check_service.go:177-190 | the locked region is the step that makes a leader or a waiter |
| `SingleFlight.CheckService.FinishInflight` | pansou/service/check_service.go:197-208 | the locked region is the step that caches a success and closes the call |
| `DispatcherShutdown.RunHolds` | kurigram/pyrogram/dispatcher.py:372-433 | the queue is always what was accepted and not taken, in order, followed by the sentinels not consumed |
| `DispatcherShutdown.ShutdownDrainsIff` | kurigram/pyrogram/dispatcher.py:394-418 | when `stop` finishes all workers have exited, and every accepted update was handled exactly once with nothing queued if and only if there was a worker or nothing to do |
| `DispatcherShutdown.NothingLost` | kurigram/pyrogram/dispatcher.py:420-433 | at every moment an accepted update has been taken, in order of acceptance, or is at its place in the queue |
| `DispatcherShutdown.NoWorkersLoseUpdates` | kurigram/pyrogram/dispatcher.py:385-412 | with no workers an accepted update is lost |
| `DispatcherShutdown.StopProgresses` | kurigram/pyrogram/dispatcher.py:401-412 | once closed, arrivals are dropped and every other step does exactly one of the steps that remain |
| `DispatcherShutdown.StopNeverStuck` | kurigram/pyrogram/dispatcher.py:401-412 | until `stop` has finished a step is possible |
| `DispatcherShutdown.StopTerminates` | kurigram/pyrogram/dispatcher.py:401-412 | from the closing of the queue on, in every execution with any arrivals in between, no more steps happen than remained, and `stop` has finished exactly when they are used up, which is exactly when no other step is possible |
| `DispatcherShutdown.StopCompletes` | kurigram/pyrogram/dispatcher.py:401-412 | from every stopping state an execution of exactly the remaining steps finishes |
| `DispatcherShutdown.UpdatesQueue.Open` | kurigram/pyrogram/dispatcher.py:369-377 | the queue is new and open unless updates are off: the step of starting |
| `DispatcherShutdown.UpdatesQueue.Enqueue` | kurigram/pyrogram/dispatcher.py:420-433 | an update is appended while accepting and dropped otherwise: the step of an arrival |
| `DispatcherShutdown.UpdatesQueue.Close` | kurigram/pyrogram/dispatcher.py:402-407 | closing appends exactly one sentinel per worker: the step of closing and one step of posting each |
| `DispatcherShutdown.UpdatesQueue.Take` | kurigram/pyrogram/dispatcher.py:459-464 | any worker among others gets the head: the step of taking, which ends the worker on a sentinel |
| `DispatcherShutdown.UpdatesQueue.Drain` | kurigram/pyrogram/dispatcher.py:459-464 | a worker alone takes the updates before the first sentinel, in order, and that sentinel |
| `HandlerTable.AddFacts` | kurigram/pyrogram/dispatcher.py:435-440 | adding keeps groups ascending and non-empty and appends to one list only |
| `HandlerTable.RemoveFacts` | kurigram/pyrogram/dispatcher.py:442-453 | removing succeeds exactly when registered, takes out the first occurrence only, and drops a group that becomes empty |
| `HandlerTable.TableIsCanonical` | kurigram/pyrogram/dispatcher.py:435-457 | a valid table is determined by what is registered under each key |
| `HandlerTable.AddSteps` | kurigram/pyrogram/dispatcher.py:435-440 | an addition that is not interrupted is four steps and publishes the table with the handler added |
| `HandlerTable.RemoveSteps` | kurigram/pyrogram/dispatcher.py:442-453 | a removal is four steps, or two or three that leave the table as it was when the group or the handler is missing |
| `HandlerLists.Table.AddHandler` | kurigram/pyrogram/dispatcher.py:435-440 | on the heap, an addition publishes new lists only, with the steps of an addition, and a snapshot taken before reads as it did |
| `HandlerLists.Table.RemoveHandler` | kurigram/pyrogram/dispatcher.py:442-453 | the same for a removal, with both errors, which leave the table as it was |
| `HandlerLists.CopyGroups` | kurigram/pyrogram/dispatcher.py:455-457 | the copy has new lists, all different, with the same contents |
| `HandlerLists.Table.ClearHandlers` | kurigram/pyrogram/dispatcher.py:414-416 | the table is empty afterwards, and a snapshot taken before reads as it did |
| `HandlerTable.RegistrationsConserved` | kurigram/pyrogram/dispatcher.py:435-457 | in every interleaving and at every moment the published table is valid, and each handler is registered as often as at the start plus additions done less removals that succeeded |
| `Propagation.HandleUpdate` | kurigram/pyrogram/dispatcher.py:459-527 | the callbacks called are exactly those that propagation reaches, in table order, with one report per exception, answered from the table then in force; nothing is called when parsing fails |
| `Propagation.HandleException` | kurigram/pyrogram/dispatcher.py:529-582 | the error handlers called, in order, and whether one of them dealt with the exception |
| `Callbacks.UpdateCallsIff` | kurigram/pyrogram/dispatcher.py:474-522 | read off the handlers: an update calls exactly those that are not for errors, whose filter passes and whose type matches unless they are raw, except behind one of the same group that did other than continue, and behind a group with a called one that stopped |
| `Callbacks.ErrorCallsIff` | kurigram/pyrogram/dispatcher.py:529-582 | the same for an exception and the error handlers that are for it |
| `Callbacks.FilteredOutIsSkipped` | kurigram/pyrogram/dispatcher.py:483-497 | a handler whose filter fails is skipped, and the next one of the group is called in its place |
| `Propagation.TraceShape` | kurigram/pyrogram/dispatcher.py:474-522 | in a group only the last callback called may do other than continue, and nothing follows one that stops |
| `Propagation.ExceptionEndsOnlyItsGroup` | kurigram/pyrogram/dispatcher.py:514-522 | turning exceptions into returns changes nothing about which callbacks are called |
| `Propagation.TraceUnique` | kurigram/pyrogram/dispatcher.py:474-522 | the calls in order are determined by which callbacks are called |
| `Dispatching.DispatchFollowsPublished` | kurigram/pyrogram/dispatcher.py:474-476 | an update dispatched over the table of any moment of any run of registrations calls only handlers registered then that take it, with group keys ascending and in a group the order of registration |
| `WorkerSlots.SlotsAccounted` | pansou/plugin/plugin.go:401-444 | in every run holders are the tokens and within capacity, the counter is the tokens less pending increments plus pending decrements, both are zero at quiescence, and releasing never blocks |
| `WorkerSlots.Configure` | pansou/plugin/plugin.go:401-422 | twenty workers and a hundred tasks without settings, twenty workers for a number that is not positive, and a task limit taken modulo 2^32 |
| `WorkerSlots.TaskLimitExceededIff` | pansou/plugin/plugin.go:417-438 | some run has more holders than the task limit if and only if the limit is positive and goroutines and slots both exceed it |
| `WorkerSlots.WorkerPool.HasRoom` | pansou/plugin/plugin.go:424-427 | the check of the counter is the step that goes on or gives up |
| `WorkerSlots.WorkerPool.TrySend` | pansou/plugin/plugin.go:429-437 | the non-blocking send is the step that takes a slot or gives up |
| `WorkerSlots.WorkerPool.Increment` | pansou/plugin/plugin.go:433-433 | counting is a step of its own |
| `WorkerSlots.WorkerPool.Receive` | pansou/plugin/plugin.go:441-442 | the receive is the step that gives a slot back, and finds a token |
| `WorkerSlots.WorkerPool.Decrement` | pansou/plugin/plugin.go:443-443 | so is discounting |
| `ExtDigest.PrefixedUnique` | pansou/util/ext_digest.go:60-66 | a length prefix makes the end of a string unambiguous |
| `ExtDigest.EncodeKeysInjective` | pansou/util/ext_digest.go:57-68 | the text determines the keys, their order and their values |
| `ExtDigest.SortingUnique` | pansou/util/ext_digest.go:55-55 | a set of keys has one sorted listing |
| `ExtDigest.ComputeDigest` | pansou/util/ext_digest.go:41-71 | the loops compute the text over the sorted kept keys, or the mark for none |
| `ExtDigest.DigestEqualIff` | pansou/util/ext_digest.go:41-71 | two parameter maps give the same text if and only if they agree on every key but `_ctx`, `refresh`, `_depth` and `_main_cache_key` |
| `ExtDigest.NoExtIff` | pansou/util/ext_digest.go:41-54 | there is nothing to hash if and only if no other key than the four is there |
| `ExtDigest.LessIff` | pansou/util/ext_digest.go:55-55 | the order of the keys is decided at their first difference, where an end comes before any byte |
| `ExtDigest.TextOfOne` | pansou/util/ext_digest.go:57-68 | the text for one parameter, byte for byte |
| `Cipher115.ModularPow` | p115client/examples/nano_115_302.js:176-190 | square-and-multiply is the power modulo the modulus, for all naturals; the cases without modulus and with modulus 0 |
| `Cipher115.WriteBytes` | p115client/examples/nano_115_302.js:111-120 | the buffer holds the big-endian bytes |
| `Cipher115.FromToBytes` | p115client/examples/nano_115_302.js:111-127 | a value below 256^length is read back |
| `Cipher115.ToFromBytes` | p115client/examples/nano_115_302.js:111-127 | bytes are read as a number below 256^length and written back |
| `Cipher115.MinimalLengthTight` | p115client/examples/nano_115_302.js:112-113 | the default length is the least that fits |
| `Cipher115.PadBlock` | p115client/examples/nano_115_302.js:158-164 | the block for every message length, including those that overwrite the separator or do not fit |
| `Cipher115.CutRecoversMessage` | p115client/examples/nano_115_302.js:158-164 | padding, going through a number and cutting after the first zero gives the message back |
| `Cipher115.MapChunksInverse` | p115client/examples/nano_115_302.js:129-136 | inverse maps on chunks are inverse on whole texts |
| `Cipher115.OpenSealedBlocks` | p115client/examples/nano_115_302.js:192-214 | every message survives chunking, padding, any inverse pair of maps on numbers below the modulus, and cutting |
| `Cipher115.XorBuffer` | p115client/examples/nano_115_302.js:166-174 | writing piece by piece is the byte-wise layer |
| `Cipher115.XorLayerInvolutive` | p115client/examples/nano_115_302.js:166-174 | the layer is its own inverse |
| `Cipher115.UnscrambleScrambled` | p115client/examples/nano_115_302.js:196-199 | xor, reverse, xor is undone with the same key |
| `Cipher115.EncryptIsUndone` | p115client/examples/nano_115_302.js:192-205 | a request is read back by whoever inverts the power |
| `Cipher115.DecryptOpensReply` | p115client/examples/nano_115_302.js:207-219 | a reply sealed with the inverse of the power is decrypted in full, whatever its prefix |
| `Cipher115.RequestModulusSize` | p115client/examples/nano_115_302.js:103-103 | the modulus in use has 128 bytes, as the block results need |
| `Cipher115.EncryptRequest` | p115client/examples/nano_115_302.js:192-205 | the loop computes the sealed blocks of the scrambled data |
| `Cipher115.DecryptReply` | p115client/examples/nano_115_302.js:207-219 | the loop computes the unscrambled contents of the blocks |
| `Cipher115.GenerateKey` | p115client/examples/nano_115_302.js:145-156 | the loop with its two places of the table moving towards each other computes the key |
| `CipherKeys.XorByteBits` | p115client/examples/nano_115_302.js:138-143 | a bit of an exclusive or is set if and only if it differs in the two bytes |
| `CipherKeys.KeyBytes` | p115client/examples/nano_115_302.js:145-156 | the twelve bytes of the key in numbers, those for missing random bytes included |
| `CipherKeys.KeyReadsBack` | p115client/examples/nano_115_302.js:145-156 | for every table each random byte is read back from its byte of the key and two places of the table |
| `CipherKeys.ScrambledByte` | p115client/examples/nano_115_302.js:166-174 | each byte of a scrambled request in numbers: which byte of the data, and which bytes of the two fixed keys |
| `CipherKeys.RequestBytes` | p115client/examples/nano_115_302.js:192-205 | an opened request is sixteen zeros and the scrambled data |
| `CipherKeys.BlockBytes` | p115client/examples/nano_115_302.js:158-164 | each byte of a padded block of 128 |
| `CipherKeys.RequestLength` | p115client/examples/nano_115_302.js:201-204 | a request takes 128 bytes for every 117 bytes, or part of them, of sixteen more than the data |
| `OrderStatistics.P90` | pansou/service/adaptive_concurrency.go:185-194 | the sample with at most nine tenths of the others below it, by rank |
| `OrderStatistics.RankUnique` | pansou/service/adaptive_concurrency.go:185-194 | a rank has one sample, however the samples are sorted |
| `Adaptive.AdaptiveConcurrency.constructor` | pansou/service/adaptive_concurrency.go:61-86 | the initial limit is the saved one if in range, else a quarter of the tasks between 8 and the ceiling, which is 128 when not positive; it is in range for every input |
| `Adaptive.AdaptiveConcurrency.LimitValue` | pansou/service/adaptive_concurrency.go:154-162 | the whole part of the limit, and never less than one |
| `Adaptive.AdaptiveConcurrency.ObserveTask` | pansou/service/adaptive_concurrency.go:165-172 | positive durations join the window, which so stays positive; others are ignored |
| `Adaptive.AdaptiveConcurrency.ObserveDropped` | pansou/service/adaptive_concurrency.go:175-182 | one more drop |
| `Adaptive.AdaptiveConcurrency.Adjust` | pansou/service/adaptive_concurrency.go:198-253 | the new limit and floor from the window, the drops and the old ones; an empty window changes neither |
| `Adaptive.AdjustEffect` | pansou/service/adaptive_concurrency.go:224-240 | a drop, or a p90 of more than 1.6 times the new floor, lowers the limit to 85 percent, and anything else raises it by an eighth, between 8 and the ceiling; strictly so while there is room |
| `Adaptive.FloorEffect` | pansou/service/adaptive_concurrency.go:217-222 | the floor follows a lower p90 at once and makes up an eighth of the distance to a higher one |
| `Adaptive.UndisturbedAdjust` | pansou/service/adaptive_concurrency.go:198-253 | run without interference, the steps of an adjustment have the effect of `Adjust` |
| `Adaptive.ControllerSafe` | pansou/service/adaptive_concurrency.go:198-280 | in every interleaving of adjustments, observations and ceilings raised the limit stays between min(8, first ceiling) and max(8, greatest ceiling), with the default for a first ceiling that is not positive, and an unloaded floor between two p90s seen |
| `Adaptive.CeilingExceededIff` | pansou/service/adaptive_concurrency.go:267-280 | some run ends with a positive ceiling c as the greatest asked for and a limit above max(8, c) if and only if the first ceiling asked for was not positive and c is below the default |
| `Adaptive.DecreasesStopIff` | pansou/service/adaptive_concurrency.go:217-234 | under a constant p90 without drops the decreases stop if and only if the p90 is at least 19 ns, or no floor was set, or it is within 1.6 times the floor; otherwise every round decreases |
| `Adaptive.LimitRecovers` | pansou/service/adaptive_concurrency.go:224-251 | then the limit reaches the ceiling and stays there, after a number of rounds logarithmic in the distance of the floor and in the ceiling |
| `Adaptive.RecoversWithin217` | pansou/service/adaptive_concurrency.go:217-251 | with the default ceiling and a p90 of up to four seconds, 217 rounds are enough |
| `Adaptive.StalledFloor` | pansou/service/adaptive_concurrency.go:217-222 | a floor that integer division cannot raise |
| `Deadline.EffectiveConcurrency` | pansou/service/outbound_gate.go:79-100 | the greater of the request and the tasks, up to the outbound limit or 128; without tasks the request, and at least one |
| `Deadline.WavesAreLeast` | pansou/service/outbound_gate.go:128-128 | the number of waves is the least with a slot for every task |
| `Deadline.DeadlineFormula` | pansou/service/outbound_gate.go:113-137 | the deadline in numbers: override, or the least number of waves with a slot for every task times the p90 or four seconds, one second more, the cap, and at least four seconds |
| `Deadline.DeadlineMonotone` | pansou/service/outbound_gate.go:113-137 | the deadline grows with tasks and known p90 and falls with slots, under any cap and override |
| `Deadline.MonotoneInP90Iff` | pansou/service/outbound_gate.go:123-127 | it is monotone between two p90s exactly where the default does not step in |
| `Deadline.EndsWithinWaves` | pansou/service/outbound_gate.go:102-137 | every work-conserving execution, in any order, of tasks within the budget ends within the waves |
| `Deadline.GuaranteedIff` | pansou/service/outbound_gate.go:102-137 | that bound is tight: a deadline is safe for all executions if and only if it is not smaller |
| `Deadline.DeadlineSufficesIff` | pansou/service/search_service.go:1676-1692 | the derived deadline is safe if and only if the cap does not cut below the waves or the minimum covers them; uncapped, with the margin to spare |
| `PluginTiming.PluginTimingTracker.Observe` | pansou/service/plugin_timing.go:40-51 | the samples are the last twenty positive durations of the history |
| `PluginTiming.PluginTimingTracker.MarkTimedOut` | pansou/service/plugin_timing.go:54-61 | the streak counts the timeouts since the last return |
| `PluginTiming.PluginTimingTracker.MarkReturned` | pansou/service/plugin_timing.go:64-71 | a return ends the streak |
| `PluginTiming.PluginTimingTracker.PriorityFor` | pansou/service/plugin_timing.go:99-114 | the key of the history: -1 when starved, else a positive median or default |
| `PluginTiming.PluginTimingTracker.SortedByShortestFirst` | pansou/service/plugin_timing.go:119-143 | the output follows a stable order of the keys, which lists every place once |
| `PluginTiming.StableOrder` | pansou/service/plugin_timing.go:132-137 | the sort gives a stable order |
| `PluginTiming.StableOrderUnique` | pansou/service/plugin_timing.go:132-137 | there is only one stable order |
| `PluginTiming.StarvedGoFirst` | pansou/service/plugin_timing.go:99-143 | after any history a plugin with two timeouts since its last return is placed below the number of such plugins |
| `SubmissionOrder.PriorityIs` | pansou/service/plugin_timing.go:74-114 | the key is -1 after two timeouts in a row, two seconds without a sample, and otherwise the lower median of the last twenty durations |
| `SubmissionOrder.ShortestFirst` | pansou/service/plugin_timing.go:119-143 | smaller keys come first, and equal keys stay in the order given |
| `SubmissionOrder.SortedIsRearranged` | pansou/service/plugin_timing.go:119-143 | no plugin is lost or repeated |
| `SubmissionOrder.ShorterGoesFirst` | pansou/service/plugin_timing.go:99-143 | of two plugins that are not starved the one with the shorter median is submitted first |
| `SubmissionOrder.StreakCounts` | pansou/service/plugin_timing.go:54-71 | the streak is the number of timeouts since the last return |
| `SubmissionOrder.DurationsCount` | pansou/service/plugin_timing.go:40-51 | each positive duration is recorded as often as it was observed |
| `PluginTiming.PluginTimingTracker.AggregateP90` | pansou/service/plugin_timing.go:148-168 | the p90 and the number of all samples together |
| `PluginTiming.WalkOrderIrrelevant` | pansou/service/plugin_timing.go:153-161 | the order in which the map is walked changes neither |
| `GroupByType.MergeResultsByType` | pansou/service/search_service.go:1129-1351 | the groups are those of the links, and cloud types only restrict which are given |
| `GroupByType.CollectUnique` | pansou/service/search_service.go:1135-1290 | the first pass keeps for each URL its latest entry that passes |
| `GroupByType.OrderLinks` | pansou/service/search_service.go:1292-1315 | the second pass lists the kept URLs once, by first occurrence, with the type found there |
| `GroupByType.KeptIsLatest` | pansou/service/search_service.go:1279-1288 | a URL is kept exactly when an occurrence passes, with the latest datetime, the first of equals |
| `GroupByType.UrlOnce` | pansou/service/search_service.go:1292-1327 | a URL appears at most once across all groups |
| `GroupByType.UrlPresent` | pansou/service/search_service.go:1129-1327 | a URL that passes somewhere is there, under the type of its first occurrence or "unknown", with its latest entry |
| `GroupByType.GroupOrder` | pansou/service/search_service.go:1292-1327 | each group is in order of first occurrence and holds exactly the kept URLs of its type |
| `GroupByType.SizesAddUp` | pansou/service/search_service.go:1317-1327 | group sizes add up to the number of distinct kept URLs |
| `CappedReader.Capped.Read` | pansou/util/http_body.go:118-134 | one read: what is counted, when it reports the overflow, and the panic at the largest limit |
| `CappedReader.ReadAllCapped` | pansou/util/http_body.go:97-134 | for every stream and every way it is cut: all bytes within the limit, an error beyond it, at most one byte more consumed |
| `CappedReader.ReadAllLimited` | pansou/util/http_body.go:27-43 | the same for the one-shot reader, with the missing body, and what happens at the largest limit |
| `CappedReader.DecompressionLimit` | pansou/util/http_body.go:74-84 | always between 400 KiB and 64 MiB under wrap-around, and a hundred times the size in between |
| `CappedReader.WrapModulus` | pansou/util/http_body.go:77-83 | the wrapped value is the one in the 64-bit range that differs by a multiple of 2^64 |
| `CappedReader.IntendedLimitIff` | pansou/util/http_body.go:74-84 | the limit is the size times a hundred, kept within the bounds, if and only if the product does not wrap around or wraps around to at least 64 MiB |
| `CappedReader.WrappedRatio` | pansou/util/http_body.go:77-83 | an input whose limit wraps around to the least, and one whose product wraps around and still gives the intended limit |
| `CappedReader.ReadAllDecompressed` | pansou/util/http_body.go:74-95 | success if and only if the stream ends and is within the limit, and then all of it |
| `Liveness.Entry.Push` | pansou/service/liveness.go:32-38 | the ring, shifted in place, is the last twenty rounds of the history |
| `Liveness.Entry.Record` | pansou/service/liveness.go:82-108 | a round is recorded as failed, as a yield or as neither |
| `Liveness.Entry.Counts` | pansou/service/liveness.go:41-53 | the counts are those of the last twenty rounds |
| `Liveness.Entry.CurrentStatus` | pansou/service/liveness.go:159-177 | the status is that of the last twenty rounds |
| `Liveness.StatusMeaning` | pansou/service/liveness.go:159-177 | no verdict below five rounds; without a yield failing if something failed and otherwise merely empty; with one, degraded if and only if more than half failed |
| `Liveness.OldRoundsForgotten` | pansou/service/liveness.go:155-156 | after twenty rounds what went before does not change the status |

## Left out

- HTTP calls, page and title extraction, and the per-disk check endpoints: the title, the keyword filter and the outcome of a check are arbitrary in the model.
- The two-level cache, its delayed disk writes, expiry and serialisation failures: the main cache is a store that returns its last write.
- The task pool: executions are any that are work-conserving with all tasks submitted at once.
- `AsyncSearch`: its temporary empty entry is stored without the lock, so it is not a refinement of the cache.
- md5, RSA and AES as such: the digest stops at the hashed text, and the cipher takes any inverse pair of maps below the modulus.
- Rendering of parameter values with `%v`: the digest starts from the rendered values.
- The base64 and UTF-8 layers of `encrypt` and `decrypt`: the model starts and ends with bytes.
- Cipher115.OpenSealedBlocks: stated for every block size, of which 128 with chunks of 117 is the one in use.
- Web file ids: their URL is kept as bytes, without the decoder's replacement of malformed UTF-8; unique file ids are not modelled.
- Stopping a dispatcher that is still starting, or from inside one of its own handlers: `stop` is taken to begin after `start` has spawned the workers, as `kurigram/pyrogram/methods/auth/terminate.py` ensures.
- Cancellation of worker tasks, and exceptions that are not `Exception`.
- CacheProtocol.StoredIsBest: stated for lists with distinct keys, where an entry holds one result a key; lists that repeat keys are covered by `CacheProtocol.BestSurvives` and `CacheProtocol.AlwaysKeptIff`.
- DispatcherShutdown.UpdatesQueue.Drain: one worker with nobody else at the queue; any number of workers are covered step by step, by `DispatcherShutdown.UpdatesQueue.Take` and the theorems over every run.
- Rounding of the controller's floating-point limits.
- WorkerSlots.SlotsAccounted: does not model 32-bit wrap-around of the counter, which takes 2^31 goroutines.
- Acquiring and releasing outbound slots, the liveness report, logging, configuration and routing: they would only add easy members.
