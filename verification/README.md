# Verified models of the protocol and state logic in the repository

This project models the parts of Visual Studio Code's CLI and build scripts in
which state, order or arithmetic decide correctness, and proves what they are
for. `dafny verify dfyconfig.toml` checks everything.

The models follow the source's own form. Objects whose methods update fields are
classes; loops are loops with invariants; concurrent code is a transition system
whose steps are the lock regions and awaits of the original, together with
classes whose methods are proved to take exactly those steps. Every method is
proved against a specification function, and the properties are lemmas about
that function or about all runs of the transition system. Where a promised
property fails, the code is kept as it is, a lemma names the failing case, and
another says exactly when the property holds.

## The components

**RPC streams** (`cli/src/rpc.rs`). `StreamProtocol` is the shared stream table
and its write loops: insert, write, remove, and a loop's lock regions, item
writes and shutdown, in any interleaving, with writes that may fail part-way.
`StreamHistory` ties its histories to the events of the run and says how much of
each accepted buffer is written, in streams with failed writes too.
`StreamTable` holds the same as mutable objects. `EndToEnd` joins one direction
of two peers: the sender's select task and its stream tasks, a channel of eight
messages at each peer, a byte transport each way that takes a bounded amount and
is read in arbitrary pieces, the decoder, the dispatcher and the receiver's
table. `EndToEndProof` shows that bytes arrive in order, whole and once, and when
exactly a stream is delivered: unless a select task waits for room in the
channel that only it empties, or both wait for the other to read, before the end
of the stream has got through; each of these is for ever. `EndToEndStuck` has
runs in which that happens, and `EndToEndCalm` shows that without such
competition every stream is delivered. `EndToEndRest` shows that without new requests and
data the whole comes to rest, and `EndToEndLedger` that no message, stream or
byte is lost or made up on the way.

**Framing and messages** (`cli/src/msgpack_rpc.rs`). `Framing` takes frames off a
buffer with any parser that is not misled by more input; `MessagePack` is such a
parser for the formats the messages use, with its encoder; `StreamMessages` has
the three stream notifications as they look on the wire; `WireFormat` has them,
and the encoder, byte by byte.

**Dispatcher and call table** (`cli/src/rpc.rs`, `cli/src/msgpack_rpc.rs`).
`Dispatcher` covers requests, spawned answers and the bounded channel: one
answer per request and the right one, and when exactly a read burst completes. `CallTable` covers
ids from a 32-bit counter that wraps, pending callbacks and replies.

**Credentials** (`cli/src/auth.rs`). `Keyring` splits a sealed credential over
entries with a continuation marker; `DeviceCode` is the polling loop of section
3.5 of RFC 8628.

**Text transformations** (`scripts/sync-agent-host-protocol.ts`). `TextEdits` is
the in-place application of edits from last to first; `ImportMerge` merges the
imports of a file by module.

**Download cache** (`cli/src/download_cache.rs`, `cli/src/state.rs`).
`PersistedState` is a value in memory with a file behind it; `DownloadCache` is
the directory with its list of recently used entries.

**Policy overrides** (`scripts/mock-policy-server/server.ts`). `PolicyOverrides`
wires `product.overrides.json` to a local server and back.

**Logging** (`src/bootstrap-fork.ts`). `LogStream` splits written chunks into
lines; `SafeInspect` prints object graphs that may have cycles, and `JsonText` is
the reader by which its text is judged.

## What turned out not to hold in general

- A stream id may only be inserted while the table has no record of it. Exactly
  then every write half keeps its one owner; over a record, some continuation
  leaves a half with nobody, and over an idle record that is so at once
  (`StreamProtocol.FreshIsNeeded`). Data can get lost, too
  (`StreamProtocol.ReusedIdLosesData`).
- A read burst completes if and only if the free room in the channel covers the
  messages it has to send itself (`Dispatcher.BurstCompletes`); otherwise the
  select task waits for itself for ever (`Dispatcher.StuckForever`). This can
  happen at the sender, when it answers a synchronous request or announces
  streams, and at the receiver; and both select tasks can be writing to a full
  transport at the same time. A stream that is over at the sender is not
  delivered at rest exactly if it is stuck in one of these ways before its end
  was dispatched (`EndToEndProof.DeliversEverything`), and then never will be
  (`EndToEndProof.StuckForever`). Runs in which each of them happens exist for
  every size of the transport (`EndToEndStuck.StreamsGetStuck`).
- The dispatcher panics exactly on a message with neither a method nor an id
  (`Dispatcher.PanicsExactly`).
- A pending callback is overwritten exactly if a call that was drawn a multiple
  of 2^32 draws away is registered meanwhile (`CallTable.OverwrittenExactly`,
  `CallTable.WrapOverwrites`), and a reply dispatched between sending a call and
  registering its callback is lost (`CallTable.EarlyReplyIsLost`).
- A stored credential does not read back if its length is a multiple of the step
  size or its last chunk ends with the marker, unless the entry that follows by
  chance completes it (`Keyring.RoundTrip`). Clearing the keyring reports an
  error whenever reading stopped at a missing entry
  (`Keyring.KeyringStorage.Clear`).
- A text line that spells the placeholder of an imported module becomes another
  import of it: modules have one line each exactly if there is none
  (`ImportMerge.OneLinePerModule`). Merging imports twice changes the file again
  exactly if there is such a line or a value import spells the inline form of a
  type that is also imported (`ImportMerge.IdempotentUnlessClash`).
- A restart makes the cache forget directories, which are then never evicted,
  exactly if what it reads lacks them (`DownloadCache.IndexCoversDirectories`,
  `DownloadCache.RestartCanLoseDirectories`), and what it reads is decided by the
  last operation that reached the file (`DownloadCache.FileIsLastWrite`). The
  order by recency is lost exactly if a restart goes on with a list that is not
  in order (`DownloadCache.SortedByRecency`).
- Unwiring restores the files exactly if there was no backup file before wiring
  (`PolicyOverrides.WireThenUnwire`, `PolicyOverrides.StaleBackup`,
  `PolicyOverrides.SecondWireLosesOriginal`). An overrides file whose text is
  JSON but not an object cannot be wired (`PolicyOverrides.WireMakesWired`).
- Beyond the buffer limit, the pieces the console gets depend on the chunks
  (`LogStream.LimitDependsOnChunks`).
- The log printer gives up exactly on values that the serialiser refuses, such as
  a BigInt or one whose getter or `toJSON` throws, or that reach one of these or
  a cycle on which a regular expression comes first (`SafeInspect.GivesUp`,
  `SafeInspect.BigIntGivesUp`).

## Model

| member | source | states |
|---|---|---|
| `StreamProtocol.StepKeepsInv` | cli/src/rpc.rs:531-631 | every insert of an id without a record, write, remove, lock region, item write and shutdown keeps the invariant: one holder per write half, a half in a record means an empty queue and no end mark, and the bytes accepted are those delivered, in the batch and queued |
| `StreamProtocol.Fifo` | cli/src/rpc.rs:564-628 | in every reachable state without a write error on the stream, also after its id has been given to another, the buffers accepted since its insert are, concatenated, the bytes delivered, then the rest of the batch, then the queue; streams with a write error are in `StreamHistory.HistoriesAreEvents` |
| `StreamProtocol.SingleOwner` | cli/src/rpc.rs:543-562 | in every reachable state a write half is in its record, or with exactly one task, or shut down once, and never two of these; a half in a record implies an empty queue and no end mark |
| `StreamHistory.HistoriesAreEvents` | cli/src/rpc.rs:558-631 | over every run, by its events: a stream has accepted exactly the writes that found its record, in order, has failed exactly if a write of its half did, and counts as removed exactly if a remove found its record; and in every stream, failed or not, each accepted buffer is written whole, or up to where its write failed, or, after a failure in its batch, not at all, and all others wait in batch and queue |
| `StreamProtocol.RemoveMarks` | cli/src/rpc.rs:543-556 | after `remove` the record is gone, or marked as ended if a write loop has the half |
| `StreamProtocol.DrainStep` | cli/src/rpc.rs:596-631 | after `remove`, no step of any task but a write that finds the stream's record takes it further from its end, and every step of its own task brings it nearer |
| `StreamProtocol.DrainProgress` | cli/src/rpc.rs:601-630 | as long as steps are left for a removed stream, its task can take one |
| `StreamProtocol.DrainsAfterRemove` | cli/src/rpc.rs:543-631 | after `remove` and without further writes to its record, under every schedule: boundedly many steps of its task, after which every accepted byte is written unless a write failed, the half is shut down exactly once and the record is gone |
| `StreamProtocol.FreshIsNeeded` | cli/src/rpc.rs:575-584 | an insert can lead to a half that nobody holds and that is not shut down if and only if the table has a record of the id; if that record is idle, it does so at once |
| `StreamProtocol.ReusedIdLosesData` | cli/src/rpc.rs:575-618 | counterexample: inserting an id again under a running write loop loses an accepted buffer without any write error |
| `StreamTable.Streams.Insert` | cli/src/rpc.rs:575-584 | takes exactly the insert step of the protocol, over any record there is |
| `StreamTable.Streams.Write` | cli/src/rpc.rs:564-573 | takes exactly the write step, and spawns a write loop exactly if the record held its half |
| `StreamTable.Streams.Remove` | cli/src/rpc.rs:543-562 | takes exactly the remove step, and hands out the half to shut down exactly if the record held it |
| `StreamTable.WriteLoop.Lock` | cli/src/rpc.rs:603-621 | takes exactly the lock step; its three outcomes leave a batch to write, the half back in an empty record, or no record |
| `StreamTable.WriteLoop.WriteItem` | cli/src/rpc.rs:623-627 | takes exactly the item step; an error drops the rest of the batch |
| `StreamTable.WriteLoop.RunAlone` | cli/src/rpc.rs:596-631 | an undisturbed write loop writes the queue, whole or exactly up to where a write fails, then returns the half, or, for an ended stream, removes the record and shuts the half down once; without a failure all that was accepted is written |
| `Framing.DrainConserves` | cli/src/msgpack_rpc.rs:139-162 | the bytes of the frames taken off, followed by what stays in the buffer, are the input |
| `Framing.DrainStops` | cli/src/msgpack_rpc.rs:71-97 | frames are taken until the rest starts with an incomplete or a malformed frame |
| `Framing.FragmentationIndependence` | cli/src/msgpack_rpc.rs:66-97 | however a byte stream is split into reads, the same frames come out and the connection fails in the same cases |
| `Framing.Decoder.Decode` | cli/src/msgpack_rpc.rs:139-162 | advances the buffer past exactly one frame, of at least one byte, or leaves it alone |
| `Framing.Decoder.ReadBurst` | cli/src/msgpack_rpc.rs:68-97 | the inner loop ends, and takes off exactly the frames of old buffer and new bytes together |
| `MessagePack.RoundTrip` | cli/src/msgpack_rpc.rs:27-34 | whatever follows an encoded value, parsing gives the value back and stops at its end |
| `MessagePack.ParserStable` | cli/src/msgpack_rpc.rs:143-160 | a verdict other than end of input is not changed by more input, and frames are not empty: the condition under which framing is independent of fragmentation |
| `MessagePack.ProperPrefixIncomplete` | cli/src/msgpack_rpc.rs:143-149 | a message that has not fully arrived is neither taken for a frame nor for an error |
| `WireFormat.HeadsAsSpecified` | cli/src/msgpack_rpc.rs:29-35 | what starts a string, binary, array or map of any length is the shortest form of the MessagePack specification, digit by digit |
| `WireFormat.NumbersAsSpecified` | cli/src/msgpack_rpc.rs:29-35 | every number takes the shortest form of the specification, negative ones in two's complement |
| `WireFormat.NotificationsAsBytes` | cli/src/rpc.rs:637-673 | the three stream notifications as bytes: names and order of their fields, nil for the id, and the form of each value |
| `StreamMessages.Understood` | cli/src/rpc.rs:633-666 | each stream notification is read back from its wire form as what was sent |
| `StreamMessages.WireParses` | cli/src/rpc.rs:453-523 | with any part of the sent messages arrived, the decoder takes off the first one sent or waits, never fails, and waits only if fewer bytes are there than that one has |
| `EndToEndProof.StepKeepsInv` | cli/src/msgpack_rpc.rs:66-109 | every step of sender, transport, receiver and table keeps the invariant that ties what was read at the sender to where its bytes are now |
| `EndToEndProof.ReadsAreEvents` | cli/src/rpc.rs:478-511 | over every run, what the state remembers of a stream's reads is the segments of its read events in order, and its task has left the loop exactly if its reader ended |
| `EndToEndProof.ReceivedInOrder` | cli/src/rpc.rs:453-523 | in every run the receiver has seen, for each stream, a front part of: the announcement, the segments of the run's read events in order, one end |
| `EndToEndProof.EndToEndFifo` | cli/src/rpc.rs:275-291 | in every state of every run, the bytes of the segments that the run's events read at the sender are those written at the receiver, then those in its write loop and queue, then those on the way, then the segment in hand |
| `EndToEndProof.DeliversEverything` | cli/src/msgpack_rpc.rs:59-109 | when the reader of a stream has ended and nothing can move: the receiver has written exactly the bytes that the run's events read, shut the stream down exactly once and dropped its record, if and only if its end was dispatched, if and only if its end is sent and not in the channel or on the transport, and if and only if it is not stuck behind a blocked select task |
| `EndToEndLedger.MessagesConserved` | cli/src/msgpack_rpc.rs:66-109 | after every run and for every message: the steps that brought it in (answers, announcements, segments read, ends, replies, notifications) are exactly as many as its copies with a task, in the channel, on the transport and dispatched |
| `EndToEndLedger.StreamsAnnounced` | cli/src/rpc.rs:453-479 | after every run: a stream is announced or about to be exactly if a duplex call named it, and the announced streams are those with a task or about to get theirs |
| `EndToEndLedger.BytesConserved` | cli/src/msgpack_rpc.rs:68-101 | after every run: the transport holds, each way, the bytes given to it less those taken, and what was given on the way back is what the receiver had to send less what it still has |
| `EndToEndProof.BlockedForever` | cli/src/msgpack_rpc.rs:68-101 | each of the three ways to be blocked lasts in every continuation, and a blocked receiver dispatches nothing more |
| `EndToEndProof.StuckForever` | cli/src/msgpack_rpc.rs:68-101 | a stream that is stuck is delivered in no continuation: its end not dispatched and the receiver stopped, or the sender stopped before giving it to the transport |
| `EndToEndStuck.StreamsGetStuck` | cli/src/msgpack_rpc.rs:59-109 | for every size of the transport, and each of the three ways to be blocked, there is a run after which a stream whose reader has ended is never delivered |
| `EndToEndCalm.CalmDelivers` | cli/src/msgpack_rpc.rs:66-109 | once a run has come to a point at which nothing goes back and only stream messages are on their way, and whatever streams are read and ended from there on, in any interleaving: at rest every stream that has ended is delivered |
| `EndToEndCalm.StreamsGetDelivered` | cli/src/rpc.rs:453-523 | for every size of the transport and every segment of 1 to 4096 bytes there is a run that delivers a stream of just that segment |
| `EndToEndRest.QuietRunShrinks` | cli/src/msgpack_rpc.rs:66-109 | every run of steps that bring in nothing from outside, those of the sender tasks with a segment or an end to send included, ends strictly lower in a well-founded measure: messages not yet dispatched, those of them still with a sender task, then bytes and steps to be handled |
| `EndToEndRest.ComesToRest` | cli/src/msgpack_rpc.rs:66-109 | so from every state that satisfies the invariant such steps lead to one in which none is left |
| `Dispatcher.ExactlyOneResponse` | cli/src/rpc.rs:101-272 | over every run, replies answer distinct requests with their own id and one of the answers the request may get, and once all futures are done a message is answered if and only if it is a request with an id |
| `Dispatcher.AnswersAreRight` | cli/src/rpc.rs:101-272 | over every run, by its events: for a known method with good parameters the reply to request k is a success exactly if the callback returned in the dispatch or resolution of k that decided it, and the error of a failed callback otherwise; unknown methods and bad parameters get theirs |
| `Dispatcher.DispatchesAllRead` | cli/src/msgpack_rpc.rs:68-71 | over every run, what has been dispatched followed by what is left of the burst is the concatenation of all reads, up to a panic; the channel was given one message per send and lost one per receipt |
| `Dispatcher.TasksRunOnce` | cli/src/msgpack_rpc.rs:77-96 | over every run, each asynchronous or duplex request with a known method, and no other message, has its task resolved, once, or still ahead |
| `Dispatcher.StartedExactlyOnce` | cli/src/rpc.rs:453-475 | over every run, the channel is given one announcement for each duplex call that opens streams, and no other |
| `Dispatcher.PanicsExactly` | cli/src/rpc.rs:439-449 | over every run, the select task has panicked if and only if a message without a method and without an id was dispatched |
| `Dispatcher.StartedBeforeReply` | cli/src/msgpack_rpc.rs:85-95 | the streams of a duplex call are announced before the call is answered and before anything is sent for them, in every run |
| `Dispatcher.BurstAccount` | cli/src/msgpack_rpc.rs:68-97 | during a burst, room taken in the channel plus messages still to be sent grows only by what spawned tasks send, be they answers or stream traffic |
| `Dispatcher.BurstCompletesOnlyWithRoom` | cli/src/msgpack_rpc.rs:59-101 | with spawned senders, of answers and of stream traffic: a completed burst had room for everything sent during it, and with room for everything the select task can go on |
| `Dispatcher.BurstCompletes` | cli/src/msgpack_rpc.rs:59-101 | without spawned senders, a burst at occupancy k with n messages to send completes if and only if k + n <= 8 |
| `Dispatcher.StuckForever` | cli/src/msgpack_rpc.rs:71-101 | a select task that waits for room in the full channel waits for ever |
| `CallTable.NoIdTwice` | cli/src/rpc.rs:397-400 | two draws give the same id exactly if they are a multiple of 2^32 apart |
| `CallTable.FiresAtMostOnce` | cli/src/rpc.rs:342-381 | over every run, a pending callback fires at most once, however ids wrap |
| `CallTable.FiresOnOwnReply` | cli/src/rpc.rs:439-448 | over every run, however ids wrap, a callback fires exactly on the reply with its call's id while it is registered |
| `CallTable.RegisteredIfSent` | cli/src/rpc.rs:346-378 | over every run, by its events: a callback can be registered exactly if the call's message was sent and it has not been registered yet, so none is registered or fires for a message that did not leave; ids are the draws modulo 2^32 |
| `CallTable.OverwrittenExactly` | cli/src/rpc.rs:361-378 | over every run, a callback is overwritten if and only if, while it is pending, a call is registered whose id was drawn a multiple of 2^32 draws away |
| `CallTable.NeverOverwritten` | cli/src/rpc.rs:361-400 | so up to 2^32 draws there is no such call and no pending callback is overwritten |
| `CallTable.WrapOverwrites` | cli/src/rpc.rs:361-400 | counterexample: one draw more, and a call overwrites a pending one, whose callback never fires |
| `CallTable.EarlyReplyIsLost` | cli/src/rpc.rs:356-378 | counterexample: a reply between send and registration finds no callback and is lost |
| `CallTable.Caller.NextMessageId` | cli/src/rpc.rs:397-400 | takes exactly the drawing step, with wrap-around |
| `CallTable.Caller.DispatchReply` | cli/src/rpc.rs:439-449 | fires and removes exactly the callback registered under the reply's id |
| `Keyring.ReadAfterStore` | cli/src/auth.rs:327-371 | reading after storing from any entry on, over any earlier content, gives the chunks written and then, if the last one carries a marker, whatever follows |
| `Keyring.RoundTrip` | cli/src/auth.rs:327-371 | for every earlier keyring content: a string reads back if it does not end in a marked chunk; if it does, a missing next entry gives nothing and a stale one is appended; and the exact condition for reading it back |
| `Keyring.EntriesFit` | cli/src/auth.rs:351-363 | no entry written exceeds the platform's limit, and no other entry is touched |
| `Keyring.StoreContents` | cli/src/auth.rs:349-371 | for every string, platform and broken entries: storing succeeds exactly if no entry it needs reports an error; each piece before the first error is in its entry, full ones with the marker; all other entries are as before |
| `Keyring.ReadContents` | cli/src/auth.rs:327-347 | reading goes on exactly up to the first entry that reports an error, is missing or has no marker, and is then a failure, nothing, or all these entries joined without their markers |
| `Keyring.KeyringStorage.Read` | cli/src/auth.rs:327-347 | the loop over entries ends, returns what the chunks spell, and obtains handles up to the entry it stopped at |
| `Keyring.KeyringStorage.Store` | cli/src/auth.rs:349-371 | the loop over chunks writes what the specification says, also when an entry reports an error |
| `Keyring.KeyringStorage.Clear` | cli/src/auth.rs:373-383 | succeeds exactly if every entry it has a handle for exists, and then has deleted those; otherwise it stopped at the first that could not be deleted |
| `DeviceCode.PollForGrant` | cli/src/auth.rs:815-834 | the sleep before each poll is 5 + 5 * (slow-downs so far) seconds, and polling ends with the first grant or when the code has expired |
| `DeviceCode.PollBound` | cli/src/auth.rs:798-834 | at most ceil(expires_in / 5) polls |
| `DeviceCode.BackoffBound` | cli/src/auth.rs:819-829 | if every earlier poll was slowed down, poll n happens only if 5 * n * (n - 1) / 2 < expires_in |
| `TextEdits.ApplyEdits` | scripts/sync-agent-host-protocol.ts:55-60 | applying sorted, disjoint edits in place from last to first gives the text defined by original offsets |
| `TextEdits.EverythingElseSurvives` | scripts/sync-agent-host-protocol.ts:55-60 | every character outside the edited spans survives exactly once and in order, no other does, and the rest of the result is the inserted texts in order |
| `ImportMerge.MergeDuplicateImports` | scripts/sync-agent-host-protocol.ts:169-219 | the two passes over the lines compute the merge defined module by module |
| `ImportMerge.OneLinePerModule` | scripts/sync-agent-host-protocol.ts:202-218 | whenever merging does not throw: each module imported from gets an import line with what was collected for it, and only one exactly if no text line spells its placeholder |
| `ImportMerge.ListsInOrder` | scripts/sync-agent-host-protocol.ts:179-216 | every import line of the result lists the values the file imports from its module in the order of their first mention and then the types in theirs, marked as such; it is an import of types exactly if there are no values |
| `ImportMerge.OtherLinesStay` | scripts/sync-agent-host-protocol.ts:177-200 | all lines that do not stand for an import keep their content and order, and an import stands where the file first imports from the module, or where its placeholder was spelled |
| `ImportMerge.MergePreservesBindings` | scripts/sync-agent-host-protocol.ts:169-219 | whenever merging does not throw, the types and the values imported from each module are unchanged, with or without inline `type` specifiers |
| `ImportMerge.IdempotentUnlessClash` | scripts/sync-agent-host-protocol.ts:202-216 | a second pass changes nothing if and only if no text line was taken for a placeholder and no value name spells the inline form of a type of the same module |
| `ImportMerge.IdempotentWithoutInline` | scripts/sync-agent-host-protocol.ts:202-216 | so without inline specifiers it changes nothing if and only if no text line was taken for a placeholder |
| `ImportMerge.ThrowsOnDangling` | scripts/sync-agent-host-protocol.ts:202-208 | merging throws exactly on files with a line that reads as the placeholder of a module they do not import from |
| `DownloadCache.SortedByRecency` | cli/src/download_cache.rs:119-138 | over every run: the list is sorted by last use after every operation if and only if every restart goes on with a list that is |
| `DownloadCache.KeepsTheLatest` | cli/src/download_cache.rs:119-138 | without deletions and failed evictions: after every operation the list is the most recently used names of the whole history, at most five, and fewer only if there were no more, if and only if every restart goes on with such a list |
| `DownloadCache.LengthBound` | cli/src/download_cache.rs:119-138 | in every run, with failed writes and restarts: the list in memory and the list in the file hold no name twice and are never longer than five plus the evictions that failed so far |
| `DownloadCache.IndexCoversDirectories` | cli/src/download_cache.rs:52-138 | over every run, with failed renames, removals and list writes: every completed directory is in the list after every operation, so a name dropped from it has no directory, if and only if every restart reads a list of every completed directory |
| `DownloadCache.FileIsLastWrite` | cli/src/state.rs:61-85 | in every run the file holds the list as it was in memory after the last operation that reached the file, if that write was good; if it broke off, or there was none, a restart reads nothing |
| `DownloadCache.RestartCanLoseDirectories` | cli/src/state.rs:46-70 | counterexample: a failed list write and a restart leave a directory the list does not know |
| `DownloadCache.RepliesAreTrue` | cli/src/download_cache.rs:52-117 | in every reachable state, after failed writes and restarts too: a path that is handed out exists after the call, also after the eviction it caused; a failed creation has no directory; a successful deletion leaves neither directory nor entry |
| `DownloadCache.CreatesExactly` | cli/src/download_cache.rs:78-117 | every reply to a creation with exactly the answers of the file system that lead to it, twenty-one of them for the renaming, and what is left of the staging directory |
| `DownloadCache.DeletesExactly` | cli/src/download_cache.rs:63-72 | deleting fails before any change exactly if the directory is there and cannot be removed, fails with everything else done exactly if the list could not be written, and otherwise leaves every other name and directory |
| `DownloadCache.OnlyTheOldestGoes` | cli/src/download_cache.rs:126-136 | in every run: other than by deletion, a completed directory goes only when the list is full and nothing but the name being used comes after it; where the list is sorted, it is the one unused for longest |
| `DownloadCache.Cache.Touch` | cli/src/download_cache.rs:119-138 | moves the name to the front and evicts as specified |
| `DownloadCache.Cache.Find` | cli/src/download_cache.rs:52-60 | hands out the path exactly if the directory exists, marking the name as used; a failed list write is ignored |
| `DownloadCache.Cache.Remove` | cli/src/download_cache.rs:63-72 | removes the directory first and then every occurrence in the list, or nothing if the directory stays |
| `DownloadCache.Cache.Make` | cli/src/download_cache.rs:78-117 | stages, fills, marks as used and renames, with 21 attempts, as specified for every answer of the file system |
| `PolicyOverrides.WireMakesWired` | scripts/mock-policy-server/server.ts:241-291 | after wiring, for every endpoint that no later one overrides its product key has its URL, if and only if the overrides were absent, unreadable or an object; it throws exactly on `null` |
| `PolicyOverrides.WireKeepsTheRest` | scripts/mock-policy-server/server.ts:284-291 | wiring keeps every other key of the document, and every other key of its agent, with the product's keys filled in |
| `PolicyOverrides.WireKeepsOthers` | scripts/mock-policy-server/server.ts:271-293 | an overrides document that is not an object is written back as it was, with the backup made |
| `PolicyOverrides.RepliesExactly` | scripts/mock-policy-server/server.ts:266-343 | exactly when wiring and unwiring throw, and what they have changed then |
| `PolicyOverrides.SpreadIs` | scripts/mock-policy-server/server.ts:284-291 | spreading copies exactly the properties of the value, those of arrays and strings under their decimal indices |
| `PolicyOverrides.WireThenUnwire` | scripts/mock-policy-server/server.ts:266-343 | for every content of the files, parsable or not, and also if wiring throws: wiring and unwiring restores them exactly if and only if there was no backup file before |
| `PolicyOverrides.StaleBackup` | scripts/mock-policy-server/server.ts:271-304 | what unwiring leaves if there was one |
| `PolicyOverrides.SecondWireLosesOriginal` | scripts/mock-policy-server/server.ts:271-304 | after wiring twice, unwiring leaves the product wired |
| `PolicyOverrides.SurgicalRestores` | scripts/mock-policy-server/server.ts:307-343 | without the backup, the exact condition on an overrides document for wiring and unwiring key by key to restore it |
| `PolicyOverrides.RevertedIs` | scripts/mock-policy-server/server.ts:320-327 | reverting changes the endpoints' keys and no other, and leaves them as the product has them |
| `PolicyOverrides.ShallowEqual` | scripts/mock-policy-server/server.ts:408-415 | comparing the number of keys and the keys of one side decides equality |
| `PolicyOverrides.Server.Wired` | scripts/mock-policy-server/server.ts:241-254 | the loop over the keys decides whether every endpoint that no later one overrides has its URL in the file |
| `PolicyOverrides.Server.WireOverrides` | scripts/mock-policy-server/server.ts:266-293 | changes the files as specified, the backup before the overrides |
| `PolicyOverrides.Server.UnwireOverrides` | scripts/mock-policy-server/server.ts:300-343 | changes the files as specified, through the backup or key by key |
| `LogStream.NothingLost` | src/bootstrap-fork.ts:122-132 | after any writes, the pieces sent, each with the line end that followed it, and then the buffer are the input, also where the limit cut; the buffer has no line end and fits the limit |
| `LogStream.ChunkIndependence` | src/bootstrap-fork.ts:122-132 | while the limit is not hit, what was sent and what is kept depend on the text alone and not on the chunks |
| `LogStream.OnePieceEach` | src/bootstrap-fork.ts:122-132 | in every run a chunk makes one piece at most: the overlong buffer as it is, or the lines up to the chunk's last line end, if it has one |
| `LogStream.OverflowsUnlessFits` | src/bootstrap-fork.ts:127-132 | the limit is not hit if and only if every chunk fits it together with the unfinished line before it |
| `LogStream.LimitDependsOnChunks` | src/bootstrap-fork.ts:127-132 | counterexample: beyond the limit, the same text in other chunks gives other pieces |
| `LogStream.WrappedStream.WriteChunk` | src/bootstrap-fork.ts:125-137 | sends and keeps what the specification says, and passes the chunk on |
| `SafeInspect.PrintAdds` | src/bootstrap-fork.ts:52-65 | the walk ends on every graph; its tree shows the value, and the objects it has newly seen are those it prints in full, each once |
| `SafeInspect.PrintsReachableOnce` | src/bootstrap-fork.ts:52-65 | the objects printed are exactly those reachable, each remembered one in full exactly once, and markers stand for such objects only |
| `SafeInspect.MarkersMeanSharing` | src/bootstrap-fork.ts:55-60 | a marker is printed if and only if writing everything out would meet some object twice; otherwise the result is the plain one |
| `SafeInspect.DiscoversReachable` | src/bootstrap-fork.ts:52-65 | the depth-first order of that condition has exactly the objects the value reaches |
| `SafeInspect.GivesUp` | src/bootstrap-fork.ts:52-93 | the printer gives up if and only if the serialiser refuses the value or one that it reaches, or the value reaches a cycle on which a regular expression, which the filter does not remember, comes first in depth-first order; so on every reachable cycle of regular expressions |
| `SafeInspect.BigIntGivesUp` | src/bootstrap-fork.ts:52-74 | counterexample: an array that holds a BigInt makes the printer give up, without any reference between objects |
| `SafeInspect.PlainUnlessShared` | src/bootstrap-fork.ts:52-75 | without sharing, refused values and such a cycle, the text is the plain printer's, unless it exceeds 100000 characters, whatever else is in the heap, and reads back as the tree of the value |
| `SafeInspect.ReadsBack` | src/bootstrap-fork.ts:52-75 | for scalar leaf texts and plain keys, a reader defined apart from the printer takes exactly the rendered text off the input and gives back the arrays, objects, keys and leaves in order, with the string `[Circular]` for a marker |
| `SafeInspect.TextReadsBack` | src/bootstrap-fork.ts:52-93 | for every heap and value: the text is the error for a value given up, the notice beyond 100000 characters, and otherwise reads back as the printed tree |
| `SafeInspect.Inspector.Replace` | src/bootstrap-fork.ts:52-65 | the filter marks an object exactly if it has been seen, and remembers it otherwise |
| `SafeInspect.Inspector.Inspect` | src/bootstrap-fork.ts:21-75 | the walk in place computes the specified text |

## Left out

- Sockets, the tokio scheduler, HTTP and processes: their effects are
  nondeterministic steps or parameters.
- `EndToEnd.Dispatch`: the receiver's handler of `streams_started` is not in this
  repository; it is taken to register the announced ids before the next message
  is dispatched. One direction of the stream traffic is modelled end to end; of
  the other, the answers and bytes that compete for the channels, the transport
  and the select tasks are present, but not their content.
- `EndToEnd.Enabled`: an id is announced once. Ids come from the counter, and
  `CallTable.NoIdTwice` says for how many draws they differ; the sender cannot
  tell when the receiver has dropped the record of an earlier stream.
- Messages in `EndToEnd` are those the senders make, so each has a method or an
  id and none makes the receiver panic.
- That a peer closes the channel or the connection (`write_tx.send` failing, a
  read error) ends the run; nothing is claimed beyond that point.
- Callbacks that panic or never finish: a future that is never resolved stays in
  the state, so nothing is claimed about its answer.
- `StreamProtocol.DrainProgress`, and with it `StreamProtocol.DrainsAfterRemove` and
  `EndToEndRest.ComesToRest`: the local reader of a stream is taken to read; a
  `write_all` into its pipe of 8192 bytes counts as a step that can be taken.
- `MessagePack` has no floats and no extension types, does not check that strings
  are UTF-8 and has no limit on nesting depth. Deserialising into a type that the
  value does not fit counts as a message of no concern to the streams.
- `StreamProtocol.Fifo`: makes no claim on a stream after a write to it failed,
  because the rest of the batch is dropped and the loop goes on with later
  buffers; what is written then is `StreamHistory.HistoriesAreEvents`.
- `StreamTable.WriteLoop.RunAlone`: covers a loop no other task interrupts; the
  interleaved case is `StreamProtocol.DrainsAfterRemove`.
- `cli/src/json_rpc.rs`, which depends on what cancelling a read in `select!`
  loses, and `cli/src/singleton.rs`, which rests on a file lock that is not part
  of this model.
- Sealing, encryption and the 5 second keyring timeout; a credential is any
  string of single-byte characters. An entry that reports an error other than
  being absent does so for the whole operation.
- `DeviceCode.PollForGrant`: time is counted in nanosecond ticks and
  `expires_in` is any integer; requests are outcomes given from outside.
- The formatter that produces the edits is a parameter; its edits are sorted,
  disjoint and within the text.
- `ImportMerge` starts from lines that have been collapsed and split; the regular
  expressions and the splitting of name lists are not modelled. A default or
  namespace import is an ordinary line.
- Overlapping `create` calls in the download cache, and a cache entry named like
  the list's own file `lru.json`. A directory that cannot be removed counts as
  still there.
- JSON documents are values: the order of keys and the white space of what is
  written are not modelled, the comparison of nested values ignores key order,
  and inherited properties such as `toString` are not looked up. Writing a file
  does not fail. The URL of an endpoint is given as a whole.
- `SafeInspect` starts at the array of arguments: replacing `undefined` and errors
  by strings, the results of `toJSON` methods (dates among them) and values JSON
  drops are done before; a getter or `toJSON` that throws is a refused value.
  Running out of stack or string length is not modelled. Quoting does not
  escape, so `SafeInspect.ReadsBack` is about keys without quotes and backslashes and
  leaf texts that are JSON scalars.
- Decoding a chunk's bytes to characters, where a chunk may end inside a
  character; lengths count characters.
- Benchmarks, platform tables, provider prompts and user-facing messages.
