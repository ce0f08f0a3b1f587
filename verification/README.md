# What the Silver Messenger client keeps

A Dafny model of the parts of the Silver Messenger client that are hardest to
get right by reading: what survives a crash, what a replayed log proves, what a
message is reported as, and what comes back from bytes nobody vouches for. Each
part has a model of what the code computes, results over every input or every
run, and, where the code works by changing things in place, the class or loop
that does so, proved to compute the model.

`dafny verify dfyconfig.toml` checks the whole project.

| files | what they model |
|---|---|
| `CborValue`, `CborKeyOrder`, `Cbor`, `CborTheorems`, `CborStream` | the CTAP2 CBOR codec: encoder, decoder, round trip |
| `Sequence`, `SequenceEpochs` | the 64-number replay window of one sender, within an epoch and across epochs |
| `FanOuts`, `FanOutRuns`, `FanOutQueues` | settling a message sent as several envelopes |
| `Snapshot` | cutting a device snapshot to a size |
| `KeyStore`, `KeyStoreDirectory` | which keys a change of protection leaves in the key store |
| `History`, `HistoryTheorems`, `HistoryBlank`, `HistoryStore` | a conversation log: updates, removals, deletions |
| `HistoryFile`, `HistoryFileTheorems`, `HistoryFileRecord`, `HistoryFileStore`, `IdealCipher` | the log's file: lines bound to their offsets, its length to a record |
| `Rollback`, `RollbackTheorems`, `RollbackCopies`, `RollbackStore` | generations: when an older copy of a file is read as the current one |
| `RollbackAdoption`, `RollbackLogs`, `RollbackBinding` | giving a directory its first generations, moving its logs, and bringing late files into its record |
| `Rotation`, `RotationTheorems`, `RotationLog`, `RotationRecord`, `RotationStore` | moving the directory from one data key to another |
| `Transparency`, `TransparencyTheorems`, `TransparencyStore` | the relay's key log as a client replays it |
| `Tail`, `TailTheorems`, `TailDevices`, `TailBlame`, `TailWaits`, `TailStore` | following that log on a connection, what lookups are told, and whom to blame for a fork |
| `Sessions`, `SessionTheorems`, `PrekeyTheorems`, `PrekeyRuns`, `SessionStore` | ratchet sessions and prekeys |
| `Crossing`, `CrossingTheorems` | two clients that start a session with each other at once |

## How to read the results

Cryptography is ideal and stated as such: a sealed file says its own name,
generation and contents; a sealed line opens where it was sealed and nowhere
else (`HistoryFile.Ideal`, with an instance in `IdealCipher`); a hash function is
a parameter, and results that need it injective ask for it. Clocks, randomness
and what a library decides are parameters too. Crashes fall between any two
atomic writes, or between any two bytes of an append.

Several promises of the code hold only under a condition. Each of these is
stated exactly, for when it holds and for when it does not:

- A message accepted from a sender is shown again after an accepted jump of
  exactly 64, after a third epoch, and after a return to the epoch before at most
  64 past where it ended (`ReplayEpochs.NeverShownTwiceIff`, with
  `ReplayWindow.JumpShowsTwice`, `ReplayEpochs.ThirdEpochShowsTwice` and
  `ReplayEpochs.ReturnShowsTwice`); the comment at
  `crates/silver-client/src/sequence.rs:16-19` has numbering that goes back to
  where it has been before be a replay, and the model follows the code.
- A message sent as several envelopes is reported more than once exactly when,
  between its first registration and its last, none of it is waited for
  (`FanOutRuns.ReportedOnceIff`).
- A file in the clear is read in place of any sealed one; sealed copies are told
  apart exactly by name and generation (`RollbackTheorems.CopyAcceptedIff`,
  `RollbackTheorems.PlainCopyRead`).
- A write cut off before its record and the one after it share a generation, and
  either copy is accepted (`RollbackCopies.CrashCopyAcceptedIff`,
  `RollbackCopies.CutCopyAcceptedToo`).
- A directory whose writes are cut short three times in a row at the wrong
  steps finds no record it can accept (`RollbackTheorems.UnlockAcceptsIff`).
- Bringing two files into the record raises it by two, so two unlocks cut short at
  the wrong steps leave none it can accept (`RollbackBinding.UnlocksFindRecordIff`,
  `RollbackBinding.TwoFilesStrand`); the comment at
  `crates/silver-client/src/store.rs:1162-1176` has the next unlock do it again.
- A log that an adoption cut short had moved to its new name is in no record after
  the adoption that finishes (`RollbackLogs.MovedLogRecordedIff`,
  `RollbackLogs.MovedLogUnrecorded`); the comment at
  `crates/silver-client/src/store.rs:1305-1312` says it is still recorded.
- One line of a log that does not open, as one a crash cut short past its prefix,
  keeps a directory from taking up generations, and every unlock of it from
  finishing, though the reader keeps such a line and goes on
  (`RollbackLogs.AdoptionStopsIff`, `RollbackLogs.CutLineStops`).
- A log in no record stays out of it through every rewrite until an append to it is
  finished, and whatever is put in its place meanwhile is read
  (`HistoryFileRecord.UnlistedUntilAppendIff`,
  `HistoryFileRecord.UnlistedEmptiedLoads`).
- A file whose write was cut off before its record becomes unreadable once
  another file is written (`RollbackTheorems.HalfRecordedReadableIff`).
- A history rewrite cut off before its length is recorded leaves a file the
  store refuses as truncated as long as it stays shorter than recorded, until the
  next recorded write (`HistoryFileRecord.OwnFileRefusedIff`,
  `HistoryFileTheorems.AppendSettles`).
- An older copy of a log is refused if an append was recorded since, but the copy
  from before a rewrite that did not lengthen it loads, removed lines and all
  (`HistoryFileRecord.GrowingLogOlderRefusedIff`,
  `HistoryFileRecord.CopyBeforeRewriteLoadsIff`).
- One history line cut short past its prefix keeps a key rotation, and any unlock
  after it, from finishing (`RotationTheorems.RotationSettlesIff`,
  `RotationTheorems.UnlockSettlesIff`); a second rotation begun meanwhile can
  lose what is still under the first key (`RotationTheorems.RunKeepsIff`).
- A log with a blank line counted in its record is refused once a rotation has
  dropped the line; a log of the store's own has none and loads
  (`RotationLog.MovedLogLoadsIff`, `RotationLog.RotatedLogLoads`).
- Erasing a directory whose vault cannot be read orphans its key, unless the key is
  noted already (`KeyStoreEntries.AlwaysAccountedIff`,
  `KeyStoreEntries.WipeAccountedIff`).
- An answer that waited is settled even where the head it came with is off the
  chain. A fork of the relay's is told with it exactly where the log was fetched for
  the relay's own sake and the head fetched for is off the chain, at an index a hash
  is still held for, or where a segment being checked broke; so an answer that waited
  behind the fetch for another's head is settled with nothing told
  (`TailWaits.RelayForkToldIff`, `TailWaits.CheckedForkToldIff`,
  `TailWaits.OffChainAnswerUntold`). One whose head is never served waits for good
  (`TailWaits.NeverServedWaits`).
- A message deleted for everyone shows again exactly where somebody has since
  appended an entry of its id that is more than a placeholder, has not been removed or
  deleted again, and has no tombstone over it (`HistoryBlank.DeletedStaysBlankIff`).
- A key rotation keeps the record of generations exactly where that is in `state`. One
  found in `state.prev` is not found again; and where no record could be accepted the
  rotation drops the anchor, so that the next unlock adopts the directory as it stands,
  though the comment at `crates/silver-client/src/vault.rs:568-571` has the anchor
  carried over so that no change of protection detaches the directory from it
  (`RotationRecord.RotatedUnlockIs`, `RotationRecord.RotationAfterRun`).
- A message that cannot be sent can still cost somebody else their sessions
  (`SessionTheorems.SendDropsIff`, `SessionTheorems.FailedSendEvicts`).
- A contact is blamed for a page the relay broke while the client caught up on
  that contact's behalf (`TailBlame.BrokenAdvanceBlamesOrigin`).
- Crossed sessions settle on one only if the lower id hears the other's
  handshake inside the window (`CrossingTheorems.CrossedSettleIff`).
- The cap on handed-out one-time keys is exceeded exactly by ties at the cap
  (`PrekeyTheorems.HandedOutCapIff`, with `PrekeyRuns.HundredKept`), so what a
  client holds is bounded where no two reports share a millisecond
  (`PrekeyRuns.RunHoldsAtMost`); the comment at `crates/silver-client/src/sessions.rs:815-825` says no more than the
  cap are kept, and the model follows the code.

## Model

| member | source | states |
|---|---|---|
| KeyOrder.SortIsStable | crates/silver-key/src/cbor.rs:42-77 | sorting map entries by their encoded keys, shorter first and then bytewise, loses none and keeps entries with equal keys in the order they were in |
| KeyOrder.StableSortIsUnique | crates/silver-key/src/cbor.rs:42-77 | any ordered rearrangement that keeps equal keys in order is that sort, so the canonical form is one |
| CborCodec.BigEndian | crates/silver-key/src/cbor.rs:149-165 | an argument written big-endian reads back as itself, at every width it fits |
| CborTheorems.RoundTrip | crates/silver-key/src/cbor.rs:36-279 | for every value and every suffix, decoding the encoding followed by the suffix gives the value with all its maps sorted and uses exactly the encoding, if the value has at most 16 levels below its own, and is refused as too deep otherwise |
| CborTheorems.EncodeCanon | crates/silver-key/src/cbor.rs:42-77 | re-encoding the sorted value gives the same bytes |
| CborTheorems.EncodingsDeterminedByCanon | crates/silver-key/src/cbor.rs:42-77 | however deep, two values share an encoding exactly when they have one sorted form, and no encoding is a proper prefix of another |
| CborTheorems.DeepReadsBack | crates/silver-key/src/cbor.rs:232-279 | with the depth limit raised to fit it, a value nested to any depth reads back as its sorted form, using exactly its encoding |
| CborTheorems.CanonIsSorted | crates/silver-key/src/cbor.rs:42-77 | every map of the sorted form, however deep, lists its keys in the canonical order |
| CborTheorems.SortedIsCanon | crates/silver-key/src/cbor.rs:42-77 | a value whose maps are in order already is its own sorted form |
| CborTheorems.ArgumentCost | crates/silver-key/src/cbor.rs:207-220 | no accepted argument takes fewer bytes than the shortest head for its number |
| CborTheorems.ReadFits | crates/silver-key/src/cbor.rs:197-279 | whatever the decoder accepts used no more than the input, holds no more items than bytes used, is nested no deeper than allowed, and is no longer when written canonically |
| CborTheorems.ReadIgnoresSuffix | crates/silver-key/src/cbor.rs:179-183 | an item read from some bytes is read the same with anything after it |
| CborStream.Output.Head | crates/silver-key/src/cbor.rs:149-165 | the buffer grows by exactly the head: major type and shortest argument |
| CborStream.Output.Write | crates/silver-key/src/cbor.rs:42-77 | the buffer grows by exactly the canonical encoding of the value |
| CborStream.Output.WriteItems | crates/silver-key/src/cbor.rs:42-77 | the buffer grows by the encodings of the items in order |
| CborStream.Output.WritePairs | crates/silver-key/src/cbor.rs:42-77 | the buffer grows by keys and values, pair by pair |
| CborStream.EncodeValue | crates/silver-key/src/cbor.rs:36-41 | a fresh buffer ends up holding the canonical encoding |
| CborStream.EncodeEach | crates/silver-key/src/cbor.rs:42-77 | the keys and values of a map, each encoded on its own, in order |
| CborStream.Reader.Take | crates/silver-key/src/cbor.rs:197-205 | that many bytes from the cursor, or a refusal that leaves it where it was |
| CborStream.Reader.Argument | crates/silver-key/src/cbor.rs:207-220 | the number an initial byte announces, by its width; reserved widths refused |
| CborStream.Reader.Count | crates/silver-key/src/cbor.rs:224-230 | a count is accepted only if that many items, or pairs, of at least a byte each could still follow |
| CborStream.Reader.Value | crates/silver-key/src/cbor.rs:232-279 | the cursor reads what the recursive definition of reading gives, at every depth |
| CborStream.Reader.Scalar | crates/silver-key/src/cbor.rs:232-279 | integers, strings, booleans and null, with every refusal |
| CborStream.Reader.ArrayBody | crates/silver-key/src/cbor.rs:253-260 | an array: its count, then its items one level down |
| CborStream.Reader.MapBody | crates/silver-key/src/cbor.rs:261-270 | a map: its count, then its entries one level down |
| CborStream.Reader.Items | crates/silver-key/src/cbor.rs:253-260 | the loop over items agrees with reading them one by one |
| CborStream.Reader.Entries | crates/silver-key/src/cbor.rs:261-270 | the loop over entries agrees with reading them one by one |
| CborStream.DecodePrefix | crates/silver-key/src/cbor.rs:179-183 | the value and how many bytes it took, fitting the bounds of `ReadFits` |
| CborStream.Decode | crates/silver-key/src/cbor.rs:168-174 | accepted exactly when one item takes the whole input; every encoding decodes to its sorted value |
| ReplayWindow.Tracker.Note | crates/silver-client/src/sequence.rs:112-150 | noting a number in place: highest, 64-bit word and the epoch left behind |
| ReplayWindow.AgreesClassifies | crates/silver-client/src/sequence.rs:77-109 | where word and set of accepted numbers agree, the verdict is the one the set gives |
| ReplayWindow.DeliverAgrees | crates/silver-client/src/sequence.rs:77-150 | one delivery keeps word and set in agreement if and only if it is not an accepted jump of exactly 64, which shows an accepted number again |
| ReplayWindow.RunAgrees | crates/silver-client/src/sequence.rs:77-150 | word and set agree after every run without that jump |
| ReplayWindow.WindowRefinesSet | crates/silver-client/src/sequence.rs:77-150 | after every such run every incoming number gets the verdict the plain set would give |
| ReplayWindow.StayNeverShownTwiceIff | crates/silver-client/src/sequence.rs:77-150 | at every point of every run, no number accepted in the stay the sender is in is shown again if and only if no step is an accepted jump of exactly 64 |
| ReplayWindow.JumpShowsTwice | crates/silver-client/src/sequence.rs:112-150 | 1, then 65, then 1 again: shown twice |
| ReplayWindow.OldEpochStaysClosed | crates/silver-client/src/sequence.rs:77-150 | while the sender stays in its epoch, every number of the one before up to where it ended is a replay, whatever is delivered |
| ReplayWindow.NewEpochClosesOld | crates/silver-client/src/sequence.rs:77-150 | after a move to a new epoch every number accepted in the old one is a replay |
| ReplayWindow.RunBounds | crates/silver-client/src/sequence.rs:112-150 | accepted numbers never exceed the highest recorded, over every run |
| ReplayEpochs.NeverShownTwiceIff | crates/silver-client/src/sequence.rs:77-150 | over every run and all its epochs, no message accepted at any time is shown again at any later point if and only if no step jumps by exactly 64, moves to a third epoch, or goes back to the one before at most 64 past where it ended and not to the last number there is |
| ReplayEpochs.DeliverRemembers | crates/silver-client/src/sequence.rs:77-150 | one delivery keeps everything ever accepted refused if it is none of those, and shows some of it again if it is one |
| ReplayEpochs.ReturnShowsTwice | crates/silver-client/src/sequence.rs:112-150 | number 1 of one epoch, number 1 of another, number 2 of the first: number 1 of the first is shown again |
| ReplayEpochs.ThirdEpochShowsTwice | crates/silver-client/src/sequence.rs:112-150 | number 1 of three epochs in turn: number 1 of the first is shown again |
| FanOuts.ReportedOnce | crates/silver-client/src/connection.rs:490-530 | once all of a message's envelopes are registered, for every order of answers, each at most once, among other traffic: Rejected as soon as the primary is refused, otherwise Sent exactly at the last answer, and nothing else |
| FanOuts.RegisterAll | crates/silver-client/src/connection.rs:490-503 | registering the envelopes of a message in any order makes it wait for exactly them, reporting nothing |
| FanOuts.RegisterWaits | crates/silver-client/src/connection.rs:491-503 | one more envelope registered is one more waited for |
| FanOuts.LateEnvelopeReportsAgain | crates/silver-client/src/connection.rs:490-530 | an envelope registered after its message settled reports the message a second time, whatever is answered for it |
| FanOuts.StepAnswers | crates/silver-client/src/connection.rs:2959-3054 | an answer for one of a message's envelopes: what is reported and what is still waited for |
| FanOuts.StepKeepsOthers | crates/silver-client/src/connection.rs:2959-3054 | an answer for any other envelope leaves the message waiting for what it waited for |
| FanOutRuns.ReportedOnceIff | crates/silver-client/src/connection.rs:490-530 | for every interleaving of registrations and answers, one of each per envelope: the message is reported exactly once if and only if some envelope of it is waited for from its first registration to its last, and then Rejected if its primary was refused and Sent if not |
| FanOutRuns.ReportsCount | crates/silver-client/src/connection.rs:2959-3054 | at every point of such an interleaving, a message has been reported as often as the last envelope waited for was answered, and once more if its primary was refused and others are waited for |
| FanOutQueues.Queues.Register | crates/silver-client/src/connection.rs:491-503 | the maps of envelopes and messages after a registration |
| FanOutQueues.Queues.Fail | crates/silver-client/src/connection.rs:504-510 | a message marked failed |
| FanOutQueues.Queues.Done | crates/silver-client/src/connection.rs:511-530 | one envelope off the books, and whether its message settled with it |
| FanOutQueues.Queues.RemoveFromOutbox | crates/silver-client/src/outbox.rs:53-63 | the outbox without that envelope |
| FanOutQueues.Queues.Accepted | crates/silver-client/src/connection.rs:2959-2977 | state and events of an acceptance |
| FanOutQueues.Queues.Refused | crates/silver-client/src/connection.rs:2985-3054 | state and events of a refusal, rate limiting, device gone and primary alike |
| SnapshotCut.CutKeepsNewest | crates/silver-client/src/linking.rs:500-575 | contacts are never cut, and no line dropped is as new as one kept, across all conversations |
| SnapshotCut.KeepHistoryExactly | crates/silver-client/src/linking.rs:500-575 | of the lines exactly those from the threshold on are kept |
| SnapshotCut.NewestFirstSorts | crates/silver-client/src/linking.rs:500-575 | the estimate goes through every line once, newest first |
| SnapshotCut.FillNewest | crates/silver-client/src/linking.rs:500-575 | the greedy estimate takes as many of the newest lines as fit and stops at the first that does not |
| SnapshotCut.NextAbove | crates/silver-client/src/linking.rs:500-575 | the next threshold is the smallest timestamp above the last, so it strictly rises |
| SnapshotCut.TryNext | crates/silver-client/src/linking.rs:500-575 | no threshold between two tried ones would have fitted |
| SnapshotCut.CutTwice | crates/silver-client/src/linking.rs:500-575 | cutting what is already cut equals cutting the whole |
| SnapshotCut.CutAll | crates/silver-client/src/linking.rs:500-575 | above every timestamp nothing but the contacts is left |
| SnapshotCut.Remeasure | crates/silver-client/src/linking.rs:500-575 | the loop ends, for any size measure, at the first threshold at which the document fits |
| SnapshotCut.ToBytesWithin | crates/silver-client/src/linking.rs:500-575 | a result always fits the cap; refused exactly when not even the contacts fit; whole when the whole fits |
| KeyStoreEntries.ScriptSafe | crates/silver-client/src/store.rs:1013-1095 | every change of protection keeps every key store key named by the vault or noted, and the vault's key present, at each of its durable steps |
| KeyStoreEntries.AlwaysAccountedIff | crates/silver-client/src/store.rs:1509-1729 | through any run of changes, each cut short at any step, that holds all along the way if and only if no change gets as far as erasing an unreadable vault whose key is not noted |
| KeyStoreEntries.CutAccountedIff | crates/silver-client/src/store.rs:1509-1729 | and so for one change cut short at any step |
| KeyStoreEntries.SettleSettles | crates/silver-client/src/store.rs:1077-1095 | settling, with a readable vault and a working key store, leaves no note and no key but the vault's among those noted |
| KeyStoreEntries.ReopenSettles | crates/silver-client/src/store.rs:1077-1095 | after any such run the next good start leaves exactly the vault's key |
| KeyStoreEntries.WipeAccountedIff | crates/silver-client/src/store.rs:2458-2518 | an erase keeps the account if and only if the vault was readable, named no key, or the key was noted already |
| KeyStoreDirectory.Directory.AddPending | crates/silver-client/src/store.rs:1035-1047 | the note gains the name once |
| KeyStoreDirectory.Directory.ClearPending | crates/silver-client/src/store.rs:1048-1076 | the note loses the name and nothing else |
| KeyStoreDirectory.Directory.TakeOut | crates/silver-client/src/store.rs:1560-1575 | key deleted, then note cleared; neither where the key store refuses |
| KeyStoreDirectory.Directory.DropUnusedKek | crates/silver-client/src/store.rs:1560-1575 | kept if the vault names it, taken out if not, left with its note if that cannot be told |
| KeyStoreDirectory.Directory.SettlePending | crates/silver-client/src/store.rs:1077-1095 | every noted name settled, in order |
| KeyStoreDirectory.Directory.MakeKek | crates/silver-client/src/store.rs:1509-1536 | note, key, vault, settle: in that order, with every way it can fail |
| KeyStoreDirectory.Directory.ProtectWithKeyStore | crates/silver-client/src/store.rs:1509-1536 | the steps of protecting an unprotected directory |
| KeyStoreDirectory.Directory.LeaveKeyStore | crates/silver-client/src/store.rs:1594-1622 | the steps of moving off the key store |
| KeyStoreDirectory.Directory.RemovePassphrase | crates/silver-client/src/store.rs:1642-1676 | the steps of moving onto the key store |
| KeyStoreDirectory.Directory.RemoveProtection | crates/silver-client/src/store.rs:1704-1732 | the steps of removing protection |
| KeyStoreDirectory.Directory.Wipe | crates/silver-client/src/store.rs:2458-2518 | the steps of an erase |
| HistoryTheorems.LoadAfterRemove | crates/silver-client/src/store.rs:3045-3081 | loading after a removal equals loading before it with those ids filtered out |
| HistoryTheorems.RemovedStaysGone | crates/silver-client/src/store.rs:2831-2897 | a removed id never shows again under any later appends, removals and deletions, new entries of that id included |
| HistoryTheorems.BuriedIsNotShown | crates/silver-client/src/store.rs:2831-2897 | a message with a tombstone is not shown wherever its entry and updates stand in the file |
| HistoryTheorems.LoadAfterMarkDeleted | crates/silver-client/src/store.rs:3114-3170 | loading after a deletion for everyone equals loading before with exactly the Applied ids turned into placeholders; Refused and unheld ids change nothing |
| HistoryTheorems.GoingAreApplied | crates/silver-client/src/store.rs:3114-3170 | the ids rewritten are exactly those whose outcome is Applied |
| HistoryTheorems.OutcomeIff | crates/silver-client/src/store.rs:3114-3170 | Tombstoned exactly when no entry has the id; otherwise Applied or Refused by the author of the last entry that has it |
| HistoryTheorems.DeletedStaysBlank | crates/silver-client/src/store.rs:2831-2897 | a placeholder stays one through any later run in which no new entry takes the id, and an edit, a reaction or a new text changes nothing |
| HistoryBlank.DeletedStaysBlankIff | crates/silver-client/src/store.rs:2831-2897 | over every later run: nothing but placeholders shows for the id if and only if everyone who has since appended an entry of it, more than a placeholder and not removed or deleted for everyone again, has a tombstone over what they wrote |
| HistoryBlank.ShowsErasedIff | crates/silver-client/src/store.rs:2831-2897 | of any file: nothing but placeholders shows for an id if and only if every author of an entry of it that is more has a tombstone over it, wherever that stands |
| HistoryTheorems.NewEntryShows | crates/silver-client/src/store.rs:2831-2897 | so a new entry of the id shows |
| HistoryStore.ApplyEach | crates/silver-client/src/store.rs:2841-2894 | the in-place loop over entries equals mapping them |
| HistoryStore.ApplyKeep | crates/silver-client/src/store.rs:2841-2894 | the in-place filter keeps exactly the matching entries, in order |
| HistoryStore.ApplyRevise | crates/silver-client/src/store.rs:3221-3227 | only the last matching entry that is not deleted is changed |
| HistoryStore.ApplyUpdate | crates/silver-client/src/store.rs:2841-2894 | one update line, every kind, applied in place |
| HistoryStore.LoadLines | crates/silver-client/src/store.rs:2831-2897 | entries first, then updates in file order: the loop equals the fold |
| HistoryStore.Log.Append | crates/silver-client/src/store.rs:2678-2703 | one line more at the end |
| HistoryStore.Log.RemoveMessages | crates/silver-client/src/store.rs:3045-3081 | returns exactly the removed messages as loaded, and leaves a file that loads without them |
| HistoryStore.Log.MarkAllDeleted | crates/silver-client/src/store.rs:3114-3170 | one outcome per id, and a file that loads with exactly the Applied ones blank |
| HistoryFileTheorems.AppendReads | crates/silver-client/src/store.rs:2678-2703 | appending adds exactly that line to what is read, whatever bytes the file held, a line a crash cut short included |
| HistoryFileTheorems.TornAppendReads | crates/silver-client/src/store.rs:2678-2703 | an append cut at any byte adds nothing, the line, or a piece that never reads; what was there still reads |
| HistoryFileTheorems.RewriteReads | crates/silver-client/src/store.rs:2901-2933 | every line of a rewrite opens at the offset it lands on, unreadable ones kept as they were |
| HistoryFileTheorems.RunReads | crates/silver-client/src/store.rs:2783-2823 | after any mix of appends and rewrites, each finished or cut short, the reader finds exactly the lines the store wrote, in order, at the offsets it computes |
| HistoryFileRecord.OwnFileRefusedIff | crates/silver-client/src/store.rs:2783-2808 | over every run: the store refuses its own file if and only if the log was in the record, a rewrite was cut off before its length was recorded, nothing has been recorded since, and what it wrote with what cut appends added is shorter than the record |
| HistoryFileTheorems.StepRefusedIff | crates/silver-client/src/store.rs:2783-2808 | from a file that loads, one call leaves one that is refused if and only if it is a rewrite shorter than the record, cut off before recording it |
| HistoryFileRecord.PutBackRefusedIff | crates/silver-client/src/store.rs:2783-2808 | any text put in the log's place is refused if and only if the log is in the record and the text is shorter than the log was when its length was last recorded |
| HistoryFileRecord.ListedIff | crates/silver-client/src/store.rs:2924-2933 | a log is in the record if and only if an append to it was ever finished; no rewrite puts it there |
| HistoryFileRecord.UnlistedUntilAppendIff | crates/silver-client/src/store.rs:2901-2933 | a log in no record, whatever it holds, stays out through every run of rewrites and cut writes until an append is finished, and any text in its place loads meanwhile |
| HistoryFileRecord.UnlistedEmptiedLoads | crates/silver-client/src/store.rs:2901-2933 | a first append cut off before it was recorded, then a rewrite: cut to nothing, the log loads |
| HistoryFileRecord.OlderCopyLoadsIff | crates/silver-client/src/store.rs:2783-2823 | the copy of the log from any point of a run, put back at its end, loads if and only if the log is in no record or the copy is not shorter than the record, and then with exactly what it held |
| HistoryFileRecord.GrowingLogOlderRefusedIff | crates/silver-client/src/store.rs:2712-2727 | of a log that only grew, an older copy is refused if and only if an append was recorded since |
| HistoryFileRecord.CopyBeforeRewriteLoadsIff | crates/silver-client/src/store.rs:2901-2933 | the copy from before a rewrite loads if and only if the log is in no record or the rewrite did not make it longer |
| HistoryFileRecord.RemovedLineLoadsAgain | crates/silver-client/src/store.rs:2901-2933 | so a line that a rewrite replaced by a shorter one is there again once the copy from before is put back |
| HistoryFileTheorems.FinishedRunAccepted | crates/silver-client/src/store.rs:2712-2727 | a run without such a cut rewrite is never refused |
| HistoryFileTheorems.AppendSettles | crates/silver-client/src/store.rs:2712-2727 | an append after anything at all leaves a file that loads |
| HistoryFileTheorems.CutOffIsRefused | crates/silver-client/src/store.rs:2783-2808 | cutting whole lines off the end leaves only lines that read as before, and the recorded length refuses the file |
| HistoryFileTheorems.MovedLineReadsIff | crates/silver-client/src/store.rs:3272-3291 | a sealed line reads at the offset it was written at and at no other |
| HistoryFileTheorems.RearrangedReadsIff | crates/silver-client/src/store.rs:3272-3312 | however a file's lines are reordered, repeated or dropped, a line of the result reads if and only if it stood at that offset, sealed there, so what reads keeps its order and comes once |
| HistoryFileTheorems.OffsetsIncrease | crates/silver-client/src/store.rs:3305-3312 | offsets strictly increase through the file |
| HistoryFileTheorems.RewriteFixed | crates/silver-client/src/store.rs:2901-2933 | every line of a rewrite is sealed where it stands or reads nowhere |
| HistoryFileTheorems.RunFixed | crates/silver-client/src/store.rs:2678-2933 | and so is every line of the file of any run, pieces that crashes left included, which is what `RearrangedReadsIff` asks of a file |
| IdealCipher.SpellingIsIdeal | crates/silver-client/src/vault.rs:740-790 | a cipher as these results ask for exists, so they are not about nothing |
| HistoryFileStore.LinesWithOffsets | crates/silver-client/src/store.rs:3305-3312 | the forward scan gives every non-blank line with the offset it starts at |
| HistoryFileStore.Log.EndsWithNewline | crates/silver-client/src/store.rs:3326-3336 | true of an empty file and of one that ends a line |
| HistoryFileStore.Log.NoteHistoryWrite | crates/silver-client/src/store.rs:2712-2727 | the recorded length is the file's own |
| HistoryFileStore.Log.AppendHistoryLine | crates/silver-client/src/store.rs:2678-2703 | the file grows by the line, on a line of its own, and loads with it at the end |
| HistoryFileStore.Log.ReadHistoryLines | crates/silver-client/src/store.rs:2783-2823 | refused exactly when shorter than recorded; otherwise every line decoded at its offset |
| HistoryFileStore.Log.WriteHistoryLines | crates/silver-client/src/store.rs:2901-2933 | each line sealed for where it lands, and the length recorded where the record lists the log and not otherwise |
| RollbackTheorems.CrashFreeSettled | crates/silver-client/src/store.rs:2191-2254 | in every crash-free run of file and history writes each file is at its record and the record at the anchor, and the generation counts the writes |
| RollbackTheorems.RecordIsLastWrite | crates/silver-client/src/rollback.rs:157-171 | each file's record is the generation of its last write |
| RollbackTheorems.HistoryRecordIsLastWrite | crates/silver-client/src/store.rs:2712-2727 | each log's record is the conversation and length of its last write that was recorded, which is the length the file then had |
| RollbackTheorems.OnlyLastCopyAccepted | crates/silver-client/src/store.rs:2136-2181 | of all the copies of a file a run wrote, the reader accepts a copy if and only if it is the last |
| RollbackTheorems.ReadsLastWrite | crates/silver-client/src/store.rs:2136-2181 | and reads exactly what the last write wrote |
| RollbackTheorems.CopyAcceptedIff | crates/silver-client/src/store.rs:2136-2181 | of every file there could be, one is accepted in place of a name if and only if it is plain, or sealed as that name at the generation of its last write or at the one no write has reached |
| RollbackTheorems.PlainCopyRead | crates/silver-client/src/store.rs:2136-2181 | so a plain file put in place of any other is read |
| RollbackCopies.CrashCopyAcceptedIff | crates/silver-client/src/store.rs:2136-2254 | after any run with crashes, a copy it put on disk is accepted if and only if nothing was recorded since, or nothing from then until the last recorded write of its file |
| RollbackCopies.CrashCopyIsPut | crates/silver-client/src/store.rs:2191-2215 | that copy is what the event left on disk, crashes before it and in it included |
| RollbackCopies.CutCopyAcceptedToo | crates/silver-client/src/store.rs:2191-2254 | a write cut off before its record and the finished one after it: either copy is accepted |
| RollbackTheorems.OlderRecordRefused | crates/silver-client/src/store.rs:1218-1246 | with any two records of the run put back as `state` and `state.prev`, an unlock accepts exactly the current one |
| RollbackTheorems.UnlockAcceptsIff | crates/silver-client/src/store.rs:1218-1246 | over every run with crashes at any step, each unlock finds a record if and only if no crash strands the directory: two crashes between a record and its anchor, then one past `state.prev`, with no write finished between |
| RollbackTheorems.StepLags | crates/silver-client/src/store.rs:2236-2254 | one write cut at any step: what the unlock finds, by how far the anchor lags |
| RollbackTheorems.OneCrashRecovers | crates/silver-client/src/store.rs:2191-2254 | one crash at any step of any write never strands the directory |
| RollbackTheorems.ThreeCrashesStrand | crates/silver-client/src/store.rs:2236-2254 | three such crashes do, whatever was being written |
| RollbackTheorems.ReadableIff | crates/silver-client/src/store.rs:2136-2215 | after any run with any crashes, a file can be read if and only if what last reached it was recorded or nothing has been recorded since |
| RollbackTheorems.CrashKeepsEveryFile | crates/silver-client/src/store.rs:2191-2254 | at the unlock after one crash at any step, every file can be read, the half-recorded one included |
| RollbackTheorems.HalfRecordedReadableIff | crates/silver-client/src/rollback.rs:157-166 | the promise ends there: after later finished writes the half-recorded file can be read if and only if there were none or one of them wrote it again |
| RollbackStore.Directory.ReadGenerations | crates/silver-client/src/store.rs:1218-1246 | `state`, else `state.prev`, whichever the anchor bears out first |
| RollbackStore.Directory.LoadGenerations | crates/silver-client/src/store.rs:1137-1161 | an unlock takes up the record the anchor bears out and brings late files into it, refuses everything where there is none, and adopts generations, files and logs, where there is no anchor, failing exactly where that stops |
| RollbackStore.Directory.AdoptGenerations | crates/silver-client/src/store.rs:1263-1383 | every sealed file at a generation and recorded, every log moved and recorded, the anchor last; stopped at a file or a log's line that does not open, with what was done before it left done |
| RollbackStore.Directory.BindUncovered | crates/silver-client/src/store.rs:1177-1214 | every late file at a generation of its own, then one record for all; stopped at a file that does not open, with the record in hand raised for the files before it |
| RollbackStore.Directory.PersistGenerations | crates/silver-client/src/store.rs:2236-2254 | the record before, the record, the anchor, in that order |
| RollbackStore.Directory.WriteFile | crates/silver-client/src/store.rs:2191-2215 | plain where nothing is protected, sealed under its name where no generations are kept, otherwise the four steps of a write and the record raised; nothing where the directory is locked or its record unreadable |
| RollbackStore.Directory.NoteHistoryWrite | crates/silver-client/src/store.rs:2712-2727 | the length counted from the file, recorded, and the generation raised, where generations are kept |
| RollbackStore.Directory.ReadFile | crates/silver-client/src/store.rs:2136-2181 | missing, plain, locked, not openable, refused or read: every branch, and where generations are kept exactly as the record decides |
| RollbackAdoption.FilesStopIff | crates/silver-client/src/store.rs:1273-1294 | however many adoptions were cut short, and wherever, one stops in the files if and only if some sealed file was under another's name to begin with |
| RollbackAdoption.AdoptionSettles | crates/silver-client/src/store.rs:1257-1303 | and one that finishes leaves the same files the first would have, settled under its record, each read as it was |
| RollbackLogs.MovedLogRecordedIff | crates/silver-client/src/store.rs:1305-1383 | however many moves were cut short, the next stops if and only if some log under its old name holds a sealed line that does not open; what every log holds is unchanged either way; and one that finishes has moved every log and recorded it, at its length, if and only if it found it under its old name still |
| RollbackLogs.MovedLogUnrecorded | crates/silver-client/src/store.rs:1329-1343 | so one that a run cut short had moved is there, whole and unrecorded |
| RollbackLogs.MoveStopsIff | crates/silver-client/src/store.rs:1313-1383 | moving the logs listed stops, after any cuts, if and only if one of them was under its old name to begin with and holds a sealed line that does not open there |
| RollbackLogs.CutLineStops | crates/silver-client/src/store.rs:1313-1383 | a log whose append was cut short past its prefix loads with that line kept, and stops the move and every later one |
| RollbackLogs.AdoptionStopsIff | crates/silver-client/src/store.rs:1263-1383 | however many starts were cut short, in the files or in the logs, the next one's adoption stops if and only if some file was under another's name or some log holds such a line |
| RollbackLogs.MoveHolds | crates/silver-client/src/store.rs:1345-1375 | moving logs, stopped or not, changes nothing of what any conversation's lines hold |
| RollbackLogs.MoveEvery | crates/silver-client/src/store.rs:1319-1375 | the loop over the listing, each log's bytes re-sealed line by line, computes the moves these results are about |
| RollbackAdoption.AdoptEvery | crates/silver-client/src/store.rs:1273-1294 | the loop computes the adoption these results are about |
| RollbackBinding.RunStands | crates/silver-client/src/store.rs:1137-1214 | over every run of unlocks cut anywhere, which record is found is told by where the binds were cut and whether the anchor bears out the record they make |
| RollbackBinding.UnlocksFindRecordIff | crates/silver-client/src/store.rs:1137-1214 | from a record in `state`: every unlock finds one if and only if the bound record is one the anchor bears out, or no bind cut between record and anchor is followed by one cut past `state.prev` |
| RollbackBinding.FallenFindRecordIff | crates/silver-client/src/store.rs:1137-1214 | from a record in `state.prev` alone: if and only if the first bind to replace it reaches a record the anchor bears out |
| RollbackBinding.StoppedFindsRecord | crates/silver-client/src/store.rs:1177-1214 | with a file that does not open every unlock finds the record and none binds |
| RollbackBinding.TwoFilesStrand | crates/silver-client/src/store.rs:1177-1214 | in a settled directory two such crashes strand it if and only if two files or more are bound |
| RollbackBinding.BoundFilesRead | crates/silver-client/src/store.rs:1177-1214 | a bind that finishes leaves each of its files read as it was |
| RotationTheorems.RunKeeps | crates/silver-client/src/store.rs:1685-1701 | through any number of rotations and crashes, each rotation begun when nothing was left under the key it drops, every whole file, record, download and log opens with a key the vault on disk names and gives what was last written there |
| RotationTheorems.RunKeepsIff | crates/silver-client/src/store.rs:1685-1701 | and that care is needed: everything is under a key the vault names at every point of a run if and only if every rotation of it was begun so |
| RotationTheorems.UndamagedRunKeeps | crates/silver-client/src/store.rs:1445-1460 | where nothing is damaged that needs no care: any events in any order, a crash anywhere |
| RotationTheorems.SettledUnderOneKey | crates/silver-client/src/store.rs:1685-1701 | once the vault names one key, nothing is under any other |
| RotationTheorems.StepKeeps | crates/silver-client/src/store.rs:2009-2132 | every step of a pass keeps that, and what each item holds |
| RotationTheorems.RecryptKeeps | crates/silver-client/src/store.rs:2009-2132 | rewriting an item that opens succeeds if and only if nothing in it is damaged, puts all of it under the one key, and keeps its generation and contents |
| RotationLog.MovedLogHolds | crates/silver-client/src/store.rs:2098-2132 | a log moved to another key holds the same lines in order, each opening at the offset it lands on |
| RotationLog.RecryptLog | crates/silver-client/src/store.rs:2098-2132 | the pass over a log's bytes succeeds if and only if every line opens where it stands, and writes every line sealed where it lands |
| RotationLog.MovedLogLoadsIff | crates/silver-client/src/store.rs:2098-2132 | where lines keep their length, a log loads after the move if and only if its lines without the blank ones are as long as its record |
| RotationLog.RotatedLogLoads | crates/silver-client/src/store.rs:2098-2132 | a log of any run of the store that loads before a rotation in which no line gets shorter loads after it, with what its lines held |
| RotationLog.RunNoBlanks | crates/silver-client/src/store.rs:2678-2933 | no run of appends and rewrites, finished or cut short, leaves a blank line |
| RotationLog.BlankLineRefused | crates/silver-client/src/store.rs:2098-2132 | a log that is one blank line, recorded, loads before the move and is refused after it |
| RotationTheorems.RotationSettlesIff | crates/silver-client/src/store.rs:1685-1701 | a rotation left alone settles on the new key if and only if nothing is damaged; a history line a crash cut short holds it open |
| RotationTheorems.UnlockSettlesIff | crates/silver-client/src/store.rs:1445-1479 | an unlock that has something to finish succeeds if and only if nothing is damaged, and then one key is left |
| RotationTheorems.RotateKeepsIff | crates/silver-client/src/store.rs:1685-1701 | beginning a rotation keeps everything under a vault key if and only if nothing is left under the key it drops |
| RotationTheorems.SecondRotationLoses | crates/silver-client/src/store.rs:1685-1701 | that can fail: a cut line holds one rotation open, a second begins, and a crash leaves a line no key opens |
| RotationTheorems.StatePreviousLeftBehind | crates/silver-client/src/store.rs:2050-2077 | a settled rotation leaves `state.prev` under the old key, which the vault no longer opens |
| RotationRecord.RotatedUnlockIs | crates/silver-client/src/store.rs:1685-1701 | however far a rotation got, what the next unlock finds: the record in hand if it was in `state`; for one found in `state.prev`, the `state` it was found in place of if that is one generation on, else none; with none in hand, no anchor and the directory adopted anew |
| RotationRecord.RotatedKeepsRecordIff | crates/silver-client/src/store.rs:1685-1701 | so the record in hand is found again if and only if it is the one in `state` |
| RotationRecord.RotationAfterRun | crates/silver-client/src/store.rs:2219-2254 | after any run of writes and crashes that leaves a record, a rotation keeps it and the anchor no longer lags, unless two records are ahead of the anchor, and then the second of them is taken up |
| RotationRecord.RotationStrands | crates/silver-client/src/store.rs:1685-1701 | with a `state` two generations past the record in `state.prev`, as a cut bind of two files leaves it, a rotation leaves none to be found |
| RotationStore.Directory.RecryptAll | crates/silver-client/src/store.rs:2009-2132 | the pass over every item stops at the first that does not open |
| RotationStore.Directory.RotateKey | crates/silver-client/src/store.rs:1685-1701 | both keys in the vault first, then the pass, then the old key dropped if it went through |
| RotationStore.Directory.FinishRotation | crates/silver-client/src/store.rs:1445-1460 | the pass again, under both keys, and the old one dropped |
| RotationStore.Directory.LookForPlain | crates/silver-client/src/store.rs:1481-1506 | whether any file or log the data key covers lies in the clear |
| RotationStore.Directory.Unlock | crates/silver-client/src/store.rs:1469-1479 | plain files sealed first, then a rotation finished |
| TransparencyTheorems.SegmentIsReplayed | crates/silver-protocol/src/transparency.rs:130-153 | with an injective hash, entries that chain from a head we replayed to a head we replayed are the entries we replayed |
| TransparencyTheorems.ApplyReplays | crates/silver-client/src/transparency.rs:219-254 | a page is taken if and only if it chains onto the head, and then the state is that of the longer chain |
| TransparencyTheorems.CheckpointsAre | crates/silver-client/src/transparency.rs:484-495 | the checkpoints kept are exactly the chain's heads in the last 4096 and at every 256th index, in order |
| TransparencyTheorems.HashAtIs | crates/silver-client/src/transparency.rs:304-321 | a hash is held exactly for the start, the head and those indices, and is the chain's |
| TransparencyTheorems.BracketIs | crates/silver-client/src/transparency.rs:324-340 | for any other index the heads either side are on the chain, strictly below and strictly above |
| TransparencyTheorems.CheckPeerHeadIs | crates/silver-client/src/transparency.rs:343-355 | Consistent means on our chain, Fork means off it, Ahead means beyond it |
| TransparencyTheorems.LatestIs | crates/silver-client/src/transparency.rs:219-254 | what is kept per identity is its last entry of each kind in the chain |
| TransparencyTheorems.LookupPassesIff | crates/silver-client/src/transparency.rs:384-449 | a lookup passes if and only if its bundle is the latest logged, its revocation is served exactly as logged, and so is its succession unless revoked |
| TransparencyStore.LogStore.Apply | crates/silver-client/src/transparency.rs:219-254 | the whole page or none of it, in place |
| TransparencyStore.LogStore.NoteAll | crates/silver-client/src/transparency.rs:232-247 | each entry noted for its identity and as a checkpoint |
| TransparencyStore.LogStore.NoteCheckpoint | crates/silver-client/src/transparency.rs:484-495 | one checkpoint more, thinned |
| TransparencyStore.LogStore.Reset | crates/silver-client/src/transparency.rs:270-290 | the replay starts again from nothing, and the newest eight contradictions are kept as evidence |
| TailTheorems.EveryAnswerOnce | crates/silver-client/src/tail.rs:155-411 | in every run each answer that came in was settled or refused exactly once or still waits, and something waiting means a fetch is under way |
| TailTheorems.SettledWhenReplayed | crates/silver-client/src/tail.rs:155-180 | an answer is settled only once the replayed head has reached the answer's, the log there bearing it out, by the lookup check or by the device statement served; one settled as it arrives came with exactly our head |
| TailTheorems.ResolveConserves | crates/silver-client/src/tail.rs:384-403 | dealing with what waited loses and repeats nothing |
| TailTheorems.RefusalsFinish | crates/silver-client/src/tail.rs:405-411 | failing what waited refuses each answer once |
| TailDevices.SettledDevicesIff | crates/silver-client/src/tail.rs:426-512 | an answer that passes is settled once, with exactly the device bundles that are the last logged and whose logged revocation came along, and exactly the valid device revocations that are the last logged; each one left out is reported |
| TailDevices.CheckDeviceIff | crates/silver-client/src/transparency.rs:456-481 | a device's bundle passes if and only if it is the last logged for the device and a logged revocation of it was served |
| TailBlame.BreakIsEvidence | crates/silver-client/src/tail.rs:116-144 | at every step of every run, what is put by as evidence is the head of the chain replayed by then, checkpoints on it, and a head from the relay that goes back on it; with nothing put by, what was replayed stays |
| TailBlame.HeldAreNewest | crates/silver-client/src/transparency.rs:270-290 | after any run the evidence held is the newest eight of all there has been |
| TailBlame.BlameIsTrueUnlessPageBroke | crates/silver-client/src/tail.rs:183-403 | at every step of every run, a contact named for a fork claimed a head that is off the chain we replayed, except where the relay's page did not chain while catching up for that contact |
| TailBlame.BrokenAdvanceBlamesOrigin | crates/silver-client/src/tail.rs:191-200 | in that case the contact is blamed and everything waiting refused |
| TailBlame.HonestContactBlamed | crates/silver-client/src/tail.rs:191-200 | so a contact whose head is on the relay's own chain is blamed for a page the relay broke |
| TailBlame.VerdictIs | crates/silver-client/src/tail.rs:252-324 | checking a segment, over any number of pages: the contact is blamed if and only if the segment reached the held head above and their head is off our chain; a segment that does not hold together departs from what we replayed and is blamed on the relay |
| TailBlame.VerifyKeepsLog | crates/silver-client/src/tail.rs:252-324 | checking a segment never changes the log |
| TailBlame.RunTracks | crates/silver-client/src/tail.rs:116-403 | at every point of a run the log is the replay of the pages taken since it last started again |
| TailWaits.RelayForkToldIff | crates/silver-client/src/tail.rs:224-250 | a page that catches up, whatever it was fetched for, tells a fork of the relay's at an index if and only if the fetch was the relay's own, for a head at that index which is off the chain and checkable |
| TailWaits.CheckedForkToldIff | crates/silver-client/src/tail.rs:116-403 | at every step of every run that gets any answer settled, or refused for what the log says, wherever it waited and whomever the fetch was for: forks of the relay's are told exactly so, or where a segment being checked breaks; a settled answer's head is no further than the log, and on the chain if it is settled as it arrives |
| TailWaits.WaiterFinished | crates/silver-client/src/tail.rs:384-403 | an answer behind others that need no further fetch is finished with them, and settled if and only if the log bears it out, wherever its head is |
| TailWaits.OffChainAnswerSettled | crates/silver-client/src/tail.rs:224-250 | an answer with a head the chain never had, fetched for: the fork is told and the answer settled |
| TailWaits.OffChainAnswerUntold | crates/silver-client/src/tail.rs:155-180 | one that came with such a head while the log was fetched for another's: settled, its head checkable, and no fork told of anybody |
| TailWaits.NeverServedWaits | crates/silver-client/src/tail.rs:384-403 | through any number of pages that serve no more, whatever the first was fetched for, an answer ahead of them is fetched for each time, and neither it nor anything behind it settled or refused |
| TailMachine.Machine.OnRelayHead | crates/silver-client/src/tail.rs:116-144 | a head behind ours or forked from it starts the replay again and says so; one ahead starts a fetch unless one is under way |
| TailMachine.Machine.OnAnswer | crates/silver-client/src/tail.rs:155-180 | passed on where transparency is off, refused without a head, held back while the log is behind, otherwise checked |
| TailMachine.Machine.Resolve | crates/silver-client/src/tail.rs:426-512 | an answer checked, its devices parted one by one, and settled or refused |
| TailMachine.Machine.PartLogged | crates/silver-client/src/tail.rs:451-464 | the device revocations the log has, and a report of each it has not |
| TailMachine.Machine.PartDevices | crates/silver-client/src/tail.rs:465-478 | the device bundles the log bears out, and a report of each it does not |
| TailMachine.Machine.OnEntries | crates/silver-client/src/tail.rs:183-327 | a page nobody asked for changes nothing; any other goes by what it was asked for, and the new state and everything put out are those the run-level results are about |
| TailMachine.Machine.OnAdvancePage | crates/silver-client/src/tail.rs:189-251 | a page while catching up, every way it can go |
| TailMachine.Machine.OnVerifyPage | crates/silver-client/src/tail.rs:252-324 | a page of a segment being checked |
| TailMachine.Machine.ScanPage | crates/silver-client/src/tail.rs:270-290 | the loop over a page: genuine, doctored and where, or incomplete |
| TailMachine.Machine.OnPeerHead | crates/silver-client/src/tail.rs:330-341 | a contact's head, compared now or held back |
| TailMachine.Machine.CheckHead | crates/silver-client/src/tail.rs:345-380 | nothing, a fork, a fetch to catch up, or a segment to check, as the comparison decides |
| TailMachine.Machine.ResolveDeferred | crates/silver-client/src/tail.rs:384-403 | the loop ends, with nothing waiting or a fetch under way |
| TailMachine.Machine.FailDeferred | crates/silver-client/src/tail.rs:405-411 | every waiting answer refused, nothing left waiting |
| SessionTheorems.RunBounded | crates/silver-client/src/sessions.rs:494-781 | from an empty store, every reachable store holds at most 256 peers, at most 5 sessions with each, and at most one active |
| SessionTheorems.PruneKeeps | crates/silver-client/src/sessions.rs:767-781 | pruning never drops the active session and leaves at most five |
| SessionTheorems.PruneDropsOldest | crates/silver-client/src/sessions.rs:767-781 | and drops none before one less recently used |
| SessionTheorems.RoomKeepsTheUseful | crates/silver-client/src/sessions.rs:742-765 | of the peers used lately, nobody written to is dropped while a stranger is kept, nor anybody before one of the same kind longer unused, and only at the limit; a peer already held costs nobody |
| SessionTheorems.AcceptOk | crates/silver-client/src/sessions.rs:667-691 | a handshake accepted: ours stays active if it wins, theirs becomes active if not |
| SessionTheorems.StartOk | crates/silver-client/src/sessions.rs:501-554 | a session started is held and active |
| SessionTheorems.EncryptIff | crates/silver-client/src/sessions.rs:494-555 | a message goes out if and only if the active session seals or, with none, one can be started from prekeys not past 21 days; it carries its handshake exactly while that is unanswered, and otherwise the sessions are as they were |
| SessionTheorems.SendDropsIff | crates/silver-client/src/sessions.rs:494-555 | a send, gone out or failed, drops somebody if and only if nothing was held for the peer and somebody had gone unused too long or there was no room; a failed one changes nobody else's sessions |
| SessionTheorems.FailedSendEvicts | crates/silver-client/src/sessions.rs:494-522 | with the store full, writing to a stranger without prekeys fails and drops somebody |
| SessionTheorems.DecryptIff | crates/silver-client/src/sessions.rs:560-700 | a body is taken if and only if it opens on a session held for its sender, or names only keys still held and opens under the current or previous key; otherwise nothing changes |
| PrekeyTheorems.SignedPrekeyKeptIff | crates/silver-client/src/sessions.rs:794-813 | a signed prekey stays findable through any publishes if and only if none comes 21 days or more after it was made; the clock need not be monotone |
| PrekeyTheorems.RotateKeepsIff | crates/silver-client/src/sessions.rs:794-813 | one publish keeps exactly the keys under 21 days old, newest first, and the newest is under 7 |
| PrekeyTheorems.OneTimeKeyUsedOnce | crates/silver-client/src/sessions.rs:657-666 | in every run a one-time key, of either kind, starts at most one session |
| PrekeyTheorems.DepositFilled | crates/silver-client/src/sessions.rs:384-406 | topping up forgets no key on deposit and fills the deposit exactly to its target |
| PrekeyTheorems.SixAnHour | crates/silver-client/src/sessions.rs:370-382 | however often the relay asks, no seven deposits fall within an hour of a monotone clock |
| PrekeyTheorems.HandedOutCapIff | crates/silver-client/src/sessions.rs:826-838 | more handed-out keys than the cap are kept if and only if there are more and the newest to leave out was handed out in the same millisecond as the last to keep; never fewer than the cap or all |
| PrekeyTheorems.TogetherAllKept | crates/silver-client/src/sessions.rs:826-838 | keys reported handed out together are all kept, whatever the cap |
| PrekeyTheorems.PublishedOpens | crates/silver-client/src/sessions.rs:299-322 | a handshake from what was just published names only keys held; its signed keys are not due for rotation, and the deposits offer at least their targets |
| PrekeyTheorems.PublishedUnused | crates/silver-client/src/sessions.rs:424-447 | whenever a run publishes, the one-time keys published are distinct and none has started a session |
| PrekeyRuns.RunHoldsAtMost | crates/silver-client/src/sessions.rs:337-406 | in every run in which no two reports share a millisecond, at most 119 one-time keys are held, and 99 of ML-KEM |
| PrekeyRuns.HundredKept | crates/silver-client/src/sessions.rs:328-406 | a publish and five reports in one millisecond: a hundred handed-out keys are kept where the cap is eighty, and in general twenty for each report |
| SessionStores.FindLeastUsed | crates/silver-client/src/sessions.rs:767-781 | the inactive session no other inactive one has gone unused longer than, the first of several |
| SessionStores.PruneEntry | crates/silver-client/src/sessions.rs:767-781 | the loop computes the pruning that `PruneKeeps` and `PruneDropsOldest` describe |
| SessionStores.RotateKeys | crates/silver-client/src/sessions.rs:794-813 | the loop computes the rotation that `RotateKeepsIff` describes |
| SessionStores.SessionStore.LeastUseful | crates/silver-client/src/sessions.rs:742-765 | no peer is less useful: strangers before those written to, then the longest unused |
| SessionStores.SessionStore.MakeRoom | crates/silver-client/src/sessions.rs:742-765 | peers long unused dropped, then the least useful until there is room, and no other |
| SessionStores.SessionStore.Encrypt | crates/silver-client/src/sessions.rs:494-555 | the store and the body or error of sending |
| SessionStores.SessionStore.TryKeys | crates/silver-client/src/sessions.rs:622-655 | the previous key is tried only where one is held and the current one did not open, and every other failure ends it |
| SessionStores.SessionStore.Decrypt | crates/silver-client/src/sessions.rs:560-700 | the store and the result of receiving; on an error the store is as it was |
| SessionStores.SessionStore.Forget | crates/silver-client/src/sessions.rs:704-709 | the peer gone, the rest as they were |
| SessionStores.SessionStore.RetireAll | crates/silver-client/src/sessions.rs:717-731 | every session kept and inactive, and which peers had an active one |
| SessionStores.SessionStore.PrekeysForPublish | crates/silver-client/src/sessions.rs:299-322 | signed keys rotated, one-time keys topped up, and the newest signed keys and all keys on deposit published |
| SessionStores.MarkConsumed | crates/silver-client/src/sessions.rs:337-348 | exactly the keys on deposit that the relay names become handed out now |
| SessionStores.SessionStore.ApplyPrekeyStatus | crates/silver-client/src/sessions.rs:328-366 | keys reported handed out are noted, and a deposit is made exactly when one runs low and may be made |
| SessionStores.SessionStore.MayTopUp | crates/silver-client/src/sessions.rs:370-382 | granted exactly while fewer than six were in the last hour |
| CrossingTheorems.EveryBodyOpens | crates/silver-client/src/sessions.rs:501-691 | two clients that each may start a session before hearing from the other: in every interleaving with each direction in order, every body opens |
| CrossingTheorems.CrossedSettleIff | crates/silver-client/src/sessions.rs:667-691 | once each has heard the other's handshake, the higher id sends on the lower id's session, and both send on it if and only if the lower id heard theirs within the window |
| CrossingTheorems.QuietAgree | crates/silver-client/src/sessions.rs:667-691 | with nothing on its way and no handshake past its window, both hold the same sessions and send on the lower id's if it started one, else on the higher's |
| CrossingTheorems.RunInv | crates/silver-client/src/sessions.rs:501-691 | what every reachable state of the two sides and the channels keeps |
| CrossingTheorems.WindowDecides | crates/silver-client/src/sessions.rs:667-691 | the same crossing settles or not by the window alone |
| CrossingTheorems.OrderDecides | crates/silver-client/src/sessions.rs:567-580 | order is needed: a side that heard on its own session first moves to theirs whatever the window |
| Crossing.StoreSends | crates/silver-client/src/sessions.rs:494-555 | what each side does here is what the store does to the peer's entry on sending |
| Crossing.StoreHears | crates/silver-client/src/sessions.rs:560-700 | and on receiving |

## Left out

- Ratchets, handshakes, signatures, ML-KEM, Argon2 and AEAD: ideal functions or parameters.
- 64-bit wrap-around of log indices, generations, file offsets and clock arithmetic: these are unbounded; only the replay window, the snapshot's timestamps and CBOR integers keep their width.
- Text that is not UTF-8, and Unicode spaces beyond the ASCII ones, in history files: bytes are read as they are, and a blank line is one of ASCII white space.
- RotationTheorems.RecryptKeeps: a log is its lines in order, without the offsets they are bound to, which `RotationLog` has; blank lines and a file sealed twice by an older client are not modelled.
- RollbackStore.Directory.WriteFile: an atomic write that fails without a crash is not modelled.
- RollbackStore.Directory.LoadGenerations: a record whose contents do not parse is one not found, and the order in which a listing gives the logs is a parameter.
- HistoryFileStore.Log.NoteHistoryWrite: the directory is one that keeps generations; where it does not nothing is recorded, which `RollbackStore.Directory.NoteHistoryWrite` has.
- RotationRecord.RotatedUnlockIs: the pass over the files is taken to go through, which `RotationTheorems.UnlockSettlesIff` says when it does.
- RollbackTheorems.UnlockAcceptsIff: starts from a directory whose record and anchor agree; putting back a whole directory at once is outside what the code claims.
- KeyStoreEntries.AlwaysAccountedIff: writing the note itself is taken to succeed, as the code needs; clearing a note fails only as a crash does.
- SessionStores.SessionStore.Encrypt: saving the store is not modelled.
- SessionStores.SessionStore.PrekeysForPublish: takes the keys it generates, as many as it needs, instead of making them, and a key's public half is the key itself, unsigned.
- PrekeyTheorems.OneTimeKeyUsedOnce: takes generated keys to differ from all made before.
- CrossingTheorems.EveryBodyOpens: a message opens wherever its session is held, so loss and reordering inside the ratchet are not modelled; nothing is forgotten, retired or evicted meanwhile.
- TailDevices.SettledDevicesIff: the lifecycle statements a settled answer raises as events are not modelled.
- TransparencyStore.LogStore.Reset: when a contradiction was noted is not kept with it.
- SnapshotCut.ToBytesWithin: how documents are written as JSON is a parameter.
- FanOutQueues.Queues.Refused: the wording of notices, the resubmission after rate limiting, and forgetting a gone device's sessions and cached bundle are not modelled.
- Moving a log to a contact's successor, group state, profiles, the expiry sweep and downloads in progress.
- The connection itself: WebSocket, TLS, proxies, reconnecting, and the relay.
