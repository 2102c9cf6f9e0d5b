# Publishing to the storage service, modelled and proved

presage is a Signal client library. The hard part of it is keeping this device's rows, the
records Signal's storage service holds, and the other devices' edits in step without ever
losing a field, a record or a user's change. This project models that part and proves what it
is meant to guarantee, together with the smaller state machines that rest on it.

It has two layers, the second resting on the first.

**The byte editor** (`presage/src/storage_record.rs`). `Varint` and `Wire` are the protobuf
wire format as the crate walks it: functions on byte sequences say what a message means, and
the loops of the source (`read_varint`, `encode_varint`, `advance`, `scan`) are methods proved
against them. `Editor` is `set_field`; `Lens` is reading and writing one field of one
submessage; `Codecs` holds the pin list, the chat folder's unknown fields and the sticker
state.

**The publish and sync protocol** (`presage/src/manager/storage.rs`). `Publishable` is the
diff, apply and merge of the fields this device may publish, over tables of slots, because the
contact, group and account versions differ only in which fields they list. `PublishMachine` is
one record's row, its needs-sync flag and the bytes held for it under every interleaving of
user edits, syncs, drains and crashes; `Convergence` says where the drains end up. `Manifest` is
one manifest write. `SyncPlan`, `SyncMachine`, `CaughtUp` and `SyncCoverage` are the whole
device against a server that other devices write to; `StorageManager` runs the loops of
`sync_storage_service` and `update_storage_record` as methods, each step of which is shown to
be a step of that machine. `Appending` relates the two ways a write is built to it.

**Where they meet.** `RecordKeys` reads which row a record belongs to as the protobuf library
does and shows that no drain's edit changes that; `DecodedPins` shows that the pins it writes
decode. `Drains` is a whole drain around `update_storage_record`, and `QuietDrains` follows its
drains of one row to the merge of `Convergence`. `RowOnServer` runs one row and its flag
together with everything the device holds of the manifest. `Witnesses` reaches each failure the
other modules give the exact condition of, by a run from an empty store or on a concrete
record.

**Beside them:** `ChatFolders`, `FolderMerge` and `FolderStore` (numbering, tombstones, the
single all-chats folder), `AccountChat` and `PinArchive` (pinned and archived exclude each
other), `CallHistory`, and from the backup import `GroupChanges` and `EditHistory`.

`dafny verify dfyconfig.toml` checks everything.

## What is assumed

- Bytes are the integers 0 to 255. Values are `u64`, field numbers are cut to 32 bits and the
  tenth varint byte keeps one bit, all written out. Slices fit a 64-bit address space;
  `RECORD_MAX` and `STORED_MAX` are the memory bounds that stand for that. Nothing else limits a
  record.
- The protobuf library decodes a known field as the last occurrence the scanner finds. Pin
  entries reach a chat through an abstract codec, of which only "a new entry names the chat it
  was made for" is used. Its own encoding of a folder is any message of known fields.
- Which row a record belongs to (`KeyOf`) is abstract, and a record that decodes is filed in the
  manifest under its own type. `RecordKeys.Keys` is one such reading, in the library's way: the
  last arm of the record decides its type, the fields this device publishes must have the wire
  form they are declared with, and the other fields name the row in a way that is left open.
- What an identifier names never changes, and the generator never draws an identifier that was
  ever stored. The source checks a drawn one against the identifiers that stay and the ones
  already drawn, not against the deleted ones, so the latter is an assumption.
- The local store does not fail. Storing a version, the identities written at it and the cleared
  flag is one step, and so is each per-record merge of a sync. User edits take no lock, and their
  two writes, the row and the flag, fall between any two steps.
- Group action builders, the encryption of a group change, name cleaning and the clock are
  parameters.
- A uuid is an ACI or a PNI, never both (`PinArchive.RealChat`).

## What the proofs turned up

Each of these is a property one could expect and that is false of the code. The first member
named says exactly when it holds, the others reach states where it does not.

- A crash loses a user edit in two windows: after a drain cleared the flag and before it looks at
  the row again, and after an edit was saved and before its flag is raised
  (`PublishMachine.HarmlessCrash`, `Witnesses.CrashLosesAnEdit`, `Witnesses.CrashUnflagsAnEdit`).
- A merge overwrites a user edit made after the sync read its set of flagged records, and, seen
  flag or not, an edit of Note to Self's archive flag made before any account record was read
  (`PublishMachine.MergeKeepsEdit`, `Witnesses.MergeLosesAnEdit`,
  `Witnesses.FirstAccountRecordLosesAnEdit`).
- The first drain after falling behind publishes the row it read before it caught up, so it can
  put a peer's change back for one round (`Convergence.OneDrainSuffices`,
  `Witnesses.FirstDrainUnarchives`); the next drain restores it (`Convergence.DrainsConverge`,
  `QuietDrains.DrainUntilClear`).
- `append_storage_record` stores a version it may not have read, after which the device counts
  as caught up and never reads what it missed (`Appending.AppendIsCurrent`,
  `Appending.AppendMissesAContact`).
- Saving a folder over its own tombstone gives it the tombstone's position, which breaks the
  dense numbering (`ChatFolders.SaveKeepsDense`, `Witnesses.SaveOverATombstone`).
- A sticker removal dated 0 reads back as an installed pack and never settles
  (`Codecs.PublishSettles`, `Witnesses.RemovalAtZeroInstalls`).
- Setting and clearing a field does not always restore the exact bytes: the submessage's length
  is spelled anew (`Lens.ToggleRestores`, `Witnesses.ToggleRewritesALength`).

And two remarks on the code as it stands:

- The comment at `presage/src/manager/storage.rs:2072` says the surviving all-chats folder is the
  one the server has held longest. The code keeps the one whose record was read at the highest
  version, and the model follows the code (`FolderStore.ExactlyOneAllChats`).
- The count check of `write_manifest_edit` can never fire (`Manifest.WriteManifestEdit`).

## Model

| member | source | states |
|---|---|---|
| Varint.RoundTrip | presage/src/storage_record.rs:84-95 | every `u64`, whatever bytes follow it, reads back as itself in 1 to 10 bytes, and the reader stops exactly at its end |
| Varint.DecodeRejects | presage/src/storage_record.rs:84-95 | a read fails if and only if none of the first ten bytes there are ends a varint |
| Varint.DecodeIsLocal | presage/src/storage_record.rs:84-95 | a successful read depends on no byte after the one that ends it |
| Varint.EncodeIsShortest | presage/src/storage_record.rs:192-198 | no accepted spelling of a value is shorter than the one written |
| Varint.ReadVarint | presage/src/storage_record.rs:84-95 | the ten-step loop with its shifts and lost high bits computes the reading the laws are about, and the position after it |
| Varint.EncodeVarint | presage/src/storage_record.rs:192-198 | the pushing loop appends exactly the encoding, leaving what was in the buffer |
| Wire.ParseTiles | presage/src/storage_record.rs:108-155 | the fields of any message that scans are non-empty, lie end to end over all of it, and each scans alone as itself |
| Wire.ParseConcat | presage/src/storage_record.rs:108-155 | `scan(a ++ b)` is `scan(a)` then `scan(b)`, and fails exactly when `b` does |
| Wire.ParseOfConcat | presage/src/storage_record.rs:108-155 | writing any list of well-formed fields and scanning it gives the list back |
| Wire.FieldIsLocal | presage/src/storage_record.rs:112-152 | a field is decided by its own bytes: neither appending nor cutting what follows changes it |
| Wire.VarintFieldIsSound | presage/src/storage_record.rs:204-209 | an encoded varint field scans as exactly that field |
| Wire.LenFieldIsSound | presage/src/storage_record.rs:211-217 | an encoded length-delimited field scans as exactly that field, whatever its payload |
| Wire.FixedFieldIsSound | presage/src/storage_record.rs:124-135 | eight bytes after a tag of type 1, and four after one of type 5, are that field |
| Wire.CutFieldFails | presage/src/storage_record.rs:97-155 | a field cut short anywhere does not scan |
| Wire.TagRefused | presage/src/storage_record.rs:112-142 | groups, unused wire types and field number 0 make a message fail wherever they stand |
| Wire.NumberIsCut | presage/src/storage_record.rs:112-120 | of a field number only the low 32 bits count |
| Wire.Advance | presage/src/storage_record.rs:97-105 | the cursor moves by the count or the message is malformed, and the sum never passes the end |
| Wire.ReadPayload | presage/src/storage_record.rs:121-142 | by wire type, the payload after a tag lies where the format puts it, and groups, unknown types and payloads past the end are refused |
| Wire.ReadField | presage/src/storage_record.rs:112-152 | one turn of the scan loop gives the extent of the field there: number cut to 32 bits and not 0, payload by wire type, same failures |
| Wire.Scan | presage/src/storage_record.rs:108-155 | fails if and only if the message does not parse; otherwise its spans tile the message and spell its fields in order |
| Editor.ReplacedFields | presage/src/storage_record.rs:163-190 | after a write exactly the block stands under the number, and every other field is there in order |
| Editor.ReplacedElsewhere | presage/src/storage_record.rs:163-190 | fields under any other number are untouched |
| Editor.ReplacedPlace | presage/src/storage_record.rs:163-190 | the block goes where the first occurrence stood, or after everything else |
| Editor.ReplacedTwice | presage/src/storage_record.rs:163-190 | of two writes to a field only the second shows, if the first left something to replace |
| Editor.SetFieldScans | presage/src/storage_record.rs:163-190 | what `set_field` writes always scans again, to the old fields with the occurrences replaced by the block where the first stood, or appended |
| Editor.SetField | presage/src/storage_record.rs:163-190 | the loop over `out` and `placed` writes exactly those bytes and fails on exactly the messages that do not scan |
| Lens.SetWrites | presage/src/storage_record.rs:260-280 | a write succeeds on exactly the records with one readable submessage of that type, and changes its field list and the record's as stated by `Wrote` |
| Lens.WriteKeepsTheRest | presage/src/storage_record.rs:260-280 | every other inner field, outer field and submessage keeps its bytes and order |
| Lens.GetAfterSet | presage/src/storage_record.rs:569-577 | put then get: on every accepted record and for every `u64` the value written is the value read; every other field of every submessage reads as before, errors included |
| Lens.SetAfterSet | presage/src/storage_record.rs:569-577 | put then put: after a write that did not remove, only the second shows, byte for byte |
| Lens.ToggleRestores | presage/src/storage_record.rs:569-577 | set then remove gives back the exact bytes if and only if the wrapper was canonical and the field absent |
| Lens.SetChangesNothing | presage/src/storage_record.rs:569-577 | a write is a no-op on the bytes if and only if the wrapper is canonical and the field already holds the value, once and canonically |
| Lens.BoolIsVarint | presage/src/storage_record.rs:293-301 | a flag is written as 1 or removed, so the laws above are its laws |
| Lens.NonZeroIsSet | presage/src/storage_record.rs:282-291 | any value but 0 reads as a set flag |
| Lens.LastWins | presage/src/storage_record.rs:234-258 | of several occurrences the last is read, whatever stands before it; of another wire type it is an error |
| Lens.AbsentIsZero | presage/src/storage_record.rs:234-258 | an absent field reads as 0 |
| Lens.WhyRefused | presage/src/storage_record.rs:222-232 | reads and writes fail alike: no submessage is the wrong type, two are ambiguous, bytes that do not scan are malformed |
| Codecs.PinsRoundTrip | presage/src/storage_record.rs:451-469 | decoding an encoded pin list returns it, for every list of byte strings |
| Codecs.SetPinsThenRead | presage/src/storage_record.rs:425-447 | setting pins then reading gives exactly that list whatever was pinned before, and every varint field of the record reads as it did |
| Codecs.PinsAre | presage/src/storage_record.rs:460-469 | a list decodes if and only if every field 14 is a string of bytes, to their payloads in order, other fields passed over |
| Codecs.RebuildKeepsUnknown | presage/src/storage_record.rs:478-507 | a rebuilt record holds what the model writes and then, byte for byte and in order, every field of the old one not numbered 1 to 11 |
| Codecs.RebuildsKeepUnknown | presage/src/storage_record.rs:478-507 | after any number of rebuilds, with any models, the fields not numbered 1 to 11 are still the same, in the same order |
| Codecs.SetStateThenRead | presage/src/storage_record.rs:509-567 | writing a sticker state reads back as it, except a removal dated 0; all other fields of the submessage, and all other submessages, keep their bytes and order |
| Codecs.StickerReads | presage/src/storage_record.rs:509-525 | the last key, the position cut to 32 bits, and a removal wherever a deletion time but 0 stands |
| Codecs.PublishedAsWhen | presage/src/store.rs:128-172 | an install needs no publish if and only if key and position agree, a removal if and only if the account holds one |
| Codecs.PublishSettles | presage/src/store.rs:128-172 | the next drain finds the record already says what is wanted if and only if that is not a removal dated 0 |
| Publishable.SlotWrites | presage/src/manager/storage.rs:1191-1209 | writing a publishable field succeeds on every accepted record, reads back, and is one edit of one field |
| Publishable.OtherSlotsStay | presage/src/manager/storage.rs:1191-1209 | writing one publishable field leaves the others reading as they did |
| Publishable.ApplySettlesDiff | presage/src/manager/storage.rs:1167-1209 | for contact, group and account: if the diff exists, apply succeeds, nothing is left to diff, fields outside the diff read as before, and all else keeps its bytes and order |
| Publishable.EditAgrees | presage/src/manager/storage.rs:594-602 | after the edit a drain makes, written or skipped, the record says the row on every publishable field and nothing else of it moved |
| Publishable.EditSkips | presage/src/manager/storage.rs:594-602 | a drain writes nothing if and only if the record says the row already, and fails if and only if it cannot be read |
| Publishable.ContactGoesOut | presage/src/manager/storage.rs:1167-1209 | after the edit fields 9, 13 and 11 of the contact say blocked, muted until and archived |
| Publishable.GroupGoesOut | presage/src/manager/storage.rs:1248-1306 | after the edit fields 6 and 4 of the group say muted until and archived |
| Publishable.AccountGoesOut | presage/src/manager/storage.rs:1344-1406 | after the edit fields 5 and 14 of the account say Note to Self archived and the pins; field 25 is as it was |
| AccountChat.PinAdds | presage/src/model/account.rs:119-123 | pinning adds one chat at the end unless it is pinned already; no entry is lost or moved |
| AccountChat.UnpinRemoves | presage/src/model/account.rs:126-129 | unpinning removes every entry of that chat; every other chat, and every entry that cannot be read, stays in order |
| AccountChat.AdoptKeepsBoth | presage/src/manager/storage.rs:1334-1343 | the first account record read keeps its own entries in front and in order, and exactly the chats either side pinned are pinned |
| AccountChat.AdoptKeepsOrder | presage/src/manager/storage.rs:1334-1343 | the chats only this device had pinned follow the record's, in the order they were pinned here |
| AccountChat.AccountChatState.Pin | presage/src/model/account.rs:119-123 | the state's pins become that list, nothing else of it changes |
| AccountChat.AccountChatState.Unpin | presage/src/model/account.rs:126-129 | the state's pins become that list, nothing else of it changes |
| PublishMachine.StepKeepsInv | presage/src/manager/storage.rs:583-629 | every step of a user edit, a sync, a drain or a failure keeps the flag invariant |
| PublishMachine.RunKeepsInv | presage/src/manager/storage.rs:583-629 | so does every run, crashes included, in which none falls where the row is exposed |
| PublishMachine.FlagDiscipline | presage/src/manager/storage.rs:370-434 | over every such run from an empty store: at rest, with no edit half made, a clear flag means the row says what the held record says on every publishable field, except a chat a pin unarchived since its record was last merged or published |
| PublishMachine.HarmlessCrash | presage/src/manager/storage.rs:614-628 | in any state of the invariant a crash keeps the discipline if and only if the flag is up, or no flag is owed: after a drain cleared it, the row is still the one published; elsewhere no edit is saved and unflagged, or the diff of the record held against the row is empty but for a chat a pin unarchived and no chat is pinned ahead of the first account record |
| PublishMachine.UserEditIsFlagged | presage/src/manager/registered.rs:1964-1982 | an edit of the user ends saved and flagged wherever it falls, and disturbs nothing under way |
| PublishMachine.FailedDrainKeeps | presage/src/manager/storage.rs:370-439 | a drain that fails, anywhere, keeps row, record and raised flag |
| PublishMachine.PinsUnarchive | presage/src/manager/storage.rs:1433-1471 | a sync lets a pin take a chat out of the archive if and only if the row was not flagged when it began; that one field is written, and nothing flagged |
| PublishMachine.FirstRecordSays | presage/src/manager/storage.rs:583-593 | a flag without a row is lowered; a first record that is appended says the row that was read and lowers the flag |
| PublishMachine.MergeKeepsEdit | presage/src/manager/storage.rs:1407-1425 | a merge keeps an unpublished change of any row, with or without a readable record held, if and only if the sync had seen the flag and this is not the first account record, or the new record happens to agree |
| PublishMachine.FirstMergeKeepsPins | presage/src/manager/storage.rs:1334-1343 | at the first account record exactly the chats either side pinned are pinned, the record's own entries first |
| Convergence.MergeIsThreeWay | presage/src/manager/storage.rs:1089-1145 | the merge of a flagged row takes each field from the row where it differs from the record last read, and from the new record otherwise |
| Convergence.DrainPublishes | presage/src/manager/storage.rs:583-629 | what one drain leaves in the row, the flag and the server's record, field by field |
| Convergence.DrainsConverge | presage/src/manager/storage.rs:583-629 | with other devices quiet at most two drains clear the flag, leaving row and server at the three-way merge and every other field of the server's record byte for byte and in order |
| Convergence.OneDrainSuffices | presage/src/manager/storage.rs:583-629 | the first drain is enough, and has reached the merge, if and only if it was caught up or the peers changed no field this row leaves as it was read |
| Convergence.FirstDrainReverts | presage/src/manager/storage.rs:583-629 | a first drain made while behind writes a peer's change back, takes it into the row, and raises the flag |
| Convergence.DrainIsARun | presage/src/manager/storage.rs:583-629 | that drain is one of the runs the flag discipline ranges over |
| Manifest.Drop | presage/src/manager/storage.rs:238-249 | fails as moved if and only if some id to delete is not there exactly once or is named twice; otherwise leaves the other identifiers in place |
| Manifest.WriteManifestEdit | presage/src/manager/storage.rs:231-297 | exactly when it fails, and how; otherwise version plus one, the old identifiers without the deleted ones in order, then the new in insert order, keys carried forward; the count check is dead |
| Manifest.EditKeepsUnmodelled | presage/src/manager/storage.rs:231-297 | an edit of modelled records leaves every identifier of an unmodelled type, in order |
| Manifest.KeptMembers | presage/src/manager/storage.rs:238-249 | an identifier is kept if and only if it was listed and is not deleted |
| SyncPlan.ChunksCover | presage/src/manager/storage.rs:1627-1630 | cutting a list into batches loses, repeats and moves nothing |
| SyncPlan.BatchesAreFull | presage/src/manager/storage.rs:1627-1630 | every batch but the last of each half asks for 2500 records |
| SyncPlan.BatchesCover | presage/src/manager/storage.rs:1620-1630 | the batches put together are the fetch list |
| SyncPlan.FetchedByType | presage/src/manager/storage.rs:1559-1584 | every listed contact, group, sticker pack and folder is fetched, and of the accounts the last |
| SyncPlan.FetchedExactly | presage/src/manager/storage.rs:1559-1584 | the first half is exactly the contacts, groups and sticker packs listed, the second exactly the folders and the account with no other after it |
| SyncPlan.FetchedIsListed | presage/src/manager/storage.rs:1559-1584 | nothing else is |
| CaughtUp.SavedKeeps | presage/src/manager/storage.rs:1713-1757 | merging one fetched record keeps every other record that was held current |
| CaughtUp.CommittedIs | presage/src/manager/storage.rs:415-430 | what storing an accepted write does to each row: written ones hold their new id, version and bytes, dropped ones nothing, every other is as it was |
| CaughtUp.AcceptKeeps | presage/src/manager/storage.rs:404-433 | a write the server took keeps the caught-up invariant: what the new manifest tracks is held or about to be stored |
| CaughtUp.NextKeeps | presage/src/manager/storage.rs:380-434 | every step of every device keeps it |
| CaughtUp.CaughtUpMeansCurrent | presage/src/manager/storage.rs:380-434 | from an empty store, over every interleaving of peers' writes, writes, syncs, interruptions and resumptions: at the server's version every tracked record is held under its id with its bytes |
| CaughtUp.AcceptedWriteKeepsManifest | presage/src/manager/storage.rs:231-297 | over any run each write of this device leaves the server's identifiers minus exactly the deleted ones, in order, then the new; unmodelled types are all kept |
| CaughtUp.DeviceKeepsUnmodelled | presage/src/manager/storage.rs:231-297 | over any run no step of this device removes or adds an identifier of an unmodelled type |
| CaughtUp.HeldIsListed | presage/src/manager/storage.rs:404-416 | while caught up a replacing write is refused as moved if and only if a peer listed the id twice |
| SyncCoverage.SyncReadsEverything | presage/src/manager/storage.rs:1679-1709 | however a sync was interrupted and resumed, when a version is stored every id that had to be read was read at that version, in a batch of at most 2500 |
| SyncCoverage.SubjectsReadFirst | presage/src/manager/storage.rs:1613-1630 | whenever a folder or account was read, every contact, group and sticker pack of that manifest had been read before at that version |
| StorageManager.ReadItemsReturns | presage/src/manager/storage.rs:1707-1709 | what the server returns of a batch is the records still listed, as the machine assumes |
| StorageManager.Manager.SyncStorageService | presage/src/manager/storage.rs:1517-1958 | run against interfering peers, every step it takes is a step of the machine; if not cut off it stores a version at least the server's at the start, exactly the server's when the peers are quiet, and if cut off none; a folder still held is listed by a manifest of the version stored, one that was listed is still held, and whatever lost its identity is flagged; with quiet peers it reads every batch the cursor had not passed, once, and no other; no flag is lost and only such folders are newly flagged |
| StorageManager.Manager.CarryOutSync | presage/src/manager/storage.rs:1700-1952 | a sync that has begun ends with the version it read stored, the folders following what it read and every batch from the cursor on read once, or with none when cut off; the same flags as above |
| StorageManager.Manager.ReadBatches | presage/src/manager/storage.rs:1700-1943 | every batch from the cursor on is read and merged, unless cut off; no row loses its identity |
| StorageManager.Manager.ReadAndMerge | presage/src/manager/storage.rs:1701-1943 | one batch is fetched and merged record by record under interference, then the cursor passes exactly it |
| StorageManager.Manager.FinishSync | presage/src/manager/storage.rs:1945-1952 | the version read is stored and the cursor cleared; a folder keeps its identity if and only if the manifest lists it, and exactly those that do not are flagged; no other row changes |
| StorageManager.Manager.UpdateStorageRecord | presage/src/manager/storage.rs:365-440 | "already current", "unknown" and a failed edit are said only while caught up and are true then; "published" means the server took the edit of the bytes held at that moment in place of them, and what is held now is what was written; it gives up only after three writes of other devices, or when the manifest was found not to list the held id exactly once; with quiet peers it judges and writes over the server as it found it, and ends caught up; the row is flagged afterwards if and only if it failed, and no other flag is lost |
| StorageManager.Manager.TryPasses | presage/src/manager/storage.rs:380-436 | six passes at most and three refused writes: fewer than three writes of other devices never exhaust them on a record listed once |
| StorageManager.Manager.CatchUp | presage/src/manager/storage.rs:383-395 | a device behind the server gets to a later version, at least the server's when it began |
| StorageManager.Manager.Pass | presage/src/manager/storage.rs:380-432 | a pass catches up if behind, to a later version, and otherwise tries the write; a refusal means the record had moved or another device wrote meanwhile |
| StorageManager.Manager.Attempt | presage/src/manager/storage.rs:388-432 | one pass of a caught-up device, which a refused write leaves as it was when the peers are quiet |
| StorageManager.Manager.Replace | presage/src/manager/storage.rs:305-325 | one insert and one delete in one write, offered at the next version |
| StorageManager.Manager.Offer | presage/src/manager/storage.rs:404-434 | identities are stored only for a write the server took |
| Appending.EditWriteIsOk | presage/src/manager/storage.rs:388-416 | an edit that keeps the row's key, written over the record held for it, meets everything the caught-up theorem asks of a write |
| Appending.FolderWriteIsOk | presage/src/manager/storage.rs:888-931 | the one write for all pending folders and expired tombstones is a write the machine allows, and deletes exactly the ids held for them |
| Appending.AppendWhileCaughtUp | presage/src/manager/storage.rs:140-209 | appending a first record while caught up keeps the invariant |
| Appending.AppendIsCurrent | presage/src/manager/storage.rs:140-209 | after an append the device holds all the manifest tracks at the version it now claims if and only if it missed nothing else before |
| Appending.AppendWhileBehind | presage/src/manager/storage.rs:140-209 | appending past a record that was never read makes the device count as caught up without it, and can only happen while behind |
| Appending.AppendMissesAContact | presage/src/manager/storage.rs:140-209 | such a state is one peer's write away from an empty store |
| RecordKeys.WriteKeepsKey | presage/src/storage_record.rs:260-280 | writing one publishable field leaves the record readable, its deciding arm last and its row the same |
| RecordKeys.DrainKeepsKey | presage/src/manager/storage.rs:594-602 | the edit of a contact, group or account drain keeps every record about its row, which is what `update_storage_record` needs of an edit |
| RecordKeys.DrainWriteIsOk | presage/src/manager/storage.rs:594-602 | so what a drain writes is a write the caught-up theorem allows |
| DecodedPins.PinsAlwaysDecode | presage/src/model/account.rs:109-129 | over every run in which records decode before they are merged and edits pin or unpin, the pins of the account row, and of the row a drain publishes, all decode |
| Drains.PushRecord | presage/src/manager/storage.rs:583-613 | a drain that succeeds leaves the flag down and the held record saying the row it read; with quiet peers the record the server lists says it too |
| QuietDrains.UpdateLands | presage/src/manager/storage.rs:365-440 | with quiet peers an update that succeeds leaves the server listing one record of the row, the edit of the one it listed at the start, and the device caught up and holding it |
| QuietDrains.UpdateSucceeds | presage/src/manager/storage.rs:365-440 | with quiet peers an update of a record listed once, and that the edit takes, does not fail |
| QuietDrains.DrainRow | presage/src/manager/storage.rs:583-629 | with quiet peers one drain, its update loop included, leaves the row's record, the server and the flag as `Convergence.Drain` says, and fails only if the record's id is listed more than once |
| QuietDrains.DrainUntilClear | presage/src/manager/storage.rs:564-629 | with quiet peers draining until the flag stays down takes at most two drains and ends with the server listing, and the device holding, a record that says the three-way merge and keeps every other field of the server's record; it fails only if the record's id is listed more than once |
| RowOnServer.MovesKeeps | presage/src/manager/storage.rs:370-434 | any step of the row, of the device or of a peer keeps both invariants together |
| RowOnServer.ServerSaysRow | presage/src/manager/storage.rs:370-434 | over every interleaving of user edits, drains, syncs and peers' writes: at the server's version, at rest and with a clear flag, if the record the server lists for the row is readable, there is a row and the record says it on every publishable field, a chat a pin unarchived since aside |
| RowOnServer.MergeIsAMove | presage/src/manager/storage.rs:1725-1757 | merging a record of the row is one step of both machines |
| RowOnServer.CommitIsAMove | presage/src/manager/storage.rs:416-431 | so is storing what a drain of the row wrote |
| RowOnServer.AppendIsAMove | presage/src/manager/storage.rs:1021-1042 | so is storing the first record of the row |
| Witnesses.BlankSaysNothing | presage/src/storage_record.rs:222-258 | for each kind there is a record that reads as a row with nothing set, which the runs start from |
| Witnesses.CrashLosesAnEdit | presage/src/manager/storage.rs:614-628 | a run from an empty store ends at rest, unflagged, with row and record disagreeing |
| Witnesses.CrashUnflagsAnEdit | presage/src/manager/registered.rs:1964-1982 | a run that ends between saving a block and flagging it leaves the flag clear with row and record disagreeing |
| Witnesses.MergeLosesAnEdit | presage/src/manager/storage.rs:1500-1515 | a run in which a contact is blocked ends at rest, unflagged, with neither row nor record blocked |
| Witnesses.FirstAccountRecordLosesAnEdit | presage/src/manager/storage.rs:1407-1425 | a run in which Note to Self is archived, flagged and seen ends at rest, unflagged, with neither row nor record archived |
| Witnesses.FirstDrainUnarchives | presage/src/manager/storage.rs:583-629 | a run reaches a drain whose write undoes an archive another device made |
| Witnesses.RemovalAtZeroInstalls | presage/src/storage_record.rs:527-567 | a removal dated 0 written to a blank record reads back as an install |
| Witnesses.ToggleRewritesALength | presage/src/storage_record.rs:260-280 | three bytes that set and remove does not give back |
| Witnesses.SaveOverATombstone | presage/src/manager/chat_folders.rs:37-53 | a folder saved, deleted and saved again leaves a list that does not start at 0 |
| ChatFolders.NumberingIsDense | presage/src/manager/chat_folders.rs:72-81 | numbering the listed folders keeps their order and makes it 0, 1, 2 and so on |
| ChatFolders.NumberingChanges | presage/src/manager/chat_folders.rs:72-81 | a listed row gets its index in the list as its position; nothing else of it, and no other row, changes |
| ChatFolders.ListingShows | presage/src/manager/chat_folders.rs:20-30 | the list shows exactly the live folders of a known type |
| ChatFolders.SortKeepsTies | presage/src/manager/chat_folders.rs:20-30 | folders at one position stay in the order they are stored |
| ChatFolders.TombstoneIs | presage/src/model/chat_folders.rs:192-197 | a tombstone keeps id, type, name and rules, goes to position 4294967295 and names nobody |
| ChatFolders.ListedWithout | presage/src/manager/chat_folders.rs:58-69 | a tombstoned folder leaves the list and nothing else in it changes |
| ChatFolders.RemoveFromSort | presage/src/manager/chat_folders.rs:20-30 | taking a folder out and ordering the list commute |
| ChatFolders.SaveKeepsDense | presage/src/manager/chat_folders.rs:37-53 | saving keeps a dense list dense if and only if the folder is new, replaces a listed one, or sat at the next position |
| FolderStore.FolderStore.Stage | presage/src/manager/chat_folders.rs:86-95 | the row is replaced and flagged, no other changes |
| FolderStore.FolderStore.SaveChatFolder | presage/src/manager/chat_folders.rs:37-53 | fails exactly on a custom folder with a bad name, changing nothing; otherwise the row is staged at its old position or at the end |
| FolderStore.SavedIs | presage/src/manager/chat_folders.rs:37-53 | the saved row has everything that was asked for and the old row's position, or the number of listed folders when it is new; no other row changes |
| FolderStore.FolderStore.Renumber | presage/src/manager/chat_folders.rs:72-81 | the loop numbers the list and flags exactly the folders it moved |
| FolderStore.MovedAre | presage/src/manager/chat_folders.rs:72-81 | a row is flagged by renumbering if and only if its position changed |
| FolderStore.FolderStore.DeleteChatFolder | presage/src/manager/chat_folders.rs:58-69 | fails exactly on an unknown or an all-chats folder; otherwise the rest of the list keeps its order, is numbered densely, and exactly what moved and the tombstone are flagged |
| FolderStore.FolderStore.MergeRecord | presage/src/manager/storage.rs:2006-2040 | the merged row, if any, replaces the stored one and the version read is remembered |
| FolderStore.MergeTouchesOne | presage/src/manager/storage.rs:2006-2040 | a record touches no other folder's row, and its own only if that has no change pending |
| FolderStore.LiveIsTaken | presage/src/manager/storage.rs:2006-2040 | a live folder made or changed elsewhere is stored exactly as the record says, over a live row or none |
| FolderStore.DeletionIsTaken | presage/src/manager/storage.rs:2027-2039 | a deletion on either side leaves the record's tombstone at the earlier time |
| FolderStore.UnseenDeletionIsNot | presage/src/manager/storage.rs:2022-2024 | a tombstone of a folder not stored leaves the rows as they are |
| FolderStore.AllChatsIsFixed | presage/src/manager/storage.rs:2014-2021 | an all-chats record leaves the fixed folder under its id, unless this device dropped it as a duplicate |
| FolderStore.FolderStore.DropDuplicate | presage/src/manager/storage.rs:2103-2116 | a duplicate the server never had is erased, another gets an expired tombstone |
| FolderStore.FolderStore.EnsureSingleAllChats | presage/src/manager/storage.rs:2084-2125 | the loop drops every duplicate but the first, and creates one only where there was none and creation is allowed |
| FolderStore.ExactlyOneAllChats | presage/src/manager/storage.rs:2084-2125 | after the upkeep exactly one all-chats folder is live where there was one or one may be made; the survivor is at the highest stored version, then the lowest id; each other one is erased if never published and an expired tombstone if published; no other folder changes |
| FolderStore.SurvivorIsOnly | presage/src/manager/storage.rs:2101-2116 | dropping the duplicates alone leaves exactly the survivor |
| FolderStore.DeletedRowsStayBare | presage/src/model/chat_folders.rs:192-197 | through any sequence of saves, deletes, synced records and upkeep every deleted row is last and names nobody, and ids stay unique |
| FolderMerge.DeletesOnlyMoveEarlier | presage/src/manager/storage.rs:2006-2040 | over any run of unflagged merges a stored folder's deletion time is the earliest non-zero one seen |
| FolderMerge.EarliestIsEarliest | presage/src/manager/storage.rs:2027-2034 | that time is a lower bound of all non-zero ones and is one of them |
| FolderMerge.DeletedStaysDeleted | presage/src/manager/storage.rs:2006-2040 | a deleted row, a dropped all-chats duplicate included, is never live again |
| FolderMerge.UnseenTombstonesLeaveNothing | presage/src/manager/storage.rs:2022-2024 | tombstones of a folder never seen leave no row |
| PinArchive.ChatStore.EditAccount | presage/src/manager/registered.rs:1920-1933 | the account is saved and flagged, unless the edit changed nothing |
| PinArchive.ChatStore.EditContact | presage/src/manager/registered.rs:1964-1982 | any edit: the row, or a minimal new one, is edited and flagged; Note to Self is refused |
| PinArchive.ChatStore.EditGroup | presage/src/manager/registered.rs:1941-1953 | any edit: the row is edited and flagged; an unknown group is refused, changing nothing |
| PinArchive.ChatStore.SetArchived | presage/src/manager/registered.rs:1840-1862 | unpin first, then the chat's own row or the account's; the whole new state and the error |
| PinArchive.ArchivingIs | presage/src/manager/registered.rs:1840-1862 | where it does not fail the chat is archived exactly if asked for; it fails exactly on an unknown group; archiving unpins that chat only, and the account is flagged if and only if it changed |
| PinArchive.ArchivingWrites | presage/src/manager/registered.rs:1840-1862 | the chat's own row, or a bare new one, gets the archive flag and its needs-sync flag; every other row and flag stays; Note to Self goes to the account |
| PinArchive.ChatStore.SetPinned | presage/src/manager/registered.rs:1875-1892 | pin or unpin, and a newly pinned archived chat is unarchived; the whole new state and the error |
| PinArchive.PinningIs | presage/src/manager/registered.rs:1875-1892 | the chat is pinned exactly if asked for and no other pin changes; a pinned chat is not archived, and is flagged if that had to be undone; neither fails |
| PinArchive.ChatStore.UnarchivePinned | presage/src/manager/storage.rs:1433-1471 | the loop clears the archive of each pinned chat without a pending change, flagging nothing |
| PinArchive.UnarchivesExactly | presage/src/manager/storage.rs:1433-1471 | a row's archive flag is cleared if and only if the chat is pinned with no change of its own pending; nothing else of any row changes |
| PinArchive.EditsKeepExclusive | presage/src/manager/registered.rs:1840-1914 | any sequence of archiving and pinning contacts, by ACI or PNI, and groups, failed ones included, leaves no chat both and keeps every unreadable pin in order |
| PinArchive.SharedUuidArchive | presage/src/manager/registered.rs:1840-1862 | were one uuid both an ACI and a PNI, archiving by one would leave a chat pinned and archived if and only if it was pinned by the other |
| PinArchive.SyncRestoresExclusion | presage/src/manager/storage.rs:1433-1471 | after an account record is merged no pinned chat without a pending change is archived, Note to Self aside; pins and flags are unchanged |
| CallHistory.FoldOutcome | presage/src/model/calls.rs:454-559 | the closed form of any non-empty run of direct or of group events: deleted, else accepted or joined, else what the last telling event says; first event's time |
| CallHistory.DirectOutcomeIs | presage/src/model/calls.rs:470-514 | deleted, else accepted, else missed or pending as the last telling event says |
| CallHistory.GroupOutcomeIs | presage/src/model/calls.rs:516-559 | deleted, else joined, else missed for an unanswered ring that came in, generic for everything else |
| CallHistory.OneMoreEvent | presage/src/model/calls.rs:454-559 | from any stored entry: a delete is final, an accepted or joined call is left only by a delete, an unknown event keeps the status, the date stays |
| CallHistory.LogHoldsFolds | presage/src/store.rs:474-488 | however events of many calls interleave, each call's entry is the fold of its own; call-link and unknown-mode events leave no trace |
| CallHistory.LogOutcome | presage/src/store.rs:474-488 | the two together, for any stream |
| CallHistory.CallStore.IngestCallEvent | presage/src/store.rs:474-488 | load, transition, save: the entry returned is the one stored, every other entry stays |
| GroupChanges.Coalescer.Coalesce | presage/src/backup/convert.rs:337-359 | what the held run becomes and what is released for one more item |
| GroupChanges.Coalescer.CoalesceAll | presage/src/manager/registered.rs:3102-3134 | the loop over a backup with its final flush yields what the laws below are about |
| GroupChanges.CoalescingKeepsHistory | presage/src/backup/convert.rs:337-388 | conservative: every update under its chat, author and instant, and every other item, is what it was and in the order it was |
| GroupChanges.CoalescingKeepsOutline | presage/src/backup/convert.rs:337-388 | no change and no item goes missing, appears or moves, one without updates included |
| GroupChanges.CoalescingIsMaximal | presage/src/backup/convert.rs:337-388 | no two neighbours of what comes out could still be joined |
| GroupChanges.CoalescingTwice | presage/src/backup/convert.rs:337-388 | running it again changes nothing |
| GroupChanges.PlanGroupUpdate | presage/src/backup/group_change.rs:72-105 | the loop over editor and actions plans the batch; a creation makes the whole a creation; a change that does not encrypt makes no plan |
| GroupChanges.PlanIs | presage/src/backup/group_change.rs:78-105 | a creation makes the plan, named by the first one or the fallback; otherwise one change by the editor or the fallback, and none where it does not encrypt |
| GroupChanges.LastEditorNamed | presage/src/backup/group_change.rs:91-95 | the editor is the one the last update to name one names |
| GroupChanges.ListsInOrder | presage/src/backup/group_change.rs:108-180 | a list field holds what every update plans for it, in their order |
| GroupChanges.LastSingleStays | presage/src/backup/group_change.rs:108-180 | a single field holds what the last update to plan it plans |
| GroupChanges.BatchConcat | presage/src/backup/group_change.rs:112-182 | planning two batches as one is planning each and merging: the last named editor, lists joined, later single values winning |
| GroupChanges.JoinedPlan | presage/src/backup/group_change.rs:72-182 | joining two items before planning gives what merging their plans gives, and the first creation names the editor |
| EditHistory.ImportedChain | presage/src/backup/convert.rs:817-857 | a clean history imports as one main row at the first version's time with the latest text, then one edit row per later version naming the one before; no two share an address |
| EditHistory.ChainReachesMessage | presage/src/backup/convert.rs:817-857 | from any version's row, following edit targets reaches the main row |
| EditHistory.ExtractsAddressRows | presage/src/backup/convert.rs:679-754 | a pin is extracted if and only if the item carries one and is a message or sticker that was stored, an edit if and only if it is a stored message with revisions; each addresses its message's row by thread, time and author |
| EditHistory.ContentsAre | presage/src/backup/convert.rs:215-260 | the rows of a stored message or sticker, exactly: its own, by this account or the author the backup names, at the first version's time and arrival; one per reaction with a known author; one per later version that is a message |
| EditHistory.ExtractsSay | presage/src/backup/convert.rs:679-754 | a pin carries its times and the sender, an edit its time, the sender and every earlier version with its text |

## Left out

- PublishMachine.FlagDiscipline: ranges over runs without a crash where the row is exposed; `PublishMachine.HarmlessCrash` says those are exactly the crashes that break it.
- RowOnServer.ServerSaysRow: ranges over the same runs, and as in `CaughtUp.CaughtUpMeansCurrent` a first record is appended only while caught up.
- RowOnServer.AppendIsAMove: a first record appended while behind is no step of the machine; what it does is `Appending.AppendIsCurrent`.
- Drains.PushRecord: stops where no record is known; the append the source goes on to make there is `Appending.AppendWhileCaughtUp` and `RowOnServer.AppendIsAMove`.
- CaughtUp.CaughtUpMeansCurrent: leaves out `append_storage_record`, of which it is false (`Appending.AppendIsCurrent`), and folders, whose rows may forget their identity; a row two listed records claim is not tracked.
- Convergence.DrainsConverge: starts from a record this device has read, and asks that what the drains write still fits in memory; the first record of a contact goes through `PublishAppend` of the machine.
- QuietDrains.DrainRow: the manager's own merges save records and no rows, so the row it compares is `Convergence.CaughtUpRow`; that a merge saves both at once is `RowOnServer.MergeIsAMove`.
- PinArchive.EditsKeepExclusive: takes a uuid to be an ACI or a PNI, not both, as the service hands them out; `PinArchive.SharedUuidArchive` is the case the rows would allow beyond that.
- EditHistory.ImportedChain: reaction rows may share an address with a version's row when their author and time collide; only the rows of the versions are compared.
- StorageManager.Manager.UpdateStorageRecord: the waits between attempts and the note to the other devices after a write are not modelled, nor the request errors that end it early; user edits that raise the flag meanwhile are steps of `PublishMachine`.
- Manifest.WriteManifestEdit: ends where the write is handed over; the server's answer is `StorageManager.Manager.Offer`, and failed requests end an operation as a stop does.
- StorageManager.Manager.SyncStorageService: the all-chats upkeep it ends with is `FolderStore.FolderStore.EnsureSingleAllChats`, on the folder rows.
- GroupChanges.JoinedPlan: the fields of `Actions` are a list of repeated and a list of single ones; what each holds is the group library's.
- Contact merges also keep a local name, profile key or avatar where the record has none; only the publishable fields are merged here.
- The folder drain's loop and its thirty-day expiry; its write is covered by `Appending.FolderWriteIsOk`, and it runs without concurrent folder edits because it never re-checks its rows.
- Folder and sticker rows in the flag machine: a folder has no held-record diff, a sticker state is covered by `Codecs.PublishSettles`.
- The account's pins decode through the protobuf library, whose acceptance of an entry is not modelled.
- The network, encryption of records and manifest, push service, registration and linking.
- The SQLite store and its migrations, and the import of a backup into a live store.
- Which rows chat items other than messages and stickers leave; call rows of a backup; profile keys saved by a sync.
- Folder name cleaning and counting, the text of group updates, era-id hashing, resolving call peers, logging and the command line.
