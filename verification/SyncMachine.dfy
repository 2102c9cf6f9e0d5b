/** This device against one versioned manifest other devices also write: batched syncs with
    a resume cursor, writes accepted only at the next version, and crashes anywhere
    (manager/storage.rs). Operations hold the storage lock, so one is under way at a time;
    the server may move between any two of its steps. */
module SyncMachine {
  import opened Wrappers
  import opened Varint
  import opened Manifest
  import opened SyncPlan

  /** Which local row a record belongs to. */
  datatype Key = ContactKey(id: string) | GroupKey(masterKey: seq<byte>) | FolderKey(folder: string)
    | StickerKey(pack: seq<byte>) | AccountKey

  function ItemTypeOf(key: Key): ItemType {
    match key
    case ContactKey(_) => ContactItem
    case GroupKey(_) => GroupItem
    case FolderKey(_) => FolderItem
    case StickerKey(_) => StickerItem
    case AccountKey => AccountItem
  }

  /** The row a sync would save a record's contents under; `None` for a record it skips. */
  type KeyOf = seq<byte> -> Option<Key>

  /** The new bytes of a record, none when it already says what is wanted. */
  type RecordEdit = seq<byte> -> Result<Option<seq<byte>>, EditError>

  /** An edit keeps a record about the same row. */
  ghost predicate KeepsKey(k: KeyOf, key: Key, edit: RecordEdit) {
    forall r :: k(r) == Some(key) && edit(r).Success? && edit(r).value.Some? ==> k(edit(r).value.value) == Some(key)
  }

  datatype Identity = Identity(storageId: StorageId, storageVersion: nat, record: seq<byte>)

  datatype Item = Item(itemType: ItemType, record: seq<byte>)

  /** `items` is everything ever stored: what an id names never changes. `ids` is what the
      manifest lists now. */
  datatype Server = Server(version: nat, ids: seq<Identifier>, items: map<StorageId, Item>)

  datatype Cursor = Cursor(target: nat, next: nat)

  /** One write: `keys[i]` gets `inserts[i]` under `random[i]`; `dropped` rows go away. */
  datatype Plan = Plan(keys: seq<Key>, inserts: seq<Insert>, deleteIds: seq<StorageId>, random: seq<StorageId>,
                       dropped: set<Key>)

  datatype Op =
    | Idle
    | Syncing(version: nat, ids: seq<Identifier>, next: nat, unmerged: Option<seq<(StorageId, seq<byte>)>>)
    | Writing(version: nat, ids: seq<Identifier>, plan: Plan)
    | Accepted(version: nat, plan: Plan)

  /** A batch that was read at a manifest version. */
  datatype Fetch = Fetch(version: nat, batch: nat, raws: seq<StorageId>)

  datatype System = System(server: Server, version: nat, cursor: Option<Cursor>, held: map<Key, Identity>, op: Op,
                           log: seq<Fetch>)

  // ----- the server

  /** Listed ids are stored under the type they are listed with, and a record that decodes
      is filed under its own type. Version 0 is the account without a manifest. */
  ghost predicate ServerOk(k: KeyOf, sv: Server) {
    && (forall id :: id in sv.ids ==> id.raw in sv.items && sv.items[id.raw].itemType == id.itemType)
    && (forall raw :: raw in sv.items && k(sv.items[raw].record).Some? ==>
        ItemTypeOf(k(sv.items[raw].record).value) == sv.items[raw].itemType)
    && (sv.version == 0 ==> sv.ids == [])
  }

  ghost predicate Grows(before: map<StorageId, Item>, after: map<StorageId, Item>) {
    forall raw :: raw in before ==> raw in after && after[raw] == before[raw]
  }

  /** Any write by another device. */
  ghost predicate OtherWrite(k: KeyOf, s: System, s': System) {
    && s' == s.(server := s'.server)
    && s'.server.version == s.server.version + 1
    && Grows(s.server.items, s'.server.items)
    && ServerOk(k, s'.server)
  }

  // ----- a sync

  ghost predicate SyncStart(k: KeyOf, s: System, s': System) {
    && s.op.Idle?
    && if s.server.version == s.version then s' == s.(cursor := None)
       else if Fetched(s.server.ids) == [] then
         s' == s.(version := s.server.version, held := ForgetFolders(s.held, s.server.ids))
       else
         var resumes := s.cursor.Some? && s.cursor.value.target == s.server.version;
         s' == s.(cursor := if resumes then s.cursor else None,
                  op := Syncing(s.server.version, s.server.ids, if resumes then s.cursor.value.next else 0, None))
  }

  /** The server returns what is still stored of the batch, in any order. */
  ghost predicate Returned(sv: Server, batch: seq<StorageId>, records: seq<(StorageId, seq<byte>)>) {
    && (forall r :: r in records ==> r.0 in batch && r.0 in sv.items && sv.items[r.0].record == r.1)
    && (forall raw :: raw in batch && Listed(sv.ids, raw) && raw in sv.items ==> (raw, sv.items[raw].record) in records)
  }

  ghost predicate FetchBatch(k: KeyOf, s: System, s': System) {
    && s.op.Syncing? && s.op.unmerged == None && s.op.next < |Batches(s.op.ids)|
    && s'.op.Syncing? && s'.op.unmerged.Some?
    && Returned(s.server, Batches(s.op.ids)[s.op.next], s'.op.unmerged.value)
    && s' == s.(op := s.op.(unmerged := s'.op.unmerged),
                log := s.log + [Fetch(s.op.version, s.op.next, Batches(s.op.ids)[s.op.next])])
  }

  function Saved(k: KeyOf, held: map<Key, Identity>, version: nat, r: (StorageId, seq<byte>)): map<Key, Identity> {
    match k(r.1)
    case None => held
    case Some(key) => held[key := Identity(r.0, version, r.1)]
  }

  ghost predicate MergeOne(k: KeyOf, s: System, s': System) {
    && s.op.Syncing? && s.op.unmerged.Some? && s.op.unmerged.value != []
    && s' == s.(held := Saved(k, s.held, s.op.version, s.op.unmerged.value[0]),
                op := s.op.(unmerged := Some(s.op.unmerged.value[1..])))
  }

  ghost predicate BatchDone(k: KeyOf, s: System, s': System) {
    && s.op.Syncing? && s.op.unmerged == Some([])
    && s' == s.(cursor := Some(Cursor(s.op.version, s.op.next + 1)),
                op := s.op.(next := s.op.next + 1, unmerged := None))
  }

  /** Folder rows whose identifier left the manifest forget it. */
  function ForgetFolders(held: map<Key, Identity>, ids: seq<Identifier>): map<Key, Identity> {
    map key | key in held && (key.FolderKey? ==> exists id :: id in ids && id.raw == held[key].storageId) :: held[key]
  }

  ghost predicate SyncFinish(k: KeyOf, s: System, s': System) {
    && s.op.Syncing? && s.op.unmerged == None && s.op.next >= |Batches(s.op.ids)|
    && s' == s.(version := s.op.version, cursor := None, held := ForgetFolders(s.held, s.op.ids), op := Idle)
  }

  // ----- a write

  /** What every drain asks of a write: each record keeps its row's key, each deleted id is
      the one held for a row that is replaced, or for a folder. */
  ghost predicate PlanOk(k: KeyOf, held: map<Key, Identity>, p: Plan) {
    && |p.keys| == |p.inserts| == |p.random|
    && (forall i, j :: 0 <= i < j < |p.keys| ==> p.keys[i] != p.keys[j])
    && (forall i :: 0 <= i < |p.keys| ==>
          k(p.inserts[i].record) == Some(p.keys[i]) && p.inserts[i].itemType == ItemTypeOf(p.keys[i]))
    && (forall raw :: raw in p.deleteIds ==> DeletesRow(held, p, raw))
    && (forall key :: key in p.dropped ==> key.FolderKey? && key !in p.keys)
  }

  ghost predicate DeletesRow(held: map<Key, Identity>, p: Plan, raw: StorageId) {
    exists key :: key in held && held[key].storageId == raw && (key in p.keys || key.FolderKey?)
  }

  /** The generator never repeats an id that was ever stored. */
  ghost predicate FreshIds(items: map<StorageId, Item>, p: Plan) {
    forall i :: 0 <= i < |p.random| ==> p.random[i] !in items
  }

  /** Only ever while caught up: the manifest was just read at the stored version. */
  ghost predicate WriteStart(k: KeyOf, s: System, s': System) {
    && s.op.Idle? && s.server.version == s.version
    && s'.op.Writing? && s' == s.(op := Writing(s.version, s.server.ids, s'.op.plan))
    && PlanOk(k, s.held, s'.op.plan)
    && FreshIds(s.server.items, s'.op.plan)
    && EachPresentOnce(s.server.ids, s'.op.plan.deleteIds)
    && NoCollision(Kept(s.server.ids, s'.op.plan.deleteIds), s'.op.plan.random)
  }

  function NewItems(inserts: seq<Insert>, random: seq<StorageId>): map<StorageId, Item>
    requires |inserts| == |random|
  {
    if inserts == [] then map[]
    else NewItems(inserts[1..], random[1..])[random[0] := Item(inserts[0].itemType, inserts[0].record)]
  }

  function IndexOf<T(==)>(s: seq<T>, t: T): (i: nat)
    ensures i <= |s| && (i < |s| ==> s[i] == t) && (t in s ==> i < |s|)
    ensures forall j :: 0 <= j < i ==> s[j] != t
  {
    if s == [] || s[0] == t then 0 else 1 + IndexOf(s[1..], t)
  }

  /** The server takes a write only at the version after the one it holds. */
  ghost predicate Accept(k: KeyOf, s: System, s': System) {
    && s.op.Writing? && s.server.version == s.op.version
    && |s.op.plan.inserts| == |s.op.plan.random|
    && s' == s.(server := Server(s.op.version + 1,
                                 Edited(s.op.ids, s.op.plan.deleteIds, s.op.plan.inserts, s.op.plan.random),
                                 s.server.items + NewItems(s.op.plan.inserts, s.op.plan.random)),
                op := Accepted(s.op.version + 1, s.op.plan))
  }

  function Committed(held: map<Key, Identity>, version: nat, p: Plan): map<Key, Identity>
    requires |p.keys| == |p.inserts| == |p.random|
  {
    map key | key in held.Keys + (set x | x in p.keys) && key !in p.dropped ::
      if key in p.keys
      then Identity(p.random[IndexOf(p.keys, key)], version, p.inserts[IndexOf(p.keys, key)].record)
      else held[key]
  }

  /** What was written is stored, the version with it, after the server's yes. */
  ghost predicate Commit(k: KeyOf, s: System, s': System) {
    && s.op.Accepted? && |s.op.plan.keys| == |s.op.plan.inserts| == |s.op.plan.random|
    && s' == s.(version := s.op.version, held := Committed(s.held, s.op.version, s.op.plan), op := Idle)
  }

  /** A crash, a refused write or a failed request: the operation is gone, the store stays. */
  ghost predicate Abort(k: KeyOf, s: System, s': System) {
    s' == s.(op := Idle)
  }

  ghost predicate Next(k: KeyOf, s: System, s': System) {
    || OtherWrite(k, s, s')
    || SyncStart(k, s, s') || FetchBatch(k, s, s') || MergeOne(k, s, s') || BatchDone(k, s, s') || SyncFinish(k, s, s')
    || WriteStart(k, s, s') || Accept(k, s, s') || Commit(k, s, s')
    || Abort(k, s, s')
  }

  /** A store that has read nothing, against any account. */
  ghost predicate Init(k: KeyOf, s: System) {
    && ServerOk(k, s.server)
    && s.version == 0 && s.cursor == None && s.held == map[] && s.op.Idle? && s.log == []
  }

  // ----- what is held

  /** The row of this record, if it has one, holds exactly this id and these bytes. */
  ghost predicate IsHeld(k: KeyOf, sv: Server, held: map<Key, Identity>, raw: StorageId) {
    raw in sv.items && k(sv.items[raw].record).Some? ==>
      var key := k(sv.items[raw].record).value;
      key in held && held[key].storageId == raw && held[key].record == sv.items[raw].record
  }

  /** A listed contact, group, sticker or account record that decodes, and is the only one
      listed for its row. Of several accounts the last listed counts. */
  ghost predicate Tracked(k: KeyOf, sv: Server, raw: StorageId) {
    && raw in Fetched(sv.ids) && raw in sv.items
    && k(sv.items[raw].record).Some? && !k(sv.items[raw].record).value.FolderKey?
    && forall other :: other in Fetched(sv.ids) && other in sv.items && other != raw ==>
         k(sv.items[other].record) != k(sv.items[raw].record)
  }

  ghost predicate Covers(k: KeyOf, sv: Server, held: map<Key, Identity>, raws: seq<StorageId>) {
    forall raw :: raw in raws && Tracked(k, sv, raw) ==> IsHeld(k, sv, held, raw)
  }

  /** Caught up means current: at the server's version, every tracked record of the manifest
      is held under its id with its bytes. */
  ghost predicate Current(k: KeyOf, s: System) {
    s.version == s.server.version ==> Covers(k, s.server, s.held, Fetched(s.server.ids))
  }
}
