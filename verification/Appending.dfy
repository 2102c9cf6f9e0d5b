/** The two ways this device builds a write, seen against the caught-up invariant: editing
    the record it holds, and appending a first record (`append_storage_record`). */
module Appending {
  import opened Wrappers
  import opened Varint
  import opened Manifest
  import opened SyncPlan
  import opened SyncMachine
  import opened CaughtUp

  // ----- replacing the record held for a row

  function Replacement(held: map<Key, Identity>, key: Key, record: seq<byte>, random: StorageId): Plan
    requires key in held
  {
    Plan([key], [Insert(ItemTypeOf(key), record)], [held[key].storageId], [random], {})
  }

  /** What an edit that keeps the row's key writes is a write the machine allows: the id it
      replaces is the one held for the row. */
  lemma EditWriteIsOk(k: KeyOf, s: System, key: Key, edit: RecordEdit, record: seq<byte>, random: StorageId)
    requires Inv(k, s) && key in s.held && KeepsKey(k, key, edit) && edit(s.held[key].record) == Success(Some(record))
    ensures PlanOk(k, s.held, Replacement(s.held, key, record, random))
  {
    var p := Replacement(s.held, key, record, random);
    assert key in p.keys;
    assert DeletesRow(s.held, p, s.held[key].storageId);
  }

  // ----- publishing folders

  function HeldIds(held: map<Key, Identity>, keys: seq<Key>): seq<StorageId> {
    if keys == [] then []
    else (if keys[0] in held then [held[keys[0]].storageId] else []) + HeldIds(held, keys[1..])
  }

  lemma {:induction false} HeldIdsOf(held: map<Key, Identity>, keys: seq<Key>, raw: StorageId)
    requires raw in HeldIds(held, keys)
    ensures exists key :: key in keys && key in held && held[key].storageId == raw
  {
    if keys[0] in held && held[keys[0]].storageId == raw {
      assert keys[0] in keys;
    } else {
      HeldIdsOf(held, keys[1..], raw);
      var key :| key in keys[1..] && key in held && held[key].storageId == raw;
      assert key in keys;
    }
  }

  /** Every id held for one of the rows is deleted. */
  lemma {:induction false} HeldIdsAll(held: map<Key, Identity>, keys: seq<Key>, key: Key)
    requires key in keys && key in held
    ensures held[key].storageId in HeldIds(held, keys)
  {
    if key != keys[0] { HeldIdsAll(held, keys[1..], key); }
  }

  /** One write for every pending folder and every expired tombstone
      (`push_pending_chat_folder_records`): all of it is a write the machine allows, folders
      without an identity being plain inserts. */
  lemma FolderWriteIsOk(k: KeyOf, held: map<Key, Identity>, pending: seq<Key>, records: seq<seq<byte>>,
                        expired: seq<Key>, random: seq<StorageId>)
    requires |pending| == |records| == |random|
    requires forall i, j :: 0 <= i < j < |pending| ==> pending[i] != pending[j]
    requires forall i :: 0 <= i < |pending| ==> pending[i].FolderKey? && k(records[i]) == Some(pending[i])
    requires forall key :: key in expired ==> key.FolderKey? && key !in pending
    ensures var inserts := seq(|records|, i requires 0 <= i < |records| => Insert(FolderItem, records[i]));
            PlanOk(k, held, Plan(pending, inserts, HeldIds(held, pending) + HeldIds(held, expired), random,
                                 set key | key in expired))
    ensures forall raw :: raw in HeldIds(held, pending) + HeldIds(held, expired) <==>
              exists key :: key in pending + expired && key in held && held[key].storageId == raw
  {
    var inserts := seq(|records|, i requires 0 <= i < |records| => Insert(FolderItem, records[i]));
    var p := Plan(pending, inserts, HeldIds(held, pending) + HeldIds(held, expired), random, set key | key in expired);
    forall raw | raw in p.deleteIds ensures DeletesRow(held, p, raw) {
      if raw in HeldIds(held, pending) { HeldIdsOf(held, pending, raw); } else { HeldIdsOf(held, expired, raw); }
    }
    DeletedAre(held, pending, expired);
  }

  lemma DeletedAre(held: map<Key, Identity>, pending: seq<Key>, expired: seq<Key>)
    ensures forall raw :: raw in HeldIds(held, pending) + HeldIds(held, expired) <==>
              exists key :: key in pending + expired && key in held && held[key].storageId == raw
  {
    forall raw | raw in HeldIds(held, pending) + HeldIds(held, expired)
      ensures exists key :: key in pending + expired && key in held && held[key].storageId == raw
    {
      if raw in HeldIds(held, pending) { HeldIdsOf(held, pending, raw); } else { HeldIdsOf(held, expired, raw); }
    }
    forall key | key in pending + expired && key in held
      ensures held[key].storageId in HeldIds(held, pending) + HeldIds(held, expired)
    {
      if key in pending { HeldIdsAll(held, pending, key); } else { HeldIdsAll(held, expired, key); }
    }
  }

  // ----- appending a first record

  /** A record goes in under a new id whatever version this device had stored, and the
      version it was written at is stored. */
  ghost predicate Append(k: KeyOf, s: System, s': System, key: Key, record: seq<byte>, raw: StorageId) {
    && s.op.Idle? && raw !in s.server.items && k(record) == Some(key)
    && s' == s.(server := Server(s.server.version + 1,
                                 s.server.ids + [Identifier(raw, ItemTypeOf(key))],
                                 s.server.items[raw := Item(ItemTypeOf(key), record)]),
                version := s.server.version + 1,
                held := s.held[key := Identity(raw, s.server.version + 1, record)])
  }

  function AppendPlan(key: Key, record: seq<byte>, raw: StorageId): Plan {
    Plan([key], [Insert(ItemTypeOf(key), record)], [], [raw], {})
  }

  lemma AppendStarts(k: KeyOf, s: System, key: Key, record: seq<byte>, raw: StorageId)
    requires Inv(k, s) && s.op.Idle? && raw !in s.server.items && k(record) == Some(key)
    requires s.version == s.server.version
    ensures WriteStart(k, s, s.(op := Writing(s.version, s.server.ids, AppendPlan(key, record, raw))))
  {
    KeptNothing(s.server.ids);
    NotListedIfUnstored(k, s.server, raw);
  }

  lemma AppendEdits(ids: seq<Identifier>, key: Key, record: seq<byte>, raw: StorageId)
    ensures var p := AppendPlan(key, record, raw);
            Edited(ids, p.deleteIds, p.inserts, p.random) == ids + [Identifier(raw, ItemTypeOf(key))]
            && NewItems(p.inserts, p.random) == map[raw := Item(ItemTypeOf(key), record)]
  {
    KeptNothing(ids);
    var p := AppendPlan(key, record, raw);
    assert Fresh(p.inserts, p.random) == [Identifier(raw, ItemTypeOf(key))];
    assert NewItems([], []) == map[];
    assert p.inserts[1..] == [] && p.random[1..] == [];
  }

  lemma AppendCommits(held: map<Key, Identity>, version: nat, key: Key, record: seq<byte>, raw: StorageId)
    ensures Committed(held, version, AppendPlan(key, record, raw)) == held[key := Identity(raw, version, record)]
  {
    var p := AppendPlan(key, record, raw);
    assert IndexOf(p.keys, key) == 0;
    assert (set x | x in p.keys) == {key};
  }

  /** Made while caught up, an append is one of the machine's writes and keeps everything
      the caught-up theorem rests on. */
  lemma AppendWhileCaughtUp(k: KeyOf, s: System, s': System, key: Key, record: seq<byte>, raw: StorageId)
    requires Inv(k, s) && Append(k, s, s', key, record, raw)
    requires s.version == s.server.version
    ensures Inv(k, s') && Current(k, s')
  {
    var p := AppendPlan(key, record, raw);
    var writing := s.(op := Writing(s.version, s.server.ids, p));
    var accepted := writing.(server := s'.server, op := Accepted(s.version + 1, p));
    AppendStarts(k, s, key, record, raw);
    WriteStartKeeps(k, s, writing);
    AppendIsTaken(k, s, s', key, record, raw);
    AcceptKeeps(k, writing, accepted);
    AppendIsCommitted(k, s, s', key, record, raw);
    CommitKeeps(k, accepted, s');
  }

  lemma AppendIsTaken(k: KeyOf, s: System, s': System, key: Key, record: seq<byte>, raw: StorageId)
    requires Append(k, s, s', key, record, raw) && s.version == s.server.version
    ensures var p := AppendPlan(key, record, raw);
            var writing := s.(op := Writing(s.version, s.server.ids, p));
            Accept(k, writing, writing.(server := s'.server, op := Accepted(s.version + 1, p)))
  {
    AppendEdits(s.server.ids, key, record, raw);
    assert s.server.items + map[raw := Item(ItemTypeOf(key), record)] == s'.server.items;
  }

  lemma AppendIsCommitted(k: KeyOf, s: System, s': System, key: Key, record: seq<byte>, raw: StorageId)
    requires Append(k, s, s', key, record, raw) && s.version == s.server.version
    ensures Commit(k, s.(server := s'.server, op := Accepted(s.version + 1, AppendPlan(key, record, raw))), s')
  {
    AppendCommits(s.held, s.version + 1, key, record, raw);
  }

  lemma NotListedIfUnstored(k: KeyOf, sv: Server, raw: StorageId)
    requires ServerOk(k, sv) && raw !in sv.items
    ensures !Listed(sv.ids, raw)
  {
    forall i | 0 <= i < |sv.ids| ensures sv.ids[i].raw != raw {
      assert sv.ids[i] in sv.ids;
    }
  }

  lemma AppendedIsFetched(ids: seq<Identifier>, key: Key, raw: StorageId)
    ensures raw in Fetched(ids + [Identifier(raw, ItemTypeOf(key))])
  {
    var id := Identifier(raw, ItemTypeOf(key));
    OfTypeAppend(ids, [id], id.itemType);
    assert OfType([id], id.itemType) == [raw];
    LastOfAppend(OfType(ids, id.itemType), [raw]);
  }

  /** Exactly when an append leaves the device current at the version it now claims: when
      nothing else the manifest tracks was missing. */
  lemma AppendIsCurrent(k: KeyOf, s: System, s': System, key: Key, record: seq<byte>, raw: StorageId)
    requires Inv(k, s) && Append(k, s, s', key, record, raw)
    ensures Current(k, s') <==>
              forall other :: other in Fetched(s'.server.ids) && other != raw && Tracked(k, s'.server, other) ==>
                IsHeld(k, s.server, s.held, other)
  {
    AppendedIsFetched(s.server.ids, key, raw);
    forall other | other in Fetched(s'.server.ids) && other != raw && Tracked(k, s'.server, other)
      ensures IsHeld(k, s'.server, s'.held, other) <==> IsHeld(k, s.server, s.held, other)
    {
      assert k(s'.server.items[other].record) != k(s'.server.items[raw].record);
    }
  }

  /** Made while behind, it claims a version whose records were never read: every tracked
      record this device does not hold is missed, though it now counts as caught up. */
  lemma AppendWhileBehind(k: KeyOf, s: System, s': System, key: Key, record: seq<byte>, raw: StorageId,
                          missed: StorageId)
    requires Inv(k, s) && Append(k, s, s', key, record, raw)
    requires Tracked(k, s'.server, missed) && missed != raw && !IsHeld(k, s.server, s.held, missed)
    ensures s'.version == s'.server.version && !Current(k, s')
    ensures s.version < s.server.version
  {
    FetchedIsListed(s'.server.ids, missed);
    var id :| id in s'.server.ids && id.raw == missed;
    assert id in s.server.ids;
    assert !IsHeld(k, s'.server, s'.held, missed);
    if s.version == s.server.version {
      AppendWhileCaughtUp(k, s, s', key, record, raw);
    }
  }

  /** Such a state is one write of another device away from an empty store. */
  lemma AppendMissesAContact(k: KeyOf, theirs: seq<byte>, ours: seq<byte>)
    requires k(theirs) == Some(ContactKey("a")) && k(ours) == Some(ContactKey("b"))
    ensures exists s, s' ::
              && Init(k, s) && Append(k, s, s', ContactKey("b"), ours, [1])
              && s'.version == s'.server.version && !Current(k, s')
  {
    var id := Identifier([0], ContactItem);
    var server := Server(1, [id], map[[0] := Item(ContactItem, theirs)]);
    var s := System(server, 0, None, map[], Idle, []);
    var ours' := Identifier([1], ContactItem);
    var server' := Server(2, [id] + [ours'], server.items[[1] := Item(ContactItem, ours)]);
    var s' := s.(server := server', version := 2, held := map[ContactKey("b") := Identity([1], 2, ours)]);
    assert map[][ContactKey("b") := Identity([1], 2, ours)] == s'.held;
    assert Append(k, s, s', ContactKey("b"), ours, [1]);
    FetchedContacts(server'.ids);
    assert Tracked(k, server', [0]);
    assert !IsHeld(k, server', s'.held, [0]);
    assert [0] in Fetched(server'.ids);
  }

  lemma FetchedContacts(ids: seq<Identifier>)
    requires ids == [Identifier([0], ContactItem)] + [Identifier([1], ContactItem)]
    ensures [0] in Fetched(ids)
    ensures forall raw :: raw in Fetched(ids) ==> raw == [0] || raw == [1]
  {
    assert ids == [Identifier([0], ContactItem), Identifier([1], ContactItem)];
    assert Identifier([0], ContactItem) in ids;
    FetchedByType(ids, Identifier([0], ContactItem));
    forall raw | raw in Fetched(ids) ensures raw == [0] || raw == [1] {
      FetchedIsListed(ids, raw);
    }
  }
}
