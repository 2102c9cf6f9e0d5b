/** Whatever the other devices do and wherever this device is interrupted: being at the
    server's version means holding what the server holds. */
module CaughtUp {
  import opened Wrappers
  import opened Varint
  import opened Manifest
  import opened SyncPlan
  import opened SyncMachine

  // ----- the invariant

  /** What is held was really stored under that id, and for that row. */
  ghost predicate Honest(k: KeyOf, sv: Server, held: map<Key, Identity>) {
    forall key :: key in held ==>
      held[key].storageId in sv.items && sv.items[held[key].storageId].record == held[key].record &&
          k(held[key].record) == Some(key)
  }

  /** The keys of the first `n` batches. */
  function DoneKeys(ids: seq<Identifier>, n: nat): seq<StorageId> {
    Flat(Batches(ids)[..if n <= |Batches(ids)| then n else |Batches(ids)|])
  }

  ghost predicate CursorOk(k: KeyOf, s: System) {
    s.cursor.Some? ==>
      && s.cursor.value.target <= s.server.version
      && (s.cursor.value.target == s.server.version ==>
          Covers(k, s.server, s.held, DoneKeys(s.server.ids, s.cursor.value.next)))
  }

  /** Records of the current batch that are read and not merged yet. */
  ghost predicate UnmergedOk(k: KeyOf, s: System, ids: seq<Identifier>, next: nat,
                             unmerged: seq<(StorageId, seq<byte>)>) {
    && next < |Batches(ids)|
    && (forall r :: r in unmerged ==>
        r.0 in Batches(ids)[next] && r.0 in s.server.items && s.server.items[r.0].record == r.1)
  }

  ghost predicate BatchCovered(k: KeyOf, sv: Server, held: map<Key, Identity>, batch: seq<StorageId>,
                               unmerged: seq<(StorageId, seq<byte>)>) {
    forall raw :: raw in batch && Tracked(k, sv, raw) ==>
        IsHeld(k, sv, held, raw) || (raw, sv.items[raw].record) in unmerged
  }

  ghost predicate SyncingOk(k: KeyOf, s: System) {
    s.op.Syncing? ==>
      && s.version < s.op.version <= s.server.version
      && (s.cursor.Some? ==> s.cursor.value.target == s.op.version)
      && (s.op.unmerged.Some? ==> UnmergedOk(k, s, s.op.ids, s.op.next, s.op.unmerged.value))
      && (s.op.version == s.server.version ==>
            && s.op.ids == s.server.ids
            && Covers(k, s.server, s.held, DoneKeys(s.op.ids, s.op.next))
            && (s.op.unmerged.Some? ==>
                BatchCovered(k, s.server, s.held, Batches(s.op.ids)[s.op.next], s.op.unmerged.value)))
  }

  ghost predicate CursorBefore(s: System, version: nat) {
    s.cursor.Some? ==> s.cursor.value.target <= version
  }

  ghost predicate WritingOk(k: KeyOf, s: System) {
    s.op.Writing? ==>
      && s.version == s.op.version <= s.server.version
      && CursorBefore(s, s.op.version)
      && PlanOk(k, s.held, s.op.plan)
      && (s.op.version == s.server.version ==>
            && s.op.ids == s.server.ids
            && FreshIds(s.server.items, s.op.plan)
            && NoCollision(Kept(s.server.ids, s.op.plan.deleteIds), s.op.plan.random))
  }

  ghost predicate Stored(sv: Server, p: Plan)
    requires |p.inserts| == |p.random|
  {
    forall i :: 0 <= i < |p.random| ==>
      p.random[i] in sv.items && sv.items[p.random[i]] == Item(p.inserts[i].itemType, p.inserts[i].record)
  }

  /** Every record a write put in for a row other than a folder is one a sync would fetch. */
  ghost predicate Fetchable(sv: Server, p: Plan)
    requires |p.keys| == |p.random|
  {
    forall i :: 0 <= i < |p.keys| && !p.keys[i].FolderKey? ==> p.random[i] in Fetched(sv.ids)
  }

  ghost predicate CoversOthers(k: KeyOf, sv: Server, held: map<Key, Identity>, random: seq<StorageId>) {
    forall raw :: raw in Fetched(sv.ids) && raw !in random && Tracked(k, sv, raw) ==> IsHeld(k, sv, held, raw)
  }

  ghost predicate AcceptedOk(k: KeyOf, s: System) {
    s.op.Accepted? ==>
      && s.version < s.op.version <= s.server.version
      && CursorBefore(s, s.version)
      && PlanOk(k, s.held, s.op.plan)
      && Distinct(s.op.plan.random)
      && Stored(s.server, s.op.plan)
      && (s.op.version == s.server.version ==>
            Fetchable(s.server, s.op.plan) && CoversOthers(k, s.server, s.held, s.op.plan.random))
  }

  ghost predicate Inv(k: KeyOf, s: System) {
    && ServerOk(k, s.server)
    && Honest(k, s.server, s.held)
    && s.version <= s.server.version
    && Current(k, s)
    && CursorOk(k, s)
    && SyncingOk(k, s)
    && WritingOk(k, s)
    && AcceptedOk(k, s)
  }

  // ----- steps of the other devices

  lemma OtherWriteKeeps(k: KeyOf, s: System, s': System)
    requires Inv(k, s) && OtherWrite(k, s, s')
    ensures Inv(k, s')
  {
  }

  lemma AbortKeeps(k: KeyOf, s: System, s': System)
    requires Inv(k, s) && Abort(k, s, s')
    ensures Inv(k, s')
  {
  }

  // ----- steps of a sync

  lemma NothingDone(ids: seq<Identifier>)
    ensures DoneKeys(ids, 0) == []
  {
  }

  lemma AllDone(ids: seq<Identifier>, n: nat)
    requires n >= |Batches(ids)|
    ensures DoneKeys(ids, n) == Fetched(ids)
  {
    assert Batches(ids)[..|Batches(ids)|] == Batches(ids);
    BatchesCover(ids);
  }

  lemma OneMoreDone(ids: seq<Identifier>, n: nat)
    requires n < |Batches(ids)|
    ensures DoneKeys(ids, n + 1) == DoneKeys(ids, n) + Batches(ids)[n]
  {
    var b := Batches(ids);
    assert b[..n + 1] == b[..n] + [b[n]];
    FlatAppend(b[..n], [b[n]]);
    assert Flat([b[n]]) == b[n] + [] == b[n];
  }

  lemma BatchIsFetched(ids: seq<Identifier>, n: nat, raw: StorageId)
    requires n < |Batches(ids)| && raw in Batches(ids)[n]
    ensures raw in Fetched(ids)
  {
    FlatHas(Batches(ids), n, raw);
    BatchesCover(ids);
  }

  lemma FetchedIsStored(k: KeyOf, sv: Server, raw: StorageId)
    requires ServerOk(k, sv) && raw in Fetched(sv.ids)
    ensures raw in sv.items && Listed(sv.ids, raw)
  {
    FetchedIsListed(sv.ids, raw);
    var id :| id in sv.ids && id.raw == raw;
    var i :| 0 <= i < |sv.ids| && sv.ids[i] == id;
  }

  /** Forgetting folders touches no other row. */
  lemma ForgetKeeps(k: KeyOf, sv: Server, held: map<Key, Identity>, ids: seq<Identifier>, raws: seq<StorageId>)
    ensures Honest(k, sv, held) ==> Honest(k, sv, ForgetFolders(held, ids))
    ensures Covers(k, sv, held, raws) ==> Covers(k, sv, ForgetFolders(held, ids), raws)
  {
    if Covers(k, sv, held, raws) {
      forall raw | raw in raws && Tracked(k, sv, raw) ensures IsHeld(k, sv, ForgetFolders(held, ids), raw) {
        assert IsHeld(k, sv, held, raw);
      }
    }
  }

  lemma SyncStartKeeps(k: KeyOf, s: System, s': System)
    requires Inv(k, s) && SyncStart(k, s, s')
    ensures Inv(k, s')
  {
    NothingDone(s.server.ids);
    ForgetKeeps(k, s.server, s.held, s.server.ids, Fetched(s.server.ids));
    if s.cursor.Some? {
      ForgetKeeps(k, s.server, s.held, s.server.ids, DoneKeys(s.server.ids, s.cursor.value.next));
    }
  }

  lemma FetchBatchKeeps(k: KeyOf, s: System, s': System)
    requires Inv(k, s) && FetchBatch(k, s, s')
    ensures Inv(k, s')
  {
    var batch := Batches(s.op.ids)[s.op.next];
    if s.op.version == s.server.version {
      forall raw | raw in batch && Tracked(k, s.server, raw)
        ensures (raw, s.server.items[raw].record) in s'.op.unmerged.value
      {
        BatchIsFetched(s.op.ids, s.op.next, raw);
        FetchedIsStored(k, s.server, raw);
      }
    }
  }

  /** Saving one fetched record keeps every tracked record that was held: another record of
      the same row would have made it untracked. */
  lemma SavedKeeps(k: KeyOf, sv: Server, held: map<Key, Identity>, version: nat, r: (StorageId, seq<byte>),
                   raw: StorageId)
    requires r.0 in Fetched(sv.ids) && r.0 in sv.items && sv.items[r.0].record == r.1
    requires Tracked(k, sv, raw) && (IsHeld(k, sv, held, raw) || r.0 == raw)
    ensures IsHeld(k, sv, Saved(k, held, version, r), raw)
  {
  }

  lemma MergeOneKeeps(k: KeyOf, s: System, s': System)
    requires Inv(k, s) && MergeOne(k, s, s')
    ensures Inv(k, s')
  {
    var r, rest := s.op.unmerged.value[0], s.op.unmerged.value[1..];
    assert r in s.op.unmerged.value && forall x :: x in rest ==> x in s.op.unmerged.value;
    assert Honest(k, s.server, s'.held);
    BatchIsFetched(s.op.ids, s.op.next, r.0);
    if s.op.version == s.server.version {
      var batch := Batches(s.op.ids)[s.op.next];
      forall raw | Tracked(k, s.server, raw) && IsHeld(k, s.server, s.held, raw)
        ensures IsHeld(k, s.server, s'.held, raw)
      {
        SavedKeeps(k, s.server, s.held, s.op.version, r, raw);
      }
      forall raw | raw in batch && Tracked(k, s.server, raw)
        ensures IsHeld(k, s.server, s'.held, raw) || (raw, s.server.items[raw].record) in rest
      {
        if r.0 == raw { SavedKeeps(k, s.server, s.held, s.op.version, r, raw); }
      }
    }
  }

  lemma BatchDoneKeeps(k: KeyOf, s: System, s': System)
    requires Inv(k, s) && BatchDone(k, s, s')
    ensures Inv(k, s')
  {
    OneMoreDone(s.op.ids, s.op.next);
  }

  lemma SyncFinishKeeps(k: KeyOf, s: System, s': System)
    requires Inv(k, s) && SyncFinish(k, s, s')
    ensures Inv(k, s')
  {
    AllDone(s.op.ids, s.op.next);
    ForgetKeeps(k, s.server, s.held, s.op.ids, Fetched(s.op.ids));
  }

  // ----- steps of a write

  lemma WriteStartKeeps(k: KeyOf, s: System, s': System)
    requires Inv(k, s) && WriteStart(k, s, s')
    ensures Inv(k, s')
  {
  }

  lemma {:induction false} NewItemsKeys(inserts: seq<Insert>, random: seq<StorageId>)
    requires |inserts| == |random|
    ensures forall raw :: raw in NewItems(inserts, random) ==> raw in random
  {
    if inserts != [] { NewItemsKeys(inserts[1..], random[1..]); }
  }

  lemma {:induction false} NewItemsAt(inserts: seq<Insert>, random: seq<StorageId>, i: nat)
    requires |inserts| == |random| && Distinct(random) && i < |random|
    ensures random[i] in NewItems(inserts, random)
    ensures NewItems(inserts, random)[random[i]] == Item(inserts[i].itemType, inserts[i].record)
  {
    if i > 0 {
      NewItemsAt(inserts[1..], random[1..], i - 1);
      assert random[i] == random[1..][i - 1] && inserts[i] == inserts[1..][i - 1];
    }
  }

  /** The server after a write, as the invariant sees it. */
  lemma AcceptStores(k: KeyOf, s: System, s': System)
    requires Inv(k, s) && Accept(k, s, s')
    ensures Stored(s'.server, s.op.plan) && Grows(s.server.items, s'.server.items) && Distinct(s.op.plan.random)
    ensures forall raw :: raw in s'.server.items ==> raw in s.server.items || raw in s.op.plan.random
  {
    var p := s.op.plan;
    NewItemsKeys(p.inserts, p.random);
    forall i | 0 <= i < |p.random|
      ensures p.random[i] in s'.server.items &&
              s'.server.items[p.random[i]] == Item(p.inserts[i].itemType, p.inserts[i].record)
    {
      NewItemsAt(p.inserts, p.random, i);
    }
  }

  lemma FreshMembers(inserts: seq<Insert>, random: seq<StorageId>)
    requires |inserts| == |random|
    ensures forall id :: id in Fresh(inserts, random) ==>
              exists i :: 0 <= i < |random| && id == Identifier(random[i], inserts[i].itemType)
    ensures forall i :: 0 <= i < |random| ==> Identifier(random[i], inserts[i].itemType) in Fresh(inserts, random)
  {
    forall i | 0 <= i < |random| ensures Identifier(random[i], inserts[i].itemType) in Fresh(inserts, random) {
      assert Fresh(inserts, random)[i] == Identifier(random[i], inserts[i].itemType);
    }
  }

  lemma AcceptServerOk(k: KeyOf, s: System, s': System)
    requires Inv(k, s) && Accept(k, s, s')
    ensures ServerOk(k, s'.server)
  {
    var p := s.op.plan;
    AcceptStores(k, s, s');
    KeptMembers(s.op.ids, p.deleteIds);
    FreshMembers(p.inserts, p.random);
    forall id | id in s'.server.ids
      ensures id.raw in s'.server.items && s'.server.items[id.raw].itemType == id.itemType
    {
      if id in Kept(s.op.ids, p.deleteIds) { assert id in s.server.ids; }
    }
    forall raw | raw in s'.server.items && k(s'.server.items[raw].record).Some?
      ensures ItemTypeOf(k(s'.server.items[raw].record).value) == s'.server.items[raw].itemType
    {
      if raw in p.random {
        var i :| 0 <= i < |p.random| && p.random[i] == raw;
        assert k(p.inserts[i].record) == Some(p.keys[i]);
      } else {
        assert raw in s.server.items;
      }
    }
  }

  // ----- which ids a sync of the new manifest would fetch

  lemma {:induction false} KeptOfType(ids: seq<Identifier>, dropped: seq<StorageId>, itemType: ItemType)
    ensures forall raw :: raw in OfType(Kept(ids, dropped), itemType) ==> raw in OfType(ids, itemType)
    ensures forall raw :: raw in OfType(ids, itemType) && raw !in dropped ==>
            raw in OfType(Kept(ids, dropped), itemType)
    ensures (forall raw :: raw in OfType(ids, itemType) ==> raw !in dropped) ==>
            OfType(Kept(ids, dropped), itemType) == OfType(ids, itemType)
  {
    if ids != [] {
      KeptOfType(ids[1..], dropped, itemType);
      var head, tail := ids[0], Kept(ids[1..], dropped);
      assert ([head] + tail)[1..] == tail;
    }
  }

  lemma FreshOfType(inserts: seq<Insert>, random: seq<StorageId>, itemType: ItemType)
    requires |inserts| == |random|
    ensures forall raw :: raw in OfType(Fresh(inserts, random), itemType) ==> raw in random
    ensures forall i :: 0 <= i < |random| && inserts[i].itemType == itemType ==>
            random[i] in OfType(Fresh(inserts, random), itemType)
  {
    FreshMembers(inserts, random);
    OfTypeMembers(Fresh(inserts, random), itemType);
  }

  lemma LastOfAppend(before: seq<StorageId>, since: seq<StorageId>)
    ensures since != [] ==> LastOnly(before + since) == [since[|since| - 1]] && since[|since| - 1] in since
  {
  }

  lemma LastOnlyIn(raws: seq<StorageId>)
    ensures forall raw :: raw in LastOnly(raws) ==> raw in raws
    ensures raws != [] ==> LastOnly(raws) == [raws[|raws| - 1]]
  {
  }

  predicate InsertsAccount(p: Plan) {
    exists i :: 0 <= i < |p.inserts| && p.inserts[i].itemType == AccountItem
  }

  /** A write deletes an account record only to replace it. */
  lemma AccountDeletedIsReplaced(k: KeyOf, s: System, raw: StorageId)
    requires Inv(k, s) && s.op.Writing? && s.op.version == s.server.version
    requires raw in s.op.plan.deleteIds && raw in s.server.items && s.server.items[raw].itemType == AccountItem
    ensures InsertsAccount(s.op.plan)
  {
    var p := s.op.plan;
    assert DeletesRow(s.held, p, raw);
    var key :| key in s.held && s.held[key].storageId == raw && (key in p.keys || key.FolderKey?);
    assert ItemTypeOf(key) == AccountItem;
    var i :| 0 <= i < |p.keys| && p.keys[i] == key;
    assert p.inserts[i].itemType == AccountItem;
  }

  /** An old id the new manifest would have fetched is one the old manifest had fetched. */
  lemma FetchedBefore(k: KeyOf, s: System, s': System, raw: StorageId)
    requires Inv(k, s) && Accept(k, s, s')
    requires raw in Fetched(s'.server.ids) && raw !in s.op.plan.random
    ensures raw in Fetched(s.server.ids)
  {
    var p := s.op.plan;
    var kept, added := Kept(s.server.ids, p.deleteIds), Fresh(p.inserts, p.random);
    forall t: ItemType ensures OfType(s'.server.ids, t) == OfType(kept, t) + OfType(added, t) {
      OfTypeAppend(kept, added, t);
    }
    forall t: ItemType, r | r in OfType(s'.server.ids, t) && r !in p.random ensures r in OfType(s.server.ids, t) {
      KeptOfType(s.server.ids, p.deleteIds, t);
      FreshOfType(p.inserts, p.random, t);
    }
    if raw in LastOnly(OfType(s'.server.ids, AccountItem)) {
      LastAccountBefore(k, s, s', raw);
    }
  }

  lemma LastAccountBefore(k: KeyOf, s: System, s': System, raw: StorageId)
    requires Inv(k, s) && Accept(k, s, s')
    requires raw in LastOnly(OfType(s'.server.ids, AccountItem)) && raw !in s.op.plan.random
    ensures raw in LastOnly(OfType(s.server.ids, AccountItem))
    ensures !InsertsAccount(s.op.plan)
  {
    var p := s.op.plan;
    var kept, added := Kept(s.server.ids, p.deleteIds), Fresh(p.inserts, p.random);
    OfTypeAppend(kept, added, AccountItem);
    FreshOfType(p.inserts, p.random, AccountItem);
    var before, since := OfType(kept, AccountItem), OfType(added, AccountItem);
    LastOfAppend(before, since);
    assert since == [];
    assert before + since == before;
    OfTypeMembers(s.server.ids, AccountItem);
    forall r | r in OfType(s.server.ids, AccountItem) ensures r !in p.deleteIds {
      assert Identifier(r, AccountItem) in s.server.ids;
      if r in p.deleteIds { AccountDeletedIsReplaced(k, s, r); }
    }
    KeptOfType(s.server.ids, p.deleteIds, AccountItem);
  }

  lemma InsertIsListed(k: KeyOf, s: System, s': System, i: nat)
    requires Inv(k, s) && Accept(k, s, s') && i < |s.op.plan.keys|
    ensures s.op.plan.random[i] in OfType(s'.server.ids, ItemTypeOf(s.op.plan.keys[i]))
  {
    var p, t := s.op.plan, ItemTypeOf(s.op.plan.keys[i]);
    OfTypeAppend(Kept(s.server.ids, p.deleteIds), Fresh(p.inserts, p.random), t);
    FreshOfType(p.inserts, p.random, t);
  }

  lemma InsertsAreFetched(k: KeyOf, s: System, s': System, i: nat)
    requires Inv(k, s) && Accept(k, s, s')
    requires i < |s.op.plan.keys| && !s.op.plan.keys[i].FolderKey?
    ensures s.op.plan.random[i] in Fetched(s'.server.ids)
  {
    InsertIsListed(k, s, s', i);
    if s.op.plan.keys[i].AccountKey? { AccountInsertIsLast(k, s, s', i); }
  }

  lemma AccountInsertIsLast(k: KeyOf, s: System, s': System, i: nat)
    requires Inv(k, s) && Accept(k, s, s') && i < |s.op.plan.keys| && s.op.plan.keys[i].AccountKey?
    ensures s.op.plan.random[i] in LastOnly(OfType(s'.server.ids, AccountItem))
  {
    var p := s.op.plan;
    var kept, added := Kept(s.server.ids, p.deleteIds), Fresh(p.inserts, p.random);
    OfTypeAppend(kept, added, AccountItem);
    OnlyAccountIsLast(p, i);
    LastOfAppend(OfType(kept, AccountItem), OfType(added, AccountItem));
  }

  /** A plan has at most one account record, so its identifier is the last one. */
  lemma OnlyAccountIsLast(p: Plan, i: nat)
    requires |p.keys| == |p.inserts| == |p.random| && i < |p.keys| && p.keys[i] == AccountKey
    requires forall a, b :: 0 <= a < b < |p.keys| ==> p.keys[a] != p.keys[b]
    requires forall a :: 0 <= a < |p.keys| ==> p.inserts[a].itemType == ItemTypeOf(p.keys[a])
    ensures var accounts := OfType(Fresh(p.inserts, p.random), AccountItem);
            accounts != [] && accounts[|accounts| - 1] == p.random[i]
  {
    var added := Fresh(p.inserts, p.random);
    FreshOfType(p.inserts, p.random, AccountItem);
    OfTypeMembers(added, AccountItem);
    var accounts := OfType(added, AccountItem);
    var last := accounts[|accounts| - 1];
    assert last in accounts && Identifier(last, AccountItem) in added;
    var j :| 0 <= j < |added| && added[j] == Identifier(last, AccountItem);
    assert p.keys[j] == AccountKey;
    assert j == i;
  }

  /** A record the new manifest tracks, if it is not one the write put in, was tracked
      before it. */
  lemma TrackedBefore(k: KeyOf, s: System, s': System, raw: StorageId)
    requires Inv(k, s) && Accept(k, s, s')
    requires raw !in s.op.plan.random && Tracked(k, s'.server, raw)
    ensures Tracked(k, s.server, raw)
  {
    AcceptStores(k, s, s');
    FetchedBefore(k, s, s', raw);
    FetchedIsStored(k, s.server, raw);
    var key := k(s.server.items[raw].record).value;
    forall other | other in Fetched(s.server.ids) && other in s.server.items && other != raw
      ensures k(s.server.items[other].record) != Some(key)
    {
      if k(s.server.items[other].record) == Some(key) {
        RivalRemains(k, s, s', raw, other);
      }
    }
  }

  /** A second record of the same row is still fetched after the write, or was replaced by
      one that is: either way the row still has two. */
  lemma RivalRemains(k: KeyOf, s: System, s': System, raw: StorageId, other: StorageId)
    requires Inv(k, s) && Accept(k, s, s')
    requires raw !in s.op.plan.random && raw in Fetched(s'.server.ids) && raw in s.server.items
    requires other in Fetched(s.server.ids) && other in s.server.items && other != raw
    requires k(s.server.items[other].record).Some? && !k(s.server.items[other].record).value.FolderKey?
    requires k(s.server.items[raw].record) == k(s.server.items[other].record)
    ensures !Tracked(k, s'.server, raw)
  {
    var p, key := s.op.plan, k(s.server.items[other].record).value;
    AcceptStores(k, s, s');
    if key in p.keys {
      var i :| 0 <= i < |p.keys| && p.keys[i] == key;
      InsertsAreFetched(k, s, s', i);
      assert k(s'.server.items[p.random[i]].record) == Some(key);
    } else {
      NotDeleted(k, s, other);
      StillFetched(k, s, s', other);
    }
  }

  lemma NotDeleted(k: KeyOf, s: System, other: StorageId)
    requires Inv(k, s) && s.op.Writing? && other in s.server.items
    requires k(s.server.items[other].record).Some?
    requires var key := k(s.server.items[other].record).value; !key.FolderKey? && key !in s.op.plan.keys
    ensures other !in s.op.plan.deleteIds
  {
    forall raw | raw in s.op.plan.deleteIds ensures raw != other {
      assert DeletesRow(s.held, s.op.plan, raw);
    }
  }

  /** A fetched id that the write neither deletes nor supersedes is fetched after it. */
  lemma StillFetched(k: KeyOf, s: System, s': System, other: StorageId)
    requires Inv(k, s) && Accept(k, s, s')
    requires other in Fetched(s.server.ids) && other in s.server.items && other !in s.op.plan.deleteIds
    requires k(s.server.items[other].record).Some?
    requires k(s.server.items[other].record).value !in s.op.plan.keys
    ensures other in Fetched(s'.server.ids)
  {
    var p := s.op.plan;
    var kept, added := Kept(s.server.ids, p.deleteIds), Fresh(p.inserts, p.random);
    forall t: ItemType ensures OfType(s'.server.ids, t) == OfType(kept, t) + OfType(added, t) {
      OfTypeAppend(kept, added, t);
    }
    forall t: ItemType | other in OfType(s.server.ids, t) ensures other in OfType(s'.server.ids, t) {
      KeptOfType(s.server.ids, p.deleteIds, t);
    }
    if other in LastOnly(OfType(s.server.ids, AccountItem)) {
      LastAccountStays(k, s, s', other);
    }
  }

  lemma LastAccountStays(k: KeyOf, s: System, s': System, other: StorageId)
    requires Inv(k, s) && Accept(k, s, s')
    requires other in LastOnly(OfType(s.server.ids, AccountItem)) && other in s.server.items
    requires k(s.server.items[other].record).Some? && k(s.server.items[other].record).value !in s.op.plan.keys
    ensures other in LastOnly(OfType(s'.server.ids, AccountItem))
  {
    var p := s.op.plan;
    var kept, added := Kept(s.server.ids, p.deleteIds), Fresh(p.inserts, p.random);
    OfTypeMembers(s.server.ids, AccountItem);
    LastOnlyIn(OfType(s.server.ids, AccountItem));
    assert Identifier(other, AccountItem) in s.server.ids;
    assert k(s.server.items[other].record) == Some(AccountKey);
    assert !InsertsAccount(p);
    forall r | r in OfType(s.server.ids, AccountItem) ensures r !in p.deleteIds {
      assert Identifier(r, AccountItem) in s.server.ids;
      if r in p.deleteIds { AccountDeletedIsReplaced(k, s, r); }
    }
    KeptOfType(s.server.ids, p.deleteIds, AccountItem);
    OfTypeAppend(kept, added, AccountItem);
    NoFreshAccount(p);
    assert OfType(kept, AccountItem) + [] == OfType(kept, AccountItem);
  }

  lemma NoFreshAccount(p: Plan)
    requires |p.inserts| == |p.random| && !InsertsAccount(p)
    ensures OfType(Fresh(p.inserts, p.random), AccountItem) == []
  {
    var added := Fresh(p.inserts, p.random);
    OfTypeMembers(added, AccountItem);
    FreshMembers(p.inserts, p.random);
    HasMember(OfType(added, AccountItem));
  }

  lemma HasMember(raws: seq<StorageId>)
    ensures raws != [] ==> raws[0] in raws
  {
  }

  lemma AcceptKeeps(k: KeyOf, s: System, s': System)
    requires Inv(k, s) && Accept(k, s, s')
    ensures Inv(k, s')
  {
    AcceptStores(k, s, s');
    AcceptServerOk(k, s, s');
    forall i | 0 <= i < |s.op.plan.keys| && !s.op.plan.keys[i].FolderKey?
      ensures s.op.plan.random[i] in Fetched(s'.server.ids)
    {
      InsertsAreFetched(k, s, s', i);
    }
    forall raw | raw in Fetched(s'.server.ids) && raw !in s.op.plan.random && Tracked(k, s'.server, raw)
      ensures IsHeld(k, s'.server, s.held, raw)
    {
      TrackedBefore(k, s, s', raw);
      assert IsHeld(k, s.server, s.held, raw);
    }
  }

  /** What storing an accepted write does to each row: the written ones hold their new identifier,
      the version and the new bytes, the dropped ones hold nothing, every other one is as it was. */
  lemma CommittedIs(held: map<Key, Identity>, version: nat, p: Plan, key: Key)
    requires |p.keys| == |p.inserts| == |p.random|
    requires forall i, j :: 0 <= i < j < |p.keys| ==> p.keys[i] != p.keys[j]
    requires forall dropped :: dropped in p.dropped ==> dropped !in p.keys
    ensures var after := Committed(held, version, p);
            && (forall i :: 0 <= i < |p.keys| && p.keys[i] == key ==>
                  key in after && after[key] == Identity(p.random[i], version, p.inserts[i].record))
            && (key in p.dropped ==> key !in after)
            && (key !in p.keys && key !in p.dropped ==>
                  (key in after <==> key in held) && (key in held ==> after[key] == held[key]))
  {
    var n := IndexOf(p.keys, key);
  }

  lemma CommitKeeps(k: KeyOf, s: System, s': System)
    requires Inv(k, s) && Commit(k, s, s')
    ensures Inv(k, s')
  {
    var p := s.op.plan;
    assert Honest(k, s.server, s'.held);
    if s.op.version == s.server.version {
      forall raw | raw in Fetched(s.server.ids) && Tracked(k, s.server, raw)
        ensures IsHeld(k, s.server, s'.held, raw)
      {
        CommitHolds(k, s, raw);
      }
    }
  }

  lemma CommitHolds(k: KeyOf, s: System, raw: StorageId)
    requires Inv(k, s) && s.op.Accepted? && s.op.version == s.server.version
    requires raw in Fetched(s.server.ids) && Tracked(k, s.server, raw)
    ensures IsHeld(k, s.server, Committed(s.held, s.op.version, s.op.plan), raw)
  {
    var p, key := s.op.plan, k(s.server.items[raw].record).value;
    if raw in p.random {
      var i :| 0 <= i < |p.random| && p.random[i] == raw;
      assert k(p.inserts[i].record) == Some(p.keys[i]);
      assert p.keys[IndexOf(p.keys, key)] == p.keys[i];
    } else {
      assert IsHeld(k, s.server, s.held, raw);
      forall i | 0 <= i < |p.keys| ensures p.keys[i] != key {
        assert p.keys[i].FolderKey? ||
            (p.random[i] in Fetched(s.server.ids) && k(s.server.items[p.random[i]].record) == Some(p.keys[i]));
      }
    }
  }

  // ----- runs

  lemma NextKeeps(k: KeyOf, s: System, s': System)
    requires Inv(k, s) && Next(k, s, s')
    ensures Inv(k, s')
  {
    if OtherWrite(k, s, s') { OtherWriteKeeps(k, s, s'); }
    else if SyncStart(k, s, s') { SyncStartKeeps(k, s, s'); }
    else if FetchBatch(k, s, s') { FetchBatchKeeps(k, s, s'); }
    else if MergeOne(k, s, s') { MergeOneKeeps(k, s, s'); }
    else if BatchDone(k, s, s') { BatchDoneKeeps(k, s, s'); }
    else if SyncFinish(k, s, s') { SyncFinishKeeps(k, s, s'); }
    else if WriteStart(k, s, s') { WriteStartKeeps(k, s, s'); }
    else if Accept(k, s, s') { AcceptKeeps(k, s, s'); }
    else if Commit(k, s, s') { CommitKeeps(k, s, s'); }
    else { AbortKeeps(k, s, s'); }
  }

  ghost predicate StepAt(k: KeyOf, run: seq<System>, i: nat)
    requires 0 < i < |run|
  {
    Next(k, run[i - 1], run[i])
  }

  ghost predicate IsRun(k: KeyOf, run: seq<System>) {
    && run != [] && Init(k, run[0])
    && forall i :: 0 < i < |run| ==> StepAt(k, run, i)
  }

  lemma RunExtends(k: KeyOf, run: seq<System>, next: System)
    requires IsRun(k, run) && Next(k, run[|run| - 1], next)
    ensures IsRun(k, run + [next])
  {
    var longer := run + [next];
    forall i | 0 < i < |longer| ensures StepAt(k, longer, i) {
      if i < |run| {
        assert StepAt(k, run, i);
        assert longer[i - 1] == run[i - 1] && longer[i] == run[i];
      }
    }
  }

  lemma {:induction false} RunInv(k: KeyOf, run: seq<System>, n: nat)
    requires IsRun(k, run) && n < |run|
    ensures Inv(k, run[n])
  {
    if n > 0 {
      RunInv(k, run, n - 1);
      assert StepAt(k, run, n);
      NextKeeps(k, run[n - 1], run[n]);
    }
  }

  lemma {:induction false} VersionsGrow(k: KeyOf, run: seq<System>, i: nat, j: nat)
    requires IsRun(k, run) && i <= j < |run|
    ensures run[i].server.version <= run[j].server.version
    decreases j - i
  {
    if i < j {
      VersionsGrow(k, run, i, j - 1);
      RunInv(k, run, j - 1);
      assert StepAt(k, run, j);
      VersionStep(k, run[j - 1], run[j]);
    }
  }

  lemma VersionStep(k: KeyOf, s: System, s': System)
    requires Inv(k, s) && Next(k, s, s')
    ensures s.server.version <= s'.server.version
  {
  }

  /** Caught up means current. From an empty store, over every interleaving of other
      devices' writes with this device's syncs, writes, interruptions and resumptions:
      whenever the stored version is the server's, every tracked record of the manifest is
      held under the id it is listed with, with the bytes the server stores. */
  lemma CaughtUpMeansCurrent(k: KeyOf, run: seq<System>, n: nat, raw: StorageId)
    requires IsRun(k, run) && n < |run|
    requires run[n].version == run[n].server.version && Tracked(k, run[n].server, raw)
    ensures var sv, held := run[n].server, run[n].held;
            var key := k(sv.items[raw].record).value;
            key in held && held[key].storageId == raw && held[key].record == sv.items[raw].record
  {
    RunInv(k, run, n);
    assert IsHeld(k, run[n].server, run[n].held, raw);
  }

  // ----- nothing is lost from the manifest

  /** Every write of this device the server takes leaves the identifiers the server had at
      that moment, minus the deleted ones, in their order and with their types, followed by
      the new ones; and every identifier of an unmodelled type among them. */
  lemma AcceptedWriteKeepsManifest(k: KeyOf, run: seq<System>, n: nat)
    requires IsRun(k, run) && 0 < n < |run| && Accept(k, run[n - 1], run[n])
    ensures var before, after, p := run[n - 1].server, run[n].server, run[n - 1].op.plan;
            && after.version == before.version + 1
            && after.ids == Kept(before.ids, p.deleteIds) + Fresh(p.inserts, p.random)
            && (forall id :: id in before.ids && id.raw !in p.deleteIds ==> id in after.ids)
            && Unmodelleds(after.ids) == Unmodelleds(before.ids)
            && Grows(before.items, after.items)
  {
    var s := run[n - 1];
    RunInv(k, run, n - 1);
    AcceptStores(k, s, run[n]);
    KeptMembers(s.server.ids, s.op.plan.deleteIds);
    PlanSparesUnmodelled(k, s);
    EditKeepsUnmodelled(s.server.ids, s.op.plan.deleteIds, s.op.plan.inserts, s.op.plan.random);
  }

  lemma PlanSparesUnmodelled(k: KeyOf, s: System)
    requires Inv(k, s) && s.op.Writing? && s.op.version == s.server.version
    ensures forall id :: id in s.server.ids && id.raw in s.op.plan.deleteIds ==> !id.itemType.Unmodelled?
    ensures forall i :: 0 <= i < |s.op.plan.inserts| ==> !s.op.plan.inserts[i].itemType.Unmodelled?
  {
    forall id | id in s.server.ids && id.raw in s.op.plan.deleteIds ensures !id.itemType.Unmodelled? {
      assert DeletesRow(s.held, s.op.plan, id.raw);
    }
  }

  /** Over a run, only another device's write takes an identifier of an unmodelled type out
      of the manifest. */
  lemma DeviceKeepsUnmodelled(k: KeyOf, run: seq<System>, n: nat)
    requires IsRun(k, run) && 0 < n < |run| && !OtherWrite(k, run[n - 1], run[n])
    ensures Unmodelleds(run[n].server.ids) == Unmodelleds(run[n - 1].server.ids)
  {
    assert StepAt(k, run, n);
    if Accept(k, run[n - 1], run[n]) { AcceptedWriteKeepsManifest(k, run, n); }
  }

  /** While caught up, the identifier held for a tracked record is in the manifest, so the
      write that replaces it is refused as moved only if a peer listed it twice. */
  lemma HeldIsListed(k: KeyOf, run: seq<System>, n: nat, raw: StorageId)
    requires IsRun(k, run) && n < |run|
    requires run[n].version == run[n].server.version && Tracked(k, run[n].server, raw)
    ensures var s := run[n];
            var key := k(s.server.items[raw].record).value;
            key in s.held &&
            var id := s.held[key].storageId;
            CountOf(s.server.ids, id) >= 1 && (EachPresentOnce(s.server.ids, [id]) <==> CountOf(s.server.ids, id) == 1)
  {
    CaughtUpMeansCurrent(k, run, n, raw);
    RunInv(k, run, n);
    FetchedIsStored(k, run[n].server, raw);
    ListedCounts(run[n].server.ids, raw);
    assert EachPresentOnce(run[n].server.ids, [raw]) ==> [raw][0] == raw;
  }

  lemma {:induction false} ListedCounts(ids: seq<Identifier>, raw: StorageId)
    requires Listed(ids, raw)
    ensures CountOf(ids, raw) >= 1
  {
    var i :| 0 <= i < |ids| && ids[i].raw == raw;
    if i > 0 {
      assert ids[1..][i - 1].raw == raw;
      ListedCounts(ids[1..], raw);
    }
  }
}
