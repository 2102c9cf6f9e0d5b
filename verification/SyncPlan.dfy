/** What a sync fetches and in which order (`sync_storage_service`, manager/storage.rs):
    contacts, groups and sticker packs first, then folders and the last account record, in
    batches that never mix the two. */
module SyncPlan {
  import opened Wrappers
  import opened Varint
  import opened Manifest

  const STORAGE_SERVICE_BATCH_SIZE: nat := 2500

  function OfType(ids: seq<Identifier>, itemType: ItemType): seq<StorageId> {
    if ids == [] then []
    else if ids[0].itemType == itemType then [ids[0].raw] + OfType(ids[1..], itemType)
    else OfType(ids[1..], itemType)
  }

  function LastOnly(raws: seq<StorageId>): seq<StorageId> {
    if |raws| > 1 then raws[|raws| - 1..] else raws
  }

  function SubjectKeys(ids: seq<Identifier>): seq<StorageId> {
    OfType(ids, ContactItem) + OfType(ids, GroupItem) + OfType(ids, StickerItem)
  }

  /** Every client expects one account record; of several only the last is read. */
  function TrailingKeys(ids: seq<Identifier>): seq<StorageId> {
    OfType(ids, FolderItem) + LastOnly(OfType(ids, AccountItem))
  }

  function Chunks(raws: seq<StorageId>, size: nat): (chunks: seq<seq<StorageId>>)
    requires size > 0
    ensures forall c :: c in chunks ==> 0 < |c| <= size
  {
    if raws == [] then []
    else if |raws| <= size then [raws]
    else [raws[..size]] + Chunks(raws[size..], size)
  }

  function Batches(ids: seq<Identifier>): (batches: seq<seq<StorageId>>)
    ensures forall b :: b in batches ==> 0 < |b| <= 2500
  {
    Chunks(SubjectKeys(ids), STORAGE_SERVICE_BATCH_SIZE) + Chunks(TrailingKeys(ids), STORAGE_SERVICE_BATCH_SIZE)
  }

  function SubjectBatches(ids: seq<Identifier>): nat {
    |Chunks(SubjectKeys(ids), STORAGE_SERVICE_BATCH_SIZE)|
  }

  function Flat(batches: seq<seq<StorageId>>): seq<StorageId> {
    if batches == [] then [] else batches[0] + Flat(batches[1..])
  }

  /** What this sync fetches at all. */
  function Fetched(ids: seq<Identifier>): seq<StorageId> {
    SubjectKeys(ids) + TrailingKeys(ids)
  }

  lemma {:induction false} ChunksCover(raws: seq<StorageId>, size: nat)
    requires size > 0
    ensures Flat(Chunks(raws, size)) == raws
  {
    if raws != [] && |raws| > size {
      ChunksCover(raws[size..], size);
      assert raws[..size] + raws[size..] == raws;
    } else if raws != [] {
      assert raws + [] == raws;
    }
  }

  lemma {:induction false} FlatAppend(a: seq<seq<StorageId>>, b: seq<seq<StorageId>>)
    ensures Flat(a + b) == Flat(a) + Flat(b)
  {
    var ab := a + b;
    if a == [] {
      assert ab == b;
    } else {
      assert ab[0] == a[0] && ab[1..] == a[1..] + b;
      FlatAppend(a[1..], b);
    }
  }

  /** The batches are the fetch list cut up: nothing is left out, repeated or moved. */
  lemma BatchesCover(ids: seq<Identifier>)
    ensures Flat(Batches(ids)) == Fetched(ids)
  {
    ChunksCover(SubjectKeys(ids), STORAGE_SERVICE_BATCH_SIZE);
    ChunksCover(TrailingKeys(ids), STORAGE_SERVICE_BATCH_SIZE);
    FlatAppend(Chunks(SubjectKeys(ids), STORAGE_SERVICE_BATCH_SIZE),
               Chunks(TrailingKeys(ids), STORAGE_SERVICE_BATCH_SIZE));
  }

  lemma {:induction false} FlatMember(batches: seq<seq<StorageId>>, raw: StorageId) returns (at: nat)
    requires raw in Flat(batches)
    ensures at < |batches| && raw in batches[at]
  {
    if raw in batches[0] {
      at := 0;
    } else {
      var below := FlatMember(batches[1..], raw);
      at := below + 1;
    }
  }

  lemma {:induction false} FlatHas(batches: seq<seq<StorageId>>, at: nat, raw: StorageId)
    requires at < |batches| && raw in batches[at]
    ensures raw in Flat(batches)
  {
    if at > 0 { FlatHas(batches[1..], at - 1, raw); }
  }

  lemma {:induction false} OfTypeMembers(ids: seq<Identifier>, itemType: ItemType)
    ensures forall raw :: raw in OfType(ids, itemType) <==> Identifier(raw, itemType) in ids
  {
    if ids != [] {
      OfTypeMembers(ids[1..], itemType);
      forall raw ensures raw in OfType(ids, itemType) <==> Identifier(raw, itemType) in ids {
        assert Identifier(raw, itemType) in ids <==>
            Identifier(raw, itemType) == ids[0] || Identifier(raw, itemType) in ids[1..];
      }
    }
  }

  lemma {:induction false} OfTypeAppend(a: seq<Identifier>, b: seq<Identifier>, itemType: ItemType)
    ensures OfType(a + b, itemType) == OfType(a, itemType) + OfType(b, itemType)
  {
    var ab := a + b;
    if a == [] {
      assert ab == b;
    } else {
      assert ab[0] == a[0] && ab[1..] == a[1..] + b;
      OfTypeAppend(a[1..], b, itemType);
    }
  }

  /** What is fetched, by type: every listed contact, group, sticker pack and folder, and of
      the accounts the last one listed. */
  lemma FetchedByType(ids: seq<Identifier>, id: Identifier)
    requires id in ids
    ensures id.itemType in {ContactItem, GroupItem, StickerItem} ==> id.raw in SubjectKeys(ids)
    ensures id.itemType == FolderItem ==> id.raw in TrailingKeys(ids)
    ensures id.itemType == AccountItem && id.raw == LastAccount(ids) ==> id.raw in TrailingKeys(ids)
  {
    assert Identifier(id.raw, id.itemType) == id;
    OfTypeMembers(ids, id.itemType);
  }

  function LastAccount(ids: seq<Identifier>): StorageId {
    var accounts := OfType(ids, AccountItem);
    if accounts == [] then [] else accounts[|accounts| - 1]
  }

  lemma FetchedIsListed(ids: seq<Identifier>, raw: StorageId)
    requires raw in Fetched(ids)
    ensures exists id :: id in ids && id.raw == raw && !id.itemType.Unmodelled?
  {
    OfTypeMembers(ids, ContactItem);
    OfTypeMembers(ids, GroupItem);
    OfTypeMembers(ids, StickerItem);
    OfTypeMembers(ids, FolderItem);
    OfTypeMembers(ids, AccountItem);
    var itemType :| itemType in {ContactItem, GroupItem, StickerItem, FolderItem, AccountItem} &&
        raw in OfType(ids, itemType);
    assert Identifier(raw, itemType) in ids;
  }

  /** Every batch but the last is as large as it may be. */
  lemma {:induction false} ChunksAreFull(raws: seq<StorageId>, size: nat)
    requires size > 0
    ensures forall i :: 0 <= i < |Chunks(raws, size)| - 1 ==> |Chunks(raws, size)[i]| == size
  {
    if |raws| > size {
      ChunksAreFull(raws[size..], size);
      var rest := Chunks(raws[size..], size);
      assert forall i :: 0 < i < |Chunks(raws, size)| ==> Chunks(raws, size)[i] == rest[i - 1];
    }
  }

  /** So only the last batch of each half asks for fewer than 2500 records. */
  lemma BatchesAreFull(ids: seq<Identifier>, i: nat)
    requires i < |Batches(ids)|
    ensures |Batches(ids)[i]| == 2500 || i == SubjectBatches(ids) - 1 || i == |Batches(ids)| - 1
  {
    ChunksAreFull(SubjectKeys(ids), STORAGE_SERVICE_BATCH_SIZE);
    ChunksAreFull(TrailingKeys(ids), STORAGE_SERVICE_BATCH_SIZE);
  }

  /** An account identifier is listed here and no other one after it. */
  predicate LastAccountAt(ids: seq<Identifier>, i: nat) {
    && i < |ids| && ids[i].itemType == AccountItem
    && forall j :: i < j < |ids| ==> ids[j].itemType != AccountItem
  }

  lemma {:induction false} NoneOfType(ids: seq<Identifier>, itemType: ItemType)
    ensures OfType(ids, itemType) == [] <==> forall j :: 0 <= j < |ids| ==> ids[j].itemType != itemType
  {
    if ids != [] {
      var rest := ids[1..];
      NoneOfType(rest, itemType);
      assert forall j :: 0 < j < |ids| ==> ids[j] == rest[j - 1];
      assert forall j :: 0 <= j < |rest| ==> rest[j] == ids[j + 1];
    }
  }

  lemma {:induction false} AccountsEndAt(ids: seq<Identifier>, i: nat)
    requires LastAccountAt(ids, i)
    ensures OfType(ids, AccountItem) != [] && LastAccount(ids) == ids[i].raw
    decreases |ids|
  {
    var rest := ids[1..];
    assert forall j :: 0 <= j < |rest| ==> rest[j] == ids[j + 1];
    if i > 0 {
      AccountsEndAt(rest, i - 1);
    } else {
      NoneOfType(rest, AccountItem);
    }
  }

  lemma {:induction false} AccountsEndSomewhere(ids: seq<Identifier>) returns (i: nat)
    requires OfType(ids, AccountItem) != []
    ensures LastAccountAt(ids, i)
  {
    var rest := ids[1..];
    assert forall j :: 0 < j < |ids| ==> ids[j] == rest[j - 1];
    if OfType(rest, AccountItem) != [] {
      i := AccountsEndSomewhere(rest);
      i := i + 1;
    } else {
      NoneOfType(rest, AccountItem);
      i := 0;
    }
  }

  /** Exactly what is fetched, and in which half: the first has every contact, group and sticker
      pack, the second every folder and the account listed last. */
  lemma FetchedExactly(ids: seq<Identifier>, raw: StorageId)
    ensures raw in SubjectKeys(ids) <==>
            exists t :: t in {ContactItem, GroupItem, StickerItem} && Identifier(raw, t) in ids
    ensures raw in TrailingKeys(ids) <==>
            Identifier(raw, FolderItem) in ids || exists i: nat :: LastAccountAt(ids, i) && ids[i].raw == raw
  {
    OfTypeMembers(ids, ContactItem);
    OfTypeMembers(ids, GroupItem);
    OfTypeMembers(ids, StickerItem);
    OfTypeMembers(ids, FolderItem);
    var accounts := OfType(ids, AccountItem);
    if accounts != [] {
      var i := AccountsEndSomewhere(ids);
      AccountsEndAt(ids, i);
      assert LastOnly(accounts) == [LastAccount(ids)];
    }
    forall i: nat | LastAccountAt(ids, i) ensures accounts != [] && LastAccount(ids) == ids[i].raw {
      AccountsEndAt(ids, i);
    }
  }
}
