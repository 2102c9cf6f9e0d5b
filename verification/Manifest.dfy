/** One manifest write (`write_manifest_edit`, manager/storage.rs): records go in under
    fresh identifiers, others are dropped, and the rest of the list stays as it is. */
module Manifest {
  import opened Wrappers
  import opened Varint

  /** 16 random bytes. */
  type StorageId = seq<byte>

  /** The record types presage models, and any other number another client may use. */
  datatype ItemType = ContactItem | GroupItem | FolderItem | StickerItem | AccountItem | Unmodelled(number: int)

  datatype Identifier = Identifier(raw: StorageId, itemType: ItemType)

  datatype ManifestRecord = ManifestRecord(version: nat, sourceDevice: nat, identifiers: seq<Identifier>,
                                           recordIkm: seq<byte>)

  datatype Insert = Insert(itemType: ItemType, record: seq<byte>)

  /** What is handed to the server: the new manifest, the records by id, the deleted ids. */
  datatype ManifestWrite = ManifestWrite(manifest: ManifestRecord, inserted: seq<(StorageId, seq<byte>)>,
                                         deleted: seq<StorageId>)

  datatype WriteError = StorageRecordMoved | StorageManifestConflict

  function Kept(ids: seq<Identifier>, dropped: seq<StorageId>): seq<Identifier> {
    if ids == [] then []
    else if ids[0].raw in dropped then Kept(ids[1..], dropped)
    else [ids[0]] + Kept(ids[1..], dropped)
  }

  function CountOf(ids: seq<Identifier>, raw: StorageId): nat {
    if ids == [] then 0 else (if ids[0].raw == raw then 1 else 0) + CountOf(ids[1..], raw)
  }

  predicate Distinct(raws: seq<StorageId>) {
    forall i, j :: 0 <= i < j < |raws| ==> raws[i] != raws[j]
  }

  /** Every id to delete is named once and is present exactly once. */
  predicate EachPresentOnce(ids: seq<Identifier>, dropped: seq<StorageId>) {
    Distinct(dropped) && forall i :: 0 <= i < |dropped| ==> CountOf(ids, dropped[i]) == 1
  }

  function Fresh(inserts: seq<Insert>, raws: seq<StorageId>): (ids: seq<Identifier>)
    requires |raws| == |inserts|
    ensures |ids| == |inserts|
  {
    seq(|inserts|, i requires 0 <= i < |inserts| => Identifier(raws[i], inserts[i].itemType))
  }

  /** The identifier sequence an edit leaves. */
  function Edited(ids: seq<Identifier>, dropped: seq<StorageId>, inserts: seq<Insert>,
                  raws: seq<StorageId>): seq<Identifier>
    requires |raws| == |inserts|
  {
    Kept(ids, dropped) + Fresh(inserts, raws)
  }

  predicate Listed(ids: seq<Identifier>, raw: StorageId) {
    exists i :: 0 <= i < |ids| && ids[i].raw == raw
  }

  /** No generated id is already kept, or generated twice. */
  predicate NoCollision(kept: seq<Identifier>, raws: seq<StorageId>) {
    Distinct(raws) && forall i :: 0 <= i < |raws| ==> !Listed(kept, raws[i])
  }

  // ----- what is kept

  lemma {:induction false} KeptOne(ids: seq<Identifier>, dropped: seq<StorageId>, raw: StorageId)
    ensures Kept(Kept(ids, dropped), [raw]) == Kept(ids, dropped + [raw])
    ensures CountOf(Kept(ids, dropped), raw) == if raw in dropped then 0 else CountOf(ids, raw)
    ensures |Kept(Kept(ids, dropped), [raw])| + CountOf(Kept(ids, dropped), raw) == |Kept(ids, dropped)|
  {
    if ids != [] {
      KeptOne(ids[1..], dropped, raw);
      var head, tail := ids[0], Kept(ids[1..], dropped);
      if head.raw !in dropped {
        assert ([head] + tail)[1..] == tail;
      }
    }
  }

  lemma {:induction false} KeptNothing(ids: seq<Identifier>)
    ensures Kept(ids, []) == ids
  {
    if ids != [] { KeptNothing(ids[1..]); }
  }

  lemma {:induction false} KeptMembers(ids: seq<Identifier>, dropped: seq<StorageId>)
    ensures forall id :: id in Kept(ids, dropped) <==> id in ids && id.raw !in dropped
  {
    if ids != [] { KeptMembers(ids[1..], dropped); }
  }

  /** The identifiers of some types, in order. */
  function Unmodelleds(ids: seq<Identifier>): seq<Identifier> {
    if ids == [] then []
    else if ids[0].itemType.Unmodelled? then [ids[0]] + Unmodelleds(ids[1..])
    else Unmodelleds(ids[1..])
  }

  lemma {:induction false} UnmodelledsAppend(a: seq<Identifier>, b: seq<Identifier>)
    ensures Unmodelleds(a + b) == Unmodelleds(a) + Unmodelleds(b)
  {
    var ab := a + b;
    if a == [] {
      assert ab == b;
    } else {
      assert ab[0] == a[0] && ab[1..] == a[1..] + b;
      UnmodelledsAppend(a[1..], b);
    }
  }

  /** An edit that deletes and inserts only modelled records leaves every identifier of an
      unmodelled type, in its order. */
  lemma {:induction false} EditKeepsUnmodelled(ids: seq<Identifier>, dropped: seq<StorageId>, inserts: seq<Insert>,
                                               raws: seq<StorageId>)
    requires |raws| == |inserts|
    requires forall id :: id in ids && id.raw in dropped ==> !id.itemType.Unmodelled?
    requires forall i :: 0 <= i < |inserts| ==> !inserts[i].itemType.Unmodelled?
    ensures Unmodelleds(Edited(ids, dropped, inserts, raws)) == Unmodelleds(ids)
  {
    UnmodelledsAppend(Kept(ids, dropped), Fresh(inserts, raws));
    KeptUnmodelled(ids, dropped);
    NoUnmodelled(Fresh(inserts, raws));
    assert Unmodelleds(ids) + [] == Unmodelleds(ids);
  }

  lemma {:induction false} KeptUnmodelled(ids: seq<Identifier>, dropped: seq<StorageId>)
    requires forall id :: id in ids && id.raw in dropped ==> !id.itemType.Unmodelled?
    ensures Unmodelleds(Kept(ids, dropped)) == Unmodelleds(ids)
  {
    if ids != [] {
      assert ids[0] in ids;
      assert forall id :: id in ids[1..] ==> id in ids;
      KeptUnmodelled(ids[1..], dropped);
    }
  }

  lemma {:induction false} NoUnmodelled(ids: seq<Identifier>)
    requires forall id :: id in ids ==> !id.itemType.Unmodelled?
    ensures Unmodelleds(ids) == []
  {
    if ids != [] {
      assert ids[0] in ids;
      NoUnmodelled(ids[1..]);
    }
  }

  // ----- the write

  /** Drop `dropped` from `ids` one id at a time, refusing an id that is not there exactly
      once. */
  method Drop(ids: seq<Identifier>, dropped: seq<StorageId>) returns (r: Result<seq<Identifier>, WriteError>)
    ensures r.Success? <==> EachPresentOnce(ids, dropped)
    ensures r.Success? ==> r.value == Kept(ids, dropped) && |r.value| + |dropped| == |ids|
    ensures r.Failure? ==> r.error == StorageRecordMoved
  {
    var identifiers := ids;
    KeptNothing(ids);
    for i := 0 to |dropped|
      invariant identifiers == Kept(ids, dropped[..i]) && |identifiers| + i == |ids|
      invariant EachPresentOnce(ids, dropped[..i])
    {
      var before := |identifiers|;
      KeptOne(ids, dropped[..i], dropped[i]);
      assert dropped[..i] + [dropped[i]] == dropped[..i + 1];
      identifiers := Kept(identifiers, [dropped[i]]);
      if before - |identifiers| != 1 {
        assert !EachPresentOnce(ids, dropped);
        return Failure(StorageRecordMoved);
      }
    }
    assert dropped[..|dropped|] == dropped;
    return Success(identifiers);
  }

  /** `random` is what the generator hands out, one id per insert. The write fails as moved
      exactly when an id to delete is not there exactly once, and as a conflict exactly when
      a generated id collides; the count check at the end never fires. Otherwise the
      identifiers are the old ones without the deleted, in place, then the new ones. */
  method WriteManifestEdit(current: ManifestRecord, device: nat, inserts: seq<Insert>, deleteIds: seq<StorageId>,
                           random: seq<StorageId>)
    returns (r: Result<ManifestWrite, WriteError>)
    requires |random| == |inserts|
    ensures r == Failure(StorageRecordMoved) <==> !EachPresentOnce(current.identifiers, deleteIds)
    ensures r == Failure(StorageManifestConflict) <==>
            EachPresentOnce(current.identifiers, deleteIds) &&
                !NoCollision(Kept(current.identifiers, deleteIds), random)
    ensures r.Success? ==>
              && r.value.manifest == ManifestRecord(current.version + 1, device,
                                                    Edited(current.identifiers, deleteIds, inserts, random),
                                                        current.recordIkm)
              && |r.value.inserted| == |inserts|
              && (forall i :: 0 <= i < |inserts| ==> r.value.inserted[i] == (random[i], inserts[i].record))
              && r.value.deleted == deleteIds
  {
    var identifiers :- Drop(current.identifiers, deleteIds);
    ghost var kept := identifiers;
    var inserted: seq<(StorageId, seq<byte>)> := [];
    for i := 0 to |inserts|
      invariant |inserted| == i
      invariant identifiers == kept + Fresh(inserts[..i], random[..i])
      invariant NoCollision(kept, random[..i])
      invariant forall j :: 0 <= j < i ==> inserted[j] == (random[j], inserts[j].record)
    {
      if exists j :: 0 <= j < |identifiers| && identifiers[j].raw == random[i] {
        ghost var j :| 0 <= j < |identifiers| && identifiers[j].raw == random[i];
        Collides(kept, random, i, j, identifiers, inserts);
        return Failure(StorageManifestConflict);
      }
      NoNewCollision(kept, random, i, identifiers, inserts);
      assert Fresh(inserts[..i + 1], random[..i + 1]) ==
          Fresh(inserts[..i], random[..i]) + [Identifier(random[i], inserts[i].itemType)];
      identifiers := identifiers + [Identifier(random[i], inserts[i].itemType)];
      inserted := inserted + [(random[i], inserts[i].record)];
    }
    assert inserts[..|inserts|] == inserts && random[..|inserts|] == random;
    var expected := |current.identifiers| + |inserted| - |deleteIds|;
    if |identifiers| != expected {
      assert false;
      return Failure(StorageManifestConflict);
    }
    return Success(ManifestWrite(
      ManifestRecord(current.version + 1, device, identifiers, current.recordIkm), inserted, deleteIds));
  }

  lemma Collides(kept: seq<Identifier>, random: seq<StorageId>, i: nat, j: nat, identifiers: seq<Identifier>,
                 inserts: seq<Insert>)
    requires i < |inserts| == |random| && identifiers == kept + Fresh(inserts[..i], random[..i])
    requires j < |identifiers| && identifiers[j].raw == random[i]
    ensures !NoCollision(kept, random)
  {
    if j < |kept| {
      assert Listed(kept, random[i]);
    } else {
      assert random[j - |kept|] == random[i];
    }
  }

  lemma NoNewCollision(kept: seq<Identifier>, random: seq<StorageId>, i: nat, identifiers: seq<Identifier>,
                       inserts: seq<Insert>)
    requires i < |inserts| == |random| && identifiers == kept + Fresh(inserts[..i], random[..i])
    requires !Listed(identifiers, random[i]) && NoCollision(kept, random[..i])
    ensures NoCollision(kept, random[..i + 1])
  {
    forall j | 0 <= j < i ensures random[j] != random[i] {
      assert identifiers[|kept| + j].raw == random[j];
    }
    forall p | 0 <= p < |kept| ensures kept[p].raw != random[i] {
      assert identifiers[p] == kept[p];
    }
  }
}
