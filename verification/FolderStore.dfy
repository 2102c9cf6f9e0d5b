/** The folder half of the store and the operations that write it: create, edit and delete
    (manager/chat_folders.rs), and the upkeep a sync ends with (manager/storage.rs). */
module FolderStore {
  import opened Wrappers
  import opened ChatFolders
  import opened FolderMerge

  datatype FolderError = InvalidName | UnknownId | Undeletable

  /** A tombstone time that is past its keep already. */
  const EXPIRED_AT_MS: nat := 1

  /** How the name is cleaned up and judged; text handling is not modelled. */
  datatype Naming = Naming(normalize: string -> string, valid: string -> bool)

  // ----- the survivor among all-chats folders

  function LiveAll(rows: Rows): Rows {
    if rows == [] then []
    else if rows[0].IsLive() && rows[0].folderType == AllChats then [rows[0]] + LiveAll(rows[1..])
    else LiveAll(rows[1..])
  }

  /** Highest stored version first, folders the server never had last, then by id. */
  predicate Before(versions: map<FolderId, nat>, a: FolderId, b: FolderId) {
    if a in versions && b in versions then versions[a] > versions[b] || (versions[a] == versions[b] && a <= b)
    else a in versions || (b !in versions && a <= b)
  }

  function InsertCandidate(versions: map<FolderId, nat>, id: FolderId, sorted: seq<FolderId>): seq<FolderId> {
    if sorted == [] || Before(versions, id, sorted[0]) then [id] + sorted
    else [sorted[0]] + InsertCandidate(versions, id, sorted[1..])
  }

  function Candidates(versions: map<FolderId, nat>, folders: Rows): seq<FolderId> {
    if folders == [] then [] else InsertCandidate(versions, folders[0].id, Candidates(versions, folders[1..]))
  }

  lemma {:induction false} InsertCandidateFacts(versions: map<FolderId, nat>, id: FolderId, sorted: seq<FolderId>)
    requires forall x :: x in sorted ==> Before(versions, sorted[0], x)
    ensures var r := InsertCandidate(versions, id, sorted);
            && (forall x :: x in r <==> x == id || x in sorted)
            && |r| == |sorted| + 1
            && r[0] == if sorted == [] || Before(versions, id, sorted[0]) then id else sorted[0]
  {
    InsertedMembers(versions, id, sorted);
  }

  lemma {:induction false} InsertedMembers(versions: map<FolderId, nat>, id: FolderId, sorted: seq<FolderId>)
    ensures forall x :: x in InsertCandidate(versions, id, sorted) <==> x == id || x in sorted
    ensures |InsertCandidate(versions, id, sorted)| == |sorted| + 1
  {
    if sorted != [] && !Before(versions, id, sorted[0]) {
      InsertedMembers(versions, id, sorted[1..]);
      assert sorted == [sorted[0]] + sorted[1..];
    }
  }

  /** The first candidate comes before every live all-chats folder. */
  lemma {:induction false} FirstIsBest(versions: map<FolderId, nat>, folders: Rows)
    ensures var c := Candidates(versions, folders);
            && |c| == |folders|
            && (forall x :: x in c <==> exists f :: f in folders && f.id == x)
            && (forall x :: x in c ==> Before(versions, c[0], x))
  {
    if folders != [] {
      FirstIsBest(versions, folders[1..]);
      assert folders == [folders[0]] + folders[1..];
      InsertCandidateFacts(versions, folders[0].id, Candidates(versions, folders[1..]));
    }
  }

  lemma {:induction false} LiveAllMembers(rows: Rows)
    ensures forall f :: f in LiveAll(rows) <==> f in rows && f.IsLive() && f.folderType == AllChats
  {
    if rows != [] {
      assert rows == [rows[0]] + rows[1..];
      LiveAllMembers(rows[1..]);
    }
  }

  /** The rows with the all-chats folders of `drop` gone: erased when the server never had
      them, given an expired tombstone when it did. */
  function Deduplicated(rows: Rows, versions: map<FolderId, nat>, drop: set<FolderId>): Rows {
    if rows == [] then []
    else if rows[0].id !in drop then [rows[0]] + Deduplicated(rows[1..], versions, drop)
    else if rows[0].id in versions then [rows[0].Tombstone(EXPIRED_AT_MS)] + Deduplicated(rows[1..], versions, drop)
    else Deduplicated(rows[1..], versions, drop)
  }

  lemma {:induction false} DeduplicatedMembers(rows: Rows, versions: map<FolderId, nat>, drop: set<FolderId>)
    requires UniqueIds(rows)
    ensures UniqueIds(Deduplicated(rows, versions, drop))
    ensures forall f :: f in Deduplicated(rows, versions, drop) <==>
              || (f in rows && f.id !in drop)
              || exists r :: r in rows && r.id in drop && r.id in versions && f == r.Tombstone(EXPIRED_AT_MS)
  {
    if rows != [] {
      assert rows == [rows[0]] + rows[1..];
      DeduplicatedMembers(rows[1..], versions, drop);
      forall f | f in Deduplicated(rows[1..], versions, drop) ensures f.id != rows[0].id {
        assert f in rows[1..] || exists r :: r in rows[1..] && f == r.Tombstone(EXPIRED_AT_MS);
      }
    }
  }

  lemma {:induction false} EraseOne(rows: Rows, versions: map<FolderId, nat>, drop: set<FolderId>, id: FolderId)
    requires id !in versions
    ensures Remove(Deduplicated(rows, versions, drop), id) == Deduplicated(rows, versions, drop + {id})
  {
    if rows != [] {
      EraseOne(rows[1..], versions, drop, id);
      var rest := Deduplicated(rows[1..], versions, drop);
      if rows[0].id !in drop {
        assert ([rows[0]] + rest)[1..] == rest;
      } else if rows[0].id in versions {
        assert ([rows[0].Tombstone(EXPIRED_AT_MS)] + rest)[1..] == rest;
      }
    }
  }

  lemma {:induction false} NothingDropped(rows: Rows, versions: map<FolderId, nat>)
    ensures Deduplicated(rows, versions, {}) == rows
  {
    if rows != [] { NothingDropped(rows[1..], versions); }
  }

  lemma {:induction false} BuryOne(rows: Rows, versions: map<FolderId, nat>, drop: set<FolderId>, row: ChatFolder)
    requires UniqueIds(rows) && row in rows && row.id in versions && row.id !in drop
    ensures Upsert(Deduplicated(rows, versions, drop), row.Tombstone(EXPIRED_AT_MS)) ==
            Deduplicated(rows, versions, drop + {row.id})
  {
    var grave := row.Tombstone(EXPIRED_AT_MS);
    var rest := Deduplicated(rows[1..], versions, drop);
    assert rows == [rows[0]] + rows[1..];
    if rows[0].id == row.id {
      assert rows[0] == row;
      SameDrop(rows[1..], versions, drop, row.id);
      assert ([row] + rest)[1..] == rest;
    } else {
      assert row in rows[1..];
      BuryOne(rows[1..], versions, drop, row);
      if rows[0].id !in drop {
        assert ([rows[0]] + rest)[1..] == rest;
      } else if rows[0].id in versions {
        assert ([rows[0].Tombstone(EXPIRED_AT_MS)] + rest)[1..] == rest;
      }
    }
  }

  lemma {:induction false} SameDrop(rows: Rows, versions: map<FolderId, nat>, drop: set<FolderId>, id: FolderId)
    requires forall r :: r in rows ==> r.id != id
    ensures Deduplicated(rows, versions, drop + {id}) == Deduplicated(rows, versions, drop)
  {
    if rows != [] {
      assert rows == [rows[0]] + rows[1..];
      SameDrop(rows[1..], versions, drop, id);
    }
  }

  // ----- the store

  /** Ids of listed folders whose number changes when the list is numbered from 0. */
  function Moved(rows: Rows): set<FolderId> {
    set i | 0 <= i < |Listing(rows)| && Listing(rows)[i].position != i :: Listing(rows)[i].id
  }

  function MovedBelow(rows: Rows, n: nat): set<FolderId>
    requires n <= |Listing(rows)|
  {
    set i | 0 <= i < n && Listing(rows)[i].position != i :: Listing(rows)[i].id
  }

  // ----- what the operations do to the rows

  function SavedRows(rows: Rows, folder: ChatFolder): Rows {
    Upsert(rows, folder.(position := SavedPosition(rows, folder.id)))
  }

  /** The folder tombstoned, what is left of the list numbered. */
  function DeletedRows(rows: Rows, id: FolderId, now: nat): Rows {
    match Find(rows, id)
    case None => rows
    case Some(folder) =>
      if folder.folderType == AllChats then rows
      else
        var buried := Upsert(rows, folder.Tombstone(now));
        Numbered(buried, Ids(Listing(buried)))
  }

  function MergedRows(rows: Rows, remote: ChatFolder, pending: bool): Rows {
    match Merge(Find(rows, remote.id), remote, pending)
    case Some(row) => Upsert(rows, row)
    case None => rows
  }

  /** A new folder's row: what was asked for, after the listed ones, or where the row it
      replaces was; every other row is untouched. */
  lemma SavedIs(rows: Rows, folder: ChatFolder)
    requires UniqueIds(rows)
    ensures var after := SavedRows(rows, folder);
            && UniqueIds(after)
            && (forall f: ChatFolder :: f.id != folder.id ==> (f in after <==> f in rows))
            && (forall f :: f in after && f.id == folder.id ==> f == folder.(position := f.position))
            && (forall f, was :: f in after && was in rows && f.id == was.id == folder.id ==>
                  f.position == was.position)
            && ((forall f :: f in rows ==> f.id != folder.id) ==>
                folder.(position := |Listing(rows)|) in after)
            && exists f :: f in after && f.id == folder.id
  {
    var saved := folder.(position := SavedPosition(rows, folder.id));
    UpsertUnique(rows, saved);
    FindIs(rows, folder.id);
    assert saved in Upsert(rows, saved);
  }

  /** The one row stored for a folder. */
  ghost predicate StoredAs(rows: Rows, row: ChatFolder) {
    row in rows && forall f :: f in rows && f.id == row.id ==> f == row
  }

  /** Nothing is stored for a folder. */
  ghost predicate NotStored(rows: Rows, id: FolderId) {
    forall f :: f in rows ==> f.id != id
  }

  /** A record replaces its folder's row and touches no other. */
  lemma MergeTouchesOne(rows: Rows, remote: ChatFolder, pending: bool)
    requires UniqueIds(rows)
    ensures UniqueIds(MergedRows(rows, remote, pending))
    ensures forall f: ChatFolder :: f.id != remote.id ==> (f in MergedRows(rows, remote, pending) <==> f in rows)
    ensures pending ==> MergedRows(rows, remote, pending) == rows
  {
    MergeNamesRemote(Find(rows, remote.id), remote, pending);
    var merged := Merge(Find(rows, remote.id), remote, pending);
    if merged.Some? { UpsertUnique(rows, merged.value); }
  }

  /** A live folder made or changed elsewhere is taken as it is, rules and recipients included,
      whether this device had a live row for it or none. */
  lemma LiveIsTaken(rows: Rows, remote: ChatFolder)
    requires UniqueIds(rows) && remote.folderType != AllChats && remote.deletedAtMs == 0
    requires forall f :: f in rows && f.id == remote.id ==> f.deletedAtMs == 0
    ensures StoredAs(MergedRows(rows, remote, false), remote)
  {
    FindIs(rows, remote.id);
    UpsertUnique(rows, remote);
  }

  /** A folder deleted on either side leaves the record's tombstone, dated by the earlier of the
      deletions there are. */
  lemma DeletionIsTaken(rows: Rows, local: ChatFolder, remote: ChatFolder)
    requires UniqueIds(rows) && local in rows && local.id == remote.id && remote.folderType != AllChats
    requires local.deletedAtMs != 0 || remote.deletedAtMs != 0
    ensures var at := if local.deletedAtMs == 0 then remote.deletedAtMs
                      else if remote.deletedAtMs == 0 then local.deletedAtMs
                      else if local.deletedAtMs < remote.deletedAtMs then local.deletedAtMs else remote.deletedAtMs;
            StoredAs(MergedRows(rows, remote, false),
                     ChatFolder(remote.id, remote.folderType, remote.name, 4294967295, remote.rules, [], [], at))
  {
    FindIs(rows, remote.id);
    var at := MinTime(local.deletedAtMs, remote.deletedAtMs);
    UpsertUnique(rows, remote.Tombstone(at));
  }

  /** A tombstone of a folder this device has no row for leaves none. */
  lemma UnseenDeletionIsNot(rows: Rows, remote: ChatFolder)
    requires UniqueIds(rows) && NotStored(rows, remote.id)
    requires remote.folderType != AllChats && remote.deletedAtMs != 0
    ensures MergedRows(rows, remote, false) == rows
  {
    FindIs(rows, remote.id);
  }

  /** Of an all-chats record only the identity counts: the folder Signal fixes is stored, unless
      this device has dropped it as a duplicate. */
  lemma AllChatsIsFixed(rows: Rows, remote: ChatFolder)
    requires UniqueIds(rows) && remote.folderType == AllChats
    ensures (forall f :: f in rows && f.id == remote.id ==> f.deletedAtMs == 0) ==>
              StoredAs(MergedRows(rows, remote, false),
                       ChatFolder(remote.id, AllChats, "", 0, Rules(false, true, true, true), [], [], 0))
    ensures (exists f :: f in rows && f.id == remote.id && f.deletedAtMs != 0) ==>
              MergedRows(rows, remote, false) == rows
  {
    FindIs(rows, remote.id);
    UpsertUnique(rows, AllChatsFolder(remote.id));
  }

  /** Which folders a renumbering flags: exactly the listed ones whose position it changes. */
  lemma MovedAre(rows: Rows, i: nat)
    requires UniqueIds(rows) && i < |rows|
    ensures var after := Numbered(rows, Ids(Listing(rows)));
            |after| == |rows| && (rows[i].id in Moved(rows) <==> after[i].position != rows[i].position)
  {
    NumberingChanges(rows, i);
    ListingFacts(rows);
    var listing := Listing(rows);
    var after := Numbered(rows, Ids(listing));
    if rows[i].id in Moved(rows) {
      var j :| 0 <= j < |listing| && listing[j].position != j && listing[j].id == rows[i].id;
      assert listing[j] in listing;
      SameIdSameRow(rows, listing[j], rows[i]);
    }
  }

  lemma MergeNamesRemote(local: Option<ChatFolder>, remote: ChatFolder, pending: bool)
    ensures Merge(local, remote, pending).Some? ==> Merge(local, remote, pending).value.id == remote.id
  {
  }

  lemma MovedStep(rows: Rows, n: nat)
    requires n < |Listing(rows)|
    ensures MovedBelow(rows, n + 1) ==
            MovedBelow(rows, n) + if Listing(rows)[n].position != n then {Listing(rows)[n].id} else {}
  {
  }

  /** How far renumbering has come: the first `n` folders of the list are numbered. */
  ghost predicate Renumbering(before: Rows, flags: set<FolderId>, n: nat, rows: Rows, flagged: set<FolderId>) {
    && n <= |Listing(before)|
    && UniqueIds(rows)
    && rows == Numbered(before, Ids(Listing(before))[..n])
    && flagged == flags + MovedBelow(before, n)
  }

  lemma RenumberingStarts(before: Rows, flags: set<FolderId>)
    requires UniqueIds(before)
    ensures Renumbering(before, flags, 0, before, flags)
  {
    assert Numbered(before, Ids(Listing(before))[..0]) == before;
  }

  lemma RenumberingSteps(before: Rows, flags: set<FolderId>, n: nat, rows: Rows, flagged: set<FolderId>)
    requires UniqueIds(before) && n < |Listing(before)| && Renumbering(before, flags, n, rows, flagged)
    ensures var folder := Listing(before)[n];
            if folder.position == n then Renumbering(before, flags, n + 1, rows, flagged)
            else Renumbering(before, flags, n + 1, Upsert(rows, folder.(position := n)), flagged + {folder.id})
  {
    var folder := Listing(before)[n];
    ListingFacts(before);
    NumberStep(before, Ids(Listing(before)), n, folder);
    MovedStep(before, n);
    UpsertUnique(rows, folder.(position := n));
  }

  lemma RenumberingEnds(before: Rows, flags: set<FolderId>, rows: Rows, flagged: set<FolderId>)
    requires Renumbering(before, flags, |Listing(before)|, rows, flagged)
    ensures rows == Numbered(before, Ids(Listing(before))) && flagged == flags + Moved(before)
  {
    var order := Ids(Listing(before));
    assert order[..|order|] == order;
  }

  class FolderStore {
    var rows: Rows
    var flagged: set<FolderId>
    /** The stored version of each folder the server is known to hold. */
    var versions: map<FolderId, nat>

    ghost predicate Valid()
      reads this
    {
      UniqueIds(rows)
    }

    /** Save a row and flag it. */
    method Stage(folder: ChatFolder)
      requires Valid()
      modifies this`rows, this`flagged
      ensures Valid()
      ensures rows == Upsert(old(rows), folder) && flagged == old(flagged) + {folder.id}
    {
      UpsertUnique(rows, folder);
      rows := Upsert(rows, folder);
      flagged := flagged + {folder.id};
    }

    /** Create or replace a folder. The name is only judged for custom folders; a new folder
        goes last, an existing one stays where it is. */
    method SaveChatFolder(folder: ChatFolder, naming: Naming) returns (r: Result<(), FolderError>)
      requires Valid()
      modifies this`rows, this`flagged
      ensures Valid()
      ensures r == Failure(InvalidName) <==>
              folder.folderType == CustomFolder && !naming.valid(naming.normalize(folder.name))
      ensures r.Failure? ==> r.error == InvalidName && rows == old(rows) && flagged == old(flagged)
      ensures r.Success? ==>
                var name := if folder.folderType == CustomFolder then naming.normalize(folder.name) else folder.name;
                && rows == SavedRows(old(rows), folder.(name := name))
                && flagged == old(flagged) + {folder.id}
    {
      var saved := folder;
      if folder.folderType == CustomFolder {
        saved := saved.(name := naming.normalize(saved.name));
        if !naming.valid(saved.name) {
          return Failure(InvalidName);
        }
      }
      match Find(rows, folder.id) {
        case Some(existing) => saved := saved.(position := existing.position);
        case None => saved := saved.(position := |Listing(rows)|);
      }
      Stage(saved);
      return Success(());
    }

    /** Number the listed folders from 0 in list order and flag each one that moves. */
    method Renumber()
      requires Valid()
      modifies this`rows, this`flagged
      ensures Valid()
      ensures rows == Numbered(old(rows), Ids(Listing(old(rows))))
      ensures flagged == old(flagged) + Moved(old(rows))
    {
      ghost var before := rows;
      var listing := Listing(rows);
      RenumberingStarts(before, flagged);
      for i := 0 to |listing|
        invariant Renumbering(before, old(flagged), i, rows, flagged)
      {
        var folder := listing[i];
        RenumberingSteps(before, old(flagged), i, rows, flagged);
        if folder.position != i {
          Stage(folder.(position := i));
        }
      }
      RenumberingEnds(before, old(flagged), rows, flagged);
    }

    /** Tombstone a folder, then renumber what is left. */
    method DeleteChatFolder(id: FolderId, now: nat) returns (r: Result<(), FolderError>)
      requires Valid() && now != 0
      modifies this`rows, this`flagged
      ensures Valid()
      ensures r == Failure(UnknownId) <==> Find(old(rows), id) == None
      ensures r == Failure(Undeletable) <==>
              Find(old(rows), id).Some? && Find(old(rows), id).value.folderType == AllChats
      ensures r.Failure? ==> rows == old(rows) && flagged == old(flagged)
      ensures r.Success? ==>
                && rows == DeletedRows(old(rows), id, now)
                && Ids(Listing(rows)) == Ids(Remove(Listing(old(rows)), id))
                && Dense(rows)
                && Find(old(rows), id).value.Tombstone(now) in rows
                && flagged == old(flagged) + {id} + Moved(Upsert(old(rows), Find(old(rows), id).value.Tombstone(now)))
    {
      FindIs(rows, id);
      var found := Find(rows, id);
      if found == None {
        return Failure(UnknownId);
      }
      if found.value.folderType == AllChats {
        return Failure(Undeletable);
      }
      var grave := found.value.Tombstone(now);
      ListedWithout(rows, grave);
      RemoveFromSort(Listed(rows), id);
      UpsertUnique(rows, grave);
      Stage(grave);
      ghost var buried := rows;
      NumberingIsDense(rows);
      ListingFacts(rows);
      Renumber();
      GraveStays(buried, grave);
      return Success(());
    }

    /** One folder record of a sync: the row the merge says, and the version it was read at. */
    method MergeRecord(remote: ChatFolder, pending: bool, version: nat)
      requires Valid()
      modifies this`rows, this`versions
      ensures Valid()
      ensures rows == MergedRows(old(rows), remote, pending)
      ensures versions == old(versions)[remote.id := version]
    {
      var merged := Merge(Find(rows, remote.id), remote, pending);
      MergeNamesRemote(Find(rows, remote.id), remote, pending);
      if merged.Some? {
        UpsertUnique(rows, merged.value);
        rows := Upsert(rows, merged.value);
      }
      versions := versions[remote.id := version];
    }

    /** Drop one duplicate all-chats folder. */
    method DropDuplicate(id: FolderId)
      requires Valid()
      modifies this`rows, this`flagged
      ensures rows == Dropped(old(rows), versions, id)
      ensures flagged == if id in versions then old(flagged) else old(flagged) - {id}
    {
      if id !in versions {
        rows := Remove(rows, id);
        flagged := flagged - {id};
      } else {
        var found := Find(rows, id);
        if found.Some? {
          rows := Upsert(rows, found.value.Tombstone(EXPIRED_AT_MS));
        }
      }
    }

    /** Collapse the live all-chats folders to the one first in `Before`, and with
        `createMissing` give an account that has none a new one. */
    method EnsureSingleAllChats(createMissing: bool, newId: FolderId)
      requires Valid() && Find(rows, newId) == None
      modifies this`rows, this`flagged
      ensures Valid()
      ensures rows == Tidied(old(rows), versions, createMissing, newId)
      ensures flagged == old(flagged) - Erased(Duplicates(old(rows), versions), versions)
                         + if createMissing && LiveAll(old(rows)) == [] then {newId} else {}
    {
      ghost var before := rows;
      var all := Candidates(versions, LiveAll(rows));
      var duplicates := if all == [] then [] else all[1..];
      FirstIsBest(versions, LiveAll(rows));
      NothingDropped(rows, versions);
      assert IdSet(duplicates[..0]) == {};
      for i := 0 to |duplicates|
        invariant Valid() && rows == Deduplicated(before, versions, IdSet(duplicates[..i]))
        invariant flagged == old(flagged) - Erased(duplicates[..i], versions)
      {
        DropStep(before, versions, i);
        DropDuplicate(duplicates[i]);
      }
      assert duplicates[..|duplicates|] == duplicates;
      if all == [] && createMissing {
        Stage(AllChatsFolder(newId));
      }
    }
  }

  // ----- the upkeep as a function of the rows

  function IdSet(order: seq<FolderId>): set<FolderId> {
    set x | x in order
  }

  function Erased(dropped: seq<FolderId>, versions: map<FolderId, nat>): set<FolderId> {
    set x | x in dropped && x !in versions
  }

  /** Every live all-chats folder but the first in `Before`. */
  function Duplicates(rows: Rows, versions: map<FolderId, nat>): seq<FolderId> {
    var all := Candidates(versions, LiveAll(rows));
    if all == [] then [] else all[1..]
  }

  function Dropped(rows: Rows, versions: map<FolderId, nat>, id: FolderId): Rows {
    if id !in versions then Remove(rows, id)
    else match Find(rows, id)
      case Some(row) => Upsert(rows, row.Tombstone(EXPIRED_AT_MS))
      case None => rows
  }

  function Tidied(rows: Rows, versions: map<FolderId, nat>, createMissing: bool, newId: FolderId): Rows {
    if createMissing && LiveAll(rows) == [] then Upsert(rows, AllChatsFolder(newId))
    else Deduplicated(rows, versions, IdSet(Duplicates(rows, versions)))
  }

  lemma PrefixSet(order: seq<FolderId>, i: nat, versions: map<FolderId, nat>)
    requires i < |order|
    ensures IdSet(order[..i + 1]) == IdSet(order[..i]) + {order[i]}
    ensures Erased(order[..i + 1], versions) ==
            Erased(order[..i], versions) + if order[i] in versions then {} else {order[i]}
  {
    assert order[..i + 1] == order[..i] + [order[i]];
  }

  /** Dropping the next duplicate. */
  lemma DropStep(before: Rows, versions: map<FolderId, nat>, i: nat)
    requires UniqueIds(before) && i < |Duplicates(before, versions)|
    ensures var d := Duplicates(before, versions);
            && Dropped(Deduplicated(before, versions, IdSet(d[..i])), versions, d[i]) ==
               Deduplicated(before, versions, IdSet(d[..i + 1]))
            && UniqueIds(Deduplicated(before, versions, IdSet(d[..i + 1])))
            && Erased(d[..i + 1], versions) == Erased(d[..i], versions) + if d[i] in versions then {} else {d[i]}
  {
    var d := Duplicates(before, versions);
    PrefixSet(d, i, versions);
    DeduplicatedMembers(before, versions, IdSet(d[..i + 1]));
    if d[i] !in versions {
      EraseOne(before, versions, IdSet(d[..i]), d[i]);
    } else {
      BuryNext(before, versions, i);
    }
  }

  lemma BuryNext(before: Rows, versions: map<FolderId, nat>, i: nat)
    requires UniqueIds(before) && i < |Duplicates(before, versions)| && Duplicates(before, versions)[i] in versions
    ensures var d := Duplicates(before, versions);
            Dropped(Deduplicated(before, versions, IdSet(d[..i])), versions, d[i]) ==
                Deduplicated(before, versions, IdSet(d[..i]) + {d[i]})
  {
    var d, all := Duplicates(before, versions), Candidates(versions, LiveAll(before));
    FirstIsBest(versions, LiveAll(before));
    CandidatesDistinct(before, versions);
    LiveAllMembers(before);
    assert all[i + 1] == d[i] && d[i] in all;
    var row :| row in LiveAll(before) && row.id == d[i];
    assert d[i] !in IdSet(d[..i]) by {
      assert forall j :: 0 <= j < i ==> d[..i][j] == all[j + 1];
    }
    var now := Deduplicated(before, versions, IdSet(d[..i]));
    DeduplicatedMembers(before, versions, IdSet(d[..i]));
    assert row in now;
    FindIs(now, d[i]);
    BuryOne(before, versions, IdSet(d[..i]), row);
  }

  // ----- any sequence of operations

  datatype FolderOp =
    | Save(folder: ChatFolder)
    | Delete(id: FolderId, now: nat)
    | SyncRecord(remote: ChatFolder, pending: bool)
    | Upkeep(versions: map<FolderId, nat>, createMissing: bool, newId: FolderId)

  function After(rows: Rows, op: FolderOp): Rows {
    match op
    case Save(folder) => SavedRows(rows, folder)
    case Delete(id, now) => DeletedRows(rows, id, now)
    case SyncRecord(remote, pending) => MergedRows(rows, remote, pending)
    case Upkeep(versions, createMissing, newId) => Tidied(rows, versions, createMissing, newId)
  }

  function AfterAll(rows: Rows, ops: seq<FolderOp>): Rows
    decreases |ops|
  {
    if ops == [] then rows else AfterAll(After(rows, ops[0]), ops[1..])
  }

  predicate AllBare(rows: Rows) {
    forall f :: f in rows ==> Bare(f)
  }

  /** Saved folders are live, and the clock is past its origin. */
  predicate Sensible(op: FolderOp) {
    (op.Save? ==> op.folder.IsLive()) && (op.Delete? ==> op.now != 0)
  }

  lemma {:induction false} NumberedKeepsBare(rows: Rows)
    requires UniqueIds(rows) && AllBare(rows)
    ensures AllBare(Numbered(rows, Ids(Listing(rows))))
  {
    var order := Ids(Listing(rows));
    ListingFacts(rows);
    forall i | 0 <= i < |rows| ensures Bare(NumberedRow(rows[i], order)) {
      if rows[i].id in order {
        var j :| 0 <= j < |order| && order[j] == rows[i].id;
        assert Listing(rows)[j] in Listing(rows);
        SameIdSameRow(rows, rows[i], Listing(rows)[j]);
      } else {
        assert rows[i] in rows;
      }
    }
  }

  lemma OpKeepsBare(rows: Rows, op: FolderOp)
    requires UniqueIds(rows) && AllBare(rows) && Sensible(op)
    ensures UniqueIds(After(rows, op)) && AllBare(After(rows, op))
  {
    match op
    case Save(folder) => UpsertUnique(rows, folder.(position := SavedPosition(rows, folder.id)));
    case Delete(id, now) =>
      FindIs(rows, id);
      if Find(rows, id).Some? {
        var grave := Find(rows, id).value.Tombstone(now);
        UpsertUnique(rows, grave);
        NumberingIsDense(Upsert(rows, grave));
        NumberedKeepsBare(Upsert(rows, grave));
      }
    case SyncRecord(remote, pending) =>
      FindIs(rows, remote.id);
      var merged := Merge(Find(rows, remote.id), remote, pending);
      if merged.Some? { UpsertUnique(rows, merged.value); }
    case Upkeep(versions, createMissing, newId) =>
      UpsertUnique(rows, AllChatsFolder(newId));
      DeduplicatedMembers(rows, versions, IdSet(Duplicates(rows, versions)));
  }

  /** Through any sequence of saves, deletes, synced records and upkeep, every deleted row is
      last and names nobody, and no two rows share an id. */
  lemma {:induction false} DeletedRowsStayBare(rows: Rows, ops: seq<FolderOp>)
    requires UniqueIds(rows) && AllBare(rows) && forall op :: op in ops ==> Sensible(op)
    ensures UniqueIds(AfterAll(rows, ops)) && AllBare(AfterAll(rows, ops))
    decreases |ops|
  {
    if ops != [] {
      assert ops[0] in ops;
      OpKeepsBare(rows, ops[0]);
      DeletedRowsStayBare(After(rows, ops[0]), ops[1..]);
    }
  }

  lemma GraveStays(rows: Rows, grave: ChatFolder)
    requires UniqueIds(rows) && grave in rows && !grave.IsListed()
    ensures grave in Numbered(rows, Ids(Listing(rows)))
  {
    var i :| 0 <= i < |rows| && rows[i] == grave;
    var order := Ids(Listing(rows));
    ListingFacts(rows);
    forall j | 0 <= j < |order| ensures order[j] != grave.id {
      assert Listing(rows)[j] in Listing(rows);
      SameIdSameRow(rows, grave, Listing(rows)[j]);
    }
    assert Numbered(rows, order)[i] == grave;
  }

  lemma SameIdSameRow(rows: Rows, a: ChatFolder, b: ChatFolder)
    requires UniqueIds(rows) && a in rows && b in rows
    ensures a.id == b.id ==> a == b
  {
  }

  lemma {:induction false} CandidatesDistinct(rows: Rows, versions: map<FolderId, nat>)
    requires UniqueIds(rows)
    ensures DistinctIds(Candidates(versions, LiveAll(rows)))
  {
    if rows != [] {
      assert rows == [rows[0]] + rows[1..];
      CandidatesDistinct(rows[1..], versions);
      LiveAllMembers(rows[1..]);
      FirstIsBest(versions, LiveAll(rows[1..]));
      if rows[0].IsLive() && rows[0].folderType == AllChats {
        InsertDistinct(versions, rows[0].id, Candidates(versions, LiveAll(rows[1..])));
      }
    }
  }

  lemma {:induction false} InsertDistinct(versions: map<FolderId, nat>, id: FolderId, sorted: seq<FolderId>)
    requires DistinctIds(sorted) && id !in sorted
    ensures DistinctIds(InsertCandidate(versions, id, sorted))
  {
    if sorted != [] && !Before(versions, id, sorted[0]) {
      InsertDistinct(versions, id, sorted[1..]);
      InsertedMembers(versions, id, sorted[1..]);
      assert sorted[0] !in sorted[1..] by {
        assert forall j :: 0 <= j < |sorted[1..]| ==> sorted[1..][j] == sorted[j + 1];
      }
    }
  }

  /** After the upkeep of a sync exactly one all-chats folder is live, where there were any or
      one may be made. Where there were any it is one of them: the one whose record was read at
      the highest version, the lowest id breaking ties and folders never published coming last.
      Every other one is erased if it was never published, and an expired tombstone if it was;
      every folder of another type, and every deleted one, is as it was. */
  lemma ExactlyOneAllChats(rows: Rows, versions: map<FolderId, nat>, createMissing: bool, newId: FolderId)
    requires UniqueIds(rows) && Find(rows, newId) == None
    ensures var after := Tidied(rows, versions, createMissing, newId);
            && UniqueIds(after)
            && (LiveAll(rows) != [] || createMissing ==> |LiveAll(after)| == 1)
            && (LiveAll(rows) == [] && !createMissing ==> after == rows)
            && (LiveAll(rows) == [] && createMissing ==>
                  LiveAll(after)[0] == ChatFolder(newId, AllChats, "", 0, Rules(false, true, true, true), [], [], 0))
            && (LiveAll(rows) != [] ==> Survives(rows, versions, LiveAll(after)[0], after))
            && (forall f :: f in rows && (f.folderType != AllChats || f.deletedAtMs != 0) ==> f in after)
            && (forall f: ChatFolder :: f.folderType != AllChats ==> (f in after <==> f in rows))
  {
    NothingDropped(rows, versions);
    FindIs(rows, newId);
    if LiveAll(rows) == [] {
      assert Duplicates(rows, versions) == [];
      assert IdSet([]) == {};
      if createMissing {
        CreatedIsOnly(rows, AllChatsFolder(newId));
        UpsertUnique(rows, AllChatsFolder(newId));
      }
    } else {
      SurvivorIsOnly(rows, versions);
      OthersUntouched(rows, versions);
      LosersGo(rows, versions);
    }
  }

  /** `kept` is the all-chats folder that stays of `rows`, and what became of the others. */
  ghost predicate Survives(rows: Rows, versions: map<FolderId, nat>, kept: ChatFolder, after: Rows) {
    && kept in rows && kept.deletedAtMs == 0 && kept.folderType == AllChats
    && forall f :: f in rows && f.deletedAtMs == 0 && f.folderType == AllChats && f.id != kept.id ==>
         && (f.id in versions ==> kept.id in versions && versions[kept.id] >= versions[f.id])
         && (f.id in versions && kept.id in versions && versions[f.id] == versions[kept.id] ==> kept.id < f.id)
         && (f.id !in versions && kept.id !in versions ==> kept.id < f.id)
         && (f.id in versions ==> StoredAs(after, f.(deletedAtMs := 1, position := 4294967295, included := [],
                                                     excluded := [])))
         && (f.id !in versions ==> NotStored(after, f.id))
  }

  lemma LosersGo(rows: Rows, versions: map<FolderId, nat>)
    requires UniqueIds(rows) && LiveAll(rows) != []
    ensures var after := Deduplicated(rows, versions, IdSet(Duplicates(rows, versions)));
            |LiveAll(after)| == 1 && UniqueIds(after) && Survives(rows, versions, LiveAll(after)[0], after)
  {
    var all, drop := Candidates(versions, LiveAll(rows)), IdSet(Duplicates(rows, versions));
    var after := Deduplicated(rows, versions, drop);
    SurvivorIsOnly(rows, versions);
    LiveAllMembers(rows);
    LiveAllMembers(after);
    FirstIsBest(versions, LiveAll(rows));
    DeduplicatedMembers(rows, versions, drop);
    var kept := LiveAll(after)[0];
    assert kept in LiveAll(after);
    LivesOnlyIfFirst(rows, versions, kept);
    forall f | f in rows && f.deletedAtMs == 0 && f.folderType == AllChats && f.id != kept.id
      ensures f.id in drop && Before(versions, kept.id, f.id)
    {
      assert f in LiveAll(rows);
      assert f.id in all && all == [all[0]] + all[1..];
    }
    forall f | f in rows && f.id in drop && f.id in versions
      ensures StoredAs(after, f.Tombstone(EXPIRED_AT_MS))
    {
      assert f.Tombstone(EXPIRED_AT_MS) in after;
      forall g | g in after && g.id == f.id ensures g == f.Tombstone(EXPIRED_AT_MS) {
        SameIdSameRow(after, g, f.Tombstone(EXPIRED_AT_MS));
      }
    }
  }

  lemma SurvivorIsOnly(rows: Rows, versions: map<FolderId, nat>)
    requires UniqueIds(rows) && LiveAll(rows) != []
    ensures var after := Deduplicated(rows, versions, IdSet(Duplicates(rows, versions)));
            && |LiveAll(after)| == 1 && LiveAll(after)[0] in rows
            && forall f :: f in LiveAll(rows) ==> Before(versions, LiveAll(after)[0].id, f.id)
  {
    var all, drop := Candidates(versions, LiveAll(rows)), IdSet(Duplicates(rows, versions));
    var after := Deduplicated(rows, versions, drop);
    LiveAllMembers(rows);
    FirstIsBest(versions, LiveAll(rows));
    CandidatesDistinct(rows, versions);
    DeduplicatedMembers(rows, versions, drop);
    LiveAllMembers(after);
    assert all[0] in all;
    var survivor :| survivor in LiveAll(rows) && survivor.id == all[0];
    assert all[0] !in all[1..] by {
      assert forall j :: 0 <= j < |all[1..]| ==> all[1..][j] == all[j + 1];
    }
    assert survivor in LiveAll(after);
    forall f | f in LiveAll(after) ensures f == survivor {
      LivesOnlyIfFirst(rows, versions, f);
      SameIdSameRow(rows, f, survivor);
    }
    OnlyMember(after, survivor);
  }

  lemma LivesOnlyIfFirst(rows: Rows, versions: map<FolderId, nat>, f: ChatFolder)
    requires UniqueIds(rows)
    requires f in LiveAll(Deduplicated(rows, versions, IdSet(Duplicates(rows, versions))))
    ensures f in rows && Candidates(versions, LiveAll(rows)) != [] && f.id == Candidates(versions, LiveAll(rows))[0]
  {
    var all, drop := Candidates(versions, LiveAll(rows)), IdSet(Duplicates(rows, versions));
    LiveAllMembers(Deduplicated(rows, versions, drop));
    DeduplicatedMembers(rows, versions, drop);
    LiveAllMembers(rows);
    FirstIsBest(versions, LiveAll(rows));
    assert f.id in all;
    assert all == [all[0]] + all[1..];
  }

  lemma OthersUntouched(rows: Rows, versions: map<FolderId, nat>)
    requires UniqueIds(rows)
    ensures var after := Deduplicated(rows, versions, IdSet(Duplicates(rows, versions)));
            && (forall f :: f in rows && (f.folderType != AllChats || f.deletedAtMs != 0) ==> f in after)
            && (forall f: ChatFolder :: f.folderType != AllChats ==> (f in after <==> f in rows))
  {
    var all, drop := Candidates(versions, LiveAll(rows)), IdSet(Duplicates(rows, versions));
    DeduplicatedMembers(rows, versions, drop);
    LiveAllMembers(rows);
    FirstIsBest(versions, LiveAll(rows));
    forall r | r in rows && r.id in drop ensures r.folderType == AllChats && r.IsLive() {
      assert r.id in all;
      var f :| f in LiveAll(rows) && f.id == r.id;
      SameIdSameRow(rows, r, f);
    }
  }

  lemma {:induction false} LiveAllUnique(rows: Rows)
    requires UniqueIds(rows)
    ensures UniqueIds(LiveAll(rows))
  {
    if rows != [] {
      assert rows == [rows[0]] + rows[1..];
      LiveAllUnique(rows[1..]);
      LiveAllMembers(rows[1..]);
    }
  }

  lemma OnlyMember(rows: Rows, survivor: ChatFolder)
    requires UniqueIds(rows) && survivor in LiveAll(rows) && forall f :: f in LiveAll(rows) ==> f == survivor
    ensures LiveAll(rows) == [survivor]
  {
    LiveAllUnique(rows);
    var all := LiveAll(rows);
    forall i | 0 <= i < |all| ensures all[i] == survivor {
      assert all[i] in all;
    }
    assert |all| > 1 ==> all[0].id == all[1].id;
  }

  lemma CreatedIsOnly(rows: Rows, created: ChatFolder)
    requires UniqueIds(rows) && Find(rows, created.id) == None && LiveAll(rows) == []
    requires created.IsLive() && created.folderType == AllChats
    ensures LiveAll(Upsert(rows, created)) == [created]
  {
    var after := Upsert(rows, created);
    UpsertUnique(rows, created);
    LiveAllMembers(rows);
    LiveAllMembers(after);
    assert created in LiveAll(after);
    OnlyMember(after, created);
  }
}
