/** Chat folders as rows (model/chat_folders.rs) and the local edits that number them
    (manager/chat_folders.rs). */
module ChatFolders {
  import opened Wrappers

  /** A 128-bit identifier; ordered as the number its bytes spell. */
  type FolderId = nat

  datatype FolderType = UnknownFolder | AllChats | CustomFolder

  datatype Rules = Rules(onlyUnread: bool, showMuted: bool, allIndividual: bool, allGroups: bool)

  datatype ChatFolder = ChatFolder(
    id: FolderId, folderType: FolderType, name: string, position: nat, rules: Rules,
    included: seq<string>, excluded: seq<string>, deletedAtMs: nat)
  {
    predicate IsLive() {
      deletedAtMs == 0
    }

    /** Stripped of everything but its identity, and last. */
    function Tombstone(atMs: nat): ChatFolder {
      this.(deletedAtMs := atMs, position := DELETED_POSITION, included := [], excluded := [])
    }

    /** One of the folders the list shows and numbers. */
    predicate IsListed() {
      IsLive() && folderType != UnknownFolder
    }
  }

  const DELETED_POSITION: nat := 0xffff_ffff

  /** Signal's fixed parameters for the all-chats folder. */
  function AllChatsFolder(id: FolderId): ChatFolder {
    ChatFolder(id, AllChats, "", 0, Rules(false, true, true, true), [], [], 0)
  }

  type Rows = seq<ChatFolder>

  predicate UniqueIds(rows: Rows) {
    forall i, j :: 0 <= i < j < |rows| ==> rows[i].id != rows[j].id
  }

  function Find(rows: Rows, id: FolderId): Option<ChatFolder> {
    if rows == [] then None else if rows[0].id == id then Some(rows[0]) else Find(rows[1..], id)
  }

  /** Insert or replace one row. */
  function Upsert(rows: Rows, folder: ChatFolder): Rows {
    if rows == [] then [folder]
    else if rows[0].id == folder.id then [folder] + rows[1..]
    else [rows[0]] + Upsert(rows[1..], folder)
  }

  function Listed(rows: Rows): Rows {
    if rows == [] then []
    else if rows[0].IsListed() then [rows[0]] + Listed(rows[1..])
    else Listed(rows[1..])
  }

  /** Stable insertion by position. */
  function InsertByPosition(folder: ChatFolder, sorted: Rows): Rows {
    if sorted == [] || folder.position <= sorted[0].position then [folder] + sorted
    else [sorted[0]] + InsertByPosition(folder, sorted[1..])
  }

  function SortByPosition(rows: Rows): Rows {
    if rows == [] then [] else InsertByPosition(rows[0], SortByPosition(rows[1..]))
  }

  /** The folders in list order: live, of a known type, by position. */
  function Listing(rows: Rows): Rows {
    SortByPosition(Listed(rows))
  }

  function Ids(rows: Rows): seq<FolderId> {
    seq(|rows|, i requires 0 <= i < |rows| => rows[i].id)
  }

  /** The list is numbered 0, 1, 2 and so on. */
  predicate Dense(rows: Rows) {
    forall i :: 0 <= i < |Listing(rows)| ==> Listing(rows)[i].position == i
  }

  predicate Sorted(rows: Rows) {
    forall i, j :: 0 <= i < j < |rows| ==> rows[i].position <= rows[j].position
  }

  // ----- sorting

  lemma {:induction false} InsertFacts(folder: ChatFolder, sorted: Rows)
    requires Sorted(sorted)
    ensures Sorted(InsertByPosition(folder, sorted))
    ensures |InsertByPosition(folder, sorted)| == |sorted| + 1
    ensures forall f :: f in InsertByPosition(folder, sorted) <==> f == folder || f in sorted
  {
    if sorted != [] && folder.position > sorted[0].position {
      InsertFacts(folder, sorted[1..]);
      var rest := InsertByPosition(folder, sorted[1..]);
      assert sorted == [sorted[0]] + sorted[1..];
      forall f | f in rest ensures sorted[0].position <= f.position {
        if f != folder { assert f in sorted[1..]; }
      }
    }
  }

  lemma {:induction false} SortFacts(rows: Rows)
    ensures Sorted(SortByPosition(rows)) && |SortByPosition(rows)| == |rows|
    ensures forall f :: f in SortByPosition(rows) <==> f in rows
  {
    if rows != [] {
      SortFacts(rows[1..]);
      InsertFacts(rows[0], SortByPosition(rows[1..]));
      assert rows == [rows[0]] + rows[1..];
    }
  }

  lemma {:induction false} ListedMembers(rows: Rows)
    ensures forall f :: f in Listed(rows) <==> f in rows && f.IsListed()
    ensures UniqueIds(rows) ==> UniqueIds(Listed(rows))
  {
    if rows != [] {
      ListedMembers(rows[1..]);
      assert rows == [rows[0]] + rows[1..];
      if UniqueIds(rows) {
        forall f | f in Listed(rows[1..]) ensures f.id != rows[0].id {
          var i :| 0 <= i < |rows[1..]| && rows[1..][i] == f;
          assert rows[i + 1] == f;
        }
      }
    }
  }

  /** The listing holds exactly the listed rows, each once, by position. */
  lemma ListingFacts(rows: Rows)
    requires UniqueIds(rows)
    ensures Sorted(Listing(rows)) && |Listing(rows)| == |Listed(rows)|
    ensures forall f :: f in Listing(rows) <==> f in rows && f.IsListed()
    ensures UniqueIds(Listing(rows))
  {
    SortFacts(Listed(rows));
    ListedMembers(rows);
    SortUnique(Listed(rows));
  }

  lemma {:induction false} SortUnique(rows: Rows)
    requires UniqueIds(rows)
    ensures UniqueIds(SortByPosition(rows))
  {
    if rows != [] {
      SortUnique(rows[1..]);
      SortFacts(rows[1..]);
      InsertUnique(rows[0], SortByPosition(rows[1..]));
    }
  }

  lemma {:induction false} InsertUnique(folder: ChatFolder, sorted: Rows)
    requires UniqueIds(sorted) && forall f :: f in sorted ==> f.id != folder.id
    ensures UniqueIds(InsertByPosition(folder, sorted))
    ensures forall f :: f in InsertByPosition(folder, sorted) ==> f == folder || f in sorted
  {
    if sorted != [] && folder.position > sorted[0].position {
      InsertUnique(folder, sorted[1..]);
      var rest := InsertByPosition(folder, sorted[1..]);
      forall f | f in rest ensures f.id != sorted[0].id {
        if f != folder {
          var i :| 0 <= i < |sorted[1..]| && sorted[1..][i] == f;
          assert sorted[i + 1] == f;
        }
      }
    }
  }

  /** A sorted list of distinct positions below its length counts up from 0. */
  lemma SortedIsDense(sorted: Rows)
    requires Sorted(sorted)
    requires forall i, j :: 0 <= i < j < |sorted| ==> sorted[i].position != sorted[j].position
    requires forall i :: 0 <= i < |sorted| ==> sorted[i].position < |sorted|
    ensures forall i :: 0 <= i < |sorted| ==> sorted[i].position == i
  {
    var n := |sorted|;
    for i := 0 to n
      invariant forall j :: 0 <= j < i ==> sorted[j].position >= j
    {
      if i > 0 { assert sorted[i - 1].position < sorted[i].position; }
    }
    for i := 0 to n
      invariant forall j :: n - i <= j < n ==> sorted[j].position <= j
    {
      var j := n - 1 - i;
      if i > 0 { assert sorted[j].position < sorted[j + 1].position; }
    }
  }

  // ----- numbering

  function IndexOf(order: seq<FolderId>, id: FolderId): (i: nat)
    ensures i <= |order| && (id in order <==> i < |order|) && (i < |order| ==> order[i] == id)
  {
    if order == [] || order[0] == id then 0 else 1 + IndexOf(order[1..], id)
  }

  predicate DistinctIds(order: seq<FolderId>) {
    forall i, j :: 0 <= i < j < |order| ==> order[i] != order[j]
  }

  /** Each row named by `order` takes its index there as its position. */
  function Numbered(rows: Rows, order: seq<FolderId>): Rows {
    seq(|rows|, i requires 0 <= i < |rows| => NumberedRow(rows[i], order))
  }

  function NumberedRow(row: ChatFolder, order: seq<FolderId>): ChatFolder {
    if row.id in order then row.(position := IndexOf(order, row.id)) else row
  }

  lemma IndexOfAt(order: seq<FolderId>, i: nat)
    requires DistinctIds(order) && i < |order|
    ensures IndexOf(order, order[i]) == i
  {
    var j := IndexOf(order, order[i]);
    assert order[j] == order[i];
  }

  lemma {:induction false} UpsertReplaces(rows: Rows, i: nat, folder: ChatFolder)
    requires UniqueIds(rows) && i < |rows| && rows[i].id == folder.id
    ensures Upsert(rows, folder) == rows[i := folder]
  {
    if i > 0 {
      UpsertReplaces(rows[1..], i - 1, folder);
      assert rows[0].id != folder.id;
      assert rows[i := folder] == [rows[0]] + rows[1..][i - 1 := folder];
    }
  }

  lemma NumberedPrefix(row: ChatFolder, order: seq<FolderId>, n: nat)
    requires DistinctIds(order) && n < |order|
    ensures NumberedRow(row, order[..n + 1]) ==
            if row.id == order[n] then row.(position := n) else NumberedRow(row, order[..n])
  {
    var longer, shorter := order[..n + 1], order[..n];
    if row.id == order[n] {
      IndexOfAt(longer, n);
    } else if row.id in shorter {
      var j := IndexOf(shorter, row.id);
      IndexOfAt(longer, j);
    } else {
      assert row.id !in longer;
    }
  }

  /** One turn of the renumbering loop. */
  lemma NumberStep(rows: Rows, order: seq<FolderId>, n: nat, folder: ChatFolder)
    requires UniqueIds(rows) && DistinctIds(order) && n < |order|
    requires folder in rows && folder.id == order[n]
    ensures Numbered(rows, order[..n + 1]) ==
            if folder.position == n then Numbered(rows, order[..n])
            else Upsert(Numbered(rows, order[..n]), folder.(position := n))
  {
    var at :| 0 <= at < |rows| && rows[at] == folder;
    var before := Numbered(rows, order[..n]);
    forall i | 0 <= i < |rows|
      ensures NumberedRow(rows[i], order[..n + 1]) == if i == at then folder.(position := n) else before[i]
    {
      NumberedPrefix(rows[i], order, n);
    }
    assert folder.id !in order[..n];
    UpsertReplaces(before, at, folder.(position := n));
  }

  lemma ListedNumbered(rows: Rows, order: seq<FolderId>)
    ensures |Listed(Numbered(rows, order))| == |Listed(rows)|
    ensures forall f :: f in Listed(Numbered(rows, order)) ==>
            exists r :: r in Listed(rows) && f == NumberedRow(r, order)
    decreases |rows|
  {
    if rows != [] {
      ListedNumbered(rows[1..], order);
      assert Numbered(rows, order)[1..] == Numbered(rows[1..], order);
    }
  }

  /** Numbering the listed folders in list order keeps that order and makes it dense. */
  lemma NumberingIsDense(rows: Rows)
    requires UniqueIds(rows)
    ensures var numbered := Numbered(rows, Ids(Listing(rows)));
            Dense(numbered) && Ids(Listing(numbered)) == Ids(Listing(rows)) && UniqueIds(numbered)
  {
    var order := Ids(Listing(rows));
    var numbered := Numbered(rows, order);
    ListingFacts(rows);
    ListingFacts(numbered);
    ListedNumbered(rows, order);
    ListedMembers(rows);
    ListedMembers(numbered);
    var listing := Listing(numbered);
    forall i | 0 <= i < |listing|
      ensures listing[i].position < |listing| && order[listing[i].position] == listing[i].id
    {
      assert listing[i] in Listed(numbered);
      var r :| r in Listed(rows) && listing[i] == NumberedRow(r, order);
      assert r in Listing(rows);
      var j :| 0 <= j < |Listing(rows)| && Listing(rows)[j] == r;
      assert order[j] == r.id;
    }
    SortedIsDense(listing);
  }

  // ----- deleting

  function Remove(rows: Rows, id: FolderId): Rows {
    if rows == [] then [] else if rows[0].id == id then Remove(rows[1..], id) else [rows[0]] + Remove(rows[1..], id)
  }

  lemma {:induction false} RemoveSorted(sorted: Rows, id: FolderId)
    requires Sorted(sorted)
    ensures Sorted(Remove(sorted, id))
    ensures forall f :: f in Remove(sorted, id) ==> f in sorted && sorted[0].position <= f.position
  {
    if sorted != [] {
      RemoveSorted(sorted[1..], id);
      forall f | f in Remove(sorted[1..], id) ensures f in sorted && sorted[0].position <= f.position {
        var i :| 0 <= i < |sorted[1..]| && sorted[1..][i] == f;
        assert sorted[i + 1] == f;
      }
    }
  }

  lemma {:induction false} RemoveInserted(folder: ChatFolder, sorted: Rows, id: FolderId)
    requires Sorted(sorted)
    ensures Remove(InsertByPosition(folder, sorted), id) ==
            if folder.id == id then Remove(sorted, id) else InsertByPosition(folder, Remove(sorted, id))
  {
    RemoveSorted(sorted, id);
    if sorted == [] {
    } else if folder.position <= sorted[0].position {
      var all, less := [folder] + sorted, Remove(sorted, id);
      assert all[1..] == sorted;
      assert less != [] ==> less[0] in less;
    } else {
      RemoveInserted(folder, sorted[1..], id);
      var all := [sorted[0]] + InsertByPosition(folder, sorted[1..]);
      assert all[1..] == InsertByPosition(folder, sorted[1..]);
      if sorted[0].id != id {
        var less := [sorted[0]] + Remove(sorted[1..], id);
        assert less[1..] == Remove(sorted[1..], id);
      }
    }
  }

  lemma {:induction false} RemoveFromSort(rows: Rows, id: FolderId)
    ensures SortByPosition(Remove(rows, id)) == Remove(SortByPosition(rows), id)
  {
    if rows != [] {
      RemoveFromSort(rows[1..], id);
      SortFacts(rows[1..]);
      RemoveInserted(rows[0], SortByPosition(rows[1..]), id);
      if rows[0].id != id {
        var less := [rows[0]] + Remove(rows[1..], id);
        assert less[1..] == Remove(rows[1..], id);
      }
    }
  }

  /** A tombstoned row leaves the list and nothing else moves in it. */
  lemma {:induction false} ListedWithout(rows: Rows, folder: ChatFolder)
    requires UniqueIds(rows) && !folder.IsListed()
    ensures Listed(Upsert(rows, folder)) == Remove(Listed(rows), folder.id)
  {
    if rows == [] {
    } else if rows[0].id == folder.id {
      NotHere(rows[1..], folder.id);
      assert ([folder] + rows[1..])[1..] == rows[1..];
    } else {
      ListedWithout(rows[1..], folder);
      var next := [rows[0]] + Upsert(rows[1..], folder);
      assert next[1..] == Upsert(rows[1..], folder);
    }
  }

  lemma {:induction false} NotHere(rows: Rows, id: FolderId)
    requires forall i :: 0 <= i < |rows| ==> rows[i].id != id
    ensures Remove(Listed(rows), id) == Listed(rows)
  {
    if rows != [] { NotHere(rows[1..], id); }
  }

  lemma {:induction false} RemoveAbsent(rows: Rows, id: FolderId)
    requires forall i :: 0 <= i < |rows| ==> rows[i].id != id
    ensures Remove(rows, id) == rows
  {
    if rows != [] { RemoveAbsent(rows[1..], id); }
  }

  lemma {:induction false} UpsertUnique(rows: Rows, folder: ChatFolder)
    requires UniqueIds(rows)
    ensures UniqueIds(Upsert(rows, folder))
    ensures forall f :: f in Upsert(rows, folder) <==> f == folder || (f in rows && f.id != folder.id)
  {
    if rows != [] {
      assert rows == [rows[0]] + rows[1..];
      if rows[0].id == folder.id {
        assert forall f :: f in rows[1..] ==> f.id != folder.id;
      } else {
        UpsertUnique(rows[1..], folder);
      }
    }
  }

  // ----- saving

  predicate Counts(existing: Option<ChatFolder>) {
    existing.Some? && existing.value.IsListed()
  }

  /** Where a save puts a folder: where it was, or after the listed ones. */
  function SavedPosition(rows: Rows, id: FolderId): nat {
    match Find(rows, id)
    case Some(existing) => existing.position
    case None => |Listing(rows)|
  }

  lemma {:induction false} FindIs(rows: Rows, id: FolderId)
    requires UniqueIds(rows)
    ensures Find(rows, id).Some? ==> Find(rows, id).value in rows && Find(rows, id).value.id == id
    ensures forall f :: f in rows && f.id == id ==> Find(rows, id) == Some(f)
  {
    if rows != [] {
      assert rows == [rows[0]] + rows[1..];
      FindIs(rows[1..], id);
    }
  }

  /** In a dense list each position below the length is taken, once. */
  lemma DenseHas(rows: Rows)
    requires UniqueIds(rows) && Dense(rows)
    ensures forall f :: f in rows && f.IsListed() ==> f.position < |Listing(rows)| && Listing(rows)[f.position] == f
  {
    ListingFacts(rows);
    forall f | f in rows && f.IsListed() ensures f.position < |Listing(rows)| && Listing(rows)[f.position] == f {
      assert f in Listing(rows);
      var i :| 0 <= i < |Listing(rows)| && Listing(rows)[i] == f;
    }
  }

  lemma {:induction false} ListedUpsertLength(rows: Rows, folder: ChatFolder)
    requires folder.IsListed()
    ensures |Listed(Upsert(rows, folder))| == |Listed(rows)| + if Counts(Find(rows, folder.id)) then 0 else 1
  {
    if rows != [] && rows[0].id != folder.id {
      ListedUpsertLength(rows[1..], folder);
      var next := [rows[0]] + Upsert(rows[1..], folder);
      assert next[1..] == Upsert(rows[1..], folder);
    } else if rows != [] {
      assert ([folder] + rows[1..])[1..] == rows[1..];
    }
  }

  /** Saving a live folder of a known type into a densely numbered list leaves it dense
      exactly when the folder is new, replaces one the list already shows, or happens to sit
      at the next position. Saving over a tombstone, which keeps the maximal position, or
      over a folder of an unknown type does not. */
  lemma SaveKeepsDense(rows: Rows, folder: ChatFolder)
    requires UniqueIds(rows) && Dense(rows) && folder.IsListed()
    ensures var saved := folder.(position := SavedPosition(rows, folder.id));
            Dense(Upsert(rows, saved)) <==>
              Find(rows, folder.id) == None || Counts(Find(rows, folder.id)) ||
                  Find(rows, folder.id).value.position == |Listing(rows)|
  {
    var saved := folder.(position := SavedPosition(rows, folder.id));
    var after := Upsert(rows, saved);
    UpsertUnique(rows, saved);
    ListingFacts(rows);
    ListingFacts(after);
    ListedUpsertLength(rows, saved);
    FindIs(rows, folder.id);
    DenseHas(rows);
    assert saved in after && saved.IsListed();
    if Find(rows, folder.id) == None || Counts(Find(rows, folder.id)) ||
      Find(rows, folder.id).value.position == |Listing(rows)| {
      SavedIsDense(rows, saved);
    } else {
      NextPositionFree(rows, saved);
    }
  }

  lemma SavedIsDense(rows: Rows, saved: ChatFolder)
    requires UniqueIds(rows) && Dense(rows) && saved.IsListed()
    requires saved.position ==
             if Counts(Find(rows, saved.id)) then Find(rows, saved.id).value.position else |Listing(rows)|
    ensures Dense(Upsert(rows, saved))
  {
    var after := Upsert(rows, saved);
    UpsertUnique(rows, saved);
    ListingFacts(rows);
    ListingFacts(after);
    ListedUpsertLength(rows, saved);
    FindIs(rows, saved.id);
    DenseHas(rows);
    var listing := Listing(after);
    forall i, j | 0 <= i < j < |listing| ensures listing[i].position != listing[j].position {
      var a, b := listing[i], listing[j];
      assert a in after && b in after && a.id != b.id;
      assert a == saved || a in rows;
      assert b == saved || b in rows;
    }
    forall i | 0 <= i < |listing| ensures listing[i].position < |listing| {
      assert listing[i] in after;
    }
    SortedIsDense(listing);
  }

  /** With one folder more than before, all the old ones below their count, and the new one
      not at the next position, no folder is there. */
  lemma NextPositionFree(rows: Rows, saved: ChatFolder)
    requires UniqueIds(rows) && Dense(rows) && saved.IsListed()
    requires Find(rows, saved.id).Some? && !Counts(Find(rows, saved.id)) && saved.position != |Listing(rows)|
    ensures !Dense(Upsert(rows, saved))
  {
    var after, n := Upsert(rows, saved), |Listing(rows)|;
    UpsertUnique(rows, saved);
    ListingFacts(rows);
    ListingFacts(after);
    ListedUpsertLength(rows, saved);
    DenseHas(rows);
    var last := Listing(after)[n];
    assert last in Listing(after);
    assert last == saved || last in rows;
    assert last.position != n;
  }

  // ----- the operations, spelled out

  /** A tombstone keeps identity, type, name and rules, goes last and names nobody. */
  lemma TombstoneIs(folder: ChatFolder, atMs: nat)
    ensures folder.Tombstone(atMs) ==
            ChatFolder(folder.id, folder.folderType, folder.name, 4294967295, folder.rules, [], [], atMs)
  {
  }

  /** Which folders the list shows: exactly the live ones of a known type. */
  lemma ListingShows(rows: Rows)
    requires UniqueIds(rows)
    ensures forall f :: f in Listing(rows) <==>
              f in rows && f.deletedAtMs == 0 && (f.folderType == AllChats || f.folderType == CustomFolder)
  {
    ListingFacts(rows);
  }

  function AtPosition(rows: Rows, position: nat): Rows {
    if rows == [] then []
    else if rows[0].position == position then [rows[0]] + AtPosition(rows[1..], position)
    else AtPosition(rows[1..], position)
  }

  lemma {:induction false} InsertKeepsTies(folder: ChatFolder, sorted: Rows, position: nat)
    requires Sorted(sorted)
    ensures AtPosition(InsertByPosition(folder, sorted), position) ==
            (if folder.position == position then [folder] else []) + AtPosition(sorted, position)
  {
    if sorted == [] || folder.position <= sorted[0].position {
      assert ([folder] + sorted)[1..] == sorted;
    } else {
      InsertKeepsTies(folder, sorted[1..], position);
      var rest := InsertByPosition(folder, sorted[1..]);
      assert ([sorted[0]] + rest)[1..] == rest;
      if folder.position == position { NoneBelow(sorted, position); }
    }
  }

  lemma {:induction false} NoneBelow(sorted: Rows, position: nat)
    requires sorted != [] && sorted[0].position < position
    ensures AtPosition(sorted, position) == AtPosition(sorted[1..], position)
  {
  }

  /** Folders at the same position are listed in the order they are stored. */
  lemma {:induction false} SortKeepsTies(rows: Rows, position: nat)
    ensures AtPosition(SortByPosition(rows), position) == AtPosition(rows, position)
  {
    if rows != [] {
      SortKeepsTies(rows[1..], position);
      SortFacts(rows[1..]);
      InsertKeepsTies(rows[0], SortByPosition(rows[1..]), position);
    }
  }

  /** Numbering changes nothing of a row but its position, and that only in the rows the list
      shows, where it becomes the index there. */
  lemma NumberingChanges(rows: Rows, i: nat)
    requires UniqueIds(rows) && i < |rows|
    ensures var after := Numbered(rows, Ids(Listing(rows)));
            && |after| == |rows| && after[i] == rows[i].(position := after[i].position)
            && (rows[i].IsListed() ==> after[i].position < |Listing(rows)| &&
                                       Listing(rows)[after[i].position] == rows[i])
            && (!rows[i].IsListed() ==> after[i] == rows[i])
  {
    var order := Ids(Listing(rows));
    ListingFacts(rows);
    assert rows[i] in rows;
    if rows[i].IsListed() {
      var j :| 0 <= j < |Listing(rows)| && Listing(rows)[j] == rows[i];
      assert order[j] == rows[i].id;
    }
    if rows[i].id in order {
      var j := IndexOf(order, rows[i].id);
      assert Listing(rows)[j] in Listing(rows);
      var at :| 0 <= at < |rows| && rows[at] == Listing(rows)[j];
      assert at == i;
    }
  }
}
