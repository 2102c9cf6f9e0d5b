/** What a sync does to a chat folder (`merge_chat_folder_from_snapshot`,
    manager/storage.rs), one record after another. */
module FolderMerge {
  import opened Wrappers
  import opened ChatFolders

  function MinTime(a: nat, b: nat): nat {
    if a == 0 then b else if b == 0 || a < b then a else b
  }

  /** The row to save, or `None` to leave the store as it is. */
  function Merge(local: Option<ChatFolder>, remote: ChatFolder, pending: bool): Option<ChatFolder> {
    if pending then None
    else if remote.folderType == AllChats then
      if local.Some? && !local.value.IsLive() then None else Some(AllChatsFolder(remote.id))
    else match local
      case None => if remote.deletedAtMs != 0 then None else Some(remote)
      case Some(row) =>
        var deletedAt := MinTime(row.deletedAtMs, remote.deletedAtMs);
        Some(if deletedAt != 0 then remote.Tombstone(deletedAt) else remote)
  }

  function AfterMerge(local: Option<ChatFolder>, remote: ChatFolder): Option<ChatFolder> {
    match Merge(local, remote, false)
    case Some(row) => Some(row)
    case None => local
  }

  /** The row after merging a run of records for it, no change of its own pending. */
  function MergeAll(local: Option<ChatFolder>, remotes: seq<ChatFolder>): Option<ChatFolder>
    decreases |remotes|
  {
    if remotes == [] then local else MergeAll(AfterMerge(local, remotes[0]), remotes[1..])
  }

  /** The earliest non-zero time among `time` and the deletion times the records carry; an
      all-chats record has no say. */
  function Earliest(time: nat, remotes: seq<ChatFolder>): nat
    decreases |remotes|
  {
    if remotes == [] then time
    else
      var next := if remotes[0].folderType == AllChats then time else MinTime(time, remotes[0].deletedAtMs);
      Earliest(next, remotes[1..])
  }

  /** Every deleted row is bare: it is last and names nobody. */
  predicate Bare(row: ChatFolder) {
    !row.IsLive() ==> row.position == DELETED_POSITION && row.included == [] && row.excluded == []
  }

  /** Over any run of merges into a stored folder: its deletion time is the earliest non-zero
      one seen, so a delete is never undone and only moves earlier, and a deleted row stays
      bare. */
  lemma {:induction false} DeletesOnlyMoveEarlier(local: ChatFolder, remotes: seq<ChatFolder>)
    requires Bare(local)
    ensures MergeAll(Some(local), remotes).Some?
    ensures MergeAll(Some(local), remotes).value.deletedAtMs == Earliest(local.deletedAtMs, remotes)
    ensures Bare(MergeAll(Some(local), remotes).value)
    decreases |remotes|
  {
    if remotes != [] {
      DeletesOnlyMoveEarlier(AfterMerge(Some(local), remotes[0]).value, remotes[1..]);
    }
  }

  /** `Earliest` is what its name says. */
  lemma {:induction false} EarliestIsEarliest(time: nat, remotes: seq<ChatFolder>)
    ensures var e := Earliest(time, remotes);
            && (time != 0 ==> 0 < e <= time)
            && (forall r :: r in remotes && r.folderType != AllChats && r.deletedAtMs != 0 ==> 0 < e <= r.deletedAtMs)
            && (e == 0 || e == time || exists r :: r in remotes && r.folderType != AllChats && r.deletedAtMs == e)
    decreases |remotes|
  {
    if remotes != [] {
      var head := remotes[0];
      assert remotes == [head] + remotes[1..];
      EarliestIsEarliest(if head.folderType == AllChats then time else MinTime(time, head.deletedAtMs), remotes[1..]);
    }
  }

  /** A deleted row is never live again, whatever is merged into it; in particular a dropped
      duplicate of the all-chats folder is never revived. */
  lemma DeletedStaysDeleted(local: ChatFolder, remotes: seq<ChatFolder>)
    requires Bare(local) && !local.IsLive()
    ensures MergeAll(Some(local), remotes).Some? && !MergeAll(Some(local), remotes).value.IsLive()
    ensures MergeAll(Some(local), remotes).value.deletedAtMs <= local.deletedAtMs
  {
    DeletesOnlyMoveEarlier(local, remotes);
    EarliestIsEarliest(local.deletedAtMs, remotes);
  }

  /** A folder this device has never seen is taken from its first live record; tombstones
      before that leave no row behind. */
  lemma {:induction false} UnseenTombstonesLeaveNothing(remotes: seq<ChatFolder>)
    requires forall r :: r in remotes ==> r.folderType != AllChats && r.deletedAtMs != 0
    ensures MergeAll(None, remotes) == None
    decreases |remotes|
  {
    if remotes != [] {
      assert remotes[0] in remotes;
      UnseenTombstonesLeaveNothing(remotes[1..]);
    }
  }
}
