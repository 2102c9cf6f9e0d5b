/** The loops of manager/storage.rs themselves, `sync_storage_service` and
    `update_storage_record`, run against a server other devices write to between any two
    steps. Every step they take is one of the machine's, so all that is proved of its runs
    holds of any sequence of these calls, interrupted ones included. */
module StorageManager {
  import opened Wrappers
  import opened Varint
  import opened Manifest
  import opened SyncPlan
  import opened SyncMachine
  import opened CaughtUp
  import opened Appending

  const MANIFEST_WRITE_ATTEMPTS: nat := 3
  const MAX_PASSES: nat := 2 * MANIFEST_WRITE_ATTEMPTS

  datatype UpdateError = StorageRecordUnknown | GaveUpOnConflict | EditFailed

  datatype Updated = Published | AlreadyCurrent

  datatype PassResult = Synced | Refused | Done(result: Result<Updated, UpdateError>)

  /** What the server returns of a batch: the records still in its manifest. */
  function ReadItems(sv: Server, batch: seq<StorageId>): (records: seq<(StorageId, seq<byte>)>) {
    if batch == [] then []
    else
      var rest := ReadItems(sv, batch[1..]);
      if batch[0] in sv.items && Listed(sv.ids, batch[0]) then [(batch[0], sv.items[batch[0]].record)] + rest else rest
  }

  lemma {:induction false} ReadItemsReturns(sv: Server, batch: seq<StorageId>)
    ensures Returned(sv, batch, ReadItems(sv, batch))
  {
    if batch != [] {
      assert batch == [batch[0]] + batch[1..];
      ReadItemsReturns(sv, batch[1..]);
    }
  }

  /** The rest of the world: what the other devices write at a tick, if anything, and the
      identifiers this device's generator draws. */
  datatype World = World(others: (nat, Server) -> Option<Server>, draw: Server -> StorageId)

  ghost predicate Lawful(k: KeyOf, w: World) {
    && (forall n, sv :: ServerOk(k, sv) && w.others(n, sv).Some? ==>
          var sv' := w.others(n, sv).value;
          sv'.version == sv.version + 1 && Grows(sv.items, sv'.items) && ServerOk(k, sv'))
    && (forall sv :: w.draw(sv) !in sv.items)
  }

  /** The identifiers of the manifest a plan would leave, none when the write is refused. */
  method BuildWrite(current: Server, plan: Plan) returns (identifiers: Option<seq<Identifier>>)
    requires |plan.inserts| == |plan.random|
    ensures identifiers.Some? <==>
              EachPresentOnce(current.ids, plan.deleteIds) &&
                  NoCollision(Kept(current.ids, plan.deleteIds), plan.random)
    ensures identifiers.Some? ==> identifiers.value == Edited(current.ids, plan.deleteIds, plan.inserts, plan.random)
  {
    var write := WriteManifestEdit(ManifestRecord(current.version, 1, current.ids, []), 1, plan.inserts,
                                   plan.deleteIds, plan.random);
    match write {
      case Success(w) =>
        assert write != Failure(StorageRecordMoved) && write != Failure(StorageManifestConflict);
        return Some(w.manifest.identifiers);
      case Failure(e) =>
        assert e == StorageRecordMoved || e == StorageManifestConflict;
        return None;
    }
  }

  // ----- folders whose identifier left the manifest

  /** What the end of a sync that read `ids` does to the folders: the ones still held are listed,
      and the ones that were listed are still held; no other row loses its identity. */
  ghost predicate FoldersFollow(before: map<Key, Identity>, after: map<Key, Identity>, ids: seq<Identifier>) {
    && (forall key :: key in after && key.FolderKey? ==> Listed(ids, after[key].storageId))
    && (forall key :: key in before && (key.FolderKey? ==> Listed(ids, before[key].storageId)) ==> key in after)
  }

  /** Forgetting drops exactly the folders the manifest does not list, and changes no other. */
  lemma ForgetsUnlisted(held: map<Key, Identity>, ids: seq<Identifier>)
    ensures forall key :: key in ForgetFolders(held, ids) <==>
              key in held && (key.FolderKey? ==> Listed(ids, held[key].storageId))
    ensures forall key :: key in ForgetFolders(held, ids) ==> ForgetFolders(held, ids)[key] == held[key]
  {
    forall raw | exists id :: id in ids && id.raw == raw ensures Listed(ids, raw) {
      var id :| id in ids && id.raw == raw;
      var i :| 0 <= i < |ids| && ids[i] == id;
    }
    forall raw | Listed(ids, raw) ensures exists id :: id in ids && id.raw == raw {
      var i :| 0 <= i < |ids| && ids[i].raw == raw;
      assert ids[i] in ids;
    }
  }

  /** Some manifest of the version now stored was looked at since, and the folders follow it. */
  ghost predicate FollowsSome(run: seq<System>, from: nat, before: map<Key, Identity>, s: System) {
    exists i :: from <= i < |run| && FollowsAt(run, i, before, s)
  }

  ghost predicate FollowsAt(run: seq<System>, i: nat, before: map<Key, Identity>, s: System)
    requires i < |run|
  {
    run[i].server.version == s.version && FoldersFollow(before, s.held, run[i].server.ids)
  }

  /** What a sync under way has saved so far: as before it, or listed in what it reads. */
  ghost predicate SavedOrOld(before: map<Key, Identity>, held: map<Key, Identity>, ids: seq<Identifier>) {
    && before.Keys <= held.Keys
    && forall key :: key in held ==> (key in before && held[key] == before[key]) || Listed(ids, held[key].storageId)
  }

  lemma FollowWhenDone(before: map<Key, Identity>, held: map<Key, Identity>, ids: seq<Identifier>)
    requires SavedOrOld(before, held, ids)
    ensures FoldersFollow(before, ForgetFolders(held, ids), ids)
  {
    ForgetsUnlisted(held, ids);
  }

  lemma BatchIsListed(ids: seq<Identifier>, n: nat, raw: StorageId)
    requires n < |Batches(ids)| && raw in Batches(ids)[n]
    ensures Listed(ids, raw)
  {
    BatchIsFetched(ids, n, raw);
    FetchedIsListed(ids, raw);
    var id :| id in ids && id.raw == raw;
    var i :| 0 <= i < |ids| && ids[i] == id;
  }

  /** The batches read from `from` on, up to `to`. */
  function BatchLog(version: nat, batches: seq<seq<StorageId>>, from: nat, to: nat): seq<Fetch>
    requires from <= to <= |batches|
  {
    seq(to - from, i requires 0 <= i < to - from => SyncMachine.Fetch(version, from + i, batches[from + i]))
  }

  /** What reading some batches has changed. */
  ghost predicate ReadSince(before: System, now: System) {
    && before.op.Syncing? && now.op.Syncing? && now.op == before.op.(next := now.op.next)
    && now.version == before.version
    && SavedOrOld(before.held, now.held, before.op.ids)
    && LoggedSince(before, Batches(before.op.ids), now)
  }

  /** From a cursor inside the plan on, exactly the batches up to the new one were read. */
  ghost predicate LoggedSince(before: System, batches: seq<seq<StorageId>>, now: System)
    requires before.op.Syncing? && now.op.Syncing?
  {
    before.op.next <= |batches| ==>
      && before.op.next <= now.op.next <= |batches|
      && now.log == before.log + BatchLog(before.op.version, batches, before.op.next, now.op.next)
  }

  /** What one batch changes. */
  ghost predicate ReadOne(before: System, now: System) {
    && before.op.Syncing? && now.op == before.op.(next := before.op.next + 1) && now.version == before.version
    && SavedOrOld(before.held, now.held, before.op.ids)
    && before.op.next < |Batches(before.op.ids)|
    && now.log == before.log +
                    [SyncMachine.Fetch(before.op.version, before.op.next, Batches(before.op.ids)[before.op.next])]
  }

  lemma ReadOneMore(before: System, mid: System, now: System)
    requires ReadSince(before, mid) && ReadOne(mid, now)
    ensures ReadSince(before, now)
  {
    SavedTwice(before.held, mid.held, now.held, before.op.ids);
    LoggedOneMore(before, Batches(before.op.ids), mid, now);
  }

  lemma LoggedOneMore(before: System, batches: seq<seq<StorageId>>, mid: System, now: System)
    requires before.op.Syncing? && mid.op.Syncing? && mid.op == before.op.(next := mid.op.next) &&
             now.op == mid.op.(next := mid.op.next + 1)
    requires LoggedSince(before, batches, mid) && mid.op.next < |batches|
    requires now.log == mid.log + [SyncMachine.Fetch(mid.op.version, mid.op.next, batches[mid.op.next])]
    ensures LoggedSince(before, batches, now)
  {
    if before.op.next <= |batches| {
      LogOneMore(before.op.version, batches, before.op.next, mid.op.next);
      var one := [SyncMachine.Fetch(mid.op.version, mid.op.next, batches[mid.op.next])];
      var logged := BatchLog(before.op.version, batches, before.op.next, mid.op.next);
      assert (before.log + logged) + one == before.log + (logged + one);
    }
  }

  /** What merging part of a batch changes. */
  ghost predicate MergedSince(before: System, now: System) {
    && before.op.Syncing? && now.op.Syncing? && now.op == before.op.(unmerged := now.op.unmerged)
    && now.version == before.version && now.log == before.log
    && SavedOrOld(before.held, now.held, before.op.ids)
  }

  lemma BatchEnds(before: System, fetched: System, merged: System, now: System)
    requires before.op.Syncing? && before.op.unmerged == None && before.op.next < |Batches(before.op.ids)|
    requires fetched.op.Syncing? && fetched.op == before.op.(unmerged := fetched.op.unmerged)
    requires fetched.version == before.version
    requires fetched.held == before.held && fetched.log == before.log +
             [SyncMachine.Fetch(before.op.version, before.op.next, Batches(before.op.ids)[before.op.next])]
    requires MergedSince(fetched, merged)
    requires now.op == merged.op.(next := merged.op.next + 1, unmerged := None) && now.version == merged.version
    requires now.held == merged.held && now.log == merged.log
    ensures ReadOne(before, now)
  {
  }

  lemma MergedOneMore(before: System, mid: System, now: System)
    requires MergedSince(before, mid) && MergedSince(mid, now)
    ensures MergedSince(before, now)
  {
    SavedTwice(before.held, mid.held, now.held, before.op.ids);
  }

  /** What a whole sync changes: the folders follow what was read, and every batch not read
      before was read once. */
  ghost predicate SyncedSince(before: System, now: System) {
    && before.op.Syncing? && now.version == before.op.version
    && FoldersFollow(before.held, now.held, before.op.ids)
    && ReadAll(before, Batches(before.op.ids), now)
  }

  ghost predicate ReadAll(before: System, batches: seq<seq<StorageId>>, now: System)
    requires before.op.Syncing?
  {
    before.op.next <= |batches| ==>
      now.log == before.log + BatchLog(before.op.version, batches, before.op.next, |batches|)
  }

  /** A sync that saw the server's version before picks up after the batches it has read, and
      reads every one it has not, once. */
  ghost predicate ResumedFrom(before: System, now: System) {
    var batches := Batches(before.server.ids);
    var from := if before.cursor.Some? && before.cursor.value.target == before.server.version
      then before.cursor.value.next else 0;
    from <= |batches| ==> now.log == before.log + BatchLog(before.server.version, batches, from, |batches|)
  }

  lemma NothingToRead(ids: seq<Identifier>)
    requires Fetched(ids) == []
    ensures Batches(ids) == []
  {
    assert SubjectKeys(ids) == [] && TrailingKeys(ids) == [];
  }

  lemma SyncEnds(before: System, mid: System, now: System)
    requires ReadSince(before, mid) && mid.op.next >= |Batches(before.op.ids)|
    requires now.version == mid.op.version && now.log == mid.log
    requires now.held == ForgetFolders(mid.held, mid.op.ids)
    ensures SyncedSince(before, now)
  {
    FollowWhenDone(before.held, mid.held, before.op.ids);
  }

  lemma SavedTwice(a: map<Key, Identity>, b: map<Key, Identity>, c: map<Key, Identity>, ids: seq<Identifier>)
    requires SavedOrOld(a, b, ids) && SavedOrOld(b, c, ids)
    ensures SavedOrOld(a, c, ids)
  {
  }

  lemma LogOneMore(version: nat, batches: seq<seq<StorageId>>, from: nat, to: nat)
    requires from <= to < |batches|
    ensures BatchLog(version, batches, from, to + 1) ==
            BatchLog(version, batches, from, to) + [SyncMachine.Fetch(version, to, batches[to])]
  {
  }

  // ----- how a write is lost

  ghost predicate MovedAt(run: seq<System>, i: nat, key: Key)
    requires i < |run|
  {
    AtServer(run[i]) && HeldMoved(run[i], key)
  }

  /** Since state `from` of the run this device was caught up and found the held record moved. */
  ghost predicate MovedSince(run: seq<System>, from: nat, key: Key) {
    exists i :: from <= i < |run| && MovedAt(run, i, key)
  }

  lemma MovedStill(run: seq<System>, longer: seq<System>, earlier: nat, from: nat, key: Key)
    requires run <= longer && earlier <= from
    ensures MovedSince(run, from, key) ==> MovedSince(longer, earlier, key)
  {
    if MovedSince(run, from, key) {
      var i :| from <= i < |run| && MovedAt(run, i, key);
      assert MovedAt(longer, i, key);
    }
  }

  /** How far the other devices have written when a call that began at version `start` has caught
      up and been refused so often: each refusal and each sync but the first took one write. */
  ghost predicate Contended(start: nat, s: System, syncs: nat, refusals: nat) {
    s.server.version >= start + refusals && (syncs > 0 ==> s.version >= start + syncs - 1)
  }

  /** The state of a call for `key` so far: the record was found moved, or the others wrote. */
  ghost predicate Held(run: seq<System>, from: nat, key: Key, start: nat, s: System, syncs: nat, refusals: nat) {
    MovedSince(run, from, key) || Contended(start, s, syncs, refusals)
  }

  lemma HeldAfterSync(run: seq<System>, longer: seq<System>, from: nat, key: Key, start: nat, before: System,
                      s: System, syncs: nat, refusals: nat)
    requires Held(run, from, key, start, before, syncs, refusals) && run <= longer
    requires s.version > before.version && s.version >= before.server.version
    requires s.server.version >= before.server.version
    ensures Held(longer, from, key, start, s, syncs + 1, refusals)
  {
    MovedStill(run, longer, from, from, key);
  }

  lemma HeldAfterRefusal(run: seq<System>, longer: seq<System>, from: nat, key: Key, start: nat, before: System,
                         s: System, syncs: nat, refusals: nat)
    requires Held(run, from, key, start, before, syncs, refusals) && run <= longer && from < |run|
    requires s.version == before.version && s.server.version >= before.server.version
    requires s.server.version > before.server.version || MovedSince(longer, |run| - 1, key)
    ensures Held(longer, from, key, start, s, syncs, refusals + 1)
  {
    MovedStill(run, longer, from, from, key);
    MovedStill(longer, longer, from, |run| - 1, key);
  }

  ghost predicate AtServer(s: System) {
    s.version == s.server.version
  }

  /** A record is held for `key`, and the manifest does not list it exactly once. */
  ghost predicate HeldMoved(s: System, key: Key) {
    key in s.held && !EachPresentOnce(s.server.ids, [s.held[key].storageId])
  }

  /** What an update begun at state `from` of the run that ends at `s` may say. */
  ghost predicate Outcome(run: seq<System>, s: System, quiet: bool, from: nat, r: Result<Updated, UpdateError>,
                          key: Key, edit: RecordEdit) {
    match r
    case Success(AlreadyCurrent) => AtServer(s) && key in s.held && edit(s.held[key].record) == Success(None)
    case Success(Published) => WroteEdit(run, from, key, edit) && (quiet ==> AtServer(s))
    case Failure(StorageRecordUnknown) => AtServer(s) && key !in s.held
    case Failure(EditFailed) => AtServer(s) && key in s.held && edit(s.held[key].record).Failure?
    case Failure(GaveUpOnConflict) => quiet ==> HeldMoved(s, key)
  }

  /** What it may say when no other device writes: against `server`, the one it was begun on,
      and caught up with it. */
  ghost predicate QuietOutcome(run: seq<System>, s: System, server: Server, from: nat,
                               r: Result<Updated, UpdateError>, key: Key, edit: RecordEdit) {
    && AtServer(s)
    && if r == Success(Published) then WroteOnto(run, from, key, edit, server) else s.server == server
  }

  // ----- the passes of one update

  /** After `pass` passes of a call for `key` that began at `start`: so many caught up, so many
      were refused. With no other device writing only the first may have had to catch up, and
      any refusal was of a record that moved. */
  ghost predicate Passed(run: seq<System>, from: nat, key: Key, start: System, s: System, quiet: bool, pass: nat,
                         syncs: nat, refusals: nat) {
    && pass == syncs + refusals && refusals <= MANIFEST_WRITE_ATTEMPTS && s.version <= s.server.version
    && Held(run, from, key, start.server.version, s, syncs, refusals)
    && (quiet ==> s.server == start.server && (pass > 0 ==> AtServer(s)))
    && (quiet && (pass > 1 || refusals > 0) ==> HeldMoved(s, key))
  }

  lemma PassedSync(was: seq<System>, run: seq<System>, from: nat, key: Key, start: System, before: System, s: System,
                   quiet: bool, pass: nat, syncs: nat, refusals: nat)
    requires Passed(was, from, key, start, before, quiet, pass, syncs, refusals) && was <= run
    requires s.version > before.version && s.version >= before.server.version
    requires s.server.version >= before.server.version && s.version <= s.server.version
    requires quiet ==> s.server == before.server && AtServer(s) && !AtServer(before)
    ensures Passed(run, from, key, start, s, quiet, pass + 1, syncs + 1, refusals)
  {
    HeldAfterSync(was, run, from, key, start.server.version, before, s, syncs, refusals);
  }

  lemma PassedRefusal(was: seq<System>, run: seq<System>, from: nat, key: Key, start: System, before: System,
                      s: System, quiet: bool, pass: nat, syncs: nat, refusals: nat)
    requires Passed(was, from, key, start, before, quiet, pass, syncs, refusals) && was <= run && from < |was|
    requires refusals < MANIFEST_WRITE_ATTEMPTS
    requires s.version == before.version && s.server.version >= before.server.version && s.version <= s.server.version
    requires s.server.version > before.server.version || MovedSince(run, |was| - 1, key)
    requires quiet ==> s.server == before.server && AtServer(s) && HeldMoved(s, key)
    ensures Passed(run, from, key, start, s, quiet, pass + 1, syncs, refusals + 1)
  {
    HeldAfterRefusal(was, run, from, key, start.server.version, before, s, syncs, refusals);
  }

  /** Three refusals, or six passes, take three writes of others. */
  lemma PassedAll(run: seq<System>, from: nat, key: Key, start: System, s: System, quiet: bool, pass: nat,
                  syncs: nat, refusals: nat, edit: RecordEdit)
    requires Passed(run, from, key, start, s, quiet, pass, syncs, refusals)
    requires refusals == MANIFEST_WRITE_ATTEMPTS || pass == MAX_PASSES
    ensures s.server.version >= start.server.version + 3 || MovedSince(run, from, key)
    ensures Outcome(run, s, quiet, from + 1, Failure(GaveUpOnConflict), key, edit)
    ensures quiet ==> QuietOutcome(run, s, start.server, from + 1, Failure(GaveUpOnConflict), key, edit)
  {
  }

  lemma OutcomeEarlier(run: seq<System>, s: System, quiet: bool, earlier: nat, from: nat, server: Server,
                       r: Result<Updated, UpdateError>, key: Key, edit: RecordEdit)
    requires earlier <= from && Outcome(run, s, quiet, from, r, key, edit)
    ensures Outcome(run, s, quiet, earlier, r, key, edit)
    ensures QuietOutcome(run, s, server, from, r, key, edit) ==>
              QuietOutcome(run, s, server, earlier, r, key, edit)
  {
  }

  class Manager {
    const keyOf: KeyOf
    const world: World
    var s: System
    var clock: nat
    /** Rows that owe the storage service a write. */
    var flagged: set<Key>
    /** Every state so far. */
    ghost var run: seq<System>

    ghost predicate Valid()
      reads this
    {
      && Lawful(keyOf, world)
      && IsRun(keyOf, run) && run[|run| - 1] == s
    }

    /** No other device ever writes. */
    ghost predicate Quiet() {
      forall n, sv :: world.others(n, sv) == None
    }

    /** A store that has read nothing, against some account. */
    constructor (keyOf: KeyOf, world: World, server: Server)
      requires Lawful(keyOf, world) && ServerOk(keyOf, server)
      ensures Valid() && run == [s] && s == System(server, 0, None, map[], Idle, []) && flagged == {}
    {
      this.keyOf, this.world := keyOf, world;
      s := System(server, 0, None, map[], Idle, []);
      clock := 0;
      flagged := {};
      run := [System(server, 0, None, map[], Idle, [])];
    }

    lemma Invariant()
      requires Valid()
      ensures Inv(keyOf, s)
    {
      RunInv(keyOf, run, |run| - 1);
    }

    lemma PlanIsOk(key: Key, record: seq<byte>, edit: RecordEdit)
      requires Valid() && key in s.held && KeepsKey(keyOf, key, edit) &&
               edit(s.held[key].record) == Success(Some(record))
      ensures PlanOk(keyOf, s.held, Replacement(s.held, key, record, world.draw(s.server)))
      ensures FreshIds(s.server.items, Replacement(s.held, key, record, world.draw(s.server)))
    {
      Invariant();
      EditWriteIsOk(keyOf, s, key, edit, record, world.draw(s.server));
    }

    /** Leaving `mine` aside: no flag is lost, only folders are newly flagged, and a row that
        lost its identity is flagged. */
    ghost predicate Reflagged(before: System, flags: set<Key>, mine: set<Key>)
      reads this
    {
      && flags - mine <= flagged
      && (forall key :: key in flagged && key !in flags && key !in mine ==> key.FolderKey?)
      && (forall key :: key in before.held && key !in s.held && key !in mine ==> key in flagged)
    }

    /** A drawn identifier collides with nothing, so a write fails only on a moved record. */
    lemma DrawnIsUnused(key: Key, record: seq<byte>)
      requires Valid() && key in s.held
      ensures var p := Replacement(s.held, key, record, world.draw(s.server));
              NoCollision(Kept(s.server.ids, p.deleteIds), p.random)
    {
      Invariant();
      var p := Replacement(s.held, key, record, world.draw(s.server));
      KeptMembers(s.server.ids, p.deleteIds);
      forall i | 0 <= i < |Kept(s.server.ids, p.deleteIds)|
          ensures Kept(s.server.ids, p.deleteIds)[i].raw != p.random[0] {
        assert Kept(s.server.ids, p.deleteIds)[i] in s.server.ids;
      }
    }

    method Step(next: System)
      requires Valid() && Next(keyOf, s, next)
      modifies this`s, this`run
      ensures Valid() && s == next && run == old(run) + [next]
    {
      RunExtends(keyOf, run, next);
      s := next;
      run := run + [next];
    }

    method Flag(key: Key)
      requires Valid()
      modifies this`flagged
      ensures Valid() && flagged == old(flagged) + {key}
    {
      flagged := flagged + {key};
    }

    method Unflag(key: Key)
      requires Valid()
      modifies this`flagged
      ensures Valid() && flagged == old(flagged) - {key}
    {
      flagged := flagged - {key};
    }

    /** Another device gets its turn. */
    method LetOthersWrite()
      requires Valid()
      modifies this`s, this`run, this`clock
      ensures Valid() && old(run) <= run
      ensures s == old(s).(server := s.server) && s.server.version >= old(s).server.version
      ensures Quiet() ==> s == old(s)
    {
      Invariant();
      var moved := world.others(clock, s.server);
      clock := clock + 1;
      if moved.Some? {
        var next := s.(server := moved.value);
        assert OtherWrite(keyOf, s, next);
        Step(next);
      }
    }

    // ----- the steps of a sync

    /** Look at the manifest: nothing new, nothing to fetch, or a sync begun where the cursor
        says. */
    method BeginSync()
      requires Valid() && s.op.Idle?
      modifies this`s, this`run, this`flagged
      ensures Valid() && SyncStart(keyOf, old(s), s) && run == old(run) + [s]
      ensures s.server == old(s).server
      ensures flagged == old(flagged) + (old(s).held.Keys - s.held.Keys)
      ensures Reflagged(old(s), old(flagged), {})
      ensures s.op.Syncing? ==>
                && s.held == old(s).held && s.log == old(s).log && s.op.ids == s.server.ids
                && s.op.next == if old(s).cursor.Some? && old(s).cursor.value.target == s.server.version
                                then old(s).cursor.value.next else 0
      ensures s.op.Idle? ==> s.log == old(s).log && (AtServer(old(s)) || Fetched(s.server.ids) == [])
      ensures s.op.Idle? ==> if s.version == old(s).version then s.held == old(s).held
                             else FoldersFollow(old(s).held, s.held, s.server.ids)
      ensures if s.op.Syncing?
              then s.op.unmerged == None && s.op.version == s.server.version && s.version == old(s).version
              else s.op.Idle? && s.version == s.server.version
    {
      var manifest := s.server;
      var next: System;
      if manifest.version == s.version {
        next := s.(cursor := None);
      } else if Fetched(manifest.ids) == [] {
        next := s.(version := manifest.version, held := ForgetFolders(s.held, manifest.ids));
      } else {
        var resumes := s.cursor.Some? && s.cursor.value.target == manifest.version;
        next := s.(cursor := if resumes then s.cursor else None,
                   op := Syncing(manifest.version, manifest.ids, if resumes then s.cursor.value.next else 0, None));
      }
      assert SyncStart(keyOf, s, next);
      FollowWhenDone(s.held, s.held, manifest.ids);
      flagged := flagged + (s.held.Keys - next.held.Keys);
      Step(next);
    }

    method Fetch()
      requires Valid() && s.op.Syncing? && s.op.unmerged == None && s.op.next < |Batches(s.op.ids)|
      modifies this`s, this`run
      ensures Valid() && FetchBatch(keyOf, old(s), s) && run == old(run) + [s]
    {
      var batch := Batches(s.op.ids)[s.op.next];
      ReadItemsReturns(s.server, batch);
      var next := s.(op := s.op.(unmerged := Some(ReadItems(s.server, batch))),
                     log := s.log + [SyncMachine.Fetch(s.op.version, s.op.next, batch)]);
      assert FetchBatch(keyOf, s, next);
      Step(next);
    }

    method MergeRecord()
      requires Valid() && s.op.Syncing? && s.op.unmerged.Some? && s.op.unmerged.value != []
      modifies this`s, this`run
      ensures Valid() && run == old(run) + [s]
      ensures s == old(s).(held := Saved(keyOf, old(s).held, old(s).op.version, old(s).op.unmerged.value[0]),
                           op := old(s).op.(unmerged := Some(old(s).op.unmerged.value[1..])))
      ensures var (raw, record) := old(s).op.unmerged.value[0];
              if keyOf(record) == None then s.held == old(s).held
              else s.held == old(s).held[keyOf(record).value := Identity(raw, old(s).op.version, record)]
      ensures SavedOrOld(old(s).held, s.held, s.op.ids)
    {
      var next := s.(held := Saved(keyOf, s.held, s.op.version, s.op.unmerged.value[0]),
                     op := s.op.(unmerged := Some(s.op.unmerged.value[1..])));
      assert MergeOne(keyOf, s, next);
      Invariant();
      BatchIsListed(s.op.ids, s.op.next, s.op.unmerged.value[0].0);
      Step(next);
    }

    method StoreCursor()
      requires Valid() && s.op.Syncing? && s.op.unmerged == Some([])
      modifies this`s, this`run
      ensures Valid() && run == old(run) + [s]
      ensures s == old(s).(cursor := Some(Cursor(old(s).op.version, old(s).op.next + 1)),
                           op := old(s).op.(next := old(s).op.next + 1, unmerged := None))
    {
      var next := s.(cursor := Some(Cursor(s.op.version, s.op.next + 1)),
                     op := s.op.(next := s.op.next + 1, unmerged := None));
      assert BatchDone(keyOf, s, next);
      Step(next);
    }

    /** A folder whose identifier left the manifest forgets it and is flagged, to be appended
        afresh. */
    method FinishSync()
      requires Valid() && s.op.Syncing? && s.op.unmerged == None && s.op.next >= |Batches(s.op.ids)|
      modifies this`s, this`run, this`flagged
      ensures Valid() && run == old(run) + [s]
      ensures s == old(s).(version := old(s).op.version, cursor := None,
                           held := ForgetFolders(old(s).held, old(s).op.ids), op := Idle)
      ensures forall key :: key in s.held <==>
                key in old(s).held && (key.FolderKey? ==> Listed(old(s).op.ids, old(s).held[key].storageId))
      ensures forall key :: key in s.held ==> s.held[key] == old(s).held[key]
      ensures flagged == old(flagged) + (old(s).held.Keys - s.held.Keys)
      ensures Reflagged(old(s), old(flagged), {})
    {
      var next := s.(version := s.op.version, cursor := None, held := ForgetFolders(s.held, s.op.ids), op := Idle);
      assert SyncFinish(keyOf, s, next);
      ForgetsUnlisted(s.held, s.op.ids);
      flagged := flagged + (s.held.Keys - next.held.Keys);
      Step(next);
    }

    /** The app dies, or a request fails. */
    method Stop()
      requires Valid()
      modifies this`s, this`run
      ensures Valid() && s == old(s).(op := Idle) && run == old(run) + [s]
    {
      var next := s.(op := Idle);
      assert Abort(keyOf, s, next);
      Step(next);
    }

    /** The next record of the batch, the other devices writing first. */
    method MergeNext()
      requires Valid() && s.op.Syncing? && s.op.unmerged.Some? && s.op.unmerged.value != []
      modifies this`s, this`run, this`clock
      ensures Valid() && old(run) <= run
      ensures MergedSince(old(s), s) && s.op.unmerged == Some(old(s).op.unmerged.value[1..])
      ensures Quiet() ==> s.server == old(s).server
    {
      LetOthersWrite();
      MergeRecord();
    }

    /** Every record of the batch. */
    method MergeAll()
      requires Valid() && s.op.Syncing? && s.op.unmerged.Some?
      modifies this`s, this`run, this`clock
      ensures Valid() && old(run) <= run
      ensures MergedSince(old(s), s) && s.op.unmerged == Some([])
      ensures Quiet() ==> s.server == old(s).server
    {
      while s.op.unmerged.value != []
        invariant Valid() && old(run) <= run
        invariant MergedSince(old(s), s) && s.op.unmerged.Some?
        invariant Quiet() ==> s.server == old(s).server
        decreases |s.op.unmerged.value|
      {
        ghost var mid := s;
        MergeNext();
        MergedOneMore(old(s), mid, s);
      }
    }

    /** One batch: fetch, merge each record, then store the cursor past it. */
    method ReadAndMerge()
      requires Valid() && s.op.Syncing? && s.op.unmerged == None && s.op.next < |Batches(s.op.ids)|
      modifies this`s, this`run, this`clock
      ensures Valid() && old(run) <= run
      ensures ReadOne(old(s), s)
      ensures Quiet() ==> s.server == old(s).server
    {
      Fetch();
      ghost var fetched := s;
      MergeAll();
      ghost var merged := s;
      StoreCursor();
      BatchEnds(old(s), fetched, merged, s);
    }

    /** Every batch from the cursor on, or the first `stopAfter` of them. */
    method ReadBatches(stopAfter: Option<nat>) returns (done: bool)
      requires Valid() && s.op.Syncing? && s.op.unmerged == None
      modifies this`s, this`run, this`clock
      ensures Valid() && old(run) <= run
      ensures ReadSince(old(s), s)
      ensures if done then s.op.next >= |Batches(s.op.ids)| else stopAfter.Some?
      ensures Quiet() ==> s.server == old(s).server
    {
      var batches, fetched := |Batches(s.op.ids)|, 0;
      while s.op.next < batches
        invariant Valid() && old(run) <= run
        invariant ReadSince(old(s), s)
        invariant Quiet() ==> s.server == old(s).server
        decreases batches - s.op.next
      {
        if stopAfter == Some(fetched) {
          return false;
        }
        LetOthersWrite();
        ghost var mid := s;
        ReadAndMerge();
        ReadOneMore(old(s), mid, s);
        fetched := fetched + 1;
      }
      return true;
    }

    /** Read the manifest and every batch the cursor does not skip, merging record by record.
        `stopAfter` is how many batches it gets before the app dies. A sync that is not cut
        off stores the version of the manifest it read. */
    method SyncStorageService(stopAfter: Option<nat>) returns (done: bool)
      requires Valid() && s.op.Idle?
      modifies this
      ensures Valid() && old(run) <= run && s.op.Idle?
      ensures done ==> s.version >= old(s).server.version
      ensures !done ==> s.version == old(s).version && stopAfter.Some?
      ensures done && s.version != old(s).version ==> FollowsSome(run, |old(run)| - 1, old(s).held, s)
      ensures done && s.version == old(s).version ==> s.held == old(s).held
      ensures Quiet() && done && !AtServer(old(s)) ==> ResumedFrom(old(s), s)
      ensures Quiet() ==> s.server == old(s).server && (done ==> s.version == s.server.version)
      ensures Reflagged(old(s), old(flagged), {})
      ensures forall key :: key in flagged && key !in old(flagged) ==> key !in s.held
    {
      LetOthersWrite();
      BeginSync();
      ghost var at := |run| - 1;
      if s.op.Idle? {
        assert s.version != old(s).version ==> FollowsAt(run, at, old(s).held, s);
        if Fetched(s.server.ids) == [] { NothingToRead(s.server.ids); }
        return true;
      }
      done := CarryOutSync(stopAfter);
      assert done ==> FollowsAt(run, at, old(s).held, s);
    }

    /** A sync that has begun: its batches, then its end, unless it is cut off. */
    method CarryOutSync(stopAfter: Option<nat>) returns (done: bool)
      requires Valid() && s.op.Syncing? && s.op.unmerged == None
      modifies this
      ensures Valid() && old(run) <= run && s.op.Idle?
      ensures s.version == if done then old(s).op.version else old(s).version
      ensures done ==> SyncedSince(old(s), s)
      ensures !done ==> stopAfter.Some?
      ensures Quiet() ==> s.server == old(s).server
      ensures Reflagged(old(s), old(flagged), {})
      ensures forall key :: key in flagged && key !in old(flagged) ==> key !in s.held
    {
      done := ReadBatches(stopAfter);
      if done {
        ghost var read := s;
        FinishSync();
        SyncEnds(old(s), read, s);
      } else {
        Stop();
      }
    }

    // ----- a write

    method BeginWrite(plan: Plan)
      requires Valid() && s.op.Idle? && s.server.version == s.version
      requires PlanOk(keyOf, s.held, plan) && FreshIds(s.server.items, plan)
      requires EachPresentOnce(s.server.ids, plan.deleteIds) &&
               NoCollision(Kept(s.server.ids, plan.deleteIds), plan.random)
      modifies this`s, this`run
      ensures Valid() && s == old(s).(op := Writing(old(s).version, old(s).server.ids, plan)) && run == old(run) + [s]
    {
      var next := s.(op := Writing(s.version, s.server.ids, plan));
      assert WriteStart(keyOf, s, next);
      Step(next);
    }

    /** The server takes the write, at the version after the one it was built on. */
    method ServerTakes(identifiers: seq<Identifier>)
      requires Valid() && s.op.Writing? && s.server.version == s.op.version
      requires |s.op.plan.inserts| == |s.op.plan.random|
      requires identifiers == Edited(s.op.ids, s.op.plan.deleteIds, s.op.plan.inserts, s.op.plan.random)
      modifies this`s, this`run
      ensures Valid() && Accept(keyOf, old(s), s) && run == old(run) + [s]
    {
      var next := s.(server := Server(s.op.version + 1, identifiers,
                                      s.server.items + NewItems(s.op.plan.inserts, s.op.plan.random)),
                     op := Accepted(s.op.version + 1, s.op.plan));
      assert Accept(keyOf, s, next);
      Step(next);
    }

    method CommitWrite()
      requires Valid() && s.op.Accepted? && |s.op.plan.keys| == |s.op.plan.inserts| == |s.op.plan.random|
      modifies this`s, this`run
      ensures Valid() && Commit(keyOf, old(s), s) && run == old(run) + [s]
    {
      var next := s.(version := s.op.version, held := Committed(s.held, s.op.version, s.op.plan), op := Idle);
      assert Commit(keyOf, s, next);
      Step(next);
    }

    /** One pass of a caught-up device; `None` when the write is refused. */
    method Attempt(key: Key, edit: RecordEdit) returns (r: Option<Result<Updated, UpdateError>>)
      requires Valid() && s.op.Idle? && AtServer(s) && KeepsKey(keyOf, key, edit)
      modifies this`s, this`run, this`clock
      ensures Valid() && old(run) <= run && s.op.Idle?
      ensures r.Some? ==> r.value != Failure(GaveUpOnConflict)
      ensures r.Some? ==> Outcome(run, s, Quiet(), |old(run)|, r.value, key, edit)
      ensures r.Some? && Quiet() ==> QuietOutcome(run, s, old(s).server, |old(run)|, r.value, key, edit)
      ensures r == None && Quiet() ==> s == old(s) && HeldMoved(s, key)
      ensures r == None ==> s.version == old(s).version
      ensures r == None ==> s.server.version > old(s).server.version || MovedSince(run, |old(run)| - 1, key)
      ensures old(s).held.Keys <= s.held.Keys
    {
      if key !in s.held {
        return Some(Failure(StorageRecordUnknown));
      }
      var edited := edit(s.held[key].record);
      if edited.Failure? {
        return Some(Failure(EditFailed));
      }
      if edited.value.None? {
        return Some(Success(AlreadyCurrent));
      }
      var written := Replace(key, edited.value.value, edit);
      return if written then Some(Success(Published)) else None;
    }

    /** Versions only grow along the run, and the stored one never passes the server's. */
    lemma Advances(from: nat)
      requires Valid() && 0 < from <= |run|
      ensures run[from - 1].server.version <= s.server.version
      ensures s.version <= s.server.version
    {
      VersionsGrow(keyOf, run, from - 1, |run| - 1);
      Invariant();
    }

    /** A device that is behind catches up, whatever the others do meanwhile. */
    method CatchUp()
      requires Valid() && s.op.Idle? && s.server.version != s.version
      modifies this
      ensures Valid() && old(run) <= run && s.op.Idle?
      ensures s.version > old(s).version && s.version >= old(s).server.version
      ensures Reflagged(old(s), old(flagged), {})
      ensures Quiet() ==> s.server == old(s).server && AtServer(s)
    {
      Invariant();
      var done := SyncStorageService(None);
      assert done;
    }

    /** One pass: catch up if behind, else try the write. */
    method Pass(key: Key, edit: RecordEdit) returns (p: PassResult)
      requires Valid() && s.op.Idle? && KeepsKey(keyOf, key, edit)
      modifies this
      ensures Valid() && old(run) <= run && s.op.Idle?
      ensures p.Done? ==> p.result != Failure(GaveUpOnConflict)
      ensures p.Done? ==> Outcome(run, s, Quiet(), |old(run)|, p.result, key, edit)
      ensures p.Done? && Quiet() ==> QuietOutcome(run, s, old(s).server, |old(run)|, p.result, key, edit)
      ensures Reflagged(old(s), old(flagged), {})
      ensures Quiet() && !p.Done? ==> s.server == old(s).server
      ensures p == Synced ==> s.version > old(s).version && s.version >= old(s).server.version
      ensures p == Refused ==> s.version == old(s).version
      ensures p == Refused ==> s.server.version > old(s).server.version || MovedSince(run, |old(run)| - 1, key)
      ensures Quiet() && !p.Done? ==>
              AtServer(s) && if old(AtServer(s)) then p == Refused && HeldMoved(s, key) else p == Synced
    {
      LetOthersWrite();
      ghost var since := |run|;
      if s.server.version != s.version {
        CatchUp();
        return Synced;
      }
      var outcome := Attempt(key, edit);
      MovedStill(run, run, |old(run)| - 1, since - 1, key);
      return if outcome.Some? then Done(outcome.value) else Refused;
    }

    lemma ReflaggedThen(first: System, flags: set<Key>, mid: System, midFlags: set<Key>, mine: set<Key>)
      requires flags - mine <= midFlags
      requires forall key :: key in midFlags && key !in flags && key !in mine ==> key.FolderKey?
      requires forall key :: key in first.held && key !in mid.held && key !in mine ==> key in midFlags
      requires Reflagged(mid, midFlags, {})
      ensures Reflagged(first, flags, mine)
    {
    }

    /** One pass of an update that began at `start`, with what it adds to the count. */
    method CountedPass(key: Key, edit: RecordEdit, ghost from: nat, ghost start: System, ghost syncs: nat,
                       ghost refusals: nat) returns (p: PassResult)
      requires Valid() && s.op.Idle? && KeepsKey(keyOf, key, edit) && 0 < from <= |run|
      requires refusals < MANIFEST_WRITE_ATTEMPTS
      requires Passed(run, from - 1, key, start, s, Quiet(), syncs + refusals, syncs, refusals)
      modifies this
      ensures Valid() && old(run) <= run && s.op.Idle?
      ensures Reflagged(old(s), old(flagged), {})
      ensures p.Done? ==> p.result != Failure(GaveUpOnConflict)
      ensures p.Done? ==> Outcome(run, s, Quiet(), from, p.result, key, edit)
      ensures p.Done? && Quiet() ==> QuietOutcome(run, s, start.server, from, p.result, key, edit)
      ensures p == Synced ==> Passed(run, from - 1, key, start, s, Quiet(), syncs + 1 + refusals, syncs + 1, refusals)
      ensures p == Refused ==> Passed(run, from - 1, key, start, s, Quiet(), syncs + refusals + 1, syncs, refusals + 1)
    {
      ghost var before, was := s, run;
      p := Pass(key, edit);
      Advances(|was|);
      match p {
        case Synced => PassedSync(was, run, from - 1, key, start, before, s, Quiet(), syncs + refusals, syncs,
                                  refusals);
        case Done(result) => OutcomeEarlier(run, s, Quiet(), from, |was|, start.server, result, key, edit);
        case Refused =>
          PassedRefusal(was, run, from - 1, key, start, before, s, Quiet(), syncs + refusals, syncs, refusals);
      }
    }

    /** The passes of an update, until one is decisive or there have been too many. */
    method TryPasses(key: Key, edit: RecordEdit) returns (r: Result<Updated, UpdateError>)
      requires Valid() && s.op.Idle? && KeepsKey(keyOf, key, edit)
      modifies this
      ensures Valid() && old(run) <= run && s.op.Idle?
      ensures Outcome(run, s, Quiet(), |old(run)|, r, key, edit)
      ensures Quiet() ==> QuietOutcome(run, s, old(s).server, |old(run)|, r, key, edit)
      ensures Reflagged(old(s), old(flagged), {})
      ensures r == Failure(GaveUpOnConflict) ==>
                s.server.version >= old(s).server.version + 3 || MovedSince(run, |old(run)| - 1, key)
    {
      ghost var syncs := 0;
      Invariant();
      var writeAttempts := 0;
      for pass := 0 to MAX_PASSES
        invariant Valid() && old(run) <= run && s.op.Idle? && writeAttempts < MANIFEST_WRITE_ATTEMPTS
        invariant Reflagged(old(s), old(flagged), {}) && pass == syncs + writeAttempts
        invariant Passed(run, |old(run)| - 1, key, old(s), s, Quiet(), pass, syncs, writeAttempts)
      {
        ghost var before, flags := s, flagged;
        var p := CountedPass(key, edit, |old(run)|, old(s), syncs, writeAttempts);
        ReflaggedThen(old(s), old(flagged), before, flags, {});
        match p {
          case Synced => syncs := syncs + 1;
          case Done(result) => return result;
          case Refused =>
            writeAttempts := writeAttempts + 1;
            if writeAttempts == MANIFEST_WRITE_ATTEMPTS {
              break;
            }
        }
      }
      PassedAll(run, |old(run)| - 1, key, old(s), s, Quiet(), syncs + writeAttempts, syncs, writeAttempts, edit);
      return Failure(GaveUpOnConflict);
    }

    /** Apply `edit` to the record of `key` and publish the result, catching up first and
        rebuilding the edit on whatever a sync brought. It judges the record only while caught
        up, and gives up only on interference or on a record a peer moved. The row is flagged
        from the start, and no longer exactly when this succeeds. */
    method UpdateStorageRecord(key: Key, edit: RecordEdit) returns (r: Result<Updated, UpdateError>)
      requires Valid() && s.op.Idle? && KeepsKey(keyOf, key, edit)
      modifies this
      ensures Valid() && old(run) <= run && s.op.Idle?
      ensures Outcome(run, s, Quiet(), |old(run)|, r, key, edit)
      ensures Quiet() ==> QuietOutcome(run, s, old(s).server, |old(run)|, r, key, edit)
      ensures key in flagged <==> r.Failure?
      ensures Reflagged(old(s), old(flagged), {key})
      ensures r == Failure(GaveUpOnConflict) ==>
                s.server.version >= old(s).server.version + 3 || MovedSince(run, |old(run)| - 1, key)
    {
      Flag(key);
      r := TryPasses(key, edit);
      if r.Success? {
        Unflag(key);
      }
    }

    /** One write of a caught-up device: the new bytes in, the held id out. */
    method Replace(key: Key, record: seq<byte>, ghost edit: RecordEdit) returns (written: bool)
      requires Valid() && s.op.Idle? && s.server.version == s.version && key in s.held && KeepsKey(keyOf, key, edit)
      requires edit(s.held[key].record) == Success(Some(record))
      modifies this`s, this`run, this`clock
      ensures Valid() && old(run) <= run && s.op.Idle?
      ensures written ==> WroteEdit(run, |old(run)|, key, edit)
      ensures written && Quiet() ==> AtServer(s) && WroteOnto(run, |old(run)|, key, edit, old(s).server)
      ensures !written && Quiet() ==> s == old(s) && HeldMoved(s, key)
      ensures !written ==> s.version == old(s).version
      ensures !written ==> s.server.version > old(s).server.version || MovedSince(run, |old(run)| - 1, key)
      ensures old(s).held.Keys <= s.held.Keys
    {
      var plan := Replacement(s.held, key, record, world.draw(s.server));
      var identifiers := BuildWrite(s.server, plan);
      if identifiers == None {
        DrawnIsUnused(key, record);
        assert MovedAt(run, |run| - 1, key);
        return false;
      }
      PlanIsOk(key, record, edit);
      BeginWrite(plan);
      LetOthersWrite();
      written := Offer(identifiers.value, key, record, edit);
    }

    /** Offer a built write to the server; once it is taken, store what was written. */
    method Offer(identifiers: seq<Identifier>, key: Key, record: seq<byte>, ghost edit: RecordEdit)
        returns (written: bool)
      requires Valid() && s.op.Writing? && s.op.version == s.version
      requires key in s.held && edit(s.held[key].record) == Success(Some(record))
      requires |s.op.plan.random| == 1 && s.op.plan == Replacement(s.held, key, record, s.op.plan.random[0])
      requires identifiers == Edited(s.op.ids, s.op.plan.deleteIds, s.op.plan.inserts, s.op.plan.random)
      modifies this`s, this`run, this`clock
      ensures Valid() && old(run) <= run && s.op.Idle?
      ensures written ==> WroteEdit(run, |old(run)|, key, edit)
      ensures written && Quiet() ==> AtServer(s) && WroteOnto(run, |old(run)|, key, edit, old(s).server)
      ensures !written ==> old(s).server.version != old(s).op.version
      ensures !written ==> s.version == old(s).version && s.server == old(s).server
      ensures old(s).held.Keys <= s.held.Keys
    {
      if s.server.version != s.op.version {
        Stop();
        return false;
      }
      ghost var before := s;
      ServerTakes(identifiers);
      ghost var after := s;
      LetOthersWrite();
      CommitWrite();
      WroteIt(keyOf, before, after, s, key, record, edit);
      assert run[|old(run)| - 1] == before && run[|old(run)|] == after;
      assert WritesAt(run, |old(run)|, key, edit);
      return true;
    }
  }

  lemma WroteIt(k: KeyOf, before: System, after: System, end: System, key: Key, record: seq<byte>, edit: RecordEdit)
    requires key in before.held && before.op.Writing? && Accept(k, before, after)
    requires |before.op.plan.random| == 1 &&
             before.op.plan == Replacement(before.held, key, record, before.op.plan.random[0])
    requires end.held == Committed(before.held, after.op.version, before.op.plan)
    requires edit(before.held[key].record) == Success(Some(record)) && before.server.version == before.op.version
    ensures WritesEdit(before, after, key, edit, end)
  {
    assert IndexOf(before.op.plan.keys, key) == 0;
  }

  /** Since state `from` the server took a write of the edited record of `key`, made from the
      bytes this device held for it at that moment and replacing them; what is held for it
      now is what was written. */
  ghost predicate WroteEdit(run: seq<System>, from: nat, key: Key, edit: RecordEdit) {
    exists i :: from <= i < |run| && WritesAt(run, i, key, edit)
  }

  /** The same, made while caught up with `server`, and no other write since. */
  ghost predicate WroteOnto(run: seq<System>, from: nat, key: Key, edit: RecordEdit, server: Server) {
    exists i :: from <= i < |run| && WritesAt(run, i, key, edit) && OntoAt(run, i, server)
  }

  ghost predicate WritesAt(run: seq<System>, i: nat, key: Key, edit: RecordEdit)
    requires i < |run|
  {
    i > 0 && WritesEdit(run[i - 1], run[i], key, edit, run[|run| - 1])
  }

  ghost predicate OntoAt(run: seq<System>, i: nat, server: Server)
    requires i < |run|
  {
    && i > 0 && run[i - 1].server == server && run[i - 1].version == server.version
    && run[|run| - 1].server == run[i].server
  }

  ghost predicate WritesEdit(before: System, after: System, key: Key, edit: RecordEdit, end: System) {
    && key in before.held && before.op.Writing? && after.op.Accepted?
    && after.op.plan.keys == [key] && |after.op.plan.inserts| == 1
    && after.op.plan.deleteIds == [before.held[key].storageId]
    && edit(before.held[key].record) == Success(Some(after.op.plan.inserts[0].record))
    && after.server.version == before.server.version + 1
    && |after.op.plan.random| == 1 && key in end.held
    && end.held[key] == Identity(after.op.plan.random[0], after.server.version, after.op.plan.inserts[0].record)
  }
}
