/** A sync may be cut off anywhere and taken up again from its cursor. When one stores a
    manifest version, all of that manifest was read at that version, subjects first. */
module SyncCoverage {
  import opened Wrappers
  import opened Varint
  import opened Manifest
  import opened SyncPlan
  import opened SyncMachine
  import opened CaughtUp

  /** The log entry that says batch `b` of the manifest `ids` was read at `version`. */
  function Read(version: nat, ids: seq<Identifier>, b: nat): Fetch
    requires b < |Batches(ids)|
  {
    Fetch(version, b, Batches(ids)[b])
  }

  ghost predicate ReadUpTo(log: seq<Fetch>, version: nat, ids: seq<Identifier>, n: nat) {
    forall b: nat :: b < n && b < |Batches(ids)| ==> Read(version, ids, b) in log
  }

  ghost predicate HasEarlier(log: seq<Fetch>, i: nat, version: nat, b: nat)
  {
    exists j :: 0 <= j < i && j < |log| && log[j].version == version && log[j].batch == b
  }

  /** Before any batch of a version, every lower batch of that version was read. */
  ghost predicate InOrder(log: seq<Fetch>) {
    forall i, b: nat :: 0 <= i < |log| && b < log[i].batch ==> HasEarlier(log, i, log[i].version, b)
  }

  /** All entries of `version` are batches of the manifest `ids`. */
  ghost predicate EntriesOf(log: seq<Fetch>, version: nat, ids: seq<Identifier>) {
    forall f :: f in log && f.version == version ==> f.batch < |Batches(ids)| && f.raws == Batches(ids)[f.batch]
  }

  ghost predicate LogOk(s: System) {
    && InOrder(s.log)
    && (forall f :: f in s.log ==> f.version <= s.server.version)
    && EntriesOf(s.log, s.server.version, s.server.ids)
    && (s.op.Syncing? ==>
          && ReadUpTo(s.log, s.op.version, s.op.ids, s.op.next)
          && EntriesOf(s.log, s.op.version, s.op.ids)
          && (s.op.unmerged.Some? ==>
              s.op.next < |Batches(s.op.ids)| && Read(s.op.version, s.op.ids, s.op.next) in s.log))
    && (s.cursor.Some? && s.cursor.value.target == s.server.version ==>
          ReadUpTo(s.log, s.server.version, s.server.ids, s.cursor.value.next))
  }

  lemma AppendInOrder(log: seq<Fetch>, version: nat, ids: seq<Identifier>, n: nat)
    requires InOrder(log) && n < |Batches(ids)| && ReadUpTo(log, version, ids, n)
    ensures InOrder(log + [Read(version, ids, n)])
  {
    var longer := log + [Read(version, ids, n)];
    forall i, b: nat | 0 <= i < |longer| && b < longer[i].batch ensures HasEarlier(longer, i, longer[i].version, b) {
      if i < |log| {
        assert HasEarlier(log, i, log[i].version, b);
        var j :| 0 <= j < i && j < |log| && log[j].version == log[i].version && log[j].batch == b;
        assert longer[j] == log[j];
      } else {
        assert Read(version, ids, b) in log;
        var j :| 0 <= j < |log| && log[j] == Read(version, ids, b);
        assert longer[j] == log[j];
      }
    }
  }

  lemma FetchKeepsLog(k: KeyOf, s: System, s': System)
    requires Inv(k, s) && LogOk(s) && FetchBatch(k, s, s')
    ensures LogOk(s')
  {
    AppendInOrder(s.log, s.op.version, s.op.ids, s.op.next);
    assert forall f :: f in s.log ==> f in s'.log;
  }

  lemma SyncStartKeepsLog(k: KeyOf, s: System, s': System)
    requires Inv(k, s) && LogOk(s) && SyncStart(k, s, s')
    ensures LogOk(s')
  {
  }

  lemma BatchDoneKeepsLog(k: KeyOf, s: System, s': System)
    requires Inv(k, s) && LogOk(s) && BatchDone(k, s, s')
    ensures LogOk(s')
  {
    OneMoreRead(s.log, s.op.version, s.op.ids, s.op.next);
  }

  lemma OneMoreRead(log: seq<Fetch>, version: nat, ids: seq<Identifier>, n: nat)
    requires ReadUpTo(log, version, ids, n) && n < |Batches(ids)| && Read(version, ids, n) in log
    ensures ReadUpTo(log, version, ids, n + 1)
  {
  }

  lemma MergeStepKeepsLog(k: KeyOf, s: System, s': System)
    requires Inv(k, s) && LogOk(s)
    requires MergeOne(k, s, s') || SyncFinish(k, s, s')
    ensures LogOk(s')
  {
  }

  lemma OtherStepKeepsLog(k: KeyOf, s: System, s': System)
    requires Inv(k, s) && LogOk(s)
    requires OtherWrite(k, s, s') || WriteStart(k, s, s') || Accept(k, s, s') || Commit(k, s, s') || Abort(k, s, s')
    ensures LogOk(s')
  {
  }

  lemma NextKeepsLog(k: KeyOf, s: System, s': System)
    requires Inv(k, s) && LogOk(s) && Next(k, s, s')
    ensures LogOk(s')
  {
    if FetchBatch(k, s, s') {
      FetchKeepsLog(k, s, s');
    } else if SyncStart(k, s, s') {
      SyncStartKeepsLog(k, s, s');
    } else if BatchDone(k, s, s') {
      BatchDoneKeepsLog(k, s, s');
    } else if MergeOne(k, s, s') || SyncFinish(k, s, s') {
      MergeStepKeepsLog(k, s, s');
    } else {
      OtherStepKeepsLog(k, s, s');
    }
  }

  lemma {:induction false} RunLog(k: KeyOf, run: seq<System>, n: nat)
    requires IsRun(k, run) && n < |run|
    ensures LogOk(run[n])
  {
    if n > 0 {
      RunLog(k, run, n - 1);
      RunInv(k, run, n - 1);
      assert StepAt(k, run, n);
      NextKeepsLog(k, run[n - 1], run[n]);
    }
  }

  /** What a sync must have read of a manifest: every contact, group, sticker pack and
      folder, and the last account record. */
  predicate MustRead(ids: seq<Identifier>, id: Identifier) {
    id in ids && (id.itemType in {ContactItem, GroupItem, StickerItem, FolderItem} ||
                  (id.itemType == AccountItem && id.raw == LastAccount(ids)))
  }

  ghost predicate WasRead(log: seq<Fetch>, version: nat, raw: StorageId) {
    exists i :: 0 <= i < |log| && log[i].version == version && raw in log[i].raws &&
        |log[i].raws| <= 2500
  }

  lemma DoneWasRead(log: seq<Fetch>, version: nat, ids: seq<Identifier>, raw: StorageId)
    requires ReadUpTo(log, version, ids, |Batches(ids)|) && raw in Fetched(ids)
    ensures WasRead(log, version, raw)
  {
    BatchesCover(ids);
    var b := FlatMember(Batches(ids), raw);
    assert Read(version, ids, b) in log && Batches(ids)[b] in Batches(ids);
    var i :| 0 <= i < |log| && log[i] == Read(version, ids, b);
  }

  lemma AllRead(s: System)
    requires LogOk(s) && s.op.Syncing? && s.op.next >= |Batches(s.op.ids)|
    ensures ReadUpTo(s.log, s.op.version, s.op.ids, |Batches(s.op.ids)|)
  {
  }

  lemma FinishedHasRead(s: System, id: Identifier)
    requires LogOk(s) && s.op.Syncing? && s.op.next >= |Batches(s.op.ids)| && MustRead(s.op.ids, id)
    ensures WasRead(s.log, s.op.version, id.raw)
  {
    FetchedByType(s.op.ids, id);
    AllRead(s);
    DoneWasRead(s.log, s.op.version, s.op.ids, id.raw);
  }

  /** However often it was interrupted and resumed: when a sync stores a manifest version,
      each id it had to read was read at that version, in some batch of at most 2500. */
  lemma SyncReadsEverything(k: KeyOf, run: seq<System>, n: nat, id: Identifier)
    requires IsRun(k, run) && 0 < n < |run| && SyncFinish(k, run[n - 1], run[n])
    requires MustRead(run[n - 1].op.ids, id)
    ensures WasRead(run[n].log, run[n].version, id.raw)
  {
    RunLog(k, run, n - 1);
    FinishedHasRead(run[n - 1], id);
  }

  /** Where an id of either half of the fetch list is batched. */
  lemma HalfOf(ids: seq<Identifier>, b: nat, raw: StorageId)
    requires b < |Batches(ids)| && raw in Batches(ids)[b]
    ensures b < SubjectBatches(ids) ==> raw in SubjectKeys(ids)
    ensures b >= SubjectBatches(ids) ==> raw in TrailingKeys(ids)
  {
    var first := Chunks(SubjectKeys(ids), STORAGE_SERVICE_BATCH_SIZE);
    var second := Chunks(TrailingKeys(ids), STORAGE_SERVICE_BATCH_SIZE);
    ChunksCover(SubjectKeys(ids), STORAGE_SERVICE_BATCH_SIZE);
    ChunksCover(TrailingKeys(ids), STORAGE_SERVICE_BATCH_SIZE);
    if b < |first| { FlatHas(first, b, raw); } else { FlatHas(second, b - |first|, raw); }
  }

  lemma SubjectBatchOf(ids: seq<Identifier>, raw: StorageId) returns (b: nat)
    requires raw in SubjectKeys(ids)
    ensures b < SubjectBatches(ids) && b < |Batches(ids)| && raw in Batches(ids)[b]
  {
    ChunksCover(SubjectKeys(ids), STORAGE_SERVICE_BATCH_SIZE);
    b := FlatMember(Chunks(SubjectKeys(ids), STORAGE_SERVICE_BATCH_SIZE), raw);
  }

  /** Folders and the account come last: at any point of any run, when a batch of the
      manifest being read held a folder or account id that is not also a subject's, every
      contact, group and sticker id of that manifest had been read at that version before. */
  lemma SubjectsReadFirst(k: KeyOf, run: seq<System>, n: nat, i: nat, trailing: StorageId, subject: StorageId)
    requires IsRun(k, run) && n < |run| && run[n].op.Syncing?
    requires i < |run[n].log| && run[n].log[i].version == run[n].op.version && trailing in run[n].log[i].raws
    requires trailing !in SubjectKeys(run[n].op.ids) && subject in SubjectKeys(run[n].op.ids)
    ensures exists j :: 0 <= j < i && run[n].log[j].version == run[n].op.version && subject in run[n].log[j].raws
  {
    RunLog(k, run, n);
    var log, version, ids := run[n].log, run[n].op.version, run[n].op.ids;
    assert log[i] in log;
    HalfOf(ids, log[i].batch, trailing);
    var b := SubjectBatchOf(ids, subject);
    assert HasEarlier(log, i, version, b);
    var j :| 0 <= j < i && j < |log| && log[j].version == version && log[j].batch == b;
    assert log[j] in log;
  }
}
