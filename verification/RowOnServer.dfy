/** A row and its flag (`PublishMachine`) run together with everything this device holds of the
    manifest (`SyncMachine`): the record held for the row is one and the same in both. */
module RowOnServer {
  import opened Wrappers
  import opened Varint
  import opened Manifest
  import opened SyncPlan
  import opened SyncMachine
  import opened CaughtUp
  import opened Appending
  import Lens
  import opened Publishable
  import opened AccountChat
  import RecordKeys
  import M = PublishMachine

  /** The device and the server, and the row of one key with its flag. */
  datatype Joint = Joint(sys: System, row: Option<Row>, flag: bool, phase: M.Phase, unarchived: bool, saving: nat)

  function HeldRecord(sys: System, key: Key): Option<seq<byte>> {
    if key in sys.held then Some(sys.held[key].record) else None
  }

  /** The row's side of the whole. */
  function Side(key: Key, j: Joint): M.State {
    M.State(j.row, j.flag, HeldRecord(j.sys, key), j.phase, j.unarchived, j.saving)
  }

  /** One step of the whole: each side takes a step of its own machine or stands still. A
      merge or a commit of the row's record changes what is held, so it is a step of both. */
  ghost predicate Moves(k: KeyOf, kind: Kind, c: PinCodec, key: Key, j: Joint, j': Joint) {
    && M.Typed(kind, Side(key, j)) && M.Typed(kind, Side(key, j'))
    && (j'.sys == j.sys || Next(k, j.sys, j'.sys))
    && (Side(key, j') == Side(key, j) || exists step :: Steps(kind, c, Side(key, j), step, Side(key, j')))
  }

  /** A step of the row's machine, short of a crash that leaves the row exposed. */
  ghost predicate Steps(kind: Kind, c: PinCodec, s: M.State, step: M.Step, s': M.State)
    requires M.Typed(kind, s)
  {
    && M.Enabled(kind, c, s, step) && M.After(kind, c, s, step) == s'
    && !(M.Exposed(kind, c, s) && step.Crash?)
  }

  ghost predicate MovesAt(k: KeyOf, kind: Kind, c: PinCodec, key: Key, run: seq<Joint>, i: nat)
    requires 0 < i < |run|
  {
    Moves(k, kind, c, key, run[i - 1], run[i])
  }

  /** From a store that has read nothing, against any account. */
  ghost predicate IsJointRun(k: KeyOf, kind: Kind, c: PinCodec, key: Key, run: seq<Joint>) {
    && run != [] && Init(k, run[0].sys) && M.Start(kind, Side(key, run[0]))
    && forall i :: 0 < i < |run| ==> MovesAt(k, kind, c, key, run, i)
  }

  ghost predicate JointInv(k: KeyOf, kind: Kind, c: PinCodec, key: Key, j: Joint) {
    Inv(k, j.sys) && M.Inv(kind, c, Side(key, j))
  }

  lemma MovesKeeps(k: KeyOf, kind: Kind, c: PinCodec, key: Key, j: Joint, j': Joint)
    requires JointInv(k, kind, c, key, j) && Moves(k, kind, c, key, j, j')
    ensures JointInv(k, kind, c, key, j')
  {
    if j'.sys != j.sys { NextKeeps(k, j.sys, j'.sys); }
    if Side(key, j') != Side(key, j) {
      var step :| Steps(kind, c, Side(key, j), step, Side(key, j'));
      M.StepKeepsInv(kind, c, Side(key, j), step);
    }
  }

  lemma {:induction false} JointRunInv(k: KeyOf, kind: Kind, c: PinCodec, key: Key, run: seq<Joint>, n: nat)
    requires IsJointRun(k, kind, c, key, run) && n < |run|
    ensures JointInv(k, kind, c, key, run[n])
  {
    if n == 0 {
      M.StartIsInv(kind, c, Side(key, run[0]));
      RunInv(k, [run[0].sys], 0);
    } else {
      JointRunInv(k, kind, c, key, run, n - 1);
      assert MovesAt(k, kind, c, key, run, n);
      MovesKeeps(k, kind, c, key, run[n - 1], run[n]);
    }
  }

  /** What the server's record says of the row, the archive of a chat a pin took out of it
      aside. */
  predicate SaysRow(kind: Kind, record: seq<byte>, row: Row, unarchived: bool)
    requires |row| == |Slots(kind)| && ReadRow(kind, record).Success?
  {
    forall i :: 0 <= i < |row| && Published(kind, i) ==>
      || ReadRow(kind, record).value[i] == row[i]
      || (unarchived && M.IsArchivedSlot(kind, i) && row[i] == Bit(false))
  }

  /** The stored version is the server's, which lists `raw` for the row; nothing is under way on
      the row and its flag is clear. */
  ghost predicate Rests(k: KeyOf, key: Key, j: Joint, raw: StorageId) {
    && j.sys.version == j.sys.server.version
    && Tracked(k, j.sys.server, raw) && k(j.sys.server.items[raw].record) == Some(key)
    && j.phase.Idle? && j.saving == 0 && !j.flag
  }

  /** The record under `raw` says the row, if it is readable at all. */
  ghost predicate ServerAgrees(kind: Kind, j: Joint, raw: StorageId) {
    raw in j.sys.server.items && ReadRow(kind, j.sys.server.items[raw].record).Success? ==>
      j.row.Some? && |j.row.value| == |Slots(kind)| &&
          SaysRow(kind, j.sys.server.items[raw].record, j.row.value, j.unarchived)
  }

  lemma RestAgrees(k: KeyOf, kind: Kind, c: PinCodec, key: Key, j: Joint, raw: StorageId)
    requires JointInv(k, kind, c, key, j) && Rests(k, key, j, raw)
    ensures ServerAgrees(kind, j, raw)
  {
    assert Current(k, j.sys);
    assert IsHeld(k, j.sys.server, j.sys.held, raw);
  }

  /** Where the two halves meet. Over every interleaving of user edits, drains, syncs and other
      devices' writes: whenever the stored version is the server's, nothing is under way on the
      row and its flag is clear, there is a row and the record the server lists for it says it,
      on every publishable field. */
  lemma ServerSaysRow(k: KeyOf, kind: Kind, c: PinCodec, key: Key, run: seq<Joint>, n: nat, raw: StorageId)
    requires IsJointRun(k, kind, c, key, run) && n < |run| && ItemTypeOf(key) == RecordKeys.ItemOf(kind)
    ensures Rests(k, key, run[n], raw) ==> ServerAgrees(kind, run[n], raw)
  {
    JointRunInv(k, kind, c, key, run, n);
    if Rests(k, key, run[n], raw) { RestAgrees(k, kind, c, key, run[n], raw); }
  }

  // ----- the steps that change what is held are steps of both

  function WithSide(sys: System, s: M.State): Joint {
    Joint(sys, s.row, s.flag, s.phase, s.unarchived, s.saving)
  }

  /** Merging a record of the row. */
  lemma MergeIsAMove(k: KeyOf, kind: Kind, c: PinCodec, key: Key, j: Joint, sys': System, remote: Row)
    requires M.Typed(kind, Side(key, j)) && MergeOne(k, j.sys, sys')
    requires var (record, s) := (j.sys.op.unmerged.value[0].1, Side(key, j));
             && k(record) == Some(key)
             && M.Enabled(kind, c, s, M.SyncMerge(record, remote))
             && M.Typed(kind, M.After(kind, c, s, M.SyncMerge(record, remote)))
    ensures var record := j.sys.op.unmerged.value[0].1;
            Moves(k, kind, c, key, j, WithSide(sys', M.After(kind, c, Side(key, j), M.SyncMerge(record, remote))))
  {
    var record, s := j.sys.op.unmerged.value[0].1, Side(key, j);
    var j' := WithSide(sys', M.After(kind, c, s, M.SyncMerge(record, remote)));
    assert HeldRecord(sys', key) == Some(record);
    assert Steps(kind, c, s, M.SyncMerge(record, remote), Side(key, j'));
  }

  /** Storing what a drain of the row wrote. */
  lemma CommitIsAMove(k: KeyOf, kind: Kind, c: PinCodec, key: Key, j: Joint, sys': System, edited: seq<byte>,
                      random: StorageId)
    requires M.Typed(kind, Side(key, j)) && Commit(k, j.sys, sys') && key in j.sys.held && |edited| <= Lens.STORED_MAX
    requires j.sys.op.plan == Replacement(j.sys.held, key, edited, random)
    requires j.phase.Publishing? && Edit(kind, j.sys.held[key].record, j.phase.captured) == Success(Some(edited))
    ensures Moves(k, kind, c, key, j, WithSide(sys', M.After(kind, c, Side(key, j), M.PublishWrite)))
  {
    var s := Side(key, j);
    assert IndexOf(j.sys.op.plan.keys, key) == 0;
    assert HeldRecord(sys', key) == Some(edited);
    assert Steps(kind, c, s, M.PublishWrite, Side(key, WithSide(sys', M.After(kind, c, s, M.PublishWrite))));
  }

  /** Storing the first record of the row. */
  lemma AppendIsAMove(k: KeyOf, kind: Kind, c: PinCodec, key: Key, j: Joint, sys': System, record: seq<byte>,
                      raw: StorageId)
    requires M.Typed(kind, Side(key, j)) && Commit(k, j.sys, sys') && key !in j.sys.held && |record| <= Lens.STORED_MAX
    requires j.sys.op.plan == AppendPlan(key, record, raw)
    requires M.Enabled(kind, c, Side(key, j), M.PublishAppend(record))
    ensures Moves(k, kind, c, key, j, WithSide(sys', M.After(kind, c, Side(key, j), M.PublishAppend(record))))
  {
    var s := Side(key, j);
    assert IndexOf(j.sys.op.plan.keys, key) == 0;
    assert HeldRecord(sys', key) == Some(record);
    assert Steps(kind, c, s, M.PublishAppend(record),
                 Side(key, WithSide(sys', M.After(kind, c, s, M.PublishAppend(record)))));
  }
}
