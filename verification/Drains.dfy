/** A whole drain of one row: `push_contact_record` and its group and account twins around
    `update_storage_record` (manager/storage.rs), run against the server. */
module Drains {
  import opened Varint
  import opened Wrappers
  import opened Publishable
  import opened SyncMachine
  import opened StorageManager
  import opened RecordKeys
  import CaughtUp
  import Lens

  lemma EditSays(kind: Kind, record: seq<byte>, local: Row)
    requires RowOf(kind, local) && DrainEdit(kind, local)(record).Success?
    ensures RecordSays(kind, DrainEdit(kind, local)(record).value.GetOr(record), local)
  {
    EditAgrees(kind, record, local);
  }

  /** What the server lists for the row, at a version this device is caught up to, says the row
      if the record held does. */
  lemma ListedSays(k: KeyOf, kind: Kind, s: System, key: Key, local: Row)
    requires CaughtUp.Inv(k, s) && s.version == s.server.version && |local| == |Slots(kind)|
    requires key in s.held && RecordSays(kind, s.held[key].record, local)
    ensures ServerSays(k, kind, s, key, local)
  {
    forall raw | Tracked(k, s.server, raw) && k(s.server.items[raw].record) == Some(key)
      ensures RecordSays(kind, s.server.items[raw].record, local)
    {
      assert IsHeld(k, s.server, s.held, raw);
    }
  }

  ghost predicate ServerSays(k: KeyOf, kind: Kind, s: System, key: Key, local: Row)
    requires |local| == |Slots(kind)|
  {
    forall raw :: Tracked(k, s.server, raw) && k(s.server.items[raw].record) == Some(key) ==>
      RecordSays(kind, s.server.items[raw].record, local)
  }

  lemma WriteSays(kind: Kind, key: Key, local: Row, before: System, after: System, end: System)
    requires RowOf(kind, local) && WritesEdit(before, after, key, DrainEdit(kind, local), end)
    ensures key in end.held && RecordSays(kind, end.held[key].record, local)
  {
    EditSays(kind, before.held[key].record, local);
  }

  lemma CurrentSays(kind: Kind, record: seq<byte>, local: Row)
    requires RowOf(kind, local) && DrainEdit(kind, local)(record) == Success(None)
    ensures RecordSays(kind, record, local)
  {
    EditSays(kind, record, local);
  }

  /** What is held once a write of the edit is on the run. */
  lemma WroteSays(kind: Kind, key: Key, local: Row, run: seq<System>, from: nat)
    requires RowOf(kind, local) && WroteEdit(run, from, key, DrainEdit(kind, local))
    ensures run != [] && key in run[|run| - 1].held && RecordSays(kind, run[|run| - 1].held[key].record, local)
  {
    var edit := DrainEdit(kind, local);
    var i :| from <= i < |run| && WritesAt(run, i, key, edit);
    WriteSays(kind, key, local, run[i - 1], run[i], run[|run| - 1]);
  }

  lemma SuccessSays(kind: Kind, key: Key, local: Row, run: seq<System>, s: System, quiet: bool, from: nat,
                    r: Updated)
    requires RowOf(kind, local) && run != [] && run[|run| - 1] == s
    requires Outcome(run, s, quiet, from, Success(r), key, DrainEdit(kind, local))
    ensures key in s.held && RecordSays(kind, s.held[key].record, local)
  {
    if r.AlreadyCurrent? {
      CurrentSays(kind, s.held[key].record, local);
    } else {
      WroteSays(kind, key, local, run, from);
    }
  }

  /** What a successful update leaves. */
  lemma Pushed(m: Manager, from: nat, kind: Kind, key: Key, local: Row, r: Result<Updated, UpdateError>)
    requires m.Valid() && RowOf(kind, local) && r.Success?
    requires Outcome(m.run, m.s, m.Quiet(), from, r, key, DrainEdit(kind, local))
    ensures key in m.s.held && RecordSays(kind, m.s.held[key].record, local)
    ensures m.Quiet() ==> ServerSays(m.keyOf, kind, m.s, key, local)
  {
    SuccessSays(kind, key, local, m.run, m.s, m.Quiet(), from, r.value);
    if m.Quiet() {
      m.Invariant();
      ListedSays(m.keyOf, kind, m.s, key, local);
    }
  }

  /** Publish the row that was read. Once it has succeeded with the other devices quiet, the
      record the server lists for the row says the row, and the flag is down. */
  method PushRecord(m: Manager, reader: Reader, kind: Kind, key: Key, local: Row)
      returns (r: Result<Updated, UpdateError>)
    requires m.Valid() && m.s.op.Idle? && m.keyOf == Keys(reader) && reader.Lawful()
    requires ItemTypeOf(key) == ItemOf(kind) && RowOf(kind, local) && RowDecodes(reader, local)
    modifies m
    ensures m.Valid() && m.s.op.Idle? && old(m.run) <= m.run
    ensures key in m.flagged <==> r.Failure?
    ensures Outcome(m.run, m.s, m.Quiet(), |old(m.run)|, r, key, DrainEdit(kind, local))
    ensures m.Quiet() ==> QuietOutcome(m.run, m.s, old(m.s).server, |old(m.run)|, r, key, DrainEdit(kind, local))
    ensures r.Success? ==> key in m.s.held && RecordSays(kind, m.s.held[key].record, local)
    ensures r.Success? && m.Quiet() ==> ServerSays(m.keyOf, kind, m.s, key, local)
  {
    DrainKeepsKey(reader, kind, key, local);
    ghost var from := |m.run|;
    r := m.UpdateStorageRecord(key, DrainEdit(kind, local));
    if r.Success? { Pushed(m, from, kind, key, local, r); }
  }
}
