/** The loop a drain really runs (manager/storage.rs) against a server no other device writes
    to: `update_storage_record` called for one row until its flag stays down reaches the merge. */
module QuietDrains {
  import opened Wrappers
  import opened Varint
  import opened Manifest
  import opened SyncPlan
  import opened SyncMachine
  import opened CaughtUp
  import opened StorageManager
  import opened RecordKeys
  import opened Publishable
  import opened Convergence
  import Drains
  import DecodedPins
  import Lens

  /** The one record the server lists for the row: its identifier and its bytes. */
  ghost predicate Lists(k: KeyOf, sv: Server, key: Key, raw: StorageId, record: seq<byte>) {
    Tracked(k, sv, raw) && k(sv.items[raw].record) == Some(key) && sv.items[raw].record == record
  }

  /** The device and the server stand for this row as `d` says. */
  ghost predicate StandsOn(k: KeyOf, s: System, key: Key, raw: StorageId, d: Standing) {
    && Lists(k, s.server, key, raw, d.server)
    && key in s.held && s.held[key].record == d.held
    && (d.behind <==> s.version != s.server.version)
  }

  lemma CaughtUpHolds(k: KeyOf, s: System, key: Key, raw: StorageId, record: seq<byte>)
    requires Inv(k, s) && s.version == s.server.version && Lists(k, s.server, key, raw, record)
    ensures key in s.held && s.held[key].storageId == raw && s.held[key].record == record
  {
    assert IsHeld(k, s.server, s.held, raw);
  }

  // ----- what a replacement leaves listed

  lemma DeletedIsGone(k: KeyOf, s: System, s': System, raw: StorageId)
    requires Inv(k, s) && Accept(k, s, s') && raw in s.server.items && raw in s.op.plan.deleteIds
    ensures raw !in Fetched(s'.server.ids)
  {
    var p := s.op.plan;
    if raw in Fetched(s'.server.ids) {
      FetchedIsListed(s'.server.ids, raw);
      KeptMembers(s.server.ids, p.deleteIds);
      FreshMembers(p.inserts, p.random);
      assert false;
    }
  }

  /** Nothing else was listed for the row, so the record written is the one listed after. */
  lemma ReplacementIsListed(k: KeyOf, s: System, s': System, key: Key, raw: StorageId, record: seq<byte>)
    requires Inv(k, s) && Accept(k, s, s') && Lists(k, s.server, key, raw, record)
    requires s.op.plan.keys == [key] && s.op.plan.deleteIds == [raw]
    ensures Lists(k, s'.server, key, s.op.plan.random[0], s.op.plan.inserts[0].record)
  {
    var p := s.op.plan;
    var added := p.random[0];
    AcceptStores(k, s, s');
    InsertsAreFetched(k, s, s', 0);
    assert s'.server.items[added] == Item(p.inserts[0].itemType, p.inserts[0].record);
    forall other | other in Fetched(s'.server.ids) && other in s'.server.items && other != added
      ensures k(s'.server.items[other].record) != Some(key)
    {
      FetchedBefore(k, s, s', other);
      FetchedIsStored(k, s.server, other);
      DeletedIsGone(k, s, s', raw);
    }
  }

  lemma {:induction false} CountAppend(a: seq<Identifier>, b: seq<Identifier>, raw: StorageId)
    ensures CountOf(a + b, raw) == CountOf(a, raw) + CountOf(b, raw)
  {
    var ab := a + b;
    if a == [] {
      assert ab == b;
    } else {
      assert ab[0] == a[0] && ab[1..] == a[1..] + b;
      CountAppend(a[1..], b, raw);
    }
  }

  lemma {:induction false} UnlistedCount(ids: seq<Identifier>, raw: StorageId)
    requires !Listed(ids, raw)
    ensures CountOf(ids, raw) == 0
  {
    if ids != [] {
      assert ids[0].raw != raw;
      assert forall i :: 0 <= i < |ids[1..]| ==> ids[1..][i] == ids[i + 1];
      UnlistedCount(ids[1..], raw);
    }
  }

  lemma ReplacementIsListedOnce(k: KeyOf, s: System, s': System)
    requires Inv(k, s) && Accept(k, s, s') && |s.op.plan.keys| == 1
    ensures CountOf(s'.server.ids, s.op.plan.random[0]) == 1
  {
    var p := s.op.plan;
    var kept, added := Kept(s.server.ids, p.deleteIds), Fresh(p.inserts, p.random);
    CountAppend(kept, added, p.random[0]);
    UnlistedCount(kept, p.random[0]);
    assert added == [Identifier(p.random[0], p.inserts[0].itemType)];
    assert added[1..] == [];
  }

  // ----- one update

  /** Caught up, and holding the one record listed for the row. */
  ghost predicate Rests(k: KeyOf, s: System, key: Key, raw: StorageId, record: seq<byte>) {
    AtServer(s) && Lists(k, s.server, key, raw, record) && key in s.held && s.held[key].record == record
  }

  lemma WriteIsAccept(k: KeyOf, before: System, after: System)
    requires Next(k, before, after) && before.op.Writing? && after.op.Accepted?
    ensures Accept(k, before, after)
  {
  }

  /** A write built on the record the server listed puts the edited one in its place. */
  lemma WriteLands(k: KeyOf, key: Key, raw: StorageId, record: seq<byte>, edit: RecordEdit, server: Server,
                   before: System, after: System, end: System) returns (now: StorageId)
    requires Lists(k, server, key, raw, record) && Inv(k, before) && Next(k, before, after)
    requires WritesEdit(before, after, key, edit, end)
    requires before.server == server && before.version == server.version && end.server == after.server
    ensures edit(record).Success? && edit(record).value.Some? && CountOf(end.server.ids, now) == 1
    ensures Lists(k, end.server, key, now, edit(record).value.value)
    ensures key in end.held && end.held[key].record == edit(record).value.value
  {
    WriteIsAccept(k, before, after);
    CaughtUpHolds(k, before, key, raw, record);
    ReplacementIsListed(k, before, after, key, raw, record);
    ReplacementIsListedOnce(k, before, after);
    now := before.op.plan.random[0];
  }

  lemma PublishedLands(k: KeyOf, run: seq<System>, from: nat, key: Key, raw: StorageId, record: seq<byte>,
                       edit: RecordEdit, server: Server) returns (now: StorageId)
    requires IsRun(k, run) && Lists(k, server, key, raw, record) && WroteOnto(run, from, key, edit, server)
    requires AtServer(run[|run| - 1])
    ensures edit(record).Success? && edit(record).value.Some?
    ensures Rests(k, run[|run| - 1], key, now, edit(record).value.value)
    ensures CountOf(run[|run| - 1].server.ids, now) == 1
  {
    var end := run[|run| - 1];
    var i :| from <= i < |run| && WritesAt(run, i, key, edit) && OntoAt(run, i, server);
    RunInv(k, run, i - 1);
    assert StepAt(k, run, i);
    now := WriteLands(k, key, raw, record, edit, server, run[i - 1], run[i], end);
  }

  lemma RunHolds(k: KeyOf, run: seq<System>, key: Key, raw: StorageId, record: seq<byte>)
    requires IsRun(k, run) && AtServer(run[|run| - 1]) && Lists(k, run[|run| - 1].server, key, raw, record)
    ensures var held := run[|run| - 1].held;
            key in held && held[key].storageId == raw && held[key].record == record
  {
    RunInv(k, run, |run| - 1);
    CaughtUpHolds(k, run[|run| - 1], key, raw, record);
  }

  /** An update that succeeds leaves the edit of the record the server listed when it began. */
  lemma UpdateLands(k: KeyOf, run: seq<System>, s: System, from: nat, key: Key, raw: StorageId, record: seq<byte>,
                    edit: RecordEdit, server: Server, r: Result<Updated, UpdateError>) returns (now: StorageId)
    requires IsRun(k, run) && run[|run| - 1] == s && Lists(k, server, key, raw, record) && r.Success?
    requires Outcome(run, s, true, from, r, key, edit) && QuietOutcome(run, s, server, from, r, key, edit)
    ensures edit(record).Success? && Rests(k, s, key, now, edit(record).value.GetOr(record))
    ensures CountOf(server.ids, raw) == 1 ==> CountOf(s.server.ids, now) == 1
  {
    if r.value.AlreadyCurrent? {
      RunHolds(k, run, key, raw, record);
      now := raw;
    } else {
      now := PublishedLands(k, run, from, key, raw, record, edit, server);
    }
  }

  /** A record listed once, and that the edit takes, is there to be replaced: no update of it
      fails. */
  lemma UpdateSucceeds(k: KeyOf, run: seq<System>, s: System, from: nat, key: Key, raw: StorageId,
                       record: seq<byte>, edit: RecordEdit, server: Server, r: Result<Updated, UpdateError>)
    requires IsRun(k, run) && run[|run| - 1] == s && Lists(k, server, key, raw, record)
    requires Outcome(run, s, true, from, r, key, edit) && QuietOutcome(run, s, server, from, r, key, edit)
    requires edit(record).Success? && CountOf(server.ids, raw) == 1
    ensures r.Success?
  {
    if r.Failure? { RunHolds(k, run, key, raw, record); }
  }

  // ----- one drain

  lemma DrainedRecord(kind: Kind, d: Standing)
    requires Readable(kind, d) && d.flag
    ensures DrainEdit(kind, d.row)(d.server).Success?
    ensures Drain(kind, d).held == Drain(kind, d).server == DrainEdit(kind, d.row)(d.server).value.GetOr(d.server)
    ensures !Drain(kind, d).behind
  {
    EditAgrees(kind, d.server, d.row);
  }

  lemma DrainIs(kind: Kind, d: Standing)
    requires Readable(kind, d) && d.flag
    ensures RowOf(kind, CaughtUpRow(kind, d))
    ensures Drain(kind, d).row == CaughtUpRow(kind, d)
    ensures Drain(kind, d).flag <==> Any(Between(kind, CaughtUpRow(kind, d), d.row))
    ensures Drain(kind, d).held == Drain(kind, d).server && !Drain(kind, d).behind
  {
    MergedIsRow(kind, d);
    DrainedRecord(kind, d);
  }

  lemma PushedRow(k: KeyOf, run: seq<System>, s: System, quiet: bool, from: nat, kind: Kind, key: Key,
                  raw: StorageId, d: Standing, server: Server, r: Result<Updated, UpdateError>)
      returns (now: StorageId)
    requires IsRun(k, run) && run[|run| - 1] == s && quiet
    requires Readable(kind, d) && d.flag && Lists(k, server, key, raw, d.server)
    requires Outcome(run, s, quiet, from, r, key, DrainEdit(kind, d.row))
    requires QuietOutcome(run, s, server, from, r, key, DrainEdit(kind, d.row))
    ensures r.Success? ==> StandsOn(k, s, key, now, Drain(kind, d))
    ensures CountOf(server.ids, raw) == 1 ==> r.Success? && CountOf(s.server.ids, now) == 1
  {
    var edit := DrainEdit(kind, d.row);
    now := raw;
    DrainedRecord(kind, d);
    if CountOf(server.ids, raw) == 1 { UpdateSucceeds(k, run, s, from, key, raw, d.server, edit, server, r); }
    if r.Success? { now := UpdateLands(k, run, s, from, key, raw, d.server, edit, server, r); }
  }

  lemma ManagerPushed(m: Manager, from: nat, kind: Kind, key: Key, raw: StorageId, d: Standing, server: Server,
                      r: Result<Updated, UpdateError>) returns (now: StorageId)
    requires m.Valid() && m.Quiet()
    requires Readable(kind, d) && d.flag && Lists(m.keyOf, server, key, raw, d.server)
    requires Outcome(m.run, m.s, m.Quiet(), from, r, key, DrainEdit(kind, d.row))
    requires QuietOutcome(m.run, m.s, server, from, r, key, DrainEdit(kind, d.row))
    ensures r.Success? ==> StandsOn(m.keyOf, m.s, key, now, Drain(kind, d))
    ensures CountOf(server.ids, raw) == 1 ==> r.Success? && CountOf(m.s.server.ids, now) == 1
  {
    now := PushedRow(m.keyOf, m.run, m.s, m.Quiet(), from, kind, key, raw, d, server, r);
  }

  /** Publish the row as it was read; the record then held is the one `Drain` says. */
  method PushRow(m: Manager, reader: Reader, kind: Kind, key: Key, d: Standing, ghost raw: StorageId)
      returns (ok: bool, ghost now: StorageId)
    requires m.Valid() && m.Quiet() && m.s.op.Idle? && m.keyOf == Keys(reader) && reader.Lawful()
    requires ItemTypeOf(key) == ItemOf(kind) && Readable(kind, d) && d.flag && RowDecodes(reader, d.row)
    requires StandsOn(m.keyOf, m.s, key, raw, d)
    modifies m
    ensures m.Valid() && m.s.op.Idle? && old(m.run) <= m.run
    ensures ok ==> StandsOn(m.keyOf, m.s, key, now, Drain(kind, d))
    ensures key in m.flagged <==> !ok
    ensures CountOf(old(m.s).server.ids, raw) == 1 ==> ok && CountOf(m.s.server.ids, now) == 1
  {
    ghost var from, server := |m.run|, m.s.server;
    var r := Drains.PushRecord(m, reader, kind, key, d.row);
    ok := r.Success?;
    now := ManagerPushed(m, from, kind, key, raw, d, server, r);
  }

  /** One drain of a flagged row, no other device writing: publish the row that was read, then
      look at what the row has become by merging and flag it again if that is another. It does
      what `Drain` says, and fails only where the server lists the record's identifier twice. */
  method DrainRow(m: Manager, reader: Reader, kind: Kind, key: Key, d: Standing, ghost raw: StorageId)
      returns (ok: bool, end: Standing, ghost now: StorageId)
    requires m.Valid() && m.Quiet() && m.s.op.Idle? && m.keyOf == Keys(reader) && reader.Lawful()
    requires ItemTypeOf(key) == ItemOf(kind) && Readable(kind, d) && d.flag && RowDecodes(reader, d.row)
    requires StandsOn(m.keyOf, m.s, key, raw, d)
    modifies m
    ensures m.Valid() && m.s.op.Idle? && old(m.run) <= m.run
    ensures ok ==> end == Drain(kind, d) && StandsOn(m.keyOf, m.s, key, now, end)
    ensures key in m.flagged <==> !ok || end.flag
    ensures CountOf(old(m.s).server.ids, raw) == 1 ==> ok && CountOf(m.s.server.ids, now) == 1
  {
    ok, now := PushRow(m, reader, kind, key, d, raw);
    if !ok {
      return false, d, now;
    }
    DrainIs(kind, d);
    var current, record := CaughtUpRow(kind, d), m.s.held[key].record;
    end := Standing(current, Any(Between(kind, current, d.row)), record, record, false);
    assert end == Drain(kind, d);
    if end.flag {
      m.Flag(key);
    }
  }

  // ----- until the flag stays down

  lemma NoPinsToDecode(reader: Reader, kind: Kind, row: Row)
    requires kind != Account && RowOf(kind, row)
    ensures RowDecodes(reader, row)
  {
    forall i | 0 <= i < |row| ensures PinsDecode(reader, row[i]) {
      assert Fills(Slots(kind)[i], row[i]);
    }
  }

  lemma FromEitherDecodes(reader: Reader, row: Row, a: Row, b: Row)
    requires |row| == |a| == |b| && RowDecodes(reader, a) && RowDecodes(reader, b)
    requires forall i :: 0 <= i < |row| ==> row[i] == a[i] || row[i] == b[i]
    ensures RowDecodes(reader, row)
  {
    forall i | 0 <= i < |row| ensures PinsDecode(reader, row[i]) {
      assert PinsDecode(reader, a[i]) && PinsDecode(reader, b[i]);
    }
  }

  lemma RemoteDecodes(reader: Reader, key: Key, record: seq<byte>)
    requires reader.Lawful() && ItemTypeOf(key) == ItemOf(Account) && ReadKey(reader, record) == Some(key)
    requires ReadRow(Account, record).Success? && RowOf(Account, ReadRow(Account, record).value)
    ensures RowDecodes(reader, ReadRow(Account, record).value)
  {
    var remote := ReadRow(Account, record).value;
    ReadableIsAccepted(Account, record);
    KeyedIsRead(reader, Account, record, key);
    DecodedPins.RemotePinsDecode(reader, record, remote);
    DecodedPins.RowPins(reader, remote);
  }

  lemma CaughtUpRowIs(kind: Kind, d: Standing)
    requires Readable(kind, d)
    ensures RowOf(kind, CaughtUpRow(kind, d))
    ensures var (row, remote) := (CaughtUpRow(kind, d), ReadRow(kind, d.server).value);
            |row| == |d.row| == |remote| && forall i :: 0 <= i < |row| ==> row[i] == d.row[i] || row[i] == remote[i]
  {
    MergedIsRow(kind, d);
  }

  /** A merged row is of the kind, and its pins decode, each being the row's or the record's. */
  lemma CaughtUpDecodes(reader: Reader, kind: Kind, key: Key, d: Standing)
    requires reader.Lawful() && ItemTypeOf(key) == ItemOf(kind) && ReadKey(reader, d.server) == Some(key)
    requires Readable(kind, d) && RowDecodes(reader, d.row)
    ensures RowOf(kind, CaughtUpRow(kind, d)) && RowDecodes(reader, CaughtUpRow(kind, d))
  {
    CaughtUpRowIs(kind, d);
    if kind == Account {
      RemoteDecodes(reader, key, d.server);
      FromEitherDecodes(reader, CaughtUpRow(kind, d), d.row, ReadRow(kind, d.server).value);
    } else {
      NoPinsToDecode(reader, kind, CaughtUpRow(kind, d));
    }
  }

  lemma DrainIsReadable(kind: Kind, d: Standing)
    requires Readable(kind, d) && d.flag && |Drain(kind, d).server| <= Lens.STORED_MAX
    ensures Readable(kind, Drain(kind, d))
  {
    DrainPublishes(kind, d);
  }

  /** The drains of one flagged row, no other device writing: draining again while the flag is up
      ends, after at most two drains, with the server listing for the row one record that says
      the merge of the row, the record last read and the record the server had, and keeps
      every other field of that one; the device holds it, and the flag is down. */
  method DrainUntilClear(m: Manager, reader: Reader, kind: Kind, key: Key, d: Standing, ghost raw: StorageId)
      returns (ok: bool, end: Standing, ghost now: StorageId)
    requires m.Valid() && m.Quiet() && m.s.op.Idle? && m.keyOf == Keys(reader) && reader.Lawful()
    requires ItemTypeOf(key) == ItemOf(kind) && Readable(kind, d) && d.flag && RowDecodes(reader, d.row)
    requires StandsOn(m.keyOf, m.s, key, raw, d) && |Drain(kind, d).server| <= Lens.STORED_MAX
    modifies m
    ensures m.Valid() && m.s.op.Idle? && old(m.run) <= m.run
    ensures ok ==> StandsOn(m.keyOf, m.s, key, now, end) && Says(kind, end, CaughtUpRow(kind, d))
    ensures ok ==> EditedOnly(kind, Everything(kind), d.server, end.server)
    ensures key in m.flagged <==> !ok
    ensures CountOf(old(m.s).server.ids, raw) == 1 ==> ok
  {
    DrainIsReadable(kind, d);
    DrainsConverge(kind, d);
    CaughtUpDecodes(reader, kind, key, d);
    ok, end, now := DrainRow(m, reader, kind, key, d, raw);
    if ok && end.flag {
      DrainPublishes(kind, d);
      ok, end, now := DrainRow(m, reader, kind, key, end, now);
    }
  }
}
