/** What the drains reach when the other devices are quiet: the three-way merge of the
    record last read, the local row and the record the server holds now. */
module Convergence {
  import opened Wrappers
  import opened Varint
  import opened Lens
  import opened Publishable
  import opened AccountChat
  import opened PublishMachine

  /** One record between drains. `held` is what this device last read, `server` what the
      server holds; `behind` says the stored manifest version is not the server's. */
  datatype Standing = Standing(row: Row, flag: bool, held: seq<byte>, server: seq<byte>, behind: bool)

  predicate Readable(kind: Kind, d: Standing) {
    && RowOf(kind, d.row)
    && |d.held| <= STORED_MAX && |d.server| <= STORED_MAX
    && ReadRow(kind, d.held).Success? && ReadRow(kind, d.server).Success? && RowOf(kind, ReadRow(kind, d.server).value)
    && (!d.behind ==> d.held == d.server)
  }

  /** The row after catching up. */
  function CaughtUpRow(kind: Kind, d: Standing): Row
    requires Readable(kind, d)
  {
    if d.behind then Merge(kind, d.row, ReadRow(kind, d.server).value, Intent(kind, Some(d.held), d.row, true))
      else d.row
  }

  /** One undisturbed drain: read the row, catch up, publish the row that was read, and
      flag again if the row is by now another. */
  function Drain(kind: Kind, d: Standing): Standing
    requires Readable(kind, d)
  {
    if !d.flag then d
    else
      EditAgrees(kind, d.server, d.row);
      var published := Edit(kind, d.server, d.row).value.GetOr(d.server);
      var row := CaughtUpRow(kind, d);
      Standing(row, Any(Between(kind, row, d.row)), published, published, false)
  }

  /** Field by field: the local value where it was changed since the record was read, the
      server's value otherwise. */
  function ThreeWay(kind: Kind, local: Row, base: Row, remote: Row): Row
    requires |local| == |base| == |remote| == |Slots(kind)|
  {
    seq(|Slots(kind)|, i requires 0 <= i < |Slots(kind)| =>
      if Published(kind, i) && local[i] != base[i] then local[i] else remote[i])
  }

  /** The merge a sync performs on a flagged row is the three-way merge of the row, the
      record last read and the new record. */
  lemma MergeIsThreeWay(kind: Kind, d: Standing)
    requires Readable(kind, d) && d.behind
    ensures CaughtUpRow(kind, d) == ThreeWay(kind, d.row, ReadRow(kind, d.held).value, ReadRow(kind, d.server).value)
  {
  }

  lemma MergedIsRow(kind: Kind, d: Standing)
    requires Readable(kind, d)
    ensures RowOf(kind, CaughtUpRow(kind, d))
  {
  }

  /** A standing where nothing is left to do: the row is what `goal` says, the server's
      record says it too, and everything else in it is still as it was in `base`. */
  predicate Says(kind: Kind, d: Standing, goal: Row)
  {
    && |d.row| == |goal| == |Slots(kind)|
    && d.row == goal
    && d.held == d.server && !d.behind
    && RecordSays(kind, d.server, goal)
  }

  lemma DrainPublishes(kind: Kind, d: Standing)
    requires Readable(kind, d) && d.flag
    ensures var after := Drain(kind, d);
            && after.row == CaughtUpRow(kind, d) && RowOf(kind, after.row)
            && after.held == after.server && !after.behind
            && ReadRow(kind, after.server).Success?
            && (forall i :: 0 <= i < |d.row| ==>
                  ReadRow(kind, after.server).value[i] ==
                      if Published(kind, i) then d.row[i] else ReadRow(kind, d.server).value[i])
            && EditedOnly(kind, Everything(kind), d.server, after.server)
            && (!after.flag ==> Says(kind, after, CaughtUpRow(kind, d)))
  {
    EditAgrees(kind, d.server, d.row);
    MergedIsRow(kind, d);
    var after := Drain(kind, d);
    SameWhereNotBetween(kind, after.row, d.row);
  }

  lemma EditedTwice(kind: Kind, a: seq<byte>, b: seq<byte>, c: seq<byte>)
    requires EditedOnly(kind, Everything(kind), a, b) && EditedOnly(kind, Everything(kind), b, c)
    ensures EditedOnly(kind, Everything(kind), a, c)
  {
  }

  /** Drain until the flag clears. */
  function Settle(kind: Kind, d: Standing): Standing
    requires Readable(kind, d) && Readable(kind, Drain(kind, d))
  {
    var once := Drain(kind, d);
    if once.flag then Drain(kind, once) else once
  }

  /** With other devices quiet, at most two drains clear the flag. They leave the row at the
      merge, the server's record saying that row on every publishable field, and every other
      field of both messages, byte for byte and in order, as the server had it. The first
      drain alone may not: it publishes the row it read before it caught up. */
  lemma DrainsConverge(kind: Kind, d: Standing)
    requires Readable(kind, d) && d.flag && Readable(kind, Drain(kind, d))
    ensures var end := Settle(kind, d);
            && !end.flag
            && Says(kind, end, CaughtUpRow(kind, d))
            && EditedOnly(kind, Everything(kind), d.server, end.server)
  {
    DrainPublishes(kind, d);
    var once := Drain(kind, d);
    if once.flag {
      DrainPublishes(kind, once);
      EditedTwice(kind, d.server, once.server, Drain(kind, once).server);
      SameWhereNotBetween(kind, once.row, once.row);
    }
  }

  lemma MergedAt(kind: Kind, d: Standing, i: nat)
    requires Readable(kind, d) && d.behind && i < |d.row| && Published(kind, i)
    ensures var (base, now) := (ReadRow(kind, d.held).value, ReadRow(kind, d.server).value);
            |CaughtUpRow(kind, d)| == |d.row| &&
            (CaughtUpRow(kind, d)[i] == d.row[i] <==> d.row[i] != base[i] || base[i] == now[i])
  {
    MergeIsThreeWay(kind, d);
  }

  /** Exactly when the first drain reaches the merge and is done: when it was caught up, or the
      other devices changed no field this row leaves as it was read. */
  lemma OneDrainSuffices(kind: Kind, d: Standing)
    requires Readable(kind, d) && d.flag
    ensures var (base, now) := (ReadRow(kind, d.held).value, ReadRow(kind, d.server).value);
            !Drain(kind, d).flag <==>
              !d.behind || forall i :: 0 <= i < |d.row| && Published(kind, i) ==>
                  d.row[i] != base[i] || base[i] == now[i]
    ensures !Drain(kind, d).flag ==> Says(kind, Drain(kind, d), CaughtUpRow(kind, d))
  {
    DrainPublishes(kind, d);
    SameWhereNotBetween(kind, CaughtUpRow(kind, d), d.row);
    if d.behind {
      forall i | 0 <= i < |d.row| && Published(kind, i)
        ensures CaughtUpRow(kind, d)[i] == d.row[i] <==>
                d.row[i] != ReadRow(kind, d.held).value[i] ||
                    ReadRow(kind, d.held).value[i] == ReadRow(kind, d.server).value[i]
      {
        MergedAt(kind, d, i);
      }
    }
  }

  /** What it does otherwise: it publishes the row it read before catching up, so a
      field only the other devices changed goes back to its old value on the server. The
      flag is then raised again, and the next drain restores the change. */
  lemma FirstDrainReverts(kind: Kind, d: Standing, i: nat)
    requires Readable(kind, d) && d.flag && d.behind && i < |d.row| && Published(kind, i)
    requires d.row[i] == ReadRow(kind, d.held).value[i] != ReadRow(kind, d.server).value[i]
    ensures var once := Drain(kind, d);
            && ReadRow(kind, once.server).Success? && ReadRow(kind, once.server).value[i] == d.row[i]
            && once.row[i] == ReadRow(kind, d.server).value[i]
            && once.flag
  {
    DrainPublishes(kind, d);
    SameWhereNotBetween(kind, Drain(kind, d).row, d.row);
  }

  // ----- a drain is a run of the machine

  /** Skip the write when the record already says what the row read at the start does. */
  function PublishStep(kind: Kind, d: Standing): Step
    requires Readable(kind, d)
  {
    EditAgrees(kind, d.server, d.row);
    if Edit(kind, d.server, d.row).value.None? then PublishSkip else PublishWrite
  }

  function CatchUpSteps(kind: Kind, d: Standing): seq<Step>
    requires Readable(kind, d)
  {
    if d.behind then [SyncBegin, SyncMerge(d.server, ReadRow(kind, d.server).value), SyncEnd] else []
  }

  function DrainSteps(kind: Kind, d: Standing): seq<Step>
    requires Readable(kind, d)
  {
    [PublishBegin] + (CatchUpSteps(kind, d) + [PublishStep(kind, d), Recheck])
  }

  predicate Stands(d: Standing, s: State) {
    s.row == Some(d.row) && s.flag == d.flag && s.held == Some(d.held) && s.phase.Idle? && s.saving == 0
  }

  lemma RunPrepend(kind: Kind, c: PinCodec, s: State, step: Step, rest: seq<Step>)
    requires Typed(kind, s) && Enabled(kind, c, s, step) && Typed(kind, After(kind, c, s, step))
    requires Runs(kind, c, After(kind, c, s, step), rest)
    ensures Runs(kind, c, s, [step] + rest)
    ensures Final(kind, c, s, [step] + rest) == Final(kind, c, After(kind, c, s, step), rest)
  {
    assert ([step] + rest)[1..] == rest;
  }

  /** The state a drain publishes from, once caught up. */
  function Ready(kind: Kind, d: Standing, unarchived: bool): State
    requires Readable(kind, d)
  {
    State(Some(CaughtUpRow(kind, d)), true, Some(d.server), Publishing(d.row), unarchived, 0)
  }

  lemma PublishStepSettles(kind: Kind, c: PinCodec, d: Standing, s: State)
    requires Readable(kind, d) && |Drain(kind, d).server| <= STORED_MAX && d.flag
    requires Typed(kind, s) && s == Ready(kind, d, s.unarchived)
    ensures Enabled(kind, c, s, PublishStep(kind, d))
    ensures After(kind, c, s, PublishStep(kind, d)) ==
            State(s.row, false, Some(Drain(kind, d).server), Settled(d.row), false, 0)
  {
    EditAgrees(kind, d.server, d.row);
  }

  /** The two steps that end every drain. */
  lemma PublishSteps(kind: Kind, c: PinCodec, d: Standing, s: State)
    requires Readable(kind, d) && |Drain(kind, d).server| <= STORED_MAX && d.flag
    requires Typed(kind, s) && s == Ready(kind, d, s.unarchived)
    ensures var steps := [PublishStep(kind, d), Recheck];
            Runs(kind, c, s, steps) && Stands(Drain(kind, d), Final(kind, c, s, steps))
  {
    PublishStepSettles(kind, c, d, s);
    var first := PublishStep(kind, d);
    RunPrepend(kind, c, After(kind, c, s, first), Recheck, []);
    assert [Recheck] + [] == [Recheck];
    RunPrepend(kind, c, s, first, [Recheck]);
    assert [first] + [Recheck] == [first, Recheck];
  }

  lemma CatchUpStates(kind: Kind, c: PinCodec, d: Standing, s: State)
    requires Readable(kind, d) && d.behind
    requires Typed(kind, s) && s == State(Some(d.row), true, Some(d.held), Publishing(d.row), s.unarchived, 0)
    requires Typed(kind, Ready(kind, d, false))
    ensures var merge := SyncMerge(d.server, ReadRow(kind, d.server).value);
            var syncing := s.(phase := PublishSyncing(d.row, true));
            var merged := Ready(kind, d, false).(phase := PublishSyncing(d.row, true));
            && Enabled(kind, c, s, SyncBegin) && After(kind, c, s, SyncBegin) == syncing && Typed(kind, syncing)
            && Enabled(kind, c, syncing, merge) && After(kind, c, syncing, merge) == merged && Typed(kind, merged)
            && Enabled(kind, c, merged, SyncEnd) && After(kind, c, merged, SyncEnd) == Ready(kind, d, false)
  {
  }

  /** The sync a drain makes when it finds itself behind. */
  lemma CatchUpIsARun(kind: Kind, c: PinCodec, d: Standing, s: State, rest: seq<Step>)
    requires Readable(kind, d) && d.behind
    requires Typed(kind, s) && s == State(Some(d.row), true, Some(d.held), Publishing(d.row), s.unarchived, 0)
    requires Typed(kind, Ready(kind, d, false)) && Runs(kind, c, Ready(kind, d, false), rest)
    ensures Runs(kind, c, s, CatchUpSteps(kind, d) + rest)
    ensures Final(kind, c, s, CatchUpSteps(kind, d) + rest) == Final(kind, c, Ready(kind, d, false), rest)
  {
    var merge := SyncMerge(d.server, ReadRow(kind, d.server).value);
    var syncing := s.(phase := PublishSyncing(d.row, true));
    var merged := Ready(kind, d, false).(phase := PublishSyncing(d.row, true));
    CatchUpStates(kind, c, d, s);
    RunPrepend(kind, c, merged, SyncEnd, rest);
    RunPrepend(kind, c, syncing, merge, [SyncEnd] + rest);
    RunPrepend(kind, c, s, SyncBegin, [merge] + ([SyncEnd] + rest));
    assert CatchUpSteps(kind, d) + rest == [SyncBegin] + ([merge] + ([SyncEnd] + rest));
  }

  /** The drain above is one of the runs the flag discipline ranges over. */
  lemma DrainIsARun(kind: Kind, c: PinCodec, d: Standing, s: State)
    requires Readable(kind, d) && d.flag && |Drain(kind, d).server| <= STORED_MAX
    requires Typed(kind, s) && Stands(d, s)
    ensures Runs(kind, c, s, DrainSteps(kind, d))
    ensures Stands(Drain(kind, d), Final(kind, c, s, DrainSteps(kind, d)))
  {
    MergedIsRow(kind, d);
    var tail := [PublishStep(kind, d), Recheck];
    var begun := After(kind, c, s, PublishBegin);
    if d.behind {
      PublishSteps(kind, c, d, Ready(kind, d, false));
      CatchUpIsARun(kind, c, d, begun, tail);
    } else {
      PublishSteps(kind, c, d, begun);
      assert CatchUpSteps(kind, d) + tail == tail;
    }
    RunPrepend(kind, c, s, PublishBegin, CatchUpSteps(kind, d) + tail);
  }
}
