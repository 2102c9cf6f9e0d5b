/** One record's row, its needs-sync flag and the record bytes held for it, under every
    interleaving of user edits, syncs and publishes (manager/storage.rs, the drains).

    A drain reads the row, and may sync, wait and write before it clears the flag and looks
    at the row again; user edits take no lock and fall anywhere in between. */
module PublishMachine {
  import opened Wrappers
  import opened Varint
  import opened Wire
  import opened Lens
  import opened Codecs
  import opened Publishable
  import opened AccountChat

  /** Where the operation holding the storage lock is. `pending` is whether this record was
      in the set of flagged records the sync read when it began. `captured` is the row the
      drain read before anything else. */
  datatype Phase =
    | Idle
    | Syncing(pending: bool)
    | Publishing(captured: Row)
    | PublishSyncing(captured: Row, pending: bool)
    | Settled(captured: Row)

  /** `held` is the record last read or published; `saving` counts the edits that are saved and
      have yet to raise the flag; `unarchived` marks a row that a pin took out of the archive since
      its record was last merged or published. */
  datatype State = State(row: Option<Row>, flag: bool, held: Option<seq<byte>>, phase: Phase, unarchived: bool,
                         saving: nat)

  datatype Step =
    | SaveEdit(row: Row)
    | RaiseFlag
    | SyncBegin
    | SyncMerge(record: seq<byte>, remote: Row)
    | UnarchivePinned
    | SyncEnd
    | PublishBegin
    | PublishSkip
    | PublishWrite
    | PublishAppend(record: seq<byte>)
    | PublishGone
    | PublishFail
    | Recheck
    | Crash

  function ArchivedSlot(kind: Kind): nat
    requires kind != Account
  {
    if kind == Contact then 2 else 1
  }

  predicate IsArchivedSlot(kind: Kind, i: nat) {
    kind != Account && i == ArchivedSlot(kind)
  }

  // ----- the merge of a record a sync reads

  /** `pending_publish_intent`: nothing without the flag; otherwise where the row disagrees
      with the record held, or everything when there is no readable record. */
  function Intent(kind: Kind, held: Option<seq<byte>>, local: Row, pending: bool): (f: Fields)
    requires |local| == |Slots(kind)|
    ensures |f| == |Slots(kind)|
  {
    if !pending then Nothing(kind)
    else match held
      case None => Everything(kind)
      case Some(record) =>
        match Diff(kind, record, local)
        case Success(f) => f
        case Failure(_) => Everything(kind)
  }

  const ACCOUNT_PINS: nat := 2

  function Adopt(c: PinCodec, local: Row, remote: Row): Row
    requires |local| == |remote| == |ACCOUNT_SLOTS| && local[ACCOUNT_PINS].Pinned? && remote[ACCOUNT_PINS].Pinned?
  {
    remote[ACCOUNT_PINS := Pinned(AdoptPins(c, remote[ACCOUNT_PINS].pins, PinnedThreads(c, local[ACCOUNT_PINS].pins)))]
  }

  function Merged(kind: Kind, c: PinCodec, row: Option<Row>, held: Option<seq<byte>>, remote: Row, pending: bool): Row
    requires RowOf(kind, remote) && (row.Some? ==> RowOf(kind, row.value))
  {
    match row
    case None => remote
    case Some(local) =>
      if kind == Account && held == None then Adopt(c, local, remote)
      else Merge(kind, local, remote, Intent(kind, held, local, pending))
  }

  // ----- steps

  predicate Typed(kind: Kind, s: State) {
    && (s.row.Some? ==> RowOf(kind, s.row.value))
    && (s.held.Some? ==> |s.held.value| <= STORED_MAX)
    && (match s.phase
        case Publishing(captured) => RowOf(kind, captured)
        case PublishSyncing(captured, _) => RowOf(kind, captured)
        case Settled(captured) => RowOf(kind, captured)
        case _ => true)
  }

  predicate InSync(s: State) {
    s.phase.Syncing? || s.phase.PublishSyncing?
  }

  predicate Enabled(kind: Kind, c: PinCodec, s: State, step: Step)
    requires Typed(kind, s)
  {
    match step
    case SaveEdit(row) =>
      RowOf(kind, row) && (kind == Account ==>
        s.row.Some? && s.row.value != row && row[ACCOUNT_KEEP_MUTED] == s.row.value[ACCOUNT_KEEP_MUTED])
    case RaiseFlag => s.saving > 0
    case SyncBegin => s.phase.Idle? || s.phase.Publishing?
    case SyncMerge(record, remote) =>
      InSync(s) && RowOf(kind, remote) && |record| <= STORED_MAX &&
      (match ReadRow(kind, record)
       case Success(row) => remote == row
       case Failure(_) => kind != Account)
    case UnarchivePinned =>
      InSync(s) && !s.phase.pending && kind != Account && s.row.Some? && s.row.value[ArchivedSlot(kind)] == Bit(true)
    case SyncEnd => InSync(s)
    case PublishBegin => s.phase.Idle? && s.flag && s.row.Some?
    case PublishSkip => s.phase.Publishing? && s.held.Some? &&
      Edit(kind, s.held.value, s.phase.captured) == Success(None)
    case PublishWrite =>
      s.phase.Publishing? && s.held.Some? &&
      Edit(kind, s.held.value, s.phase.captured).Success? && Edit(kind, s.held.value, s.phase.captured).value.Some?
    case PublishAppend(record) =>
      s.phase.Publishing? && s.held == None && kind != Account && ReadRow(kind, record) == Success(s.phase.captured)
    case PublishGone => s.phase.Idle? && s.flag && s.row == None
    case PublishFail => s.phase.Publishing? || s.phase.PublishSyncing?
    case Recheck => s.phase.Settled?
    case Crash => true
  }

  function After(kind: Kind, c: PinCodec, s: State, step: Step): State
    requires Typed(kind, s) && Enabled(kind, c, s, step)
  {
    match step
    case SaveEdit(row) => s.(row := Some(row), saving := s.saving + 1)
    case RaiseFlag => s.(flag := true, saving := s.saving - 1)
    case SyncBegin => s.(phase := if s.phase.Idle? then Syncing(s.flag) else PublishSyncing(s.phase.captured, s.flag))
    case SyncMerge(record, remote) =>
      s.(row := Some(Merged(kind, c, s.row, s.held, remote, s.phase.pending)), held := Some(record),
         unarchived := false)
    case UnarchivePinned => s.(row := Some(s.row.value[ArchivedSlot(kind) := Bit(false)]), unarchived := true)
    case SyncEnd => s.(phase := if s.phase.Syncing? then Idle else Publishing(s.phase.captured))
    case PublishBegin => s.(phase := Publishing(s.row.value), flag := true)
    case PublishSkip => s.(phase := Settled(s.phase.captured), flag := false, unarchived := false)
    case PublishWrite =>
      s.(phase := Settled(s.phase.captured), flag := false,
         held := Some(Edit(kind, s.held.value, s.phase.captured).value.value),
         unarchived := false)
    case PublishAppend(record) =>
      s.(phase := Settled(s.phase.captured), flag := false, held := Some(record), unarchived := false)
    case PublishGone => s.(flag := false)
    case PublishFail => s.(phase := Idle)
    case Recheck =>
      s.(phase := Idle, flag := s.flag || (s.row.Some? && Any(Between(kind, s.row.value, s.phase.captured))))
    case Crash => s.(phase := Idle, saving := 0)
  }

  /** A run of steps that are each possible where they happen, and stay within memory. */
  predicate Runs(kind: Kind, c: PinCodec, s: State, steps: seq<Step>)
    requires Typed(kind, s)
    decreases |steps|
  {
    steps == [] ||
    (Enabled(kind, c, s, steps[0]) && Typed(kind, After(kind, c, s, steps[0])) &&
     Runs(kind, c, After(kind, c, s, steps[0]), steps[1..]))
  }

  function Final(kind: Kind, c: PinCodec, s: State, steps: seq<Step>): State
    requires Typed(kind, s) && Runs(kind, c, s, steps)
    decreases |steps|
  {
    if steps == [] then s else Final(kind, c, After(kind, c, s, steps[0]), steps[1..])
  }

  // ----- the flag discipline

  /** A chat a pin took out of the archive. */
  predicate Excused(kind: Kind, s: State, i: nat)
    requires s.row.Some? && i < |s.row.value|
  {
    s.unarchived && IsArchivedSlot(kind, i) && s.row.value[i] == Bit(false)
  }

  predicate FieldAgrees(kind: Kind, s: State, i: nat, says: Value)
    requires s.row.Some? && i < |s.row.value|
  {
    s.row.value[i] == says || Excused(kind, s, i)
  }

  /** The row says what the record held says, on every publishable field; a chat a pin took
      out of the archive may still be archived in its record. */
  predicate Agrees(kind: Kind, s: State)
    requires Typed(kind, s)
  {
    s.row.Some? && s.held.Some? && ReadRow(kind, s.held.value).Success? ==>
      forall i :: 0 <= i < |s.row.value| && Published(kind, i) ==>
        FieldAgrees(kind, s, i, ReadRow(kind, s.held.value).value[i])
  }

  predicate SaysCaptured(kind: Kind, held: Option<seq<byte>>, captured: Row)
    requires RowOf(kind, captured)
  {
    held.Some? && RecordSays(kind, held.value, captured)
  }

  predicate NoPinsYet(kind: Kind, c: PinCodec, s: State)
    requires Typed(kind, s)
  {
    kind == Account && s.held == None && s.row.Some? ==> PinnedThreads(c, s.row.value[ACCOUNT_PINS].pins) == []
  }

  /** What a clear flag promises at rest: row and record agree, and before a first account record
      is read nothing is pinned. */
  predicate Told(kind: Kind, c: PinCodec, s: State)
    requires Typed(kind, s)
  {
    Agrees(kind, s) && NoPinsYet(kind, c, s)
  }

  /** The row differs from the record held in a field it is not excused for. */
  predicate Unsaid(kind: Kind, s: State)
    requires Typed(kind, s)
  {
    s.row.Some? && s.held.Some? &&
    match Diff(kind, s.held.value, s.row.value)
    case Success(f) =>
      exists i :: 0 <= i < |f| && f[i] && !Excused(kind, s, i)
    case Failure(_) => false
  }

  /** A chat is pinned, and no account record was ever read. */
  predicate EarlyPin(kind: Kind, c: PinCodec, s: State)
    requires Typed(kind, s)
  {
    kind == Account && s.held == None && s.row.Some? && PinnedThreads(c, s.row.value[ACCOUNT_PINS].pins) != []
  }

  /** No flag is up, and one is owed: a drain has cleared it while the row became another and has
      yet to look again, or an edit that left the row different from the record, or a pin before
      any record, is saved and has yet to raise it. */
  predicate Exposed(kind: Kind, c: PinCodec, s: State)
    requires Typed(kind, s)
  {
    !s.flag && if s.phase.Settled? then s.row.Some? && Any(Between(kind, s.row.value, s.phase.captured))
               else s.saving > 0 && (Unsaid(kind, s) || EarlyPin(kind, c, s))
  }

  /** No crash falls where the row is exposed. */
  predicate Orderly(kind: Kind, c: PinCodec, s: State, steps: seq<Step>)
    requires Typed(kind, s) && Runs(kind, c, s, steps)
    decreases |steps|
  {
    steps == [] ||
    (!(Exposed(kind, c, s) && steps[0].Crash?) && Orderly(kind, c, After(kind, c, s, steps[0]), steps[1..]))
  }

  predicate Inv(kind: Kind, c: PinCodec, s: State) {
    && Typed(kind, s)
    && (kind == Account ==> s.row.Some?)
    && (!s.flag && s.saving == 0 ==> (s.phase.Settled? || Agrees(kind, s)) && NoPinsYet(kind, c, s))
    && (s.phase.Publishing? || s.phase.PublishSyncing? ==> s.flag && s.row.Some?)
    && (s.held.Some? ==> s.row.Some?)
    && (InSync(s) && s.phase.pending ==> s.flag)
    && (s.phase.Settled? ==> SaysCaptured(kind, s.held, s.phase.captured) && !s.unarchived)
  }

  /** A store that has read nothing: an account that pins nothing, or no row at all. */
  predicate Start(kind: Kind, s: State) {
    && s.phase.Idle? && !s.flag && s.held == None && !s.unarchived && s.saving == 0
    && s.row == if kind == Account then Some([Bit(false), Bit(false), Pinned([])]) else None
  }

  lemma MergeUnflagged(kind: Kind, c: PinCodec, s: State, record: seq<byte>, remote: Row)
    requires Inv(kind, c, s) && Enabled(kind, c, s, SyncMerge(record, remote)) && !s.flag && s.saving == 0
    ensures Merged(kind, c, s.row, s.held, remote, s.phase.pending) == remote
  {
    if s.row.Some? && kind == Account && s.held == None {
      assert remote[ACCOUNT_PINS := remote[ACCOUNT_PINS]] == remote;
    }
  }

  lemma StepKeepsInv(kind: Kind, c: PinCodec, s: State, step: Step)
    requires Inv(kind, c, s) && Enabled(kind, c, s, step)
    requires Typed(kind, After(kind, c, s, step))
    requires !(Exposed(kind, c, s) && step.Crash?)
    ensures Inv(kind, c, After(kind, c, s, step))
  {
    match step
    case SyncMerge(record, remote) =>
      if !s.flag && s.saving == 0 { MergeUnflagged(kind, c, s, record, remote); }
    case PublishSkip => SkipSays(kind, s.held.value, s.phase.captured);
    case PublishWrite => WriteSays(kind, s.held.value, s.phase.captured);
    case Recheck => RecheckAgrees(kind, c, s);
    case Crash =>
      if !s.flag && s.phase.Settled? {
        CrashAgrees(kind, s, After(kind, c, s, Crash), s.phase.captured);
      } else {
        ToldIsSaid(kind, c, s);
      }
    case _ =>
  }

  lemma SkipSays(kind: Kind, record: seq<byte>, captured: Row)
    requires RowOf(kind, captured) && |record| <= STORED_MAX && Edit(kind, record, captured) == Success(None)
    ensures SaysCaptured(kind, Some(record), captured)
  {
    EditAgrees(kind, record, captured);
  }

  lemma WriteSays(kind: Kind, record: seq<byte>, captured: Row)
    requires RowOf(kind, captured) && |record| <= STORED_MAX
    requires Edit(kind, record, captured).Success? && Edit(kind, record, captured).value.Some?
    ensures SaysCaptured(kind, Edit(kind, record, captured).value, captured)
  {
    EditAgrees(kind, record, captured);
  }

  lemma CapturedRowAgrees(kind: Kind, s: State, captured: Row)
    requires Typed(kind, s) && RowOf(kind, captured) && SaysCaptured(kind, s.held, captured)
    requires s.row.Some? && forall i :: 0 <= i < |captured| && Published(kind, i) ==> s.row.value[i] == captured[i]
    ensures Agrees(kind, s)
  {
  }

  lemma RecheckAgrees(kind: Kind, c: PinCodec, s: State)
    requires Inv(kind, c, s) && s.phase.Settled?
    ensures !After(kind, c, s, Recheck).flag ==> Agrees(kind, After(kind, c, s, Recheck))
  {
    var end := After(kind, c, s, Recheck);
    if s.row.Some? && !end.flag {
      SameWhereNotBetween(kind, s.row.value, s.phase.captured);
      CapturedRowAgrees(kind, end, s.phase.captured);
    }
  }

  lemma DiffIs(kind: Kind, record: seq<byte>, row: Row)
    requires RowOf(kind, row) && |record| <= STORED_MAX && ReadRow(kind, record).Success?
    ensures Diff(kind, record, row) == Success(Between(kind, ReadRow(kind, record).value, row))
  {
  }

  lemma BetweenAt(kind: Kind, a: Row, b: Row, i: nat)
    requires i < |a| == |b| == |Slots(kind)|
    ensures |Between(kind, a, b)| == |Slots(kind)| && (Between(kind, a, b)[i] <==> Published(kind, i) && a[i] != b[i])
  {
  }

  lemma AgreesIsSaid(kind: Kind, s: State)
    requires Typed(kind, s)
    ensures Agrees(kind, s) <==> !Unsaid(kind, s)
  {
    if s.row.Some? && s.held.Some? && ReadRow(kind, s.held.value).Success? {
      var says, row := ReadRow(kind, s.held.value).value, s.row.value;
      DiffIs(kind, s.held.value, row);
      forall i | 0 <= i < |row|
        ensures Between(kind, says, row)[i] <==> Published(kind, i) && says[i] != row[i]
      {
        BetweenAt(kind, says, row, i);
      }
    }
  }

  lemma ToldIsSaid(kind: Kind, c: PinCodec, s: State)
    requires Typed(kind, s)
    ensures Told(kind, c, s) <==> !Unsaid(kind, s) && !EarlyPin(kind, c, s)
  {
    AgreesIsSaid(kind, s);
  }

  lemma CrashAgrees(kind: Kind, s: State, end: State, captured: Row)
    requires Typed(kind, s) && RowOf(kind, captured) && SaysCaptured(kind, s.held, captured)
    requires s.row.Some? ==> !Any(Between(kind, s.row.value, captured))
    requires end == s.(phase := Idle, saving := 0)
    ensures Agrees(kind, end)
  {
    if s.row.Some? {
      SameWhereNotBetween(kind, s.row.value, captured);
      CapturedRowAgrees(kind, end, captured);
    }
  }

  lemma ExposedDiffers(kind: Kind, s: State, captured: Row)
    requires Typed(kind, s) && RowOf(kind, captured) && SaysCaptured(kind, s.held, captured) && !s.unarchived
    requires s.row.Some? && Any(Between(kind, s.row.value, captured))
    ensures !Agrees(kind, s)
  {
    SameWhereNotBetween(kind, s.row.value, captured);
    var i :| 0 <= i < |captured| && Published(kind, i) && s.row.value[i] != captured[i];
    assert !FieldAgrees(kind, s, i, ReadRow(kind, s.held.value).value[i]);
  }

  /** A crash after a drain cleared the flag, before it looked at the row again. */
  lemma SettledCrash(kind: Kind, c: PinCodec, s: State, end: State)
    requires Inv(kind, c, s) && s.phase.Settled? && !s.flag && end == s.(phase := Idle, saving := 0)
    ensures Told(kind, c, end) <==> !Exposed(kind, c, s)
  {
    if Exposed(kind, c, s) {
      ExposedDiffers(kind, end, s.phase.captured);
    } else {
      CrashAgrees(kind, s, end, s.phase.captured);
    }
  }

  /** A crash anywhere else. */
  lemma SavingCrash(kind: Kind, c: PinCodec, s: State, end: State)
    requires Inv(kind, c, s) && !s.phase.Settled? && !s.flag && end == s.(phase := Idle, saving := 0)
    ensures Told(kind, c, end) <==> !Exposed(kind, c, s)
  {
    ToldIsSaid(kind, c, end);
    if s.saving == 0 { ToldIsSaid(kind, c, s); }
  }

  lemma SameWhereNotBetween(kind: Kind, a: Row, b: Row)
    requires |a| == |b| == |Slots(kind)|
    ensures !Any(Between(kind, a, b)) <==> forall i :: 0 <= i < |a| && Published(kind, i) ==> a[i] == b[i]
  {
    var f := Between(kind, a, b);
    if !Any(f) {
      forall i | 0 <= i < |a| && Published(kind, i) ensures a[i] == b[i] { assert f[i] in f; }
    }
  }

  lemma {:induction false} RunKeepsInv(kind: Kind, c: PinCodec, s: State, steps: seq<Step>)
    requires Inv(kind, c, s)
    requires Runs(kind, c, s, steps) && Orderly(kind, c, s, steps)
    ensures Inv(kind, c, Final(kind, c, s, steps))
    decreases |steps|
  {
    if steps != [] {
      StepKeepsInv(kind, c, s, steps[0]);
      RunKeepsInv(kind, c, After(kind, c, s, steps[0]), steps[1..]);
    }
  }

  lemma StartIsInv(kind: Kind, c: PinCodec, s: State)
    requires Start(kind, s)
    ensures Inv(kind, c, s)
  {
    assert EncodePins([]) == [] && PinnedThreads(c, []) == [];
  }

  /** Over every orderly run from an empty store: whenever nothing is under way and the flag is
      clear, the row agrees with the record held, apart from a chat a pin took out of the archive.
      A user edit made at any point of a publish is therefore still flagged or already published. */
  lemma FlagDiscipline(kind: Kind, c: PinCodec, s: State, steps: seq<Step>)
    requires Start(kind, s) && Typed(kind, s)
    requires Runs(kind, c, s, steps) && Orderly(kind, c, s, steps)
    ensures Typed(kind, Final(kind, c, s, steps))
    ensures var end := Final(kind, c, s, steps);
            end.phase.Idle? && end.saving == 0 && !end.flag ==> Told(kind, c, end)
  {
    StartIsInv(kind, c, s);
    RunKeepsInv(kind, c, s, steps);
  }

  /** Which crashes those are: in a state the discipline holds of, a crash keeps it exactly
      when the row is not exposed. */
  lemma HarmlessCrash(kind: Kind, c: PinCodec, s: State)
    requires Inv(kind, c, s)
    ensures var end := After(kind, c, s, Crash);
            (end.flag || Told(kind, c, end)) <==> !Exposed(kind, c, s)
  {
    if s.flag {
    } else if s.phase.Settled? {
      SettledCrash(kind, c, s, After(kind, c, s, Crash));
    } else {
      SavingCrash(kind, c, s, After(kind, c, s, Crash));
    }
  }

  /** An edit the user makes, wherever it falls, ends saved and flagged, and disturbs nothing of
      what is under way. */
  lemma UserEditIsFlagged(kind: Kind, c: PinCodec, s: State, row: Row)
    requires Typed(kind, s) && RowOf(kind, row)
    requires kind == Account ==>
               s.row.Some? && s.row.value != row && row[ACCOUNT_KEEP_MUTED] == s.row.value[ACCOUNT_KEEP_MUTED]
    ensures Enabled(kind, c, s, SaveEdit(row)) && Typed(kind, After(kind, c, s, SaveEdit(row)))
    ensures var saved := After(kind, c, s, SaveEdit(row));
            Enabled(kind, c, saved, RaiseFlag) &&
            After(kind, c, saved, RaiseFlag) == State(Some(row), true, s.held, s.phase, s.unarchived, s.saving)
  {
  }

  /** A drain or its sync can fail anywhere; the row, the record and the raised flag stay, for the
      next drain to try again. */
  lemma FailedDrainKeeps(kind: Kind, c: PinCodec, s: State)
    requires Inv(kind, c, s) && (s.phase.Publishing? || s.phase.PublishSyncing?)
    ensures Enabled(kind, c, s, PublishFail)
    ensures var after := After(kind, c, s, PublishFail);
            after.row == s.row && after.held == s.held && after.flag && after.phase.Idle?
  {
  }

  /** A sync that begins knows whether the row was flagged then, and that decides whether pins may
      take its chat out of the archive: they write that one field, and flag nothing. */
  lemma PinsUnarchive(kind: Kind, c: PinCodec, s: State)
    requires Typed(kind, s) && kind != Account && s.phase.Idle?
    ensures Enabled(kind, c, s, SyncBegin)
    ensures var syncing := After(kind, c, s, SyncBegin);
            && Typed(kind, syncing)
            && (Enabled(kind, c, syncing, UnarchivePinned) <==>
                  !s.flag && s.row.Some? && s.row.value[if kind == Contact then 2 else 1] == Bit(true))
            && (Enabled(kind, c, syncing, UnarchivePinned) ==>
                  var after := After(kind, c, syncing, UnarchivePinned);
                  && after.flag == s.flag && after.held == s.held && after.row.Some?
                  && after.row.value == s.row.value[(if kind == Contact then 2 else 1) := Bit(false)])
  {
  }

  /** A row that is gone is no longer flagged, and a first record that is appended says the row
      that was read. */
  lemma FirstRecordSays(kind: Kind, c: PinCodec, s: State, record: seq<byte>)
    requires Typed(kind, s)
    ensures s.phase.Idle? && s.flag && s.row == None ==>
              Enabled(kind, c, s, PublishGone) && After(kind, c, s, PublishGone) == s.(flag := false)
    ensures s.phase.Publishing? && s.held == None && kind != Account &&
            ReadRow(kind, record) == Success(s.phase.captured) ==>
              && Enabled(kind, c, s, PublishAppend(record))
              && var after := After(kind, c, s, PublishAppend(record));
                 after.held == Some(record) && !after.flag && RecordSays(kind, record, s.phase.captured)
                 && after.row == s.row && after.phase == Settled(s.phase.captured)
  {
  }

  /** Nothing this row says at `i` is published: no record is held, or none that can be read, or
      one that says otherwise. */
  predicate Unpublished(kind: Kind, s: State, i: nat)
    requires s.row.Some? && i < |s.row.value| == |Slots(kind)|
  {
    s.held.Some? && ReadRow(kind, s.held.value).Success? ==> s.row.value[i] != ReadRow(kind, s.held.value).value[i]
  }

  /** A merge keeps an unpublished change exactly when the sync had seen the flag and this is not
      the first account record, or the new record happens to agree. A change made after the sync
      read its pending set is lost to it, and so is one of the account's archive flag made before
      any account record was read. */
  lemma MergeKeepsEdit(kind: Kind, c: PinCodec, s: State, record: seq<byte>, remote: Row, i: nat)
    requires Typed(kind, s) && Enabled(kind, c, s, SyncMerge(record, remote))
    requires s.row.Some? && i < |s.row.value| && Published(kind, i) && Unpublished(kind, s, i)
    requires !(kind == Account && s.held == None && i == ACCOUNT_PINS)
    ensures After(kind, c, s, SyncMerge(record, remote)).row.value[i] == s.row.value[i]
       <==> (s.phase.pending && !(kind == Account && s.held == None)) || remote[i] == s.row.value[i]
  {
  }

  /** The account's pins at its first record: whatever the sync had seen, exactly the chats either
      side pinned are pinned, the record's own entries first. */
  lemma FirstMergeKeepsPins(c: PinCodec, s: State, record: seq<byte>, remote: Row)
    requires c.Lawful() && Typed(Account, s) && Enabled(Account, c, s, SyncMerge(record, remote))
    requires s.row.Some? && s.held == None
    ensures var after := After(Account, c, s, SyncMerge(record, remote)).row.value[ACCOUNT_PINS].pins;
            && remote[ACCOUNT_PINS].pins <= after
            && forall t :: IsPinned(c, after, t) <==>
                 IsPinned(c, remote[ACCOUNT_PINS].pins, t) || IsPinned(c, s.row.value[ACCOUNT_PINS].pins, t)
  {
    AdoptKeepsBoth(c, remote[ACCOUNT_PINS].pins, PinnedThreads(c, s.row.value[ACCOUNT_PINS].pins));
  }
}
