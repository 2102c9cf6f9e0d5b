/** What goes wrong, reached: for each failure the other modules give the exact condition of, a run
    from an empty store, or a concrete record, that shows it. The runs read any record that says
    nothing, and `Blank` is one. */
module Witnesses {
  import opened Wrappers
  import opened Varint
  import opened Wire
  import opened Editor
  import opened Lens
  import opened Codecs
  import opened Publishable
  import opened AccountChat
  import opened PublishMachine
  import opened Convergence
  import ChatFolders
  import FolderStore

  // ----- a record that says nothing, and its edits

  /** A record of one empty submessage. */
  function Blank(kind: Kind): seq<byte> {
    LenField(Submessage(kind), []).whole
  }

  /** The row such a record reads as. */
  function Plain(kind: Kind): Row {
    match kind
    case Contact => [Bit(false), Amount(0), Bit(false)]
    case Group => [Amount(0), Bit(false)]
    case Account => [Bit(false), Bit(false), Pinned([])]
  }

  const BLOCKED: Row := [Bit(true), Amount(0), Bit(false)]
  const ARCHIVED: Row := [Bit(false), Amount(0), Bit(true)]
  const NOTES_ARCHIVED: Row := [Bit(true), Bit(false), Pinned([])]

  /** A small record that says nothing. */
  predicate SaysNothing(kind: Kind, record: seq<byte>) {
    |record| <= 22 && ReadRow(kind, record) == Success(Plain(kind))
  }

  lemma BlankSaysNothing(kind: Kind)
    ensures SaysNothing(kind, Blank(kind))
  {
    BlankScans(Submessage(kind));
    BlankSlots(kind, Blank(kind));
    PlainIsUnset(kind);
  }

  lemma BlankScans(sub: nat)
    requires 1 <= sub < 16
    ensures var record := LenField(sub, []).whole; |record| <= 22 && Accepted(record, sub) && Inner(record, sub) == []
  {
    var wrapper := LenField(sub, []);
    LenFieldIsSound(sub, []);
    RoundTrip(sub * 8 + WIRE_LEN, []);
    RoundTrip(0, []);
    assert Parse(wrapper.whole) == Some([wrapper]);
    FilterBlock([wrapper], sub);
  }

  lemma BlankSlots(kind: Kind, record: seq<byte>)
    requires Accepted(record, Submessage(kind)) && Inner(record, Submessage(kind)) == []
    ensures ReadRow(kind, record) == Success(Plain(kind))
  {
    var slots := Slots(kind);
    PlainIsUnset(kind);
    forall j | 0 <= j < |slots| ensures ReadSlot(kind, slots[j], record) == Success(Plain(kind)[j]) {
      BlankSlot(kind, slots[j], record);
    }
    ReadSlotsAre(kind, slots, record, Plain(kind));
  }

  lemma PlainIsUnset(kind: Kind)
    ensures RowOf(kind, Plain(kind)) && forall j :: 0 <= j < |Slots(kind)| ==> Plain(kind)[j] == Unset(Slots(kind)[j])
  {
    assert EncodePins([]) == [];
  }

  /** A slot nobody wrote. */
  function Unset(slot: Slot): Value {
    match slot
    case Flag(_) => Bit(false)
    case Count(_) => Amount(0)
    case PinList(_) => Pinned([])
  }

  lemma BlankSlot(kind: Kind, slot: Slot, record: seq<byte>)
    requires Accepted(record, Submessage(kind)) && Inner(record, Submessage(kind)) == [] && slot in Slots(kind)
    ensures ReadSlot(kind, slot, record) == Success(Unset(slot))
  {
    if slot.PinList? { PinsAreInner(record); }
  }

  /** The edit a drain makes of a small record stays small, and says the row. */
  lemma SmallEdit(record: seq<byte>, local: Row)
    requires RowOf(Contact, local) && |record| <= 1000
    requires ReadRow(Contact, record).Success? && ReadRow(Contact, record).value != local
    ensures Edit(Contact, record, local).Success? && Edit(Contact, record, local).value.Some?
    ensures var edited := Edit(Contact, record, local).value.value;
            |edited| <= 8 * |record| + 280 && ReadRow(Contact, edited) == Success(local)
  {
    ReadableIsAccepted(Contact, record);
    EditAgrees(Contact, record, local);
    var f := Diff(Contact, record, local).value;
    assert GrowsWithin(|record|, 3, 8 * |record| + 280);
    ApplySize(Contact, 0, f, record, local, 8 * |record| + 280);
    var i :| 0 <= i < 3 && ReadRow(Contact, record).value[i] != local[i];
    assert f[i] && f[i] in f;
    assert ReadRow(Contact, Edit(Contact, record, local).value.value).value == local;
  }

  /** Such a contact's record edited to say a row. */
  function Edited(record: seq<byte>, local: Row): (r: seq<byte>)
    requires SaysNothing(Contact, record) && RowOf(Contact, local) && local != Plain(Contact)
    ensures |r| <= 500 && ReadRow(Contact, r) == Success(local) && Edit(Contact, record, local) == Success(Some(r))
  {
    SmallEdit(record, local);
    Edit(Contact, record, local).value.value
  }

  // ----- runs from an empty store

  function Empty(kind: Kind): State {
    State(if kind == Account then Some(Plain(Account)) else None, false, None, Idle, false, 0)
  }

  /** From `s` the steps run, one after another, to `end`. */
  predicate Leads(kind: Kind, c: PinCodec, s: State, steps: seq<Step>, end: State)
    decreases |steps|
  {
    && Typed(kind, s)
    && if steps == [] then s == end
       else Enabled(kind, c, s, steps[0]) && Leads(kind, c, After(kind, c, s, steps[0]), steps[1..], end)
  }

  /** They are a run of the machine, and that is where it ends. */
  lemma {:induction false} LeadsIsARun(kind: Kind, c: PinCodec, s: State, steps: seq<Step>, end: State)
    requires Leads(kind, c, s, steps, end)
    ensures Typed(kind, s) && Runs(kind, c, s, steps) && Final(kind, c, s, steps) == end
    decreases |steps|
  {
    if steps != [] { LeadsIsARun(kind, c, After(kind, c, s, steps[0]), steps[1..], end); }
  }

  lemma {:induction false} LeadsOn(kind: Kind, c: PinCodec, s: State, steps: seq<Step>, mid: State, step: Step,
                                   end: State)
    requires Leads(kind, c, s, steps, mid) && Typed(kind, mid)
    requires Enabled(kind, c, mid, step) && After(kind, c, mid, step) == end && Typed(kind, end)
    ensures Leads(kind, c, s, steps + [step], end)
    decreases |steps|
  {
    if steps == [] {
      assert [] + [step] == [step] && [step][1..] == [];
    } else {
      assert (steps + [step])[1..] == steps[1..] + [step];
      LeadsOn(kind, c, After(kind, c, s, steps[0]), steps[1..], mid, step, end);
    }
  }

  predicate Reaches(kind: Kind, c: PinCodec, steps: seq<Step>, end: State) {
    Leads(kind, c, Empty(kind), steps, end)
  }

  lemma NothingDone(kind: Kind, c: PinCodec)
    ensures Start(kind, Empty(kind)) && Reaches(kind, c, [], Empty(kind))
  {
    assert EncodePins([]) == [];
  }

  predicate StepTo(kind: Kind, c: PinCodec, s: State, step: Step, end: State) {
    Typed(kind, s) && Enabled(kind, c, s, step) && After(kind, c, s, step) == end && Typed(kind, end)
  }

  lemma Then(kind: Kind, c: PinCodec, steps: seq<Step>, mid: State, step: Step, end: State)
    requires Reaches(kind, c, steps, mid) && StepTo(kind, c, mid, step, end)
    ensures Reaches(kind, c, steps + [step], end)
  {
    LeadsOn(kind, c, Empty(kind), steps, mid, step, end);
  }

  /** A user's edit, the row and then the flag. */
  function EditSteps(row: Row): seq<Step> {
    [SaveEdit(row)] + [RaiseFlag]
  }

  lemma SaveTo(kind: Kind, c: PinCodec, s: State, row: Row)
    requires Typed(kind, s) && Enabled(kind, c, s, SaveEdit(row))
    ensures StepTo(kind, c, s, SaveEdit(row), s.(row := Some(row), saving := s.saving + 1))
  {
  }

  lemma RaiseTo(kind: Kind, c: PinCodec, s: State)
    requires Typed(kind, s) && s.saving > 0
    ensures StepTo(kind, c, s, RaiseFlag, s.(flag := true, saving := s.saving - 1))
  {
  }

  lemma CrashTo(kind: Kind, c: PinCodec, s: State)
    requires Typed(kind, s)
    ensures StepTo(kind, c, s, Crash, s.(phase := Idle, saving := 0))
  {
  }

  lemma SyncBeginTo(kind: Kind, c: PinCodec, s: State)
    requires Typed(kind, s) && s.phase.Idle?
    ensures StepTo(kind, c, s, SyncBegin, s.(phase := Syncing(s.flag)))
  {
  }

  lemma MergeTo(kind: Kind, c: PinCodec, s: State, record: seq<byte>, remote: Row, row: Row)
    requires Typed(kind, s) && s.phase.Syncing? && RowOf(kind, remote) && RowOf(kind, row)
    requires |record| <= STORED_MAX && ReadRow(kind, record) == Success(remote)
    requires Merged(kind, c, s.row, s.held, remote, s.phase.pending) == row
    ensures StepTo(kind, c, s, SyncMerge(record, remote),
                   s.(row := Some(row), held := Some(record), unarchived := false))
  {
  }

  lemma SyncEndTo(kind: Kind, c: PinCodec, s: State)
    requires Typed(kind, s) && s.phase.Syncing?
    ensures StepTo(kind, c, s, SyncEnd, s.(phase := Idle))
  {
  }

  lemma BeginTo(kind: Kind, c: PinCodec, s: State)
    requires Typed(kind, s) && s.phase.Idle? && s.flag && s.row.Some?
    ensures StepTo(kind, c, s, PublishBegin, s.(phase := Publishing(s.row.value)))
  {
  }

  lemma SkipTo(kind: Kind, c: PinCodec, s: State)
    requires Typed(kind, s) && s.phase.Publishing? && s.held.Some?
    requires Edit(kind, s.held.value, s.phase.captured) == Success(None)
    ensures StepTo(kind, c, s, PublishSkip, s.(phase := Settled(s.phase.captured), flag := false, unarchived := false))
  {
  }

  lemma WriteTo(kind: Kind, c: PinCodec, s: State, record: seq<byte>)
    requires Typed(kind, s) && s.phase.Publishing? && s.held.Some? && |record| <= STORED_MAX
    requires Edit(kind, s.held.value, s.phase.captured) == Success(Some(record))
    ensures var settled := s.(phase := Settled(s.phase.captured), flag := false, held := Some(record),
                              unarchived := false);
            StepTo(kind, c, s, PublishWrite, settled)
  {
    assert Enabled(kind, c, s, PublishWrite);
  }

  lemma RecheckTo(kind: Kind, c: PinCodec, s: State)
    requires Typed(kind, s) && s.phase.Settled? && s.row == Some(s.phase.captured)
    ensures StepTo(kind, c, s, Recheck, s.(phase := Idle))
  {
    SameRow(kind, s.phase.captured);
  }

  lemma SameRow(kind: Kind, row: Row)
    requires |row| == |Slots(kind)|
    ensures !Any(Between(kind, row, row))
  {
    var f := Between(kind, row, row);
    assert forall i :: 0 <= i < |f| ==> !f[i];
  }

  lemma ThenEdit(kind: Kind, c: PinCodec, steps: seq<Step>, mid: State, row: Row)
    requires Reaches(kind, c, steps, mid) && Typed(kind, mid) && Enabled(kind, c, mid, SaveEdit(row))
    ensures Reaches(kind, c, steps + EditSteps(row), mid.(row := Some(row), flag := true))
  {
    var saved := mid.(row := Some(row), saving := mid.saving + 1);
    SaveTo(kind, c, mid, row);
    RaiseTo(kind, c, saved);
    Then(kind, c, steps, mid, SaveEdit(row), saved);
    Then(kind, c, steps + [SaveEdit(row)], saved, RaiseFlag, mid.(row := Some(row), flag := true));
    assert steps + EditSteps(row) == steps + [SaveEdit(row)] + [RaiseFlag];
  }

  /** A sync that reads a record that says nothing. */
  function SyncSteps(kind: Kind, record: seq<byte>): seq<Step> {
    [SyncBegin] + [SyncMerge(record, Plain(kind))] + [SyncEnd]
  }

  lemma ThenSync(kind: Kind, c: PinCodec, steps: seq<Step>, s: State, record: seq<byte>, read: State)
    requires Reaches(kind, c, steps, s) && Typed(kind, s) && s.phase.Idle? && Typed(kind, read) && read.phase.Idle?
    requires StepTo(kind, c, s.(phase := Syncing(s.flag)), SyncMerge(record, Plain(kind)),
                    read.(phase := Syncing(s.flag)))
    ensures Reaches(kind, c, steps + SyncSteps(kind, record), read)
  {
    var merge := SyncMerge(record, Plain(kind));
    SyncBeginTo(kind, c, s);
    SyncEndTo(kind, c, read.(phase := Syncing(s.flag)));
    Then(kind, c, steps, s, SyncBegin, s.(phase := Syncing(s.flag)));
    Then(kind, c, steps + [SyncBegin], s.(phase := Syncing(s.flag)), merge, read.(phase := Syncing(s.flag)));
    Then(kind, c, steps + [SyncBegin] + [merge], read.(phase := Syncing(s.flag)), SyncEnd, read);
    assert steps + SyncSteps(kind, record) == steps + [SyncBegin] + [merge] + [SyncEnd];
  }

  /** What a drain does when there is nothing to say. */
  function IdleDrain(): seq<Step> {
    [PublishBegin] + [PublishSkip] + [Recheck]
  }

  /** Row and record at rest, agreeing. */
  function Resting(row: Row, record: seq<byte>): State {
    State(Some(row), false, Some(record), Idle, false, 0)
  }

  lemma NothingToEdit(kind: Kind, row: Row, record: seq<byte>)
    requires RowOf(kind, row) && ReadRow(kind, record) == Success(row)
    ensures Edit(kind, record, row) == Success(None)
  {
    SameRow(kind, row);
  }

  lemma ThenIdleDrain(kind: Kind, c: PinCodec, steps: seq<Step>, row: Row, record: seq<byte>)
    requires RowOf(kind, row) && |record| <= STORED_MAX && ReadRow(kind, record) == Success(row)
    requires Reaches(kind, c, steps, Resting(row, record).(flag := true))
    ensures Reaches(kind, c, steps + IdleDrain(), Resting(row, record))
  {
    var s := Resting(row, record);
    NothingToEdit(kind, row, record);
    BeginTo(kind, c, s.(flag := true));
    SkipTo(kind, c, s.(flag := true, phase := Publishing(row)));
    RecheckTo(kind, c, s.(phase := Settled(row)));
    Then(kind, c, steps, s.(flag := true), PublishBegin, s.(flag := true, phase := Publishing(row)));
    Then(kind, c, steps + [PublishBegin], s.(flag := true, phase := Publishing(row)), PublishSkip,
         s.(phase := Settled(row)));
    Then(kind, c, steps + [PublishBegin] + [PublishSkip], s.(phase := Settled(row)), Recheck, s);
    assert steps + IdleDrain() == steps + [PublishBegin] + [PublishSkip] + [Recheck];
  }

  // ----- what is lost

  function Read(record: seq<byte>): State {
    Resting(Plain(Contact), record)
  }

  /** A contact's record read once. */
  lemma ReadIsReached(c: PinCodec, record: seq<byte>)
    requires SaysNothing(Contact, record)
    ensures Reaches(Contact, c, SyncSteps(Contact, record), Read(record)) && Typed(Contact, Read(record))
  {
    PlainIsUnset(Contact);
    NothingDone(Contact, c);
    MergeTo(Contact, c, Empty(Contact).(phase := Syncing(false)), record, Plain(Contact), Plain(Contact));
    ThenSync(Contact, c, [], Empty(Contact), record, Read(record));
    assert [] + SyncSteps(Contact, record) == SyncSteps(Contact, record);
  }

  lemma Disagree(row: Row, record: seq<byte>, said: Row)
    requires RowOf(Contact, row) && |record| <= STORED_MAX && ReadRow(Contact, record) == Success(said) &&
             said[0] != row[0]
    ensures Typed(Contact, Resting(row, record)) && !Agrees(Contact, Resting(row, record))
  {
    assert !FieldAgrees(Contact, Resting(row, record), 0, said[0]);
  }

  lemma BlockIsSaved(c: PinCodec, record: seq<byte>)
    requires SaysNothing(Contact, record)
    ensures StepTo(Contact, c, Read(record), SaveEdit(BLOCKED), Read(record).(row := Some(BLOCKED), saving := 1))
    ensures !Agrees(Contact, Read(record).(row := Some(BLOCKED)))
  {
    PlainIsUnset(Contact);
    SaveTo(Contact, c, Read(record), BLOCKED);
    Disagree(BLOCKED, record, Plain(Contact));
  }

  /** A crash loses an edit: the app dies between saving a block and flagging it. */
  lemma CrashUnflagsAnEdit(c: PinCodec, record: seq<byte>)
    requires SaysNothing(Contact, record)
    ensures var end := Read(record).(row := Some(BLOCKED));
            && Reaches(Contact, c, SyncSteps(Contact, record) + [SaveEdit(BLOCKED)] + [Crash], end)
            && !end.flag && Typed(Contact, end) && !Agrees(Contact, end)
  {
    var end := Read(record).(row := Some(BLOCKED));
    ReadIsReached(c, record);
    BlockIsSaved(c, record);
    CrashTo(Contact, c, end.(saving := 1));
    Then(Contact, c, SyncSteps(Contact, record), Read(record), SaveEdit(BLOCKED), end.(saving := 1));
    Then(Contact, c, SyncSteps(Contact, record) + [SaveEdit(BLOCKED)], end.(saving := 1), Crash, end);
  }

  /** A crash loses an edit: the contact is blocked, and while that is published it is archived
      and unblocked; the app dies before it looks again. The flag is clear, and row and record
      disagree. */
  lemma CrashLosesAnEdit(c: PinCodec, record: seq<byte>)
    requires SaysNothing(Contact, record)
    ensures var steps := SyncSteps(Contact, record) + EditSteps(BLOCKED) + [PublishBegin] + EditSteps(ARCHIVED);
            var end := Resting(ARCHIVED, Edited(record, BLOCKED));
            Reaches(Contact, c, steps + [PublishWrite] + [Crash], end) && Typed(Contact, end) && !Agrees(Contact, end)
  {
    var publishing := State(Some(BLOCKED), true, Some(record), Publishing(BLOCKED), false, 0);
    var end := Resting(ARCHIVED, Edited(record, BLOCKED));
    var steps := SyncSteps(Contact, record) + EditSteps(BLOCKED);
    ReadIsReached(c, record);
    BeginTo(Contact, c, publishing.(phase := Idle));
    WriteTo(Contact, c, publishing.(row := Some(ARCHIVED)), Edited(record, BLOCKED));
    CrashTo(Contact, c, end.(phase := Settled(BLOCKED)));
    Disagree(ARCHIVED, Edited(record, BLOCKED), BLOCKED);
    ThenEdit(Contact, c, SyncSteps(Contact, record), Read(record), BLOCKED);
    Then(Contact, c, steps, publishing.(phase := Idle), PublishBegin, publishing);
    ThenEdit(Contact, c, steps + [PublishBegin], publishing, ARCHIVED);
    steps := steps + [PublishBegin] + EditSteps(ARCHIVED);
    Then(Contact, c, steps, publishing.(row := Some(ARCHIVED)), PublishWrite, end.(phase := Settled(BLOCKED)));
    Then(Contact, c, steps + [PublishWrite], end.(phase := Settled(BLOCKED)), Crash, end);
  }

  lemma UnseenMerge(c: PinCodec, record: seq<byte>)
    requires SaysNothing(Contact, record)
    ensures var syncing := Read(record).(phase := Syncing(false), flag := true);
            StepTo(Contact, c, syncing.(row := Some(BLOCKED)), SyncMerge(record, Plain(Contact)), syncing)
  {
    PlainIsUnset(Contact);
    assert Merge(Contact, BLOCKED, Plain(Contact), Nothing(Contact)) == Plain(Contact);
    MergeTo(Contact, c, Read(record).(row := Some(BLOCKED), phase := Syncing(false), flag := true),
            record, Plain(Contact), Plain(Contact));
  }

  /** A merge loses an edit: the contact is blocked after a sync read the flags and before it
      merges the record. In the end nothing is flagged, and neither row nor record is blocked. */
  lemma MergeLosesAnEdit(c: PinCodec, record: seq<byte>)
    requires SaysNothing(Contact, record)
    ensures var merge := SyncMerge(record, Plain(Contact));
            Reaches(Contact, c, SyncSteps(Contact, record) + [SyncBegin] + EditSteps(BLOCKED) + [merge] + [SyncEnd] +
                    IdleDrain(), Read(record))
  {
    var merge, syncing := SyncMerge(record, Plain(Contact)), Read(record).(phase := Syncing(false));
    var steps := SyncSteps(Contact, record) + [SyncBegin];
    PlainIsUnset(Contact);
    ReadIsReached(c, record);
    UnseenMerge(c, record);
    SyncBeginTo(Contact, c, Read(record));
    SyncEndTo(Contact, c, syncing.(flag := true));
    Then(Contact, c, SyncSteps(Contact, record), Read(record), SyncBegin, syncing);
    ThenEdit(Contact, c, steps, syncing, BLOCKED);
    steps := steps + EditSteps(BLOCKED);
    Then(Contact, c, steps, syncing.(row := Some(BLOCKED), flag := true), merge, syncing.(flag := true));
    Then(Contact, c, steps + [merge], syncing.(flag := true), SyncEnd, Read(record).(flag := true));
    ThenIdleDrain(Contact, c, steps + [merge] + [SyncEnd], Plain(Contact), record);
  }

  lemma AdoptsPlain(c: PinCodec)
    ensures Adopt(c, NOTES_ARCHIVED, Plain(Account)) == Plain(Account)
  {
    assert AdoptPins(c, [], PinnedThreads(c, [])) == [];
  }

  lemma FirstAccountMerge(c: PinCodec, record: seq<byte>)
    requires SaysNothing(Account, record)
    ensures var syncing := Empty(Account).(row := Some(NOTES_ARCHIVED), flag := true, phase := Syncing(true));
            var read := Resting(Plain(Account), record).(flag := true, phase := Syncing(true));
            StepTo(Account, c, syncing, SyncMerge(record, Plain(Account)), read)
  {
    var syncing := Empty(Account).(row := Some(NOTES_ARCHIVED), flag := true, phase := Syncing(true));
    PlainIsUnset(Account);
    AdoptsPlain(c);
    assert Merged(Account, c, syncing.row, None, Plain(Account), true) == Plain(Account);
    MergeTo(Account, c, syncing, record, Plain(Account), Plain(Account));
  }

  /** The first account record loses an edit: Note to Self is archived and flagged before any
      account record was read, and the sync has seen the flag. In the end nothing is flagged, and
      neither row nor record is archived. */
  lemma FirstAccountRecordLosesAnEdit(c: PinCodec, record: seq<byte>)
    requires SaysNothing(Account, record)
    ensures Reaches(Account, c, EditSteps(NOTES_ARCHIVED) + SyncSteps(Account, record) + IdleDrain(),
                    Resting(Plain(Account), record))
  {
    var flagged := Empty(Account).(row := Some(NOTES_ARCHIVED), flag := true);
    PlainIsUnset(Account);
    NothingDone(Account, c);
    ThenEdit(Account, c, [], Empty(Account), NOTES_ARCHIVED);
    assert [] + EditSteps(NOTES_ARCHIVED) == EditSteps(NOTES_ARCHIVED);
    FirstAccountMerge(c, record);
    ThenSync(Account, c, EditSteps(NOTES_ARCHIVED), flagged, record, Resting(Plain(Account), record).(flag := true));
    ThenIdleDrain(Account, c, EditSteps(NOTES_ARCHIVED) + SyncSteps(Account, record), Plain(Account), record);
  }

  lemma BlockIsReached(c: PinCodec, record: seq<byte>)
    requires SaysNothing(Contact, record)
    ensures var s := Read(record).(row := Some(BLOCKED), flag := true);
            Typed(Contact, s) && Reaches(Contact, c, SyncSteps(Contact, record) + EditSteps(BLOCKED), s)
  {
    ReadIsReached(c, record);
    ThenEdit(Contact, c, SyncSteps(Contact, record), Read(record), BLOCKED);
  }

  lemma RevertingDrain(record: seq<byte>)
    requires SaysNothing(Contact, record)
    ensures var d := Standing(BLOCKED, true, record, Edited(record, ARCHIVED), true);
            && Readable(Contact, d) && |Drain(Contact, d).server| <= STORED_MAX
            && ReadRow(Contact, Drain(Contact, d).server) == Success(BLOCKED) && Drain(Contact, d).flag
  {
    var d := Standing(BLOCKED, true, record, Edited(record, ARCHIVED), true);
    PlainIsUnset(Contact);
    SmallEdit(d.server, BLOCKED);
    FirstDrainReverts(Contact, d, 2);
  }

  /** A first drain reverts a peer: the contact is blocked here while another device archives it.
      The drain's first write has it out of the archive again, and the flag goes up for the
      second. */
  lemma FirstDrainUnarchives(c: PinCodec, record: seq<byte>)
    requires SaysNothing(Contact, record)
    ensures var d := Standing(BLOCKED, true, record, Edited(record, ARCHIVED), true);
            var s := Read(record).(row := Some(BLOCKED), flag := true);
            && Reaches(Contact, c, SyncSteps(Contact, record) + EditSteps(BLOCKED), s)
            && Readable(Contact, d) && Stands(d, s)
            && Typed(Contact, s) && Runs(Contact, c, s, DrainSteps(Contact, d))
            && Stands(Drain(Contact, d), Final(Contact, c, s, DrainSteps(Contact, d)))
            && ReadRow(Contact, d.server) == Success(ARCHIVED)
            && ReadRow(Contact, Drain(Contact, d).server) == Success(BLOCKED) && Drain(Contact, d).flag
  {
    var d := Standing(BLOCKED, true, record, Edited(record, ARCHIVED), true);
    var s := Read(record).(row := Some(BLOCKED), flag := true);
    PlainIsUnset(Contact);
    BlockIsReached(c, record);
    RevertingDrain(record);
    DrainIsARun(Contact, c, d, s);
  }

  // ----- single records and rows

  /** A sticker pack removed at time 0, written to a blank record, is installed when read back. */
  lemma RemovalAtZeroInstalls()
    ensures var record := LenField(STORAGE_RECORD_STICKER_PACK, []).whole;
            && SetStickerState(record, Removed(0)).Success?
            && StickerState(SetStickerState(record, Removed(0)).value) == Success(Installed([], 0))
  {
    var wrapper := LenField(STORAGE_RECORD_STICKER_PACK, []);
    LenFieldIsSound(STORAGE_RECORD_STICKER_PACK, []);
    RoundTrip(STORAGE_RECORD_STICKER_PACK * 8 + WIRE_LEN, []);
    RoundTrip(0, []);
    FilterBlock([wrapper], STORAGE_RECORD_STICKER_PACK);
    SetStateThenRead(wrapper.whole, Removed(0));
  }

  /** A contact's length spelled in two bytes: blocking and unblocking gives other bytes. */
  lemma ToggleRewritesALength()
    ensures var record := [10, 128, 0];
            var on := SetVarintFieldOrRemove(record, Submessage(Contact), 9, 1);
            && Accepted(record, Submessage(Contact)) && on.Success?
            && SetVarintFieldOrRemove(on.value, Submessage(Contact), 9, 0) != Success(record)
  {
    var record: seq<byte> := [10, 128, 0];
    var sub := Submessage(Contact);
    TwoByteLength();
    VarintWrites(record, sub, 9, 1);
    VarintBlockSize(9, 1);
    OptionalVarintReads(9, 1);
    SetGrowth(record, SetVarintFieldOrRemove(record, sub, 9, 1).value, sub, 9, OptionalVarint(9, 1));
    ToggleRestores(record, sub, 9, 1);
  }

  lemma TwoByteExtent()
    ensures FieldExtent([10, 128, 0]) == Some(Extent(1, WIRE_LEN, 3, 3))
  {
    var record: seq<byte> := [10, 128, 0];
    assert record[1..] == [128, 0] && [128, 0][1..] == [0];
    assert Decode(record) == Some(Reading(10, 1));
    assert DecodeGroups([0], 9) == Some(Reading(0, 1));
    assert Decode(record[1..]) == Some(Reading(0, 2));
  }

  lemma TwoByteLength()
    ensures var record := [10, 128, 0];
            Accepted(record, Submessage(Contact)) && !CanonicalWrapper(record, Submessage(Contact))
  {
    var record: seq<byte> := [10, 128, 0];
    TwoByteExtent();
    var f := FieldAt(record, FieldExtent(record).value);
    assert record[3..] == [] && record[..3] == record && record[3..3] == [];
    assert [f] + [] == [f];
    assert Parse(record[3..]) == Some([]);
    assert Parse(record) == Some([f]);
    FilterBlock([f], 1);
    RoundTrip(10, []);
    RoundTrip(0, []);
    assert |LenField(1, []).whole| == 2;
  }

  /** A folder saved, deleted and saved again: the list it is alone in no longer starts at 0. */
  lemma SaveOverATombstone()
    ensures var folder := ChatFolders.ChatFolder(1, ChatFolders.CustomFolder, "a", 0,
                                                 ChatFolders.Rules(true, true, true, true), [], [], 0);
            var deleted := FolderStore.AfterAll([], [FolderStore.Save(folder), FolderStore.Delete(1, 1)]);
            && ChatFolders.Dense(deleted)
            && !ChatFolders.Dense(FolderStore.After(deleted, FolderStore.Save(folder)))
  {
    var folder := ChatFolders.ChatFolder(1, ChatFolders.CustomFolder, "a", 0,
                                         ChatFolders.Rules(true, true, true, true), [], [], 0);
    var deleted := FolderStore.AfterAll([], [FolderStore.Save(folder), FolderStore.Delete(1, 1)]);
    var grave := folder.Tombstone(1);
    assert FolderStore.SavedRows([], folder) == [folder];
    assert !grave.IsListed() && [grave][1..] == [];
    assert ChatFolders.Listed([grave]) == [];
    assert ChatFolders.Listing([grave]) == [];
    assert FolderStore.DeletedRows([folder], 1, 1) == [grave];
    assert [FolderStore.Save(folder), FolderStore.Delete(1, 1)][1..] == [FolderStore.Delete(1, 1)];
    assert deleted == FolderStore.AfterAll([folder], [FolderStore.Delete(1, 1)]) == [grave];
    ChatFolders.SaveKeepsDense(deleted, folder);
  }
}
