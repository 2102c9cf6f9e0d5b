/** Why the pins a drain publishes always decode: each came from a record that decoded, or was
    built here for a chat (model/account.rs). */
module DecodedPins {
  import opened Wrappers
  import opened Varint
  import opened Wire
  import opened Editor
  import opened Codecs
  import opened Publishable
  import opened AccountChat
  import opened PublishMachine
  import RecordKeys
  import Lens

  /** The library decodes an entry built for a chat. */
  ghost predicate Encodes(reader: RecordKeys.Reader, c: PinCodec) {
    forall t :: reader.pinDecodes(c.forThread(t))
  }

  predicate AllPins(reader: RecordKeys.Reader, pins: seq<Pin>) {
    forall pin :: pin in pins ==> reader.pinDecodes(pin)
  }

  /** Pins as a user's edit leaves them: as they were, or one chat pinned or unpinned. */
  ghost predicate PinEdit(c: PinCodec, before: seq<Pin>, after: seq<Pin>) {
    after == before || exists t :: after == AddPin(c, before, t) || after == RemovePin(c, before, t)
  }

  /** The pins of the row, and of the row a drain is publishing, decode. */
  predicate StateDecodes(reader: RecordKeys.Reader, s: State) {
    && (s.row.Some? ==> RecordKeys.RowDecodes(reader, s.row.value))
    && (s.phase.Publishing? || s.phase.PublishSyncing? || s.phase.Settled? ==>
        RecordKeys.RowDecodes(reader, s.phase.captured))
  }

  /** A merged account record is one the library decoded, and an edit of the account pins or
      unpins. */
  ghost predicate Sourced(reader: RecordKeys.Reader, c: PinCodec, s: State, step: Step)
    requires Typed(Account, s) && Enabled(Account, c, s, step)
  {
    match step
    case SaveEdit(row) => PinEdit(c, s.row.value[ACCOUNT_PINS].pins, row[ACCOUNT_PINS].pins)
    case SyncMerge(record, _) => RecordKeys.Read(reader, Account, record)
    case _ => true
  }

  ghost predicate AllSourced(reader: RecordKeys.Reader, c: PinCodec, s: State, steps: seq<Step>)
    requires Typed(Account, s) && Runs(Account, c, s, steps)
    decreases |steps|
  {
    steps == [] ||
    (Sourced(reader, c, s, steps[0]) && AllSourced(reader, c, After(Account, c, s, steps[0]), steps[1..]))
  }

  // ----- pin lists

  lemma {:induction false} RemovedPinsAreOld(c: PinCodec, pins: seq<Pin>, t: Thread)
    ensures forall pin :: pin in RemovePin(c, pins, t) ==> pin in pins
  {
    if pins != [] { RemovedPinsAreOld(c, pins[1..], t); }
  }

  lemma PinEditDecodes(reader: RecordKeys.Reader, c: PinCodec, before: seq<Pin>, after: seq<Pin>)
    requires Encodes(reader, c) && AllPins(reader, before) && PinEdit(c, before, after)
    ensures AllPins(reader, after)
  {
    if after != before {
      var t :| after == AddPin(c, before, t) || after == RemovePin(c, before, t);
      if after == RemovePin(c, before, t) { RemovedPinsAreOld(c, before, t); }
    }
  }

  lemma {:induction false} AdoptedPinsDecode(reader: RecordKeys.Reader, c: PinCodec, adopted: seq<Pin>,
                                             local: seq<Thread>)
    requires Encodes(reader, c) && AllPins(reader, adopted)
    ensures AllPins(reader, AdoptPins(c, adopted, local))
    decreases |local|
  {
    if local != [] { AdoptedPinsDecode(reader, c, AddPin(c, adopted, local[0]), local[1..]); }
  }

  lemma {:induction false} PayloadsDecode(reader: RecordKeys.Reader, found: seq<Field>)
    requires PinPayloads(found).Success? && forall f :: f in found ==> reader.pinDecodes(f.payload)
    ensures AllPins(reader, PinPayloads(found).value)
  {
    if found != [] {
      assert found[0] in found;
      PayloadsDecode(reader, found[1..]);
    }
  }

  /** The pins of a record the library decodes. */
  lemma ReadPinsDecode(reader: RecordKeys.Reader, record: seq<byte>)
    requires RecordKeys.Read(reader, Account, record) && AccountPins(record).Success?
    ensures AllPins(reader, AccountPins(record).value)
  {
    var inner := Lens.Inner(record, STORAGE_RECORD_ACCOUNT);
    var found := Matching(inner, ACCOUNT_RECORD_PINNED_CONVERSATIONS);
    PinsAreInner(record);
    Lens.MatchingIn(inner, ACCOUNT_RECORD_PINNED_CONVERSATIONS);
    assert RecordKeys.PublishedNumbers(Account) == {5, ACCOUNT_RECORD_PINNED_CONVERSATIONS} by {
      var everything := Everything(Account);
      assert everything[0] && !everything[1] && everything[2];
    }
    PayloadsDecode(reader, found);
  }

  // ----- runs

  lemma RowPins(reader: RecordKeys.Reader, row: Row)
    requires RowOf(Account, row)
    ensures RecordKeys.RowDecodes(reader, row) <==> AllPins(reader, row[ACCOUNT_PINS].pins)
  {
    assert RecordKeys.PinsDecode(reader, row[ACCOUNT_PINS]) <==> AllPins(reader, row[ACCOUNT_PINS].pins);
  }

  lemma RemotePinsDecode(reader: RecordKeys.Reader, record: seq<byte>, remote: Row)
    requires RecordKeys.Read(reader, Account, record) && ReadRow(Account, record) == Success(remote)
    ensures |remote| == |Slots(Account)| && remote[ACCOUNT_PINS].Pinned? && AllPins(reader, remote[ACCOUNT_PINS].pins)
  {
    ReadSlotsAt(Account, Slots(Account), record);
    assert ReadSlot(Account, Slots(Account)[ACCOUNT_PINS], record) == Success(remote[ACCOUNT_PINS]);
    ReadPinsDecode(reader, record);
  }

  lemma MergedDecodes(reader: RecordKeys.Reader, c: PinCodec, s: State, record: seq<byte>, remote: Row)
    requires Encodes(reader, c) && Typed(Account, s) && StateDecodes(reader, s)
    requires Enabled(Account, c, s, SyncMerge(record, remote)) && RecordKeys.Read(reader, Account, record)
    requires Typed(Account, After(Account, c, s, SyncMerge(record, remote)))
    ensures StateDecodes(reader, After(Account, c, s, SyncMerge(record, remote)))
  {
    var after := After(Account, c, s, SyncMerge(record, remote)).row.value;
    RemotePinsDecode(reader, record, remote);
    RowPins(reader, after);
    if s.row.Some? {
      RowPins(reader, s.row.value);
      AdoptedPinsDecode(reader, c, remote[ACCOUNT_PINS].pins, PinnedThreads(c, s.row.value[ACCOUNT_PINS].pins));
    }
  }

  lemma StepKeepsDecoding(reader: RecordKeys.Reader, c: PinCodec, s: State, step: Step)
    requires Encodes(reader, c) && Typed(Account, s) && StateDecodes(reader, s)
    requires Enabled(Account, c, s, step) && Sourced(reader, c, s, step) && Typed(Account, After(Account, c, s, step))
    ensures StateDecodes(reader, After(Account, c, s, step))
  {
    match step
    case SaveEdit(row) =>
      RowPins(reader, s.row.value);
      RowPins(reader, row);
      PinEditDecodes(reader, c, s.row.value[ACCOUNT_PINS].pins, row[ACCOUNT_PINS].pins);
    case SyncMerge(record, remote) => MergedDecodes(reader, c, s, record, remote);
    case _ =>
  }

  /** Over every run from an empty store in which records decode before they are merged and edits
      pin or unpin: the account's row, and the row a drain is publishing, have only pins that
      decode, which is what `Drains.PushRecord` asks of the row it publishes. */
  lemma {:induction false} PinsAlwaysDecode(reader: RecordKeys.Reader, c: PinCodec, s: State, steps: seq<Step>)
    requires Encodes(reader, c) && Typed(Account, s) && (Start(Account, s) || StateDecodes(reader, s))
    requires Runs(Account, c, s, steps) && AllSourced(reader, c, s, steps)
    ensures StateDecodes(reader, Final(Account, c, s, steps))
    decreases |steps|
  {
    if steps != [] {
      StepKeepsDecoding(reader, c, s, steps[0]);
      PinsAlwaysDecode(reader, c, After(Account, c, s, steps[0]), steps[1..]);
    }
  }
}
