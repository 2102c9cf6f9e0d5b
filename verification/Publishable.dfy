/** The fields this device may publish, for the three record types that are edited in
    place: `PendingPublish` and its group and account twins of manager/storage.rs.

    The twins differ only in which fields they enumerate, so a record type is a table of
    slots here and `Diff`, `Between`, `Apply` and the merge are written once over it. */
module Publishable {
  import opened Wrappers
  import opened Varint
  import opened Wire
  import opened Editor
  import opened Lens
  import opened Codecs

  datatype Kind = Contact | Group | Account

  datatype Slot = Flag(number: nat) | Count(number: nat) | PinList(number: nat)

  datatype Value = Bit(bit: bool) | Amount(amount: u64) | Pinned(pins: seq<Pin>)

  /** The slots of one local row, in the order the source reads them. */
  type Row = seq<Value>

  const CONTACT_SLOTS := [Flag(9), Count(13), Flag(11)]
  const GROUP_SLOTS := [Count(6), Flag(4)]
  const ACCOUNT_SLOTS := [Flag(5), Flag(25), PinList(ACCOUNT_RECORD_PINNED_CONVERSATIONS)]

  /** `keepMutedChatsArchived` (25) is read with the account and never published. */
  const ACCOUNT_KEEP_MUTED: nat := 1

  function Slots(kind: Kind): seq<Slot> {
    match kind
    case Contact => CONTACT_SLOTS
    case Group => GROUP_SLOTS
    case Account => ACCOUNT_SLOTS
  }

  predicate Published(kind: Kind, i: nat) {
    i < |Slots(kind)| && !(kind == Account && i == ACCOUNT_KEEP_MUTED)
  }

  /** The `StorageRecord` arm the record type is filed under. */
  function Submessage(kind: Kind): nat {
    match kind
    case Contact => 1
    case Group => 3
    case Account => STORAGE_RECORD_ACCOUNT
  }

  predicate Fills(slot: Slot, value: Value) {
    match slot
    case Flag(_) => value.Bit?
    case Count(_) => value.Amount?
    case PinList(_) => value.Pinned? && |EncodePins(value.pins)| <= STORED_MAX
  }

  predicate RowOf(kind: Kind, row: Row) {
    && |row| == |Slots(kind)|
    && forall i :: 0 <= i < |row| ==> Fills(Slots(kind)[i], row[i])
  }

  function ReadSlot(kind: Kind, slot: Slot, record: seq<byte>): Result<Value, EditError> {
    match slot
    case Flag(n) =>
      var bit :- RecordBoolField(record, Submessage(kind), n);
      Success(Bit(bit))
    case Count(n) =>
      var amount :- RecordVarintField(record, Submessage(kind), n);
      Success(Amount(amount))
    case PinList(_) =>
      var pins :- AccountPins(record);
      Success(Pinned(pins))
  }

  function WriteSlot(kind: Kind, slot: Slot, record: seq<byte>, value: Value): Result<seq<byte>, EditError>
    requires Fills(slot, value)
  {
    match slot
    case Flag(n) => SetBoolField(record, Submessage(kind), n, value.bit)
    case Count(n) => SetVarintFieldOrRemove(record, Submessage(kind), n, value.amount)
    case PinList(_) => SetAccountPins(record, value.pins)
  }

  function ReadSlots(kind: Kind, slots: seq<Slot>, record: seq<byte>): (r: Result<Row, EditError>)
    ensures r.Success? ==> |r.value| == |slots|
  {
    if slots == [] then Success([])
    else
      var value :- ReadSlot(kind, slots[0], record);
      var rest :- ReadSlots(kind, slots[1..], record);
      Success([value] + rest)
  }

  /** What a record says about every slot of its row. */
  function ReadRow(kind: Kind, record: seq<byte>): (r: Result<Row, EditError>)
    ensures r.Success? ==> |r.value| == |Slots(kind)|
  {
    ReadSlots(kind, Slots(kind), record)
  }

  /** A record says the row on every publishable field. */
  predicate RecordSays(kind: Kind, record: seq<byte>, row: Row)
    requires |row| == |Slots(kind)|
  {
    && ReadRow(kind, record).Success?
    && forall i :: 0 <= i < |row| && Published(kind, i) ==> ReadRow(kind, record).value[i] == row[i]
  }

  /** Which fields: the "which ones" bitmap of the source. */
  type Fields = seq<bool>

  function Nothing(kind: Kind): (f: Fields) {
    seq(|Slots(kind)|, _ => false)
  }

  function Everything(kind: Kind): (f: Fields) {
    seq(|Slots(kind)|, i requires i >= 0 => Published(kind, i))
  }

  /** The publishable fields on which two rows disagree. */
  function Between(kind: Kind, a: Row, b: Row): (f: Fields)
    requires |a| == |b| == |Slots(kind)|
    ensures |f| == |Slots(kind)|
  {
    seq(|Slots(kind)|, i requires 0 <= i < |Slots(kind)| => Published(kind, i) && a[i] != b[i])
  }

  /** The publishable fields on which a row disagrees with record bytes. */
  function Diff(kind: Kind, record: seq<byte>, local: Row): (f: Result<Fields, EditError>)
    requires |local| == |Slots(kind)|
    ensures f.Success? ==> |f.value| == |Slots(kind)|
  {
    var row :- ReadRow(kind, record);
    Success(Between(kind, row, local))
  }

  predicate Any(f: Fields) {
    true in f
  }

  /** `record` with every field of `f` from slot `i` on set to the row's value. */
  function ApplyFrom(kind: Kind, i: nat, f: Fields, record: seq<byte>, local: Row): Result<seq<byte>, EditError>
    requires RowOf(kind, local) && |f| == |local| && i <= |local|
    decreases |local| - i
  {
    if i == |local| then Success(record)
    else if f[i] then
      var edited :- WriteSlot(kind, Slots(kind)[i], record, local[i]);
      ApplyFrom(kind, i + 1, f, edited, local)
    else ApplyFrom(kind, i + 1, f, record, local)
  }

  function Apply(kind: Kind, f: Fields, record: seq<byte>, local: Row): Result<seq<byte>, EditError>
    requires RowOf(kind, local) && |f| == |local|
  {
    ApplyFrom(kind, 0, f, record, local)
  }

  /** `edit` as every drain passes it to `update_storage_record`: what to write, if
      record and row differ at all. */
  function Edit(kind: Kind, record: seq<byte>, local: Row): Result<Option<seq<byte>>, EditError>
    requires RowOf(kind, local)
  {
    var f :- Diff(kind, record, local);
    if !Any(f) then Success(None)
    else
      var edited :- Apply(kind, f, record, local);
      Success(Some(edited))
  }

  /** The merge of a record a sync read: pending fields keep the local value. */
  function Merge(kind: Kind, local: Row, remote: Row, pending: Fields): (merged: Row)
    requires |local| == |remote| == |pending| == |Slots(kind)|
    ensures |merged| == |Slots(kind)|
  {
    seq(|Slots(kind)|, i requires 0 <= i < |Slots(kind)| => if pending[i] then local[i] else remote[i])
  }

  // ----- writing one slot

  function SlotBlock(slot: Slot, value: Value): seq<Field>
    requires Fills(slot, value)
  {
    match slot
    case Flag(n) => OptionalVarint(n, if value.bit then 1 else 0)
    case Count(n) => OptionalVarint(n, value.amount)
    case PinList(_) => PinFields(value.pins)
  }

  lemma SlotWrites(kind: Kind, slot: Slot, record: seq<byte>, value: Value)
    requires slot in Slots(kind) && Fills(slot, value) && |record| <= 16 * STORED_MAX
    requires Accepted(record, Submessage(kind))
    ensures var r := WriteSlot(kind, slot, record, value);
            && r.Success? && |r.value| <= 2 * |record| + STORED_MAX + 20
            && Wrote(record, r.value, Submessage(kind), slot.number, SlotBlock(slot, value))
            && ReadSlot(kind, slot, r.value) == Success(value)
            && (!slot.PinList? ==> |r.value| <= 2 * |record| + 40)
    ensures AllNumbered(SlotBlock(slot, value), slot.number)
  {
    match slot
    case Flag(n) =>
      BoolIsVarint(record, Submessage(kind), n, value.bit);
      CountWrites(kind, n, record, if value.bit then 1 else 0);
    case Count(n) =>
      CountWrites(kind, n, record, value.amount);
    case PinList(n) =>
      PinBlock(value.pins);
      PinsWrite(record, value.pins);
      SetPinsThenRead(record, value.pins);
      SetGrowth(record, SetAccountPins(record, value.pins).value, STORAGE_RECORD_ACCOUNT, n, PinFields(value.pins));
  }

  lemma CountWrites(kind: Kind, n: nat, record: seq<byte>, amount: u64)
    requires 1 <= n < U32_RANGE && |record| <= 16 * STORED_MAX && Accepted(record, Submessage(kind))
    ensures var r := SetVarintFieldOrRemove(record, Submessage(kind), n, amount);
            && r.Success? && |r.value| <= 2 * |record| + 40
            && Wrote(record, r.value, Submessage(kind), n, OptionalVarint(n, amount))
            && RecordVarintField(r.value, Submessage(kind), n) == Success(amount)
    ensures AllNumbered(OptionalVarint(n, amount), n)
  {
    VarintWrites(record, Submessage(kind), n, amount);
    GetAfterSet(record, Submessage(kind), n, amount);
    VarintBlockSize(n, amount);
    SetGrowth(record, SetVarintFieldOrRemove(record, Submessage(kind), n, amount).value, Submessage(kind), n,
              OptionalVarint(n, amount));
  }

  lemma ReadsSameFields(kind: Kind, slot: Slot, a: seq<byte>, b: seq<byte>)
    requires slot in Slots(kind) && Accepted(a, Submessage(kind)) && Accepted(b, Submessage(kind))
    requires Matching(Inner(a, Submessage(kind)), slot.number) == Matching(Inner(b, Submessage(kind)), slot.number)
    ensures ReadSlot(kind, slot, a) == ReadSlot(kind, slot, b)
  {
    if slot.PinList? {
      PinsAreInner(a);
      PinsAreInner(b);
    }
  }

  lemma PinsAreInner(record: seq<byte>)
    requires Accepted(record, STORAGE_RECORD_ACCOUNT)
    ensures AccountPins(record) ==
            PinPayloads(Matching(Inner(record, STORAGE_RECORD_ACCOUNT), ACCOUNT_RECORD_PINNED_CONVERSATIONS))
  {
    AcceptedPieces(record, STORAGE_RECORD_ACCOUNT);
  }

  /** Writing one slot leaves every other slot reading as it did. */
  lemma OtherSlotsStay(kind: Kind, slot: Slot, before: seq<byte>, after: seq<byte>, block: seq<Field>, other: Slot)
    requires other in Slots(kind) && other.number != slot.number
    requires Accepted(before, Submessage(kind)) && AllNumbered(block, slot.number)
    requires Wrote(before, after, Submessage(kind), slot.number, block)
    ensures ReadSlot(kind, other, after) == ReadSlot(kind, other, before)
  {
    WriteKeepsTheRest(before, after, Submessage(kind), slot.number, block);
    ReadsSameFields(kind, other, after, before);
  }

  /** `n` bytes stay within `size` through `edits` edits of varint fields. */
  predicate GrowsWithin(n: nat, edits: nat, size: nat)
    decreases edits
  {
    if edits == 0 then n <= size else GrowsWithin(2 * n + 40, edits - 1, size)
  }

  lemma {:induction false} GrowsLess(n: nat, m: nat, edits: nat, size: nat)
    requires n <= m && GrowsWithin(m, edits, size)
    ensures GrowsWithin(n, edits, size) && n <= size
    decreases edits
  {
    if edits > 0 { GrowsLess(2 * n + 40, 2 * m + 40, edits - 1, size); }
  }

  lemma GrowStep(n: nat, m: nat, edits: nat, size: nat)
    requires edits > 0 && GrowsWithin(n, edits, size) && m <= 2 * n + 40
    ensures GrowsWithin(m, edits - 1, size) && n <= size
  {
    GrowsLess(n, n, edits, size);
    GrowsLess(m, 2 * n + 40, edits - 1, size);
  }

  lemma SizedSkip(n: nat, edits: nat, size: nat)
    requires edits > 0 && GrowsWithin(n, edits, size)
    ensures GrowsWithin(n, edits - 1, size)
  {
    GrowStep(n, n, edits, size);
  }

  lemma NoPinList(kind: Kind, i: nat)
    requires kind != Account && i < |Slots(kind)|
    ensures !Slots(kind)[i].PinList?
  {
  }

  lemma SlotSize(kind: Kind, i: nat, record: seq<byte>, local: Row)
    requires kind != Account && RowOf(kind, local) && i < |local|
    requires Accepted(record, Submessage(kind)) && |record| <= 16 * STORED_MAX
    ensures var r := WriteSlot(kind, Slots(kind)[i], record, local[i]);
            r.Success? && Accepted(r.value, Submessage(kind)) && |r.value| <= 2 * |record| + 40
  {
    NoPinList(kind, i);
    SlotWrites(kind, Slots(kind)[i], record, local[i]);
  }

  /** `ApplyFrom` gives a record of at most `size` bytes. */
  predicate FitsFrom(kind: Kind, i: nat, f: Fields, record: seq<byte>, local: Row, size: nat)
    requires RowOf(kind, local) && |f| == |local| && i <= |local|
  {
    var r := ApplyFrom(kind, i, f, record, local);
    r.Success? && |r.value| <= size
  }

  lemma FitsTake(kind: Kind, i: nat, f: Fields, record: seq<byte>, mid: seq<byte>, local: Row, size: nat)
    requires RowOf(kind, local) && |f| == |local| && i < |local| && f[i]
    requires WriteSlot(kind, Slots(kind)[i], record, local[i]) == Success(mid) &&
             FitsFrom(kind, i + 1, f, mid, local, size)
    ensures FitsFrom(kind, i, f, record, local, size)
  {
  }

  lemma FitsSkip(kind: Kind, i: nat, f: Fields, record: seq<byte>, local: Row, size: nat)
    requires RowOf(kind, local) && |f| == |local| && i < |local| && !f[i]
    requires FitsFrom(kind, i + 1, f, record, local, size)
    ensures FitsFrom(kind, i, f, record, local, size)
  {
  }

  lemma FitsEnd(kind: Kind, f: Fields, record: seq<byte>, local: Row, size: nat)
    requires RowOf(kind, local) && |f| == |local| && |record| <= size
    ensures FitsFrom(kind, |local|, f, record, local, size)
  {
  }

  lemma SizedWrite(kind: Kind, i: nat, record: seq<byte>, local: Row, size: nat) returns (mid: seq<byte>)
    requires kind != Account && RowOf(kind, local) && i < |local|
    requires Accepted(record, Submessage(kind)) && GrowsWithin(|record|, |local| - i, size) && size <= 16 * STORED_MAX
    ensures WriteSlot(kind, Slots(kind)[i], record, local[i]) == Success(mid)
    ensures Accepted(mid, Submessage(kind)) && GrowsWithin(|mid|, |local| - i - 1, size)
  {
    GrowStep(|record|, |record|, |local| - i, size);
    SlotSize(kind, i, record, local);
    mid := WriteSlot(kind, Slots(kind)[i], record, local[i]).value;
    GrowStep(|record|, |mid|, |local| - i, size);
  }

  /** What applying does at slot `i`. */
  predicate StepsTo(kind: Kind, i: nat, f: Fields, record: seq<byte>, mid: seq<byte>, local: Row)
    requires RowOf(kind, local) && |f| == |local| && i < |local|
  {
    if f[i] then WriteSlot(kind, Slots(kind)[i], record, local[i]) == Success(mid) else mid == record
  }

  lemma SizedStep(kind: Kind, i: nat, f: Fields, record: seq<byte>, local: Row, size: nat) returns (mid: seq<byte>)
    requires kind != Account && RowOf(kind, local) && |f| == |local| && i < |local|
    requires Accepted(record, Submessage(kind)) && GrowsWithin(|record|, |local| - i, size) && size <= 16 * STORED_MAX
    ensures StepsTo(kind, i, f, record, mid, local)
    ensures Accepted(mid, Submessage(kind)) && GrowsWithin(|mid|, |local| - i - 1, size)
  {
    if f[i] {
      mid := SizedWrite(kind, i, record, local, size);
    } else {
      SizedSkip(|record|, |local| - i, size);
      mid := record;
    }
  }

  lemma FitsStep(kind: Kind, i: nat, f: Fields, record: seq<byte>, mid: seq<byte>, local: Row, size: nat)
    requires RowOf(kind, local) && |f| == |local| && i < |local|
    requires StepsTo(kind, i, f, record, mid, local) && FitsFrom(kind, i + 1, f, mid, local, size)
    ensures FitsFrom(kind, i, f, record, local, size)
  {
    if f[i] {
      FitsTake(kind, i, f, record, mid, local, size);
    } else {
      FitsSkip(kind, i, f, record, local, size);
    }
  }

  /** Without pins to write, an edit stays small. */
  lemma {:induction false} ApplySize(kind: Kind, i: nat, f: Fields, record: seq<byte>, local: Row, size: nat)
    requires kind != Account && RowOf(kind, local) && |f| == |local| && i <= |local|
    requires Accepted(record, Submessage(kind)) && GrowsWithin(|record|, |local| - i, size) && size <= 16 * STORED_MAX
    ensures FitsFrom(kind, i, f, record, local, size)
    decreases |local| - i
  {
    if i == |local| {
      FitsEnd(kind, f, record, local, size);
    } else {
      var mid := SizedStep(kind, i, f, record, local, size);
      ApplySize(kind, i + 1, f, mid, local, size);
      FitsStep(kind, i, f, record, mid, local, size);
    }
  }

  // ----- diff and apply are exact

  /** The field numbers an edit of `f` writes. */
  function Written(kind: Kind, f: Fields): set<nat>
    requires |f| == |Slots(kind)|
  {
    set i | 0 <= i < |f| && f[i] :: Slots(kind)[i].number
  }

  /** `after` is `before` with only the fields of `f` edited: whatever else either message
      holds is there byte for byte and in the same order. */
  ghost predicate EditedOnly(kind: Kind, f: Fields, before: seq<byte>, after: seq<byte>)
    requires |f| == |Slots(kind)|
  {
    EditedWithin(before, after, Submessage(kind), Written(kind, f))
  }

  /** How large a record may be when the edit has reached slot `i`. */
  function Room(i: nat): nat {
    if i == 0 then STORED_MAX
    else if i == 1 then 4 * STORED_MAX
    else if i == 2 then 10 * STORED_MAX
    else 22 * STORED_MAX
  }

  lemma SlotNumbersDiffer(kind: Kind, i: nat, j: nat)
    requires i < |Slots(kind)| && j < |Slots(kind)| && i != j
    ensures Slots(kind)[i].number != Slots(kind)[j].number
  {
  }

  /** Slot `i` reads as the row says, every other as before. */
  ghost predicate SlotWritten(kind: Kind, i: nat, before: seq<byte>, after: seq<byte>, local: Row)
    requires |local| == |Slots(kind)| && i < |local|
  {
    && ReadSlot(kind, Slots(kind)[i], after) == Success(local[i])
    && forall j :: 0 <= j < |local| && j != i ==>
       ReadSlot(kind, Slots(kind)[j], after) == ReadSlot(kind, Slots(kind)[j], before)
  }

  lemma SlotStep(kind: Kind, i: nat, f: Fields, record: seq<byte>, local: Row)
    requires RowOf(kind, local) && |f| == |local| && i < |local| && f[i]
    requires Accepted(record, Submessage(kind)) && |record| <= Room(i)
    ensures var r := WriteSlot(kind, Slots(kind)[i], record, local[i]);
            && r.Success? && |r.value| <= Room(i + 1)
            && EditedOnly(kind, f, record, r.value)
            && SlotWritten(kind, i, record, r.value, local)
  {
    var slot := Slots(kind)[i];
    SlotWrites(kind, slot, record, local[i]);
    var r, block := WriteSlot(kind, slot, record, local[i]).value, SlotBlock(slot, local[i]);
    WroteWithin(record, r, Submessage(kind), slot.number, block, Written(kind, f));
    forall j | 0 <= j < |local| && j != i
      ensures ReadSlot(kind, Slots(kind)[j], r) == ReadSlot(kind, Slots(kind)[j], record)
    {
      SlotNumbersDiffer(kind, i, j);
      OtherSlotsStay(kind, slot, record, r, block, Slots(kind)[j]);
    }
  }

  lemma WrittenSlot(kind: Kind, i: nat, f: Fields, record: seq<byte>, local: Row) returns (mid: seq<byte>)
    requires RowOf(kind, local) && |f| == |local| && i < |local| && f[i]
    requires Accepted(record, Submessage(kind)) && |record| <= Room(i)
    ensures WriteSlot(kind, Slots(kind)[i], record, local[i]) == Success(mid)
    ensures |mid| <= Room(i + 1) && Accepted(mid, Submessage(kind))
    ensures EditedOnly(kind, f, record, mid) && SlotWritten(kind, i, record, mid, local)
  {
    SlotStep(kind, i, f, record, local);
    mid := WriteSlot(kind, Slots(kind)[i], record, local[i]).value;
  }

  /** Slots from `i` on that are in `f` read as the row says, the others as before. */
  ghost predicate AppliedFrom(kind: Kind, i: nat, f: Fields, before: seq<byte>, after: seq<byte>, local: Row)
    requires |f| == |local| == |Slots(kind)|
  {
    forall j :: 0 <= j < |local| ==>
      ReadSlot(kind, Slots(kind)[j], after) ==
          if j >= i && f[j] then Success(local[j]) else ReadSlot(kind, Slots(kind)[j], before)
  }

  lemma AppliedStep(kind: Kind, i: nat, f: Fields, before: seq<byte>, mid: seq<byte>, after: seq<byte>, local: Row)
    requires |f| == |local| == |Slots(kind)| && i < |local| && f[i]
    requires SlotWritten(kind, i, before, mid, local) && AppliedFrom(kind, i + 1, f, mid, after, local)
    ensures AppliedFrom(kind, i, f, before, after, local)
  {
  }

  lemma AppliedSkip(kind: Kind, i: nat, f: Fields, before: seq<byte>, after: seq<byte>, local: Row)
    requires |f| == |local| == |Slots(kind)| && i < |local| && !f[i]
    requires AppliedFrom(kind, i + 1, f, before, after, local)
    ensures AppliedFrom(kind, i, f, before, after, local)
  {
  }

  lemma EditedOnlyTwice(kind: Kind, f: Fields, a: seq<byte>, b: seq<byte>, c: seq<byte>)
    requires |f| == |Slots(kind)| && EditedOnly(kind, f, a, b) && EditedOnly(kind, f, b, c)
    ensures EditedOnly(kind, f, a, c)
  {
  }

  /** Applying from slot `i` on writes the slots of `f` there and nothing else. */
  ghost predicate Applies(kind: Kind, i: nat, f: Fields, record: seq<byte>, local: Row)
    requires RowOf(kind, local) && |f| == |local| && i <= |local|
  {
    var r := ApplyFrom(kind, i, f, record, local);
    r.Success? && EditedOnly(kind, f, record, r.value) && AppliedFrom(kind, i, f, record, r.value, local)
  }

  lemma ApplyStep(kind: Kind, i: nat, f: Fields, record: seq<byte>, mid: seq<byte>, local: Row)
    requires RowOf(kind, local) && |f| == |local| && i < |local| && f[i]
    requires WriteSlot(kind, Slots(kind)[i], record, local[i]) == Success(mid)
    requires EditedOnly(kind, f, record, mid) && SlotWritten(kind, i, record, mid, local)
    requires Applies(kind, i + 1, f, mid, local)
    ensures Applies(kind, i, f, record, local)
  {
    var after := ApplyFrom(kind, i + 1, f, mid, local).value;
    AppliedStep(kind, i, f, record, mid, after, local);
    EditedOnlyTwice(kind, f, record, mid, after);
  }

  lemma ApplySkip(kind: Kind, i: nat, f: Fields, record: seq<byte>, local: Row)
    requires RowOf(kind, local) && |f| == |local| && i < |local| && !f[i]
    requires Applies(kind, i + 1, f, record, local)
    ensures Applies(kind, i, f, record, local)
  {
    AppliedSkip(kind, i, f, record, ApplyFrom(kind, i + 1, f, record, local).value, local);
  }

  lemma ApplyEnd(kind: Kind, f: Fields, record: seq<byte>, local: Row)
    requires RowOf(kind, local) && |f| == |local| && Accepted(record, Submessage(kind))
    ensures Applies(kind, |local|, f, record, local)
  {
  }

  lemma {:induction false} ApplyFromWrites(kind: Kind, i: nat, f: Fields, record: seq<byte>, local: Row)
    requires RowOf(kind, local) && |f| == |local| && i <= |local|
    requires Accepted(record, Submessage(kind)) && |record| <= Room(i)
    ensures Applies(kind, i, f, record, local)
    decreases |local| - i
  {
    if i == |local| {
      ApplyEnd(kind, f, record, local);
    } else if f[i] {
      var mid := WrittenSlot(kind, i, f, record, local);
      ApplyFromWrites(kind, i + 1, f, mid, local);
      ApplyStep(kind, i, f, record, mid, local);
    } else {
      ApplyFromWrites(kind, i + 1, f, record, local);
      ApplySkip(kind, i, f, record, local);
    }
  }

  lemma {:induction false} ReadSlotsAt(kind: Kind, slots: seq<Slot>, record: seq<byte>)
    ensures ReadSlots(kind, slots, record).Success? <==> forall j :: 0 <= j < |slots| ==>
            ReadSlot(kind, slots[j], record).Success?
    ensures ReadSlots(kind, slots, record).Success? ==>
              forall j :: 0 <= j < |slots| ==>
                  ReadSlot(kind, slots[j], record) == Success(ReadSlots(kind, slots, record).value[j])
  {
    if slots != [] {
      ReadSlotsAt(kind, slots[1..], record);
      assert forall j :: 0 < j < |slots| ==> slots[j] == slots[1..][j - 1];
    }
  }

  lemma ReadableIsAccepted(kind: Kind, record: seq<byte>)
    requires ReadRow(kind, record).Success?
    ensures Accepted(record, Submessage(kind))
  {
    ReadSlotsAt(kind, Slots(kind), record);
    assert ReadSlot(kind, Slots(kind)[0], record).Success?;
  }

  lemma {:induction false} ReadSlotsAre(kind: Kind, slots: seq<Slot>, record: seq<byte>, values: Row)
    requires |values| == |slots|
    requires forall j :: 0 <= j < |slots| ==> ReadSlot(kind, slots[j], record) == Success(values[j])
    ensures ReadSlots(kind, slots, record) == Success(values)
  {
    if slots != [] {
      var rest := slots[1..];
      assert forall j :: 0 <= j < |rest| ==> rest[j] == slots[j + 1] && values[1..][j] == values[j + 1];
      ReadSlotsAre(kind, rest, record, values[1..]);
      assert [values[0]] + values[1..] == values;
    }
  }

  lemma AppliedReads(kind: Kind, f: Fields, before: seq<byte>, after: seq<byte>, local: Row)
    requires |f| == |local| == |Slots(kind)| && AppliedFrom(kind, 0, f, before, after, local)
    requires ReadRow(kind, before).Success?
    ensures ReadRow(kind, after) == Success(Merge(kind, local, ReadRow(kind, before).value, f))
  {
    var slots, row := Slots(kind), ReadRow(kind, before).value;
    var merged := Merge(kind, local, row, f);
    ReadSlotsAt(kind, slots, before);
    forall j | 0 <= j < |slots| ensures ReadSlot(kind, slots[j], after) == Success(merged[j]) {
      assert ReadSlot(kind, slots[j], before) == Success(row[j]);
    }
    ReadSlotsAre(kind, slots, after, merged);
  }

  lemma MergedAgrees(kind: Kind, row: Row, local: Row)
    requires |row| == |local| == |Slots(kind)|
    ensures Between(kind, Merge(kind, local, row, Between(kind, row, local)), local) == Nothing(kind)
  {
  }

  /** Diff and apply are exact, for contacts, groups and the account alike: whenever the
      diff of a record against a row can be taken, applying it succeeds, the result has
      nothing left to diff, fields outside the diff read as they did, and everything the
      edit did not write is preserved byte for byte. */
  lemma ApplySettlesDiff(kind: Kind, record: seq<byte>, local: Row)
    requires RowOf(kind, local) && |record| <= STORED_MAX
    requires Diff(kind, record, local).Success?
    ensures var f := Diff(kind, record, local).value;
            var r := Apply(kind, f, record, local);
            && r.Success?
            && EditedOnly(kind, f, record, r.value)
            && ReadRow(kind, r.value) == Success(Merge(kind, local, ReadRow(kind, record).value, f))
            && Diff(kind, r.value, local) == Success(Nothing(kind))
  {
    var f := Diff(kind, record, local).value;
    ReadableIsAccepted(kind, record);
    ApplyFromWrites(kind, 0, f, record, local);
    AppliedReads(kind, f, record, Apply(kind, f, record, local).value, local);
    MergedAgrees(kind, ReadRow(kind, record).value, local);
  }

  /** What a drain writes, seen through its reader: after the edit the record agrees with
      the row on every publishable field, whether or not a write was needed. */
  lemma EditAgrees(kind: Kind, record: seq<byte>, local: Row)
    requires RowOf(kind, local) && |record| <= STORED_MAX
    requires ReadRow(kind, record).Success?
    ensures Edit(kind, record, local).Success?
    ensures var after := Edit(kind, record, local).value.GetOr(record);
            && ReadRow(kind, after).Success?
            && (forall i :: 0 <= i < |local| ==>
                  ReadRow(kind, after).value[i] ==
                      if Published(kind, i) then local[i] else ReadRow(kind, record).value[i])
            && EditedOnly(kind, Everything(kind), record, after)
  {
    ReadableIsAccepted(kind, record);
    var f := Diff(kind, record, local).value;
    ApplySettlesDiff(kind, record, local);
    if !Any(f) {
      forall i | 0 <= i < |local| && Published(kind, i)
        ensures ReadRow(kind, record).value[i] == local[i]
      {
        assert f[i] in f;
      }
    } else {
      var after := Edit(kind, record, local).value.value;
      WidenUntouched(Inner(record, Submessage(kind)), Written(kind, f), Written(kind, Everything(kind)));
      WidenUntouched(Inner(after, Submessage(kind)), Written(kind, f), Written(kind, Everything(kind)));
    }
  }

  lemma EditReads(kind: Kind, record: seq<byte>, local: Row, i: nat) returns (after: seq<byte>)
    requires RowOf(kind, local) && |record| <= STORED_MAX && ReadRow(kind, record).Success? && i < |local|
    ensures Edit(kind, record, local).Success? && after == Edit(kind, record, local).value.GetOr(record)
    ensures Published(kind, i) ==> ReadSlot(kind, Slots(kind)[i], after) == Success(local[i])
    ensures !Published(kind, i) ==> ReadSlot(kind, Slots(kind)[i], after) == ReadSlot(kind, Slots(kind)[i], record)
  {
    EditAgrees(kind, record, local);
    after := Edit(kind, record, local).value.GetOr(record);
    ReadSlotsAt(kind, Slots(kind), record);
    ReadSlotsAt(kind, Slots(kind), after);
  }

  /** After a drain's edit of a contact's record, fields 9, 13 and 11 of its submessage 1 say
      whether the contact is blocked, until when it is muted and whether it is archived. */
  lemma ContactGoesOut(record: seq<byte>, blocked: bool, mutedUntil: u64, archived: bool)
    requires |record| <= STORED_MAX && ReadRow(Contact, record).Success?
    ensures var r := Edit(Contact, record, [Bit(blocked), Amount(mutedUntil), Bit(archived)]);
            && r.Success?
            && RecordBoolField(r.value.GetOr(record), 1, 9) == Success(blocked)
            && RecordVarintField(r.value.GetOr(record), 1, 13) == Success(mutedUntil)
            && RecordBoolField(r.value.GetOr(record), 1, 11) == Success(archived)
  {
    var local := [Bit(blocked), Amount(mutedUntil), Bit(archived)];
    forall i | 0 <= i < 3
      ensures Edit(Contact, record, local).Success? &&
              ReadSlot(Contact, CONTACT_SLOTS[i], Edit(Contact, record, local).value.GetOr(record)) == Success(local[i])
    {
      var after := EditReads(Contact, record, local, i);
    }
    assert CONTACT_SLOTS[0] == Flag(9) && CONTACT_SLOTS[1] == Count(13) && CONTACT_SLOTS[2] == Flag(11);
  }

  /** After an edit of a group's record, fields 6 and 4 of its submessage 3 say until when the
      group is muted and whether it is archived. */
  lemma GroupGoesOut(record: seq<byte>, mutedUntil: u64, archived: bool)
    requires |record| <= STORED_MAX && ReadRow(Group, record).Success?
    ensures var r := Edit(Group, record, [Amount(mutedUntil), Bit(archived)]);
            && r.Success?
            && RecordVarintField(r.value.GetOr(record), 3, 6) == Success(mutedUntil)
            && RecordBoolField(r.value.GetOr(record), 3, 4) == Success(archived)
  {
    var local := [Amount(mutedUntil), Bit(archived)];
    var muted := EditReads(Group, record, local, 0);
    var after := EditReads(Group, record, local, 1);
    assert GROUP_SLOTS[0] == Count(6) && GROUP_SLOTS[1] == Flag(4);
  }

  lemma AccountFields(after: seq<byte>, archived: bool, pins: seq<Pin>)
    requires ReadSlot(Account, ACCOUNT_SLOTS[0], after) == Success(Bit(archived))
    requires ReadSlot(Account, ACCOUNT_SLOTS[2], after) == Success(Pinned(pins))
    ensures RecordBoolField(after, 4, 5) == Success(archived) && AccountPins(after) == Success(pins)
  {
    assert ACCOUNT_SLOTS[0] == Flag(5) && ACCOUNT_SLOTS[2].PinList?;
  }

  lemma KeepMutedField(record: seq<byte>, after: seq<byte>)
    requires ReadSlot(Account, ACCOUNT_SLOTS[1], after) == ReadSlot(Account, ACCOUNT_SLOTS[1], record)
    ensures RecordBoolField(after, 4, 25) == RecordBoolField(record, 4, 25)
  {
    assert ACCOUNT_SLOTS[1] == Flag(25);
  }

  lemma AccountRow(archived: bool, keepMuted: bool, pins: seq<Pin>)
    requires |EncodePins(pins)| <= STORED_MAX
    ensures RowOf(Account, [Bit(archived), Bit(keepMuted), Pinned(pins)])
  {
  }

  lemma AccountRowGoesOut(record: seq<byte>, local: Row, archived: bool, pins: seq<Pin>) returns (after: seq<byte>)
    requires |record| <= STORED_MAX && ReadRow(Account, record).Success? && RowOf(Account, local)
    requires local[0] == Bit(archived) && local[2] == Pinned(pins)
    ensures Edit(Account, record, local).Success? && after == Edit(Account, record, local).value.GetOr(record)
    ensures RecordBoolField(after, 4, 5) == Success(archived) && AccountPins(after) == Success(pins)
    ensures RecordBoolField(after, 4, 25) == RecordBoolField(record, 4, 25)
  {
    var first := EditReads(Account, record, local, 0);
    var second := EditReads(Account, record, local, 1);
    after := EditReads(Account, record, local, 2);
    AccountFields(after, archived, pins);
    KeepMutedField(record, after);
  }

  /** After an edit of the account's record, field 5 of its submessage 4 says whether Note to
      Self is archived and field 14 lists the pins; field 25 is read and never written. */
  lemma AccountGoesOut(record: seq<byte>, archived: bool, keepMuted: bool, pins: seq<Pin>)
    requires |record| <= STORED_MAX && ReadRow(Account, record).Success? && |EncodePins(pins)| <= STORED_MAX
    ensures RowOf(Account, [Bit(archived), Bit(keepMuted), Pinned(pins)])
    ensures var r := Edit(Account, record, [Bit(archived), Bit(keepMuted), Pinned(pins)]);
            && r.Success?
            && RecordBoolField(r.value.GetOr(record), 4, 5) == Success(archived)
            && AccountPins(r.value.GetOr(record)) == Success(pins)
            && RecordBoolField(r.value.GetOr(record), 4, 25) == RecordBoolField(record, 4, 25)
  {
    AccountRow(archived, keepMuted, pins);
    var after := AccountRowGoesOut(record, [Bit(archived), Bit(keepMuted), Pinned(pins)], archived, pins);
  }

  /** A drain writes nothing exactly when the record says the row already, and cannot be made
      exactly when the record cannot be read. */
  lemma EditSkips(kind: Kind, record: seq<byte>, local: Row)
    requires RowOf(kind, local) && |record| <= STORED_MAX
    ensures Edit(kind, record, local).Failure? <==> ReadRow(kind, record).Failure?
    ensures Edit(kind, record, local) == Success(None) <==> RecordSays(kind, record, local)
  {
    if ReadRow(kind, record).Success? {
      EditAgrees(kind, record, local);
      var row := ReadRow(kind, record).value;
      var f := Between(kind, row, local);
      if RecordSays(kind, record, local) {
        assert f == Nothing(kind);
      }
    }
  }
}
