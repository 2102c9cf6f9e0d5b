/** Which row a record belongs to, read the way the protobuf library reads it, and why no edit of
    a drain changes that: every write of a contact, a group or the account meets what
    `update_storage_record` asks of an edit (manager/storage.rs). */
module RecordKeys {
  import opened Wrappers
  import opened Varint
  import opened Wire
  import opened Editor
  import opened Lens
  import opened Codecs
  import opened Publishable
  import opened SyncMachine
  import Appending
  import CaughtUp
  import Manifest

  /** What is left open of the library: which numbers of a record are its arms, how the rest of
      a submessage names its row, which pin entries decode, and what it makes of a record whose
      last arm is not one submessage of a kind that is edited in place. */
  datatype Reader = Reader(
    isArm: nat -> bool, idOf: (Kind, seq<Field>) -> Option<Key>, pinDecodes: Pin -> bool,
        other: (Option<nat>, seq<Field>) -> Option<Key>)
  {
    /** Each arm is read as its own type of record. */
    ghost predicate Lawful() {
      && (forall kind, fields :: idOf(kind, fields).Some? ==> ItemTypeOf(idOf(kind, fields).value) == ItemOf(kind))
      && (forall kind, arm, fields ::
            other(arm, fields).Some? && ItemTypeOf(other(arm, fields).value) == ItemOf(kind) ==>
              arm == Some(Submessage(kind)))
    }
  }

  function ItemOf(kind: Kind): Manifest.ItemType {
    match kind
    case Contact => Manifest.ContactItem
    case Group => Manifest.GroupItem
    case Account => Manifest.AccountItem
  }

  function KindOf(arm: Option<nat>): (kind: Option<Kind>)
    ensures kind.Some? ==> arm == Some(Submessage(kind.value))
  {
    if arm == Some(Submessage(Contact)) then Some(Contact)
    else if arm == Some(Submessage(Group)) then Some(Group)
    else if arm == Some(Submessage(Account)) then Some(Account)
    else None
  }

  /** The last arm wins. */
  function LastArm(reader: Reader, outer: seq<Field>): Option<nat> {
    if outer == [] then None
    else match LastArm(reader, outer[1..])
      case Some(arm) => Some(arm)
      case None => if reader.isArm(outer[0].number) then Some(outer[0].number) else None
  }

  function PublishedNumbers(kind: Kind): set<nat> {
    Written(kind, Everything(kind))
  }

  /** A field this device publishes, in the wire form the library accepts for it. */
  predicate Decodes(reader: Reader, kind: Kind, f: Field) {
    if kind == Account && f.number == ACCOUNT_RECORD_PINNED_CONVERSATIONS
      then f.wireType == WIRE_LEN && reader.pinDecodes(f.payload)
    else f.wireType == WIRE_VARINT
  }

  predicate AllDecode(reader: Reader, kind: Kind, inner: seq<Field>) {
    forall f :: f in inner && f.number in PublishedNumbers(kind) ==> Decodes(reader, kind, f)
  }

  /** One submessage of `kind`: refused unless it scans and its published fields decode;
      otherwise named by the fields this device leaves alone. */
  function SubmessageKey(reader: Reader, kind: Kind, wrapper: Field): Option<Key> {
    if wrapper.wireType != WIRE_LEN then None
    else
      var inner :- Parse(wrapper.payload);
      if AllDecode(reader, kind, inner) then reader.idOf(kind, Untouched(inner, PublishedNumbers(kind))) else None
  }

  function ReadKey(reader: Reader, record: seq<byte>): Option<Key> {
    var outer :- Parse(record);
    var arm := LastArm(reader, outer);
    match KindOf(arm)
    case Some(kind) =>
      var found := Matching(outer, Submessage(kind));
      if |found| == 1 then SubmessageKey(reader, kind, found[0]) else reader.other(arm, outer)
    case None => reader.other(arm, outer)
  }

  function Keys(reader: Reader): KeyOf {
    record => ReadKey(reader, record)
  }

  /** The edit every drain passes on; a record past the memory bound is refused. */
  function DrainEdit(kind: Kind, local: Row): RecordEdit
    requires RowOf(kind, local)
  {
    record => if |record| <= STORED_MAX then Edit(kind, record, local) else Failure(Malformed)
  }

  // ----- one write

  /** The arm a record is read by is the last one in it. */
  lemma {:induction false} LastArmIs(reader: Reader, outer: seq<Field>, i: nat)
    requires i < |outer| && reader.isArm(outer[i].number)
    requires forall j :: i < j < |outer| ==> !reader.isArm(outer[j].number)
    ensures LastArm(reader, outer) == Some(outer[i].number)
  {
    if i > 0 { LastArmIs(reader, outer[1..], i - 1); } else { NoArm(reader, outer[1..]); }
  }

  lemma {:induction false} NoArm(reader: Reader, outer: seq<Field>)
    requires forall j :: 0 <= j < |outer| ==> !reader.isArm(outer[j].number)
    ensures LastArm(reader, outer) == None
  {
    if outer != [] { NoArm(reader, outer[1..]); }
  }

  lemma {:induction false} LastArmStays(reader: Reader, fields: seq<Field>, number: nat, f: Field)
    requires |Matching(fields, number)| == 1 && f.number == number
    ensures LastArm(reader, Replaced(fields, number, [f])) == LastArm(reader, fields)
  {
    if fields[0].number == number {
      OthersLength(fields[1..], number);
      assert ([f] + fields[1..])[1..] == fields[1..];
    } else {
      LastArmStays(reader, fields[1..], number, f);
    }
  }

  lemma {:induction false} ReplacedMembers(fields: seq<Field>, number: nat, block: seq<Field>)
    ensures forall f :: f in Replaced(fields, number, block) ==> f in fields || f in block
  {
    if fields == [] {
    } else if fields[0].number == number {
      OthersMembers(fields[1..], number);
    } else {
      ReplacedMembers(fields[1..], number, block);
    }
  }

  lemma {:induction false} OthersMembers(fields: seq<Field>, number: nat)
    ensures forall f :: f in Others(fields, number) ==> f in fields
  {
    if fields != [] { OthersMembers(fields[1..], number); }
  }

  /** A record whose last arm is one submessage of `kind` that decodes. */
  ghost predicate Read(reader: Reader, kind: Kind, record: seq<byte>)
  {
    && Lens.Accepted(record, Submessage(kind))
    && LastArm(reader, Outer(record)) == Some(Submessage(kind))
    && Matching(Outer(record), Submessage(kind))[0].wireType == WIRE_LEN
    && AllDecode(reader, kind, Inner(record, Submessage(kind)))
  }

  lemma ReadIs(reader: Reader, kind: Kind, record: seq<byte>)
    requires Read(reader, kind, record)
    ensures ReadKey(reader, record) ==
            reader.idOf(kind, Untouched(Inner(record, Submessage(kind)), PublishedNumbers(kind)))
  {
    AcceptedPieces(record, Submessage(kind));
  }

  /** Writing one published field keeps the record readable and about the same row. */
  lemma WriteKeepsKey(reader: Reader, kind: Kind, before: seq<byte>, after: seq<byte>, number: nat, block: seq<Field>)
    requires Read(reader, kind, before) && Wrote(before, after, Submessage(kind), number, block)
    requires AllNumbered(block, number) && number in PublishedNumbers(kind) && forall f :: f in block ==>
             Decodes(reader, kind, f)
    ensures Read(reader, kind, after) && ReadKey(reader, after) == ReadKey(reader, before)
  {
    var sub := Submessage(kind);
    var wrapper := LenField(sub, Concat(Inner(after, sub)));
    AcceptedPieces(before, sub);
    LastArmStays(reader, Outer(before), sub, wrapper);
    FilterBlock([wrapper], sub);
    ReplacedFields(Outer(before), sub, [wrapper]);
    ReplacedMembers(Inner(before, sub), number, block);
    UntouchedReplaced(Inner(before, sub), number, block, PublishedNumbers(kind));
    ReadIs(reader, kind, before);
    ReadIs(reader, kind, after);
  }

  // ----- a drain's edit

  predicate PinsDecode(reader: Reader, value: Value) {
    value.Pinned? ==> forall pin :: pin in value.pins ==> reader.pinDecodes(pin)
  }

  predicate RowDecodes(reader: Reader, local: Row) {
    forall i :: 0 <= i < |local| ==> PinsDecode(reader, local[i])
  }

  lemma {:induction false} PinFieldsDecode(reader: Reader, pins: seq<Pin>)
    requires forall pin :: pin in pins ==> reader.pinDecodes(pin)
    ensures forall f :: f in PinFields(pins) ==> Decodes(reader, Account, f)
  {
    if pins != [] {
      assert pins[0] in pins;
      PinFieldsDecode(reader, pins[1..]);
    }
  }

  lemma SlotBlockDecodes(reader: Reader, kind: Kind, slot: Slot, value: Value)
    requires slot in Slots(kind) && Fills(slot, value) && PinsDecode(reader, value)
    ensures forall f :: f in SlotBlock(slot, value) ==> Decodes(reader, kind, f)
  {
    if slot.PinList? { PinFieldsDecode(reader, value.pins); }
  }

  lemma SlotKeepsKey(reader: Reader, kind: Kind, i: nat, record: seq<byte>, local: Row)
    requires RowOf(kind, local) && RowDecodes(reader, local) && Published(kind, i) && |record| <= Room(i)
    requires Read(reader, kind, record)
    ensures var r := WriteSlot(kind, Slots(kind)[i], record, local[i]);
            && r.Success? && |r.value| <= Room(i + 1)
            && Read(reader, kind, r.value) && ReadKey(reader, r.value) == ReadKey(reader, record)
  {
    var slot := Slots(kind)[i];
    SlotWrites(kind, slot, record, local[i]);
    SlotBlockDecodes(reader, kind, slot, local[i]);
    assert Everything(kind)[i] && slot.number in PublishedNumbers(kind);
    WriteKeepsKey(reader, kind, record, WriteSlot(kind, slot, record, local[i]).value, slot.number,
                  SlotBlock(slot, local[i]));
  }

  /** Applying from slot `i` on leaves a record of the same row. */
  predicate AppliesInRow(reader: Reader, kind: Kind, i: nat, f: Fields, record: seq<byte>, local: Row)
    requires RowOf(kind, local) && |f| == |local| && i <= |local|
  {
    var r := ApplyFrom(kind, i, f, record, local);
    r.Success? && ReadKey(reader, r.value) == ReadKey(reader, record)
  }

  lemma InRowTake(reader: Reader, kind: Kind, i: nat, f: Fields, record: seq<byte>, mid: seq<byte>, local: Row)
    requires RowOf(kind, local) && |f| == |local| && i < |local| && f[i]
    requires WriteSlot(kind, Slots(kind)[i], record, local[i]) == Success(mid) &&
             ReadKey(reader, mid) == ReadKey(reader, record)
    requires AppliesInRow(reader, kind, i + 1, f, mid, local)
    ensures AppliesInRow(reader, kind, i, f, record, local)
  {
  }

  lemma InRowSkip(reader: Reader, kind: Kind, i: nat, f: Fields, record: seq<byte>, local: Row)
    requires RowOf(kind, local) && |f| == |local| && i < |local| && !f[i]
    requires AppliesInRow(reader, kind, i + 1, f, record, local)
    ensures AppliesInRow(reader, kind, i, f, record, local)
  {
  }

  lemma InRowEnd(reader: Reader, kind: Kind, f: Fields, record: seq<byte>, local: Row)
    requires RowOf(kind, local) && |f| == |local|
    ensures AppliesInRow(reader, kind, |local|, f, record, local)
  {
  }

  lemma {:induction false} ApplyKeepsKey(reader: Reader, kind: Kind, i: nat, f: Fields, record: seq<byte>, local: Row)
    requires RowOf(kind, local) && RowDecodes(reader, local) && |f| == |local| && i <= |local| && |record| <= Room(i)
    requires forall j :: 0 <= j < |f| && f[j] ==> Published(kind, j)
    requires Read(reader, kind, record)
    ensures AppliesInRow(reader, kind, i, f, record, local)
    decreases |local| - i
  {
    if i == |local| {
      InRowEnd(reader, kind, f, record, local);
    } else if f[i] {
      SlotKeepsKey(reader, kind, i, record, local);
      var mid := WriteSlot(kind, Slots(kind)[i], record, local[i]).value;
      ApplyKeepsKey(reader, kind, i + 1, f, mid, local);
      InRowTake(reader, kind, i, f, record, mid, local);
    } else {
      ApplyKeepsKey(reader, kind, i + 1, f, record, local);
      InRowSkip(reader, kind, i, f, record, local);
    }
  }

  lemma ArmIsKind(reader: Reader, kind: Kind, record: seq<byte>, key: Key)
    requires reader.Lawful() && ReadKey(reader, record) == Some(key) && ItemTypeOf(key) == ItemOf(kind)
    ensures Parse(record).Some? && LastArm(reader, Parse(record).value) == Some(Submessage(kind))
  {
    var outer := Parse(record).value;
    var arm := LastArm(reader, outer);
    if KindOf(arm).Some? && |Matching(outer, Submessage(KindOf(arm).value))| == 1 {
      var wrapper := Matching(outer, Submessage(KindOf(arm).value))[0];
      assert SubmessageKey(reader, KindOf(arm).value, wrapper) == Some(key);
    } else {
      assert reader.other(arm, outer) == Some(key);
    }
  }

  lemma KeyedIsRead(reader: Reader, kind: Kind, record: seq<byte>, key: Key)
    requires reader.Lawful() && ReadKey(reader, record) == Some(key) && ItemTypeOf(key) == ItemOf(kind)
    requires Lens.Accepted(record, Submessage(kind))
    ensures Read(reader, kind, record)
  {
    AcceptedPieces(record, Submessage(kind));
    ArmIsKind(reader, kind, record, key);
  }

  /** What a drain writes is always a record of the row it drains: every record read as the
      row's, edited to say any row whose pins decode, is read as the row's again. So every drain
      meets what `update_storage_record` asks of its edit. */
  lemma DrainKeepsKey(reader: Reader, kind: Kind, key: Key, local: Row)
    requires reader.Lawful() && ItemTypeOf(key) == ItemOf(kind)
    requires RowOf(kind, local) && RowDecodes(reader, local)
    ensures KeepsKey(Keys(reader), key, DrainEdit(kind, local))
  {
    forall record | ReadKey(reader, record) == Some(key) && DrainEdit(kind, local)(record).Success? &&
        DrainEdit(kind, local)(record).value.Some?
      ensures ReadKey(reader, DrainEdit(kind, local)(record).value.value) == Some(key)
    {
      ReadableIsAccepted(kind, record);
      KeyedIsRead(reader, kind, record, key);
      ApplyKeepsKey(reader, kind, 0, Diff(kind, record, local).value, record, local);
    }
  }

  /** So what a contact, group or account drain writes is a write the caught-up theorem allows. */
  lemma DrainWriteIsOk(reader: Reader, kind: Kind, s: System, key: Key, local: Row, record: seq<byte>,
                       random: Manifest.StorageId)
    requires reader.Lawful() && ItemTypeOf(key) == ItemOf(kind)
    requires RowOf(kind, local) && RowDecodes(reader, local)
    requires CaughtUp.Inv(Keys(reader), s) && key in s.held
    requires DrainEdit(kind, local)(s.held[key].record) == Success(Some(record))
    ensures PlanOk(Keys(reader), s.held, Appending.Replacement(s.held, key, record, random))
  {
    DrainKeepsKey(reader, kind, key, local);
    Appending.EditWriteIsOk(Keys(reader), s, key, DrainEdit(kind, local), record, random);
  }
}
