/** The record contents storage_record.rs writes as whole lists or whole messages: the
    account's pins, a chat folder's unknown fields, and a sticker pack's state. */
module Codecs {
  import opened Wrappers
  import opened Varint
  import opened Wire
  import opened Editor
  import opened Lens

  const STORAGE_RECORD_ACCOUNT := 4
  const STORAGE_RECORD_STICKER_PACK := 6
  const STORAGE_RECORD_CHAT_FOLDER := 8
  const ACCOUNT_RECORD_PINNED_CONVERSATIONS := 14
  const CHAT_FOLDER_LAST_KNOWN_FIELD := 11
  const STICKER_PACK_RECORD_KEY := 2
  const STICKER_PACK_RECORD_POSITION := 3
  const STICKER_PACK_RECORD_DELETED_AT := 4

  /** The fields a sticker pack's state is written in. */
  const STATE_NUMBERS: set<nat> :=
      {STICKER_PACK_RECORD_KEY, STICKER_PACK_RECORD_POSITION, STICKER_PACK_RECORD_DELETED_AT}

  // ----- pins

  /** A pinned chat, as undecoded bytes. */
  type Pin = seq<byte>

  function EncodePins(pins: seq<Pin>): seq<byte> {
    if pins == [] then []
    else LenField(ACCOUNT_RECORD_PINNED_CONVERSATIONS, pins[0]).whole + EncodePins(pins[1..])
  }

  function PinPayloads(found: seq<Field>): Result<seq<Pin>, EditError> {
    if found == [] then Success([])
    else if found[0].wireType != WIRE_LEN then Failure(Malformed)
    else
      var rest :- PinPayloads(found[1..]);
      Success([found[0].payload] + rest)
  }

  function DecodePins(bytes: seq<byte>): Result<seq<Pin>, EditError> {
    match Parse(bytes)
    case None => Failure(Malformed)
    case Some(fields) => PinPayloads(Matching(fields, ACCOUNT_RECORD_PINNED_CONVERSATIONS))
  }

  function AccountPins(record: seq<byte>): Result<seq<Pin>, EditError> {
    var payload :- RecordPayload(record, STORAGE_RECORD_ACCOUNT);
    DecodePins(payload)
  }

  function SetAccountPins(record: seq<byte>, pins: seq<Pin>): Result<seq<byte>, EditError> {
    SetRecordField(record, STORAGE_RECORD_ACCOUNT, ACCOUNT_RECORD_PINNED_CONVERSATIONS,
                   if pins != [] then Some(EncodePins(pins)) else None)
  }

  function PinFields(pins: seq<Pin>): seq<Field> {
    if pins == [] then []
    else [LenField(ACCOUNT_RECORD_PINNED_CONVERSATIONS, pins[0])] + PinFields(pins[1..])
  }

  lemma {:induction false} PinBlock(pins: seq<Pin>)
    requires |EncodePins(pins)| <= RECORD_MAX
    ensures GoodBlock(PinFields(pins), ACCOUNT_RECORD_PINNED_CONVERSATIONS)
    ensures Concat(PinFields(pins)) == EncodePins(pins)
    ensures PinPayloads(PinFields(pins)) == Success(pins)
    ensures PinFields(pins) == [] <==> pins == []
  {
    if pins != [] {
      PinBlock(pins[1..]);
      assert [pins[0]] + pins[1..] == pins;
      LenFieldIsSound(ACCOUNT_RECORD_PINNED_CONVERSATIONS, pins[0]);
      ConcatCons(LenField(ACCOUNT_RECORD_PINNED_CONVERSATIONS, pins[0]), PinFields(pins[1..]));
      assert PinFields(pins)[1..] == PinFields(pins[1..]);
    }
  }

  /** Decoding an encoded pin list returns it, whatever bytes the pins hold. */
  lemma PinsRoundTrip(pins: seq<Pin>)
    requires |EncodePins(pins)| <= RECORD_MAX
    ensures DecodePins(EncodePins(pins)) == Success(pins)
  {
    PinBlock(pins);
    ParseOfConcat(PinFields(pins));
    FilterBlock(PinFields(pins), ACCOUNT_RECORD_PINNED_CONVERSATIONS);
  }

  lemma PinsWrite(record: seq<byte>, pins: seq<Pin>)
    requires |record| <= RECORD_MAX && |EncodePins(pins)| <= RECORD_MAX
    ensures SetAccountPins(record, pins).Success? <==> Accepted(record, STORAGE_RECORD_ACCOUNT)
    ensures Accepted(record, STORAGE_RECORD_ACCOUNT) ==>
              Wrote(record, SetAccountPins(record, pins).value, STORAGE_RECORD_ACCOUNT,
                    ACCOUNT_RECORD_PINNED_CONVERSATIONS, PinFields(pins))
  {
    PinBlock(pins);
    SetWrites(record, STORAGE_RECORD_ACCOUNT, ACCOUNT_RECORD_PINNED_CONVERSATIONS, PinFields(pins),
              if pins != [] then Some(EncodePins(pins)) else None);
  }

  /** Pinning exactly `pins` and reading them back gives exactly that list, whatever the
      record pinned before; every varint field of the record reads as it did. */
  lemma SetPinsThenRead(record: seq<byte>, pins: seq<Pin>)
    requires |record| <= RECORD_MAX && |EncodePins(pins)| <= RECORD_MAX
    requires Accepted(record, STORAGE_RECORD_ACCOUNT)
    ensures var r := SetAccountPins(record, pins);
            && r.Success?
            && AccountPins(r.value) == Success(pins)
            && (forall n :: n != ACCOUNT_RECORD_PINNED_CONVERSATIONS ==>
                  RecordVarintField(r.value, STORAGE_RECORD_ACCOUNT, n) ==
                      RecordVarintField(record, STORAGE_RECORD_ACCOUNT, n))
  {
    PinsWrite(record, pins);
    PinBlock(pins);
    WriteKeepsTheRest(record, SetAccountPins(record, pins).value, STORAGE_RECORD_ACCOUNT,
                      ACCOUNT_RECORD_PINNED_CONVERSATIONS, PinFields(pins));
  }

  /** Which lists decode, and to what: the payloads in order, as long as every one is a string of
      bytes; any other field is passed over. */
  lemma PinsAre(bytes: seq<byte>)
    requires Parse(bytes).Some?
    ensures var (fields, found) := (Parse(bytes).value, Matching(Parse(bytes).value, 14));
            && (DecodePins(bytes).Success? <==> forall f :: f in fields && f.number == 14 ==> f.wireType == 2)
            && (DecodePins(bytes).Failure? ==> DecodePins(bytes).error == Malformed)
            && (DecodePins(bytes).Success? ==>
                |DecodePins(bytes).value| == |found|
                && forall i :: 0 <= i < |found| ==> DecodePins(bytes).value[i] == found[i].payload)
  {
    var fields := Parse(bytes).value;
    PayloadsAre(Matching(fields, ACCOUNT_RECORD_PINNED_CONVERSATIONS));
    MatchingAre(fields, ACCOUNT_RECORD_PINNED_CONVERSATIONS);
  }

  lemma {:induction false} MatchingAre(fields: seq<Field>, number: nat)
    ensures forall f :: f in Matching(fields, number) <==> f in fields && f.number == number
  {
    if fields != [] {
      assert fields == [fields[0]] + fields[1..];
      MatchingAre(fields[1..], number);
    }
  }

  lemma {:induction false} PayloadsAre(found: seq<Field>)
    ensures PinPayloads(found).Success? <==> forall f :: f in found ==> f.wireType == 2
    ensures PinPayloads(found).Failure? ==> PinPayloads(found).error == Malformed
    ensures PinPayloads(found).Success? ==>
              |PinPayloads(found).value| == |found| &&
                  forall i :: 0 <= i < |found| ==> PinPayloads(found).value[i] == found[i].payload
  {
    if found != [] {
      assert found == [found[0]] + found[1..];
      PayloadsAre(found[1..]);
    }
  }

  // ----- chat folders: the one record that is rebuilt rather than edited

  function UnknownOf(fields: seq<Field>): seq<Field> {
    if fields == [] then []
    else if 1 <= fields[0].number <= CHAT_FOLDER_LAST_KNOWN_FIELD then UnknownOf(fields[1..])
    else [fields[0]] + UnknownOf(fields[1..])
  }

  /** The field numbers of the folder model. */
  const FOLDER_NUMBERS: set<nat> := set n | 1 <= n <= 11

  /** They are the fields of every other number, each with its bytes, in order. */
  lemma {:induction false} UnknownIsUntouched(fields: seq<Field>)
    ensures UnknownOf(fields) == Untouched(fields, FOLDER_NUMBERS)
    ensures (forall f :: f in fields ==> 1 <= f.number <= 11) ==> UnknownOf(fields) == []
  {
    if fields != [] {
      assert fields == [fields[0]] + fields[1..];
      UnknownIsUntouched(fields[1..]);
    }
  }

  /** The bytes of every field the folder model does not carry, in wire order. */
  function ChatFolderUnknownFields(record: seq<byte>): Result<seq<byte>, EditError> {
    var inner :- InnerFields(record, STORAGE_RECORD_CHAT_FOLDER);
    Success(Concat(UnknownOf(inner)))
  }

  /** A rebuilt record: the model's own encoding, then the preserved bytes. `known` is what
      the protobuf library writes for the model. */
  function EncodeChatFolderRecord(known: seq<byte>, unknown: seq<byte>): seq<byte> {
    LenField(STORAGE_RECORD_CHAT_FOLDER, known + unknown).whole
  }

  /** What the protobuf library writes for a folder model: a message of known fields. */
  ghost predicate EncodesModel(known: seq<byte>) {
    && |known| <= RECORD_MAX
    && Parse(known).Some?
    && forall f :: f in Parse(known).value ==> 1 <= f.number <= 11
  }

  lemma {:induction false} UnknownAppend(a: seq<Field>, b: seq<Field>)
    ensures UnknownOf(a + b) == UnknownOf(a) + UnknownOf(b)
  {
    if a == [] {
      assert a + b == b;
    } else {
      var ab := a + b;
      assert ab[0] == a[0] && ab[1..] == a[1..] + b;
      UnknownAppend(a[1..], b);
    }
  }

  lemma {:induction false} UnknownTwice(fields: seq<Field>)
    ensures UnknownOf(UnknownOf(fields)) == UnknownOf(fields)
    ensures AllSound(fields) ==> AllSound(UnknownOf(fields))
    ensures |Concat(UnknownOf(fields))| <= |Concat(fields)|
  {
    if fields != [] {
      UnknownTwice(fields[1..]);
      if !(1 <= fields[0].number <= CHAT_FOLDER_LAST_KNOWN_FIELD) {
        ConcatCons(fields[0], UnknownOf(fields[1..]));
      }
    }
  }

  /** Rebuild a folder's record from a new state of its model. */
  function Rebuild(record: seq<byte>, known: seq<byte>): seq<byte> {
    match ChatFolderUnknownFields(record)
    case Success(unknown) => EncodeChatFolderRecord(known, unknown)
    case Failure(_) => record
  }

  function RebuildAll(record: seq<byte>, models: seq<seq<byte>>): seq<byte>
    decreases |models|
  {
    if models == [] then record else RebuildAll(Rebuild(record, models[0]), models[1..])
  }

  /** A rebuilt record is what the model writes and then every field it does not carry. */
  lemma RebuildKeepsUnknown(record: seq<byte>, known: seq<byte>)
    requires ChatFolderUnknownFields(record).Success? && |ChatFolderUnknownFields(record).value| <= RECORD_MAX
    requires EncodesModel(known)
    ensures ChatFolderUnknownFields(Rebuild(record, known)) == ChatFolderUnknownFields(record)
    ensures Accepted(record, 8) && Accepted(Rebuild(record, known), 8)
    ensures ChatFolderUnknownFields(record) == Success(Concat(Untouched(Inner(record, 8), FOLDER_NUMBERS)))
    ensures Untouched(Inner(Rebuild(record, known), 8), FOLDER_NUMBERS) ==
            Untouched(Inner(record, 8), FOLDER_NUMBERS)
    ensures Inner(Rebuild(record, known), 8) == Parse(known).value + Untouched(Inner(record, 8), FOLDER_NUMBERS)
  {
    AcceptedPieces(record, STORAGE_RECORD_CHAT_FOLDER);
    UnknownIsUntouched(Inner(record, STORAGE_RECORD_CHAT_FOLDER));
    UnknownIsUntouched(Parse(known).value);
    var unknown := UnknownOf(Inner(record, STORAGE_RECORD_CHAT_FOLDER));
    UnknownTwice(Inner(record, STORAGE_RECORD_CHAT_FOLDER));
    ParseOfConcat(unknown);
    var payload := known + Concat(unknown);
    ParseConcat(known, Concat(unknown));
    UnknownAppend(Parse(known).value, unknown);
    assert [] + unknown == unknown;
    var wrapper := LenField(STORAGE_RECORD_CHAT_FOLDER, payload);
    LenFieldIsSound(STORAGE_RECORD_CHAT_FOLDER, payload);
    assert Parse(wrapper.whole) == Some([wrapper]);
    FilterBlock([wrapper], STORAGE_RECORD_CHAT_FOLDER);
    UnknownIsUntouched(Inner(Rebuild(record, known), STORAGE_RECORD_CHAT_FOLDER));
  }

  /** Through any number of rebuild-and-read cycles the unknown bytes stay what they were. */
  lemma {:induction false} RebuildsKeepUnknown(record: seq<byte>, models: seq<seq<byte>>)
    requires ChatFolderUnknownFields(record).Success? && |ChatFolderUnknownFields(record).value| <= RECORD_MAX
    requires forall known :: known in models ==> EncodesModel(known)
    ensures ChatFolderUnknownFields(RebuildAll(record, models)) == ChatFolderUnknownFields(record)
    ensures Accepted(record, 8) && Accepted(RebuildAll(record, models), 8)
    ensures Untouched(Inner(RebuildAll(record, models), 8), FOLDER_NUMBERS) ==
            Untouched(Inner(record, 8), FOLDER_NUMBERS)
    decreases |models|
  {
    if models != [] {
      RebuildKeepsUnknown(record, models[0]);
      RebuildsKeepUnknown(Rebuild(record, models[0]), models[1..]);
    }
  }

  // ----- sticker packs

  datatype StickerPackState = Installed(key: seq<byte>, position: u32) | Removed(deletedAtMs: u64) {
    /** `held` on the account makes publishing this one needless; two removals are as good. */
    predicate PublishedAs(held: StickerPackState) {
      this == held || (Removed? && held.Removed?)
    }
  }

  function LastBytes(found: seq<Field>): Result<seq<byte>, EditError> {
    if found == [] then Success([])
    else if found[|found| - 1].wireType != WIRE_LEN then Failure(Malformed)
    else Success(found[|found| - 1].payload)
  }

  /** What a sticker record says, its known fields decoded last-wins: a non-zero deletion
      time is a removal whatever else is there. */
  function StickerState(record: seq<byte>): Result<StickerPackState, EditError> {
    var inner :- InnerFields(record, STORAGE_RECORD_STICKER_PACK);
    StateOf(inner)
  }

  function StateOf(inner: seq<Field>): Result<StickerPackState, EditError> {
    var key :- LastBytes(Matching(inner, STICKER_PACK_RECORD_KEY));
    var position :- LastVarint(Matching(inner, STICKER_PACK_RECORD_POSITION));
    var deletedAt :- LastVarint(Matching(inner, STICKER_PACK_RECORD_DELETED_AT));
    if deletedAt != 0 then Success(Removed(deletedAt))
    else Success(Installed(key, position % U32_RANGE))
  }

  function SetStickerState(record: seq<byte>, state: StickerPackState): Result<seq<byte>, EditError> {
    var (key, position, deletedAt) := match state
      case Installed(key, position) => (Some(LenField(STICKER_PACK_RECORD_KEY, key).whole), position, 0)
      case Removed(deletedAtMs) => (None, 0, deletedAtMs);
    var keyed :- SetRecordField(record, STORAGE_RECORD_STICKER_PACK, STICKER_PACK_RECORD_KEY, key);
    var placed :- SetVarintFieldOrRemove(keyed, STORAGE_RECORD_STICKER_PACK, STICKER_PACK_RECORD_POSITION, position);
    SetVarintFieldOrRemove(placed, STORAGE_RECORD_STICKER_PACK, STICKER_PACK_RECORD_DELETED_AT, deletedAt)
  }

  /** What a record reads as once `state` has been written to it. */
  function ReadsBackAs(state: StickerPackState): StickerPackState {
    if state.Removed? && state.deletedAtMs == 0 then Installed([], 0) else state
  }

  function KeyBlock(state: StickerPackState): seq<Field> {
    if state.Installed? then [LenField(STICKER_PACK_RECORD_KEY, state.key)] else []
  }

  lemma VarintBlockSize(number: nat, value: u64)
    requires 1 <= number < U32_RANGE
    ensures |Concat(OptionalVarint(number, value))| <= 20
  {
    RoundTrip(number * 8, []);
    RoundTrip(value, []);
    if value != 0 { ConcatCons(VarintField(number, value), []); }
  }

  lemma KeyWrites(record: seq<byte>, state: StickerPackState)
    requires |record| <= STORED_MAX && (state.Installed? ==> |state.key| <= STORED_MAX)
    requires Accepted(record, STORAGE_RECORD_STICKER_PACK)
    ensures var key := if state.Installed? then Some(LenField(STICKER_PACK_RECORD_KEY, state.key).whole) else None;
            var r := SetRecordField(record, STORAGE_RECORD_STICKER_PACK, STICKER_PACK_RECORD_KEY, key);
            && r.Success?
            && Wrote(record, r.value, STORAGE_RECORD_STICKER_PACK, STICKER_PACK_RECORD_KEY, KeyBlock(state))
            && |r.value| <= 4 * STORED_MAX
    ensures AllNumbered(KeyBlock(state), STICKER_PACK_RECORD_KEY)
  {
    var key := if state.Installed? then Some(LenField(STICKER_PACK_RECORD_KEY, state.key).whole) else None;
    if state.Installed? {
      LenFieldIsSound(STICKER_PACK_RECORD_KEY, state.key);
      ConcatCons(LenField(STICKER_PACK_RECORD_KEY, state.key), []);
      RoundTrip(STICKER_PACK_RECORD_KEY * 8 + WIRE_LEN, []);
      RoundTrip(|state.key|, []);
    }
    SetWrites(record, STORAGE_RECORD_STICKER_PACK, STICKER_PACK_RECORD_KEY, KeyBlock(state), key);
    SetGrowth(record, SetRecordField(record, STORAGE_RECORD_STICKER_PACK, STICKER_PACK_RECORD_KEY, key).value,
              STORAGE_RECORD_STICKER_PACK, STICKER_PACK_RECORD_KEY, KeyBlock(state));
  }

  /** Writing a state to any accepted sticker record succeeds and reads back as the state,
      except that a removal at time 0 reads back as an install with no key; its identifier,
      every field presage does not model and every other submessage keep their bytes and order. */
  lemma SetStateThenRead(record: seq<byte>, state: StickerPackState)
    requires |record| <= STORED_MAX && (state.Installed? ==> |state.key| <= STORED_MAX)
    requires Accepted(record, STORAGE_RECORD_STICKER_PACK)
    ensures var r := SetStickerState(record, state);
            && r.Success?
            && StickerState(r.value) == Success(ReadsBackAs(state))
            && EditedWithin(record, r.value, STORAGE_RECORD_STICKER_PACK, STATE_NUMBERS)
  {
    KeyWrites(record, state);
    var keyed := SetRecordField(record, STORAGE_RECORD_STICKER_PACK, STICKER_PACK_RECORD_KEY,
                                if state.Installed? then Some(LenField(STICKER_PACK_RECORD_KEY, state.key).whole)
                                  else None).value;
    WriteKeepsTheRest(record, keyed, STORAGE_RECORD_STICKER_PACK, STICKER_PACK_RECORD_KEY, KeyBlock(state));
    WroteWithin(record, keyed, STORAGE_RECORD_STICKER_PACK, STICKER_PACK_RECORD_KEY, KeyBlock(state), STATE_NUMBERS);
    PositionAndTime(keyed, state);
    FieldsSpellState(SetStickerState(record, state).value, state);
  }

  function PositionOf(state: StickerPackState): u64 {
    if state.Installed? then state.position else 0
  }

  function TimeOf(state: StickerPackState): u64 {
    if state.Removed? then state.deletedAtMs else 0
  }

  lemma PositionAndTime(keyed: seq<byte>, state: StickerPackState)
    requires |keyed| <= 4 * STORED_MAX && Accepted(keyed, STORAGE_RECORD_STICKER_PACK)
    ensures var pack := STORAGE_RECORD_STICKER_PACK;
            var placed := SetVarintFieldOrRemove(keyed, pack, STICKER_PACK_RECORD_POSITION, PositionOf(state));
            placed.Success? &&
            var r := SetVarintFieldOrRemove(placed.value, pack, STICKER_PACK_RECORD_DELETED_AT, TimeOf(state));
            && r.Success? && Accepted(r.value, pack)
            && Matching(Inner(r.value, pack), STICKER_PACK_RECORD_POSITION) ==
               OptionalVarint(STICKER_PACK_RECORD_POSITION, PositionOf(state))
            && Matching(Inner(r.value, pack), STICKER_PACK_RECORD_DELETED_AT) ==
               OptionalVarint(STICKER_PACK_RECORD_DELETED_AT, TimeOf(state))
            && Matching(Inner(r.value, pack), STICKER_PACK_RECORD_KEY) ==
               Matching(Inner(keyed, pack), STICKER_PACK_RECORD_KEY)
            && EditedWithin(keyed, r.value, pack, STATE_NUMBERS)
  {
    VarintStep(keyed, STICKER_PACK_RECORD_POSITION, PositionOf(state));
    VarintStep(SetVarintFieldOrRemove(keyed, STORAGE_RECORD_STICKER_PACK, STICKER_PACK_RECORD_POSITION,
                                      PositionOf(state)).value,
               STICKER_PACK_RECORD_DELETED_AT, TimeOf(state));
  }

  lemma StateSpelled(inner: seq<Field>, state: StickerPackState)
    requires Matching(inner, STICKER_PACK_RECORD_KEY) == KeyBlock(state)
    requires LastVarint(Matching(inner, STICKER_PACK_RECORD_POSITION)) == Success(PositionOf(state))
    requires LastVarint(Matching(inner, STICKER_PACK_RECORD_DELETED_AT)) == Success(TimeOf(state))
    ensures StateOf(inner) == Success(ReadsBackAs(state))
  {
    assert PositionOf(state) % U32_RANGE == PositionOf(state);
    assert LastBytes(KeyBlock(state)) == Success(if state.Installed? then state.key else []);
  }

  lemma FieldsSpellState(record: seq<byte>, state: StickerPackState)
    requires Accepted(record, STORAGE_RECORD_STICKER_PACK)
    requires var inner := Inner(record, STORAGE_RECORD_STICKER_PACK);
             && Matching(inner, STICKER_PACK_RECORD_KEY) == KeyBlock(state)
             && Matching(inner, STICKER_PACK_RECORD_POSITION) ==
                OptionalVarint(STICKER_PACK_RECORD_POSITION, PositionOf(state))
             && Matching(inner, STICKER_PACK_RECORD_DELETED_AT) ==
                OptionalVarint(STICKER_PACK_RECORD_DELETED_AT, TimeOf(state))
    ensures StickerState(record) == Success(ReadsBackAs(state))
  {
    OptionalVarintReads(STICKER_PACK_RECORD_POSITION, PositionOf(state));
    OptionalVarintReads(STICKER_PACK_RECORD_DELETED_AT, TimeOf(state));
    StateSpelled(Inner(record, STORAGE_RECORD_STICKER_PACK), state);
  }

  lemma VarintStep(record: seq<byte>, number: nat, value: u64)
    requires number in STATE_NUMBERS && |record| <= 16 * STORED_MAX
    requires Accepted(record, STORAGE_RECORD_STICKER_PACK)
    ensures var pack := STORAGE_RECORD_STICKER_PACK;
            var r := SetVarintFieldOrRemove(record, pack, number, value);
            && r.Success? && Accepted(r.value, pack)
            && |r.value| <= 2 * |record| + 40
            && Matching(Inner(r.value, pack), number) == OptionalVarint(number, value)
            && (forall other :: other != number ==>
                Matching(Inner(r.value, pack), other) == Matching(Inner(record, pack), other))
            && EditedWithin(record, r.value, pack, STATE_NUMBERS)
  {
    VarintWrites(record, STORAGE_RECORD_STICKER_PACK, number, value);
    OptionalVarintReads(number, value);
    VarintBlockSize(number, value);
    var after := SetVarintFieldOrRemove(record, STORAGE_RECORD_STICKER_PACK, number, value).value;
    WriteKeepsTheRest(record, after, STORAGE_RECORD_STICKER_PACK, number, OptionalVarint(number, value));
    WroteWithin(record, after, STORAGE_RECORD_STICKER_PACK, number, OptionalVarint(number, value), STATE_NUMBERS);
    SetGrowth(record, after, STORAGE_RECORD_STICKER_PACK, number, OptionalVarint(number, value));
  }

  /** A publish settles, so that the next drain finds the record already says what is
      wanted, exactly when what is wanted is not a removal at time 0. */
  lemma PublishSettles(record: seq<byte>, wanted: StickerPackState)
    requires |record| <= STORED_MAX && (wanted.Installed? ==> |wanted.key| <= STORED_MAX)
    requires Accepted(record, STORAGE_RECORD_STICKER_PACK)
    ensures SetStickerState(record, wanted).Success? && StickerState(SetStickerState(record, wanted).value).Success?
    ensures wanted.PublishedAs(StickerState(SetStickerState(record, wanted).value).value)
       <==> !(wanted.Removed? && wanted.deletedAtMs == 0)
  {
    SetStateThenRead(record, wanted);
  }

  /** What a sticker record says, field by field: the last occurrence of each, the position cut
      to 32 bits, and a removal as soon as a deletion time stands there. */
  lemma StickerReads(record: seq<byte>, position: u64, deletedAt: u64)
    requires Accepted(record, 6)
    requires RecordVarintField(record, 6, 3) == Success(position) &&
             RecordVarintField(record, 6, 4) == Success(deletedAt)
    ensures var keys := Matching(Inner(record, 6), 2);
            StickerState(record) ==
              if keys != [] && keys[|keys| - 1].wireType != 2 then Failure(Malformed)
              else if deletedAt != 0 then Success(Removed(deletedAt))
              else Success(Installed(if keys == [] then [] else keys[|keys| - 1].payload, position % 0x1_0000_0000))
  {
  }

  /** A pack that is gone needs no publish where the account says it is gone, whenever that was;
      an installed one does unless key and position agree. */
  lemma PublishedAsWhen(wanted: StickerPackState, held: StickerPackState)
    ensures wanted.PublishedAs(held) <==>
              (wanted.Removed? && held.Removed?) ||
              (wanted.Installed? && held.Installed? && wanted.key == held.key && wanted.position == held.position)
  {
  }
}
