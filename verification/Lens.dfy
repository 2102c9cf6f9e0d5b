/** Reading and writing one field of one submessage of an encoded `StorageRecord`
    (storage_record.rs), and the laws the two keep: a lens on nested bytes. */
module Lens {
  import opened Wrappers
  import opened Varint
  import opened Wire
  import opened Editor

  /** Room for a record and its edited copies in one address space. */
  const RECORD_MAX := 0x1000_0000_0000_0000

  /** A stored record leaves room for several edits in a row. */
  const STORED_MAX := RECORD_MAX / 64

  /** The single payload of top-level field `recordField`, or why there is none. The wire
      type is not looked at. */
  function RecordPayload(record: seq<byte>, recordField: nat): Result<seq<byte>, EditError> {
    match Parse(record)
    case None => Failure(Malformed)
    case Some(fields) =>
      var found := Matching(fields, recordField);
      if found == [] then Failure(WrongRecordType)
      else if |found| > 1 then Failure(AmbiguousRecord)
      else Success(found[0].payload)
  }

  function InnerFields(record: seq<byte>, recordField: nat): Result<seq<Field>, EditError> {
    var payload :- RecordPayload(record, recordField);
    match Parse(payload)
    case None => Failure(Malformed)
    case Some(fields) => Success(fields)
  }

  /** Repeated scalars are last-wins; an absent one is 0; another wire type is refused. */
  function LastVarint(found: seq<Field>): Result<u64, EditError> {
    if found == [] then Success(0)
    else
      var last := found[|found| - 1];
      if last.wireType != WIRE_VARINT then Failure(Malformed)
      else match Decode(last.payload)
        case None => Failure(Malformed)
        case Some(reading) => TenGroupsHoldAU64(); Success(reading.value)
  }

  function RecordVarintField(record: seq<byte>, recordField: nat, number: nat): Result<u64, EditError> {
    var inner :- InnerFields(record, recordField);
    LastVarint(Matching(inner, number))
  }

  function RecordBoolField(record: seq<byte>, recordField: nat, number: nat): Result<bool, EditError> {
    var value :- RecordVarintField(record, recordField, number);
    Success(value != 0)
  }

  /** Replace, or with `None` remove, one field inside the payload, and splice the wrapper
      back with a freshly written tag and length. */
  function SetRecordField(record: seq<byte>, recordField: nat, number: nat, replacement: Option<seq<byte>>)
    : Result<seq<byte>, EditError>
  {
    var payload :- RecordPayload(record, recordField);
    var newInner :- SetFieldSpec(payload, number, replacement);
    SetFieldSpec(record, recordField, Some(LenField(recordField, newInner).whole))
  }

  /** `0` removes the field. */
  function SetVarintFieldOrRemove(record: seq<byte>, recordField: nat, number: nat,
                                  value: nat): Result<seq<byte>, EditError> {
    SetRecordField(record, recordField, number, if value != 0 then Some(VarintField(number, value).whole) else None)
  }

  /** `false` removes the field. */
  function SetBoolField(record: seq<byte>, recordField: nat, number: nat, value: bool): Result<seq<byte>, EditError> {
    SetRecordField(record, recordField, number, if value then Some(VarintField(number, 1).whole) else None)
  }

  // ----- records the editor accepts

  /** Exactly one `recordField` submessage, and both levels scan. */
  predicate Accepted(record: seq<byte>, recordField: nat) {
    InnerFields(record, recordField).Success?
  }

  function Outer(record: seq<byte>): seq<Field> {
    Parse(record).GetOr([])
  }

  function Inner(record: seq<byte>, recordField: nat): seq<Field>
    requires Accepted(record, recordField)
  {
    InnerFields(record, recordField).value
  }

  /** The submessage is written the way this device would write it. */
  predicate CanonicalWrapper(record: seq<byte>, recordField: nat)
    requires Accepted(record, recordField)
  {
    Matching(Outer(record), recordField) == [LenField(recordField, Concat(Inner(record, recordField)))]
  }

  /** The edited record, if there is one, is again one that fits. */
  predicate Fits(edited: Result<seq<byte>, EditError>) {
    edited.Success? ==> |edited.value| <= RECORD_MAX
  }

  function OptionalVarint(number: nat, value: nat): seq<Field> {
    if value == 0 then [] else [VarintField(number, value)]
  }

  ghost predicate ValidNumbers(recordField: nat, number: nat) {
    1 <= recordField < U32_RANGE && 1 <= number < U32_RANGE
  }

  ghost predicate GoodBlock(block: seq<Field>, number: nat) {
    AllSound(block) && AllNumbered(block, number) && |Concat(block)| <= RECORD_MAX
  }

  /** The record after `block` was written under `number`: its fields, outer and inner. */
  ghost predicate Wrote(before: seq<byte>, after: seq<byte>, recordField: nat, number: nat, block: seq<Field>)
    requires Accepted(before, recordField)
  {
    && Accepted(after, recordField)
    && Inner(after, recordField) == Replaced(Inner(before, recordField), number, block)
    && Outer(after) == Replaced(Outer(before), recordField, [LenField(recordField, Concat(Inner(after, recordField)))])
    && Concat(Outer(after)) == after
  }

  lemma AcceptedPieces(record: seq<byte>, recordField: nat)
    requires Accepted(record, recordField)
    ensures Parse(record) == Some(Outer(record)) && AllSound(Outer(record)) && Concat(Outer(record)) == record
    ensures |Matching(Outer(record), recordField)| == 1
    ensures var payload := Matching(Outer(record), recordField)[0].payload;
            RecordPayload(record, recordField) == Success(payload)
            && Parse(payload) == Some(Inner(record, recordField)) && AllSound(Inner(record, recordField))
            && Concat(Inner(record, recordField)) == payload && |payload| <= |record|
  {
    ParseTiles(record);
    var payload := Matching(Outer(record), recordField)[0].payload;
    MatchingIn(Outer(record), recordField);
    ParseTiles(payload);
  }

  lemma {:induction false} MatchingIn(fields: seq<Field>, number: nat)
    ensures forall f :: f in Matching(fields, number) ==> f in fields && f.number == number
  {
    if fields != [] { MatchingIn(fields[1..], number); }
  }

  lemma {:induction false} ConcatReplacedLength(fields: seq<Field>, number: nat, block: seq<Field>)
    ensures |Concat(Replaced(fields, number, block))| <= |Concat(fields)| + |Concat(block)|
  {
    if fields == [] {
    } else if fields[0].number == number {
      ConcatAppend(block, Others(fields[1..], number));
      ConcatOthersLength(fields[1..], number);
    } else {
      ConcatReplacedLength(fields[1..], number, block);
      ConcatCons(fields[0], Replaced(fields[1..], number, block));
    }
  }

  lemma {:induction false} ConcatOthersLength(fields: seq<Field>, number: nat)
    ensures |Concat(Others(fields, number))| <= |Concat(fields)|
  {
    if fields != [] {
      ConcatOthersLength(fields[1..], number);
      if fields[0].number != number { ConcatCons(fields[0], Others(fields[1..], number)); }
    }
  }

  /** The theorem every law below is read off: a write succeeds on exactly the accepted
      records, and does to their two field lists what `Wrote` says. */
  lemma SetWrites(record: seq<byte>, recordField: nat, number: nat, block: seq<Field>, replacement: Option<seq<byte>>)
    requires ValidNumbers(recordField, number) && |record| <= RECORD_MAX
    requires GoodBlock(block, number) && replacement.GetOr([]) == Concat(block)
    ensures SetRecordField(record, recordField, number, replacement).Success? <==> Accepted(record, recordField)
    ensures Accepted(record, recordField) ==>
              Wrote(record, SetRecordField(record, recordField, number, replacement).value, recordField, number, block)
  {
    if Accepted(record, recordField) {
      AcceptedPieces(record, recordField);
      var payload := RecordPayload(record, recordField).value;
      var inner := Inner(record, recordField);
      var newInner := Replaced(inner, number, block);
      SetFieldScans(payload, number, block, replacement);
      RewrittenIsReplaced(inner, number, block, replacement);
      ConcatReplacedLength(inner, number, block);
      SetWrapper(record, recordField, Concat(newInner));
    }
  }

  /** One edit cannot grow a record past this. */
  lemma SetGrowth(before: seq<byte>, after: seq<byte>, recordField: nat, number: nat, block: seq<Field>)
    requires ValidNumbers(recordField, number) && |before| <= RECORD_MAX && |Concat(block)| <= RECORD_MAX
    requires Accepted(before, recordField) && Wrote(before, after, recordField, number, block)
    ensures |after| <= 2 * |before| + |Concat(block)| + 20
  {
    AcceptedPieces(before, recordField);
    var inner := Inner(after, recordField);
    ConcatReplacedLength(Inner(before, recordField), number, block);
    var wrapper := LenField(recordField, Concat(inner));
    ConcatReplacedLength(Outer(before), recordField, [wrapper]);
    ConcatCons(wrapper, []);
    RoundTrip(recordField * 8 + WIRE_LEN, []);
    RoundTrip(|Concat(inner)| % U64_RANGE, []);
  }

  lemma SetWrapper(record: seq<byte>, recordField: nat, payload: seq<byte>)
    requires 1 <= recordField < U32_RANGE && Parse(record).Some? && |payload| < U64_RANGE
    ensures var wrapper := LenField(recordField, payload);
            var r := SetFieldSpec(record, recordField, Some(wrapper.whole));
            r.Success? && Parse(r.value) == Some(Replaced(Outer(record), recordField, [wrapper]))
            && RecordPayload(r.value, recordField) == Success(payload)
            && Concat(Outer(r.value)) == r.value
  {
    var wrapper := LenField(recordField, payload);
    LenFieldIsSound(recordField, payload);
    ConcatCons(wrapper, []);
    SetFieldScans(record, recordField, [wrapper], Some(wrapper.whole));
    ReplacedFields(Outer(record), recordField, [wrapper]);
    ParseTiles(SetFieldSpec(record, recordField, Some(wrapper.whole)).value);
  }

  // ----- the lens laws, for any block

  /** Nothing but the written field changes: the other inner fields and the other outer
      fields keep their bytes and their order, and so does every other submessage. */
  lemma WriteKeepsTheRest(before: seq<byte>, after: seq<byte>, recordField: nat, number: nat, block: seq<Field>)
    requires Accepted(before, recordField) && AllNumbered(block, number)
    requires Wrote(before, after, recordField, number, block)
    ensures Others(Inner(after, recordField), number) == Others(Inner(before, recordField), number)
    ensures Matching(Inner(after, recordField), number) == block
    ensures Others(Outer(after), recordField) == Others(Outer(before), recordField)
    ensures forall other :: other != number ==>
              Matching(Inner(after, recordField), other) == Matching(Inner(before, recordField), other)
    ensures forall other :: other != recordField ==>
              Matching(Outer(after), other) == Matching(Outer(before), other)
  {
    var wrapper := LenField(recordField, Concat(Inner(after, recordField)));
    ReplacedFields(Inner(before, recordField), number, block);
    ReplacedFields(Outer(before), recordField, [wrapper]);
    forall other | other != number
      ensures Matching(Inner(after, recordField), other) == Matching(Inner(before, recordField), other)
    {
      ReplacedElsewhere(Inner(before, recordField), number, block, other);
    }
    forall other | other != recordField ensures Matching(Outer(after), other) == Matching(Outer(before), other) {
      ReplacedElsewhere(Outer(before), recordField, [wrapper], other);
    }
  }

  /** `after` is `before` with only inner fields of `numbers` edited: whatever else either
      message holds is there byte for byte and in the same order. */
  ghost predicate EditedWithin(before: seq<byte>, after: seq<byte>, recordField: nat, numbers: set<nat>) {
    && Accepted(before, recordField) && Accepted(after, recordField)
    && Untouched(Inner(after, recordField), numbers) == Untouched(Inner(before, recordField), numbers)
    && Others(Outer(after), recordField) == Others(Outer(before), recordField)
  }

  lemma WroteWithin(before: seq<byte>, after: seq<byte>, recordField: nat, number: nat, block: seq<Field>,
                    numbers: set<nat>)
    requires Accepted(before, recordField) && AllNumbered(block, number) && number in numbers
    requires Wrote(before, after, recordField, number, block)
    ensures EditedWithin(before, after, recordField, numbers)
  {
    UntouchedReplaced(Inner(before, recordField), number, block, numbers);
    WriteKeepsTheRest(before, after, recordField, number, block);
  }

  /** A second write hides a first one that left something to replace. */
  lemma WriteTwice(r: seq<byte>, r1: seq<byte>, r12: seq<byte>, r2: seq<byte>,
                   recordField: nat, number: nat, first: seq<Field>, second: seq<Field>)
    requires Accepted(r, recordField) && Accepted(r1, recordField)
    requires first != [] && AllNumbered(first, number)
    requires Wrote(r, r1, recordField, number, first) && Wrote(r1, r12, recordField, number, second)
    requires Wrote(r, r2, recordField, number, second)
    ensures r12 == r2
  {
    ReplacedTwice(Inner(r, recordField), number, first, second);
    ReplacedTwice(Outer(r), recordField, [LenField(recordField, Concat(Inner(r1, recordField)))],
                  [LenField(recordField, Concat(Inner(r12, recordField)))]);
  }

  /** When writing gives back the very bytes it was given. */
  lemma WriteIsNoOp(before: seq<byte>, after: seq<byte>, recordField: nat, number: nat, block: seq<Field>)
    requires Accepted(before, recordField) && Wrote(before, after, recordField, number, block)
    ensures after == before <==>
            CanonicalWrapper(before, recordField) &&
                Replaced(Inner(before, recordField), number, block) == Inner(before, recordField)
  {
    var wrapper := LenField(recordField, Concat(Inner(after, recordField)));
    AcceptedPieces(before, recordField);
    ReplacedFields(Outer(before), recordField, [wrapper]);
    if CanonicalWrapper(before, recordField) && Inner(after, recordField) == Inner(before, recordField) {
      ReplacedBySame(Outer(before), recordField, [wrapper]);
    }
  }

  lemma {:induction false} ReplacedBySame(fields: seq<Field>, number: nat, block: seq<Field>)
    requires |block| <= 1 && AllNumbered(block, number)
    ensures Replaced(fields, number, block) == fields <==> Matching(fields, number) == block
  {
    ReplacedFields(fields, number, block);
    if Matching(fields, number) == block {
      if fields == [] {
      } else if fields[0].number == number {
        assert block == [fields[0]];
        OthersLength(fields[1..], number);
      } else {
        ReplacedBySame(fields[1..], number, block);
      }
    }
  }

  // ----- the laws for a varint field: a mute expiry, a flag, a position, a time

  lemma OptionalVarintReads(number: nat, value: u64)
    requires 1 <= number < U32_RANGE
    ensures LastVarint(OptionalVarint(number, value)) == Success(value)
    ensures GoodBlock(OptionalVarint(number, value), number)
  {
    VarintFieldIsSound(number, value);
    RoundTrip(value, []);
    RoundTrip(number * 8, []);
    assert Encode(value) + [] == Encode(value);
    var f := VarintField(number, value);
    assert Concat([f]) == f.whole + [] == f.whole;
  }

  lemma VarintWrites(record: seq<byte>, recordField: nat, number: nat, value: u64)
    requires ValidNumbers(recordField, number) && |record| <= RECORD_MAX
    ensures SetVarintFieldOrRemove(record, recordField, number, value).Success? <==> Accepted(record, recordField)
    ensures Accepted(record, recordField) ==>
              Wrote(record, SetVarintFieldOrRemove(record, recordField, number, value).value, recordField, number,
                    OptionalVarint(number, value))
  {
    var block := OptionalVarint(number, value);
    OptionalVarintReads(number, value);
    if value != 0 { ConcatCons(VarintField(number, value), []); }
    SetWrites(record, recordField, number, block, if value != 0 then Some(VarintField(number, value).whole) else None);
  }

  /** Put then get: on every accepted record and for every `u64`, the value written is the
      value read, every other field of the submessage reads as before (errors included),
      and so does every field of every other submessage. */
  lemma GetAfterSet(record: seq<byte>, recordField: nat, number: nat, value: u64)
    requires ValidNumbers(recordField, number) && |record| <= RECORD_MAX
    requires Accepted(record, recordField)
    ensures var r := SetVarintFieldOrRemove(record, recordField, number, value);
            && r.Success?
            && RecordVarintField(r.value, recordField, number) == Success(value)
            && (forall other :: other != number ==>
                  RecordVarintField(r.value, recordField, other) == RecordVarintField(record, recordField, other))
            && (forall other, n :: other != recordField ==>
                  RecordVarintField(r.value, other, n) == RecordVarintField(record, other, n))
  {
    VarintWrites(record, recordField, number, value);
    OptionalVarintReads(number, value);
    var after := SetVarintFieldOrRemove(record, recordField, number, value).value;
    WriteKeepsTheRest(record, after, recordField, number, OptionalVarint(number, value));
  }

  /** Put then put: after a first write that did not remove, only the second shows, byte
      for byte. */
  lemma SetAfterSet(record: seq<byte>, recordField: nat, number: nat, first: u64, second: u64)
    requires ValidNumbers(recordField, number) && first != 0
    requires Accepted(record, recordField) && |record| <= RECORD_MAX
    requires Fits(SetVarintFieldOrRemove(record, recordField, number, first))
    ensures var once := SetVarintFieldOrRemove(record, recordField, number, first);
            once.Success? && SetVarintFieldOrRemove(once.value, recordField, number, second)
                          == SetVarintFieldOrRemove(record, recordField, number, second)
  {
    VarintWrites(record, recordField, number, first);
    VarintWrites(record, recordField, number, second);
    var once := SetVarintFieldOrRemove(record, recordField, number, first).value;
    VarintWrites(once, recordField, number, second);
    WriteTwice(record, once, SetVarintFieldOrRemove(once, recordField, number, second).value,
               SetVarintFieldOrRemove(record, recordField, number, second).value,
               recordField, number, OptionalVarint(number, first), OptionalVarint(number, second));
  }

  /** Toggling a field on and off again gives back the exact bytes exactly when the
      submessage was canonically wrapped and did not hold the field. */
  lemma ToggleRestores(record: seq<byte>, recordField: nat, number: nat, value: u64)
    requires ValidNumbers(recordField, number) && value != 0
    requires Accepted(record, recordField) && |record| <= RECORD_MAX
    requires Fits(SetVarintFieldOrRemove(record, recordField, number, value))
    ensures var on := SetVarintFieldOrRemove(record, recordField, number, value);
            on.Success? &&
            (SetVarintFieldOrRemove(on.value, recordField, number, 0) == Success(record)
             <==> CanonicalWrapper(record, recordField) && Matching(Inner(record, recordField), number) == [])
  {
    SetAfterSet(record, recordField, number, value, 0);
    VarintWrites(record, recordField, number, value);
    VarintWrites(record, recordField, number, 0);
    var removed := SetVarintFieldOrRemove(record, recordField, number, 0).value;
    WriteIsNoOp(record, removed, recordField, number, []);
    ReplacedBySame(Inner(record, recordField), number, []);
  }

  /** Writing a value gives back the exact bytes exactly when the submessage is canonically
      wrapped and already holds the value once, canonically spelled, or not at all for 0. */
  lemma SetChangesNothing(record: seq<byte>, recordField: nat, number: nat, value: u64)
    requires ValidNumbers(recordField, number) && Accepted(record, recordField) && |record| <= RECORD_MAX
    ensures SetVarintFieldOrRemove(record, recordField, number, value) == Success(record)
       <==> (CanonicalWrapper(record, recordField) &&
             Matching(Inner(record, recordField), number) == OptionalVarint(number, value))
  {
    VarintWrites(record, recordField, number, value);
    var after := SetVarintFieldOrRemove(record, recordField, number, value).value;
    WriteIsNoOp(record, after, recordField, number, OptionalVarint(number, value));
    ReplacedBySame(Inner(record, recordField), number, OptionalVarint(number, value));
  }

  /** A flag is a varint that is 1 or absent. */
  lemma BoolIsVarint(record: seq<byte>, recordField: nat, number: nat, value: bool)
    ensures SetBoolField(record, recordField, number, value)
         == SetVarintFieldOrRemove(record, recordField, number, if value then 1 else 0)
  {
  }

  /** Any value but 0 is a set flag. */
  lemma NonZeroIsSet(record: seq<byte>, recordField: nat, number: nat, value: u64)
    requires ValidNumbers(recordField, number) && |record| <= RECORD_MAX && Accepted(record, recordField)
    ensures var r := SetVarintFieldOrRemove(record, recordField, number, value);
            r.Success? && RecordBoolField(r.value, recordField, number) == Success(value != 0)
  {
    GetAfterSet(record, recordField, number, value);
  }

  // ----- what a read sees

  /** The last occurrence is the one read; nothing reads as 0, and another wire type as an
      error, whatever stands before it. */
  lemma LastWins(record: seq<byte>, recordField: nat, number: nat, before: seq<Field>, last: Field, rest: seq<Field>)
    requires Accepted(record, recordField) && Inner(record, recordField) == before + ([last] + rest)
    requires last.number == number && forall f :: f in rest ==> f.number != number
    ensures RecordVarintField(record, recordField, number) ==
            if last.wireType != 0 || Decode(last.payload) == None then Failure(Malformed)
            else Success(Decode(last.payload).value.value)
  {
    MatchingAppend(before, [last] + rest, number);
    MatchingAppend([last], rest, number);
    MatchingIndices(rest, number);
    assert Matching([last], number) == [last];
    assert Matching([last] + rest, number) == [last];
    assert Matching(Inner(record, recordField), number) == Matching(before, number) + [last];
  }

  lemma AbsentIsZero(record: seq<byte>, recordField: nat, number: nat)
    requires Accepted(record, recordField) && forall f :: f in Inner(record, recordField) ==> f.number != number
    ensures RecordVarintField(record, recordField, number) == Success(0)
    ensures RecordBoolField(record, recordField, number) == Success(false)
  {
    MatchingIndices(Inner(record, recordField), number);
  }

  lemma {:induction false} NoneMatching(fields: seq<Field>, number: nat)
    ensures Matching(fields, number) == [] <==> forall f :: f in fields ==> f.number != number
  {
    if fields != [] {
      assert fields == [fields[0]] + fields[1..];
      NoneMatching(fields[1..], number);
    }
  }

  lemma {:induction false} TwoMatch(fields: seq<Field>, number: nat, i: nat, j: nat)
    requires i < j < |fields| && fields[i].number == fields[j].number == number
    ensures |Matching(fields, number)| > 1
  {
    if i == 0 {
      assert fields[1..][j - 1] in fields[1..];
      NoneMatching(fields[1..], number);
    } else {
      TwoMatch(fields[1..], number, i - 1, j - 1);
    }
  }

  lemma {:induction false} FindTwo(fields: seq<Field>, number: nat) returns (i: nat, j: nat)
    requires |Matching(fields, number)| > 1
    ensures i < j < |fields| && fields[i].number == fields[j].number == number
  {
    var rest := fields[1..];
    if fields[0].number != number {
      i, j := FindTwo(rest, number);
      i, j := i + 1, j + 1;
    } else {
      NoneMatching(rest, number);
      var f :| f in rest && f.number == number;
      var at :| 0 <= at < |rest| && rest[at] == f;
      i, j := 0, at + 1;
    }
  }

  lemma MatchingIndices(fields: seq<Field>, number: nat)
    ensures Matching(fields, number) == [] <==> forall f :: f in fields ==> f.number != number
    ensures |Matching(fields, number)| > 1 <==>
            exists i, j :: 0 <= i < j < |fields| && fields[i].number == fields[j].number == number
  {
    NoneMatching(fields, number);
    if |Matching(fields, number)| > 1 { var i, j := FindTwo(fields, number); }
    forall i, j | 0 <= i < j < |fields| && fields[i].number == fields[j].number == number
      ensures |Matching(fields, number)| > 1
    {
      TwoMatch(fields, number, i, j);
    }
  }

  /** Which error: a read and a write of a field agree on it. A record without that submessage
      is of the wrong type, one with two is ambiguous, and one that does not scan is malformed. */
  lemma WhyRefused(record: seq<byte>, recordField: nat, number: nat, replacement: Option<seq<byte>>)
    ensures var read, write := RecordVarintField(record, recordField, number),
                               SetRecordField(record, recordField, number, replacement);
            match Parse(record)
            case None => read == Failure(Malformed) && write == Failure(Malformed)
            case Some(fields) =>
              && (read == Failure(WrongRecordType) <==> forall f :: f in fields ==> f.number != recordField)
              && (read == Failure(AmbiguousRecord) <==>
                  exists i, j :: 0 <= i < j < |fields| && fields[i].number == fields[j].number == recordField)
              && (write == Failure(WrongRecordType) <==> read == Failure(WrongRecordType))
              && (write == Failure(AmbiguousRecord) <==> read == Failure(AmbiguousRecord))
  {
    if Parse(record).Some? { MatchingIndices(Parse(record).value, recordField); }
  }
}
