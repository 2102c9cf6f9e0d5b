/** Base 128 varints (Protocol Buffers "Encoding", section "Base 128 Varints"), as
    `read_varint` and `encode_varint` of storage_record.rs walk and write them.

    A `u64` takes at most ten groups of seven bits; the tenth group has room for one
    bit, and the reader keeps that one and drops the rest. */
module Varint {
  import opened Wrappers

  type byte = b: int | 0 <= b < 256
  type u64 = n: int | 0 <= n < U64_RANGE
  type u32 = n: int | 0 <= n < U32_RANGE

  const U32_RANGE := 0x1_0000_0000
  const U64_RANGE := 0x1_0000_0000_0000_0000

  /** The largest length a Rust slice can have on a 64-bit platform. */
  const ISIZE_MAX := 0x7fff_ffff_ffff_ffff

  const MAX_GROUPS: nat := 10

  datatype EditError = Malformed | WrongRecordType | AmbiguousRecord

  /** How many values `groups` groups can carry when the last one keeps a single bit. */
  function Capacity(groups: nat): (c: nat)
    requires groups >= 1
    ensures c >= 2
  {
    if groups == 1 then 2 else 128 * Capacity(groups - 1)
  }

  lemma TenGroupsHoldAU64()
    ensures Capacity(MAX_GROUPS) == U64_RANGE
  {
    assert Capacity(4) == 2 * 128 * 128 * 128;
    assert Capacity(7) == 128 * 128 * 128 * Capacity(4);
    assert Capacity(10) == 128 * 128 * 128 * Capacity(7);
  }

  /** A varint that was read: its value and the number of bytes it took. */
  datatype Reading = Reading(value: nat, length: nat)

  /** Read a varint from the front of `bytes` with room for `groups` more groups. */
  function DecodeGroups(bytes: seq<byte>, groups: nat): (r: Option<Reading>)
    ensures r.Some? ==> 1 <= r.value.length <= |bytes| && r.value.length <= groups
    ensures r.Some? ==> r.value.value < Capacity(groups)
  {
    if groups == 0 || bytes == [] then None
    else if bytes[0] < 128 then
      Some(Reading(if groups == 1 then bytes[0] % 2 else bytes[0], 1))
    else
      var rest :- DecodeGroups(bytes[1..], groups - 1);
      Some(Reading(bytes[0] % 128 + 128 * rest.value, 1 + rest.length))
  }

  function Decode(bytes: seq<byte>): Option<Reading> {
    DecodeGroups(bytes, MAX_GROUPS)
  }

  function Encode(value: nat): (bytes: seq<byte>)
    ensures |bytes| >= 1
  {
    if value < 128 then [value] else [value % 128 + 128] + Encode(value / 128)
  }

  // ----- the codec laws

  /** A varint that was read is followed by anything at all: reading never looks past
      the byte that ends it. */
  lemma {:induction false} DecodeIsLocal(bytes: seq<byte>, suffix: seq<byte>, groups: nat)
    requires DecodeGroups(bytes, groups).Some?
    ensures DecodeGroups(bytes + suffix, groups) == DecodeGroups(bytes, groups)
    ensures DecodeGroups(bytes[..DecodeGroups(bytes, groups).value.length], groups) == DecodeGroups(bytes, groups)
  {
    var n := DecodeGroups(bytes, groups).value.length;
    if bytes[0] >= 128 {
      DecodeIsLocal(bytes[1..], suffix, groups - 1);
      assert (bytes + suffix)[1..] == bytes[1..] + suffix;
      assert bytes[..n][1..] == bytes[1..][..n - 1];
    }
  }

  /** Exactly when a read fails: no byte without a continuation bit among the first ten. */
  lemma {:induction false} DecodeRejects(bytes: seq<byte>, groups: nat)
    ensures DecodeGroups(bytes, groups).None? <==> forall i :: 0 <= i < |bytes| && i < groups ==> bytes[i] >= 128
  {
    if groups != 0 && bytes != [] && bytes[0] >= 128 {
      DecodeRejects(bytes[1..], groups - 1);
      var tail := bytes[1..];
      assert forall i :: 0 <= i < |tail| ==> tail[i] == bytes[i + 1];
      if forall i :: 0 <= i < |tail| && i < groups - 1 ==> tail[i] >= 128 {
        forall i | 0 <= i < |bytes| && i < groups ensures bytes[i] >= 128 {
          if i > 0 { assert bytes[i] == tail[i - 1]; }
        }
      }
    }
  }

  lemma {:induction false} EncodeFits(value: nat, groups: nat)
    requires groups >= 1 && value < Capacity(groups)
    ensures |Encode(value)| <= groups
  {
    if value >= 128 {
      EncodeFits(value / 128, groups - 1);
    }
  }

  lemma {:induction false} DecodeOfEncode(value: nat, suffix: seq<byte>, groups: nat)
    requires groups >= 1 && value < Capacity(groups)
    ensures DecodeGroups(Encode(value) + suffix, groups) == Some(Reading(value, |Encode(value)|))
  {
    if value >= 128 {
      DecodeOfEncode(value / 128, suffix, groups - 1);
      assert (Encode(value) + suffix)[1..] == Encode(value / 128) + suffix;
    } else {
      assert (Encode(value) + suffix)[0] == value;
    }
  }

  /** Every `u64`, at any offset and with anything after it, reads back as itself, in
      one to ten bytes, and the reader stops exactly at its end. */
  lemma RoundTrip(value: u64, suffix: seq<byte>)
    ensures Decode(Encode(value) + suffix) == Some(Reading(value, |Encode(value)|))
    ensures 1 <= |Encode(value)| <= MAX_GROUPS
  {
    TenGroupsHoldAU64();
    DecodeOfEncode(value, suffix, MAX_GROUPS);
    EncodeFits(value, MAX_GROUPS);
  }

  /** No other spelling of a value is shorter than the one `encode_varint` writes. */
  lemma {:induction false} EncodeIsShortest(bytes: seq<byte>, groups: nat)
    requires DecodeGroups(bytes, groups).Some?
    ensures |Encode(DecodeGroups(bytes, groups).value.value)| <= DecodeGroups(bytes, groups).value.length
  {
    if bytes[0] >= 128 {
      EncodeIsShortest(bytes[1..], groups - 1);
      var rest := DecodeGroups(bytes[1..], groups - 1).value.value;
      assert (bytes[0] % 128 + 128 * rest) / 128 == rest;
    }
  }

  // ----- the loops

  function Pow128(i: nat): (p: nat)
    ensures p >= 1
  {
    if i == 0 then 1 else 128 * Pow128(i - 1)
  }

  /** `(byte & 0x7f) << (7 * group)` in a `u64`: in the tenth group all but bit 0 is lost. */
  function ShiftedGroup(b: byte, group: nat): nat {
    b % 128 * Pow128(group) % U64_RANGE
  }

  lemma ShiftKeeps(b: byte, group: nat)
    requires group < MAX_GROUPS
    ensures ShiftedGroup(b, group) == Pow128(group) * (if group == MAX_GROUPS - 1 then b % 2 else b % 128)
  {
    if group == MAX_GROUPS - 1 {
      TenGroupsHoldAU64();
      PowIsCapacity(group);
      HighBitsFallOff(b % 128, Pow128(group));
    } else {
      PowBound(group);
      SmallProduct(b % 128, Pow128(group));
    }
  }

  lemma HighBitsFallOff(low: nat, half: nat)
    requires 2 * half == U64_RANGE
    ensures low * half % U64_RANGE == half * (low % 2)
  {
    assert half == U64_RANGE / 2;
    assert low == 2 * (low / 2) + low % 2;
  }

  lemma SmallProduct(low: nat, p: nat)
    requires low < 128 && 128 * p <= U64_RANGE / 2
    ensures low * p % U64_RANGE == p * low
  {
    ProductBelow(low, p);
    SmallModulus(low * p);
  }

  lemma ProductBelow(low: nat, p: nat)
    requires low < 128
    ensures 0 <= low * p <= 128 * p
  {
  }

  lemma SmallModulus(n: nat)
    requires n < U64_RANGE
    ensures n % U64_RANGE == n
  {
  }

  lemma Distribute(p: nat, low: nat, rest: nat)
    ensures p * (low + 128 * rest) == p * low + 128 * p * rest
  {
  }

  lemma {:induction false} PowIsCapacity(i: nat)
    ensures 2 * Pow128(i) == Capacity(i + 1)
  {
    if i > 0 { PowIsCapacity(i - 1); }
  }

  lemma PowBound(group: nat)
    requires group < MAX_GROUPS - 1
    ensures 128 * Pow128(group) <= U64_RANGE / 2
  {
    PowIsCapacity(group + 1);
    TenGroupsHoldAU64();
    CapacityGrows(group + 2, MAX_GROUPS);
  }

  lemma {:induction false} CapacityGrows(a: nat, b: nat)
    requires 1 <= a <= b
    ensures Capacity(a) <= Capacity(b)
    decreases b - a
  {
    if a < b { CapacityGrows(a + 1, b); }
  }

  /** What reading at `pos` should give: the value and the position after it. */
  function ReadAt(msg: seq<byte>, pos: nat): Result<(nat, nat), EditError>
    requires pos <= |msg|
  {
    match Decode(msg[pos..])
    case None => Failure(Malformed)
    case Some(reading) => Success((reading.value, pos + reading.length))
  }

  /** After `group` groups worth `value`, `rest` completes the reading `whole`. */
  ghost predicate Resumes(whole: Option<Reading>, value: nat, group: nat, rest: Option<Reading>) {
    match rest
    case None => whole == None
    case Some(r) => whole == Some(Reading(value + Pow128(group) * r.value, group + r.length))
  }

  lemma OneMoreGroup(whole: Option<Reading>, value: nat, group: nat, bytes: seq<byte>)
    requires group < MAX_GROUPS && bytes != []
    requires Resumes(whole, value, group, DecodeGroups(bytes, MAX_GROUPS - group))
    ensures var next := value + ShiftedGroup(bytes[0], group);
            if bytes[0] < 128 then whole == Some(Reading(next, group + 1))
            else Resumes(whole, next, group + 1, DecodeGroups(bytes[1..], MAX_GROUPS - group - 1))
  {
    ShiftKeeps(bytes[0], group);
    var rest := DecodeGroups(bytes[1..], MAX_GROUPS - group - 1);
    if rest.Some? { Distribute(Pow128(group), bytes[0] % 128, rest.value.value); }
  }

  /** Where the loop of `read_varint` is after `group` bytes worth `value`. */
  ghost predicate ReadSoFar(msg: seq<byte>, pos: nat, group: nat, value: nat) {
    && group <= MAX_GROUPS && pos + group <= |msg|
    && Resumes(Decode(msg[pos..]), value, group, DecodeGroups(msg[pos + group..], MAX_GROUPS - group))
  }

  lemma ReadStarts(msg: seq<byte>, pos: nat)
    requires pos <= |msg|
    ensures ReadSoFar(msg, pos, 0, 0)
  {
    assert Pow128(0) == 1;
  }

  lemma ReadSteps(msg: seq<byte>, pos: nat, group: nat, value: nat)
    requires ReadSoFar(msg, pos, group, value) && group < MAX_GROUPS && pos + group < |msg|
    ensures var b := msg[pos + group];
            var next := value + ShiftedGroup(b, group);
            if b < 128 then ReadAt(msg, pos) == Success((next, pos + group + 1))
              else ReadSoFar(msg, pos, group + 1, next)
  {
    OneMoreGroup(Decode(msg[pos..]), value, group, msg[pos + group..]);
    assert msg[pos + group..][1..] == msg[pos + group + 1..];
  }

  lemma ReadFails(msg: seq<byte>, pos: nat, group: nat, value: nat)
    requires ReadSoFar(msg, pos, group, value) && (group == MAX_GROUPS || pos + group == |msg|)
    ensures ReadAt(msg, pos) == Failure(Malformed)
  {
  }

  /** `read_varint`: walk at most ten bytes from `pos`, or-ing each group in at its shift.
      Returns the value and the position after it. */
  method ReadVarint(msg: seq<byte>, pos: nat) returns (r: Result<(nat, nat), EditError>)
    requires pos <= |msg|
    ensures r == ReadAt(msg, pos)
  {
    var value: nat := 0;
    ReadStarts(msg, pos);
    for group := 0 to MAX_GROUPS
      invariant ReadSoFar(msg, pos, group, value)
    {
      if pos + group >= |msg| {
        ReadFails(msg, pos, group, value);
        return Failure(Malformed);
      }
      ReadSteps(msg, pos, group, value);
      var b := msg[pos + group];
      value := value + ShiftedGroup(b, group);
      if b < 128 {
        return Success((value, pos + group + 1));
      }
    }
    ReadFails(msg, pos, MAX_GROUPS, value);
    r := Failure(Malformed);
  }

  /** `encode_varint`: push seven bits at a time, low group first. */
  method EncodeVarint(value: u64, out: seq<byte>) returns (out': seq<byte>)
    ensures out' == out + Encode(value)
  {
    var left: nat := value;
    out' := out;
    while left >= 128
      invariant out' + Encode(left) == out + Encode(value)
    {
      assert out' + Encode(left) == out' + [left % 128 + 128] + Encode(left / 128);
      out' := out' + [left % 128 + 128];
      left := left / 128;
    }
    out' := out' + [left];
  }
}
