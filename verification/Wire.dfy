/** The scanner of storage_record.rs: a message as the list of fields its bytes spell
    (Protocol Buffers "Encoding", section "Message Structure").

    `Parse` reads one field after another off the front of the message. The source walks
    a position cursor instead and keeps ranges; `Scan` is that loop, proved to agree. */
module Wire {
  import opened Wrappers
  import opened Varint

  const WIRE_VARINT := 0
  const WIRE_I64 := 1
  const WIRE_LEN := 2
  const WIRE_I32 := 5

  /** A field and its bytes: `whole` from the tag to the last byte of the payload, `payload`
      without the tag and without a length. */
  datatype Field = Field(number: nat, wireType: nat, whole: seq<byte>, payload: seq<byte>)

  /** Where a field's payload lies, measured from the start of the field. */
  datatype Extent = Extent(number: nat, wireType: nat, from: nat, end: nat)

  /** The payload after a tag of `wireType`, which ends at `at`. */
  function PayloadExtent(bytes: seq<byte>, number: nat, wireType: nat, at: nat): (r: Option<Extent>)
    requires at <= |bytes|
    ensures r.Some? ==> at <= r.value.from <= r.value.end <= |bytes|
    ensures r.Some? ==> r.value.number == number && r.value.wireType == wireType
  {
    if wireType == WIRE_VARINT then
      var reading :- Decode(bytes[at..]);
      Some(Extent(number, wireType, at, at + reading.length))
    else if wireType == WIRE_I64 then
      if at + 8 <= |bytes| then Some(Extent(number, wireType, at, at + 8)) else None
    else if wireType == WIRE_LEN then
      var reading :- Decode(bytes[at..]);
      var from := at + reading.length;
      if from + reading.value <= |bytes| then Some(Extent(number, wireType, from, from + reading.value)) else None
    else if wireType == WIRE_I32 then
      if at + 4 <= |bytes| then Some(Extent(number, wireType, at, at + 4)) else None
    else None
  }

  /** The first field of `bytes`. The number is the tag's upper bits cut to 32, as
      `(tag >> 3) as u32` does, and may not be zero. */
  function FieldExtent(bytes: seq<byte>): (r: Option<Extent>)
    ensures r.Some? ==> 1 <= r.value.from <= r.value.end <= |bytes|
  {
    var tag :- Decode(bytes);
    var number := tag.value / 8 % U32_RANGE;
    if number == 0 then None else PayloadExtent(bytes, number, tag.value % 8, tag.length)
  }

  function FieldAt(bytes: seq<byte>, e: Extent): Field
    requires e.from <= e.end <= |bytes|
  {
    Field(e.number, e.wireType, bytes[..e.end], bytes[e.from..e.end])
  }

  /** All fields of a message, first to last; none if its bytes end or stray anywhere. */
  function Parse(msg: seq<byte>): (r: Option<seq<Field>>)
  {
    if msg == [] then Some([])
    else
      var e :- FieldExtent(msg);
      var rest :- Parse(msg[e.end..]);
      Some([FieldAt(msg, e)] + rest)
  }

  /** The bytes of a list of fields, one after another. */
  function Concat(fields: seq<Field>): (bytes: seq<byte>) {
    if fields == [] then [] else fields[0].whole + Concat(fields[1..])
  }

  /** A field that, alone, scans as exactly itself. */
  ghost predicate Sound(f: Field) {
    Parse(f.whole) == Some([f])
  }

  ghost predicate AllSound(fields: seq<Field>) {
    forall f :: f in fields ==> Sound(f)
  }

  // ----- the scanner theorem

  lemma DecodeStays(bytes: seq<byte>, suffix: seq<byte>, at: nat)
    requires at <= |bytes| && Decode(bytes[at..]).Some?
    ensures Decode((bytes + suffix)[at..]) == Decode(bytes[at..])
  {
    DecodeIsLocal(bytes[at..], suffix, MAX_GROUPS);
    assert (bytes + suffix)[at..] == bytes[at..] + suffix;
  }

  lemma PayloadIsLocal(bytes: seq<byte>, suffix: seq<byte>, number: nat, wireType: nat, at: nat)
    requires at <= |bytes|
    requires PayloadExtent(bytes, number, wireType, at).Some?
    ensures PayloadExtent(bytes + suffix, number, wireType, at) == PayloadExtent(bytes, number, wireType, at)
  {
    if wireType == WIRE_VARINT || wireType == WIRE_LEN {
      DecodeStays(bytes, suffix, at);
    }
  }

  /** A field is decided by its own bytes: what follows it does not change it, and cutting
      what follows does not either. */
  lemma FieldIsLocal(bytes: seq<byte>, suffix: seq<byte>)
    requires FieldExtent(bytes).Some?
    ensures FieldExtent(bytes + suffix) == FieldExtent(bytes)
    ensures FieldExtent(bytes[..FieldExtent(bytes).value.end]) == FieldExtent(bytes)
  {
    var tag := Decode(bytes).value;
    var e := FieldExtent(bytes).value;
    DecodeIsLocal(bytes, suffix, MAX_GROUPS);
    PayloadIsLocal(bytes, suffix, e.number, e.wireType, tag.length);
    DecodeCut(bytes, 0, e.end);
    assert bytes[0..] == bytes && bytes[..e.end][0..] == bytes[..e.end];
    PayloadCut(bytes, e.number, e.wireType, tag.length);
  }

  lemma PayloadCut(bytes: seq<byte>, number: nat, wireType: nat, at: nat)
    requires at <= |bytes|
    requires PayloadExtent(bytes, number, wireType, at).Some?
    ensures var e := PayloadExtent(bytes, number, wireType, at);
            PayloadExtent(bytes[..e.value.end], number, wireType, at) == e
  {
    if wireType == WIRE_VARINT || wireType == WIRE_LEN {
      var e := PayloadExtent(bytes, number, wireType, at).value;
      DecodeCut(bytes, at, e.end);
    }
  }

  lemma DecodeCut(bytes: seq<byte>, at: nat, end: nat)
    requires at <= end <= |bytes|
    requires Decode(bytes[at..]).Some? && at + Decode(bytes[at..]).value.length <= end
    ensures Decode(bytes[..end][at..]) == Decode(bytes[at..])
  {
    var n := Decode(bytes[at..]).value.length;
    DecodeIsLocal(bytes[at..], [], MAX_GROUPS);
    var front, back := bytes[at..][..n], bytes[at + n..end];
    assert bytes[..end][at..] == front + back;
    DecodeIsLocal(front, back, MAX_GROUPS);
  }

  lemma ParseSingle(bytes: seq<byte>, e: Extent)
    requires bytes != [] && FieldExtent(bytes) == Some(e) && e.end == |bytes|
    ensures Parse(bytes) == Some([FieldAt(bytes, e)])
    ensures FieldAt(bytes, e).whole == bytes
  {
    assert bytes[e.end..] == [];
    var f := FieldAt(bytes, e);
    assert [f] + [] == [f];
  }

  /** What scans tiles its input: the fields' bytes, in order, are the message, none of
      them empty, and each of them scans alone as itself. */
  lemma {:induction false} ParseTiles(msg: seq<byte>)
    requires Parse(msg).Some?
    ensures Concat(Parse(msg).value) == msg
    ensures AllSound(Parse(msg).value)
    ensures forall f :: f in Parse(msg).value ==>
            f.whole != [] && |f.payload| < |f.whole| <= |msg| && 1 <= f.number < U32_RANGE
  {
    if msg != [] {
      var e := FieldExtent(msg).value;
      var f, rest := FieldAt(msg, e), Parse(msg[e.end..]).value;
      ParseTiles(msg[e.end..]);
      FieldOfMessageIsSound(msg);
      FieldOfMessageIsProper(msg);
      assert Parse(msg).value == [f] + rest;
      TilesFront(msg, f, rest);
    }
  }

  lemma TilesFront(msg: seq<byte>, f: Field, rest: seq<Field>)
    requires |f.whole| <= |msg| && f.whole == msg[..|f.whole|] && Concat(rest) == msg[|f.whole|..]
    ensures Concat([f] + rest) == msg
  {
    assert ([f] + rest)[1..] == rest;
    assert msg == msg[..|f.whole|] + msg[|f.whole|..];
  }

  lemma FieldOfMessageIsProper(msg: seq<byte>)
    requires FieldExtent(msg).Some?
    ensures var f := FieldAt(msg, FieldExtent(msg).value);
            f.whole != [] && |f.payload| < |f.whole| <= |msg| && 1 <= f.number < U32_RANGE
  {
  }

  lemma FieldOfMessageIsSound(msg: seq<byte>)
    requires FieldExtent(msg).Some?
    ensures Sound(FieldAt(msg, FieldExtent(msg).value))
  {
    var e := FieldExtent(msg).value;
    var f := FieldAt(msg, e);
    FieldIsLocal(msg, []);
    ParseSingle(f.whole, e);
    assert f.whole[e.from..e.end] == msg[e.from..e.end];
  }

  /** `scan(a ++ b)` is `scan(a)` followed by `scan(b)`, and fails exactly when `b` does. */
  lemma {:induction false} ParseConcat(a: seq<byte>, b: seq<byte>)
    requires Parse(a).Some?
    ensures Parse(a + b) == Appended(Parse(a).value, Parse(b))
  {
    if a == [] {
      assert a + b == b;
      AppendedToNothing(Parse(b));
    } else {
      var e := FieldExtent(a).value;
      var f, rest := FieldAt(a, e), a[e.end..];
      FieldStays(a, b);
      ParseConcat(rest, b);
      if Parse(b).Some? {
        AppendAssociates(f, Parse(rest).value, Parse(b).value);
      }
    }
  }

  function Appended(fields: seq<Field>, more: Option<seq<Field>>): Option<seq<Field>> {
    match more
    case None => None
    case Some(m) => Some(fields + m)
  }

  lemma AppendedToNothing(more: Option<seq<Field>>)
    ensures Appended([], more) == more
  {
    if more.Some? { assert [] + more.value == more.value; }
  }

  lemma AppendAssociates(f: Field, a: seq<Field>, b: seq<Field>)
    ensures [f] + (a + b) == ([f] + a) + b
  {
  }

  lemma FieldStays(a: seq<byte>, b: seq<byte>)
    requires FieldExtent(a).Some?
    ensures var e := FieldExtent(a).value;
            FieldExtent(a + b) == Some(e) && FieldAt(a + b, e) == FieldAt(a, e) && (a + b)[e.end..] == a[e.end..] + b
  {
    var e := FieldExtent(a).value;
    FieldIsLocal(a, b);
    assert (a + b)[..e.end] == a[..e.end];
    assert (a + b)[e.from..e.end] == a[e.from..e.end];
  }

  /** Lists of sound fields and the messages that scan are the same thing: writing such a
      list and scanning it gives the list back. */
  lemma {:induction false} ParseOfConcat(fields: seq<Field>)
    requires AllSound(fields)
    ensures Parse(Concat(fields)) == Some(fields)
  {
    if fields != [] {
      ParseOfConcat(fields[1..]);
      assert Sound(fields[0]);
      ParseConcat(fields[0].whole, Concat(fields[1..]));
      assert [fields[0]] + fields[1..] == fields;
    }
  }

  lemma {:induction false} ConcatAppend(a: seq<Field>, b: seq<Field>)
    ensures Concat(a + b) == Concat(a) + Concat(b)
  {
    if a == [] {
      assert a + b == b;
    } else {
      var ab := a + b;
      assert ab[0] == a[0] && ab[1..] == a[1..] + b;
      calc {
        Concat(ab);
        a[0].whole + Concat(ab[1..]);
        { ConcatAppend(a[1..], b); }
        a[0].whole + (Concat(a[1..]) + Concat(b));
        (a[0].whole + Concat(a[1..])) + Concat(b);
      }
    }
  }

  // ----- written fields

  function EncodeTag(number: nat, wireType: nat): seq<byte> {
    Encode(number * 8 + wireType)
  }

  function VarintField(number: nat, value: nat): Field {
    Field(number, WIRE_VARINT, EncodeTag(number, WIRE_VARINT) + Encode(value), Encode(value))
  }

  /** The length prefix is `payload.len() as u64`. */
  function LenField(number: nat, payload: seq<byte>): Field {
    Field(number, WIRE_LEN, EncodeTag(number, WIRE_LEN) + Encode(|payload| % U64_RANGE) + payload, payload)
  }

  lemma TagSplits(number: nat, wireType: nat)
    requires number < U32_RANGE && wireType < 8
    ensures (number * 8 + wireType) / 8 == number && (number * 8 + wireType) % 8 == wireType
    ensures number % U32_RANGE == number
  {
  }

  lemma TagReads(number: nat, wireType: nat, suffix: seq<byte>)
    requires number < U32_RANGE && wireType < 8
    ensures var tag := Decode(EncodeTag(number, wireType) + suffix);
            tag == Some(Reading(number * 8 + wireType, |EncodeTag(number, wireType)|)) &&
            tag.value.value / 8 % U32_RANGE == number && tag.value.value % 8 == wireType
  {
    RoundTrip(number * 8 + wireType, suffix);
    TagSplits(number, wireType);
  }

  lemma VarintFieldIsSound(number: nat, value: u64)
    requires 1 <= number < U32_RANGE
    ensures Sound(VarintField(number, value))
  {
    var f := VarintField(number, value);
    var t, v := EncodeTag(number, WIRE_VARINT), Encode(value);
    TagReads(number, WIRE_VARINT, v);
    RoundTrip(value, []);
    assert v + [] == v;
    assert f.whole[|t|..] == v;
    ParseSingle(f.whole, Extent(number, WIRE_VARINT, |t|, |f.whole|));
  }

  lemma LenFieldIsSound(number: nat, payload: seq<byte>)
    requires 1 <= number < U32_RANGE && |payload| < U64_RANGE
    ensures Sound(LenField(number, payload))
  {
    var f := LenField(number, payload);
    var t, n := EncodeTag(number, WIRE_LEN), Encode(|payload|);
    var body := n + payload;
    assert f.whole == t + body;
    TagReads(number, WIRE_LEN, body);
    LenBody(number, f.whole, t, payload);
    ParseSingle(f.whole, Extent(number, WIRE_LEN, |t| + |n|, |f.whole|));
  }

  lemma LenBody(number: nat, whole: seq<byte>, tag: seq<byte>, payload: seq<byte>)
    requires |payload| < U64_RANGE && whole == tag + (Encode(|payload|) + payload)
    ensures PayloadExtent(whole, number, WIRE_LEN, |tag|)
         == Some(Extent(number, WIRE_LEN, |tag| + |Encode(|payload|)|, |whole|))
    ensures whole[|tag| + |Encode(|payload|)|..] == payload
  {
    RoundTrip(|payload|, payload);
    assert whole[|tag|..] == Encode(|payload|) + payload;
  }

  /** Eight or four bytes after a tag of a fixed-width type are its field. */
  lemma FixedFieldIsSound(number: nat, wireType: nat, payload: seq<byte>)
    requires 1 <= number < U32_RANGE
    requires (wireType == 1 && |payload| == 8) || (wireType == 5 && |payload| == 4)
    ensures Sound(Field(number, wireType, EncodeTag(number, wireType) + payload, payload))
  {
    var tag := EncodeTag(number, wireType);
    var whole := tag + payload;
    TagReads(number, wireType, payload);
    assert whole[|tag|..] == payload;
    ParseSingle(whole, Extent(number, wireType, |tag|, |whole|));
  }

  // ----- what is refused

  lemma SoundIsOneField(f: Field)
    requires Sound(f)
    ensures f.whole != [] && FieldExtent(f.whole).Some? && FieldExtent(f.whole).value.end == |f.whole|
  {
    var e := FieldExtent(f.whole).value;
    var rest := Parse(f.whole[e.end..]).value;
    assert |[FieldAt(f.whole, e)] + rest| == 1;
  }

  /** A field cut short anywhere is no message. */
  lemma CutFieldFails(f: Field, n: nat)
    requires Sound(f) && 0 < n < |f.whole|
    ensures Parse(f.whole[..n]) == None
  {
    SoundIsOneField(f);
    var front := f.whole[..n];
    assert front + f.whole[n..] == f.whole;
    if FieldExtent(front).Some? { FieldIsLocal(front, f.whole[n..]); }
  }

  /** Groups, the two unused wire types and field number 0 are refused wherever they stand. */
  lemma TagRefused(fields: seq<Field>, tag: u64, rest: seq<byte>)
    requires AllSound(fields)
    requires tag / 8 % 0x1_0000_0000 == 0 || tag % 8 in {3, 4, 6, 7}
    ensures Parse(Concat(fields) + (Encode(tag) + rest)) == None
  {
    ParseOfConcat(fields);
    ParseConcat(Concat(fields), Encode(tag) + rest);
    RoundTrip(tag, rest);
  }

  lemma VarintExtent(tag: u64, value: u64, number: nat)
    requires tag % 8 == WIRE_VARINT && number == tag / 8 % U32_RANGE && number != 0
    ensures FieldExtent(Encode(tag) + Encode(value)) ==
            Some(Extent(number, WIRE_VARINT, |Encode(tag)|, |Encode(tag)| + |Encode(value)|))
  {
    var whole := Encode(tag) + Encode(value);
    RoundTrip(tag, Encode(value));
    RoundTrip(value, []);
    assert Encode(value) + [] == Encode(value);
    assert whole[|Encode(tag)|..] == Encode(value);
  }

  /** Of a longer field number only the low 32 bits count. */
  lemma NumberIsCut(tag: u64, value: u64, number: nat)
    requires tag % 8 == 0 && number == tag / 8 % 0x1_0000_0000 && number != 0
    ensures var whole := Encode(tag) + Encode(value);
            Parse(whole) == Some([Field(number, 0, whole, Encode(value))])
  {
    var t, v := Encode(tag), Encode(value);
    VarintExtent(tag, value, number);
    assert (t + v)[|t|..] == v;
    ParseSingle(t + v, Extent(number, WIRE_VARINT, |t|, |t| + |v|));
  }

  // ----- the loop

  /** A field as `scan` reports it: ranges into the message. */
  datatype FieldSpan = FieldSpan(number: nat, wireType: nat, start: nat, from: nat, end: nat)

  function SpanField(msg: seq<byte>, s: FieldSpan): Field
    requires s.start <= s.from <= s.end <= |msg|
  {
    Field(s.number, s.wireType, msg[s.start..s.end], msg[s.from..s.end])
  }

  /** The spans lie end to end from 0 to `upto`. */
  ghost predicate Tiling(spans: seq<FieldSpan>, upto: nat) {
    && (forall i :: 0 <= i < |spans| ==> spans[i].start < spans[i].from <= spans[i].end <= upto)
    && (forall i :: 0 < i < |spans| ==> spans[i].start == spans[i - 1].end)
    && (if spans == [] then upto == 0 else spans[0].start == 0 && spans[|spans| - 1].end == upto)
  }

  ghost predicate Spells(msg: seq<byte>, spans: seq<FieldSpan>, fields: seq<Field>) {
    && |spans| == |fields|
    && forall i :: 0 <= i < |spans| ==>
       spans[i].start <= spans[i].from <= spans[i].end <= |msg| && SpanField(msg, spans[i]) == fields[i]
  }

  /** `advance`: move the cursor `count` bytes on, or fail if that passes the end. */
  method Advance(pos: nat, count: nat, len: nat) returns (r: Result<(nat, nat), EditError>)
    requires pos <= len <= ISIZE_MAX
    ensures r == if pos + count <= len then Success((pos, pos + count)) else Failure(Malformed)
  {
    if pos + count >= U64_RANGE {
      return Failure(Malformed);
    }
    var end := pos + count;
    if end > len {
      return Failure(Malformed);
    }
    return Success((pos, end));
  }

  /** The field at `pos`, as ranges into the message. */
  function SpanAt(msg: seq<byte>, pos: nat): (r: Result<FieldSpan, EditError>)
    requires pos <= |msg|
  {
    match FieldExtent(msg[pos..])
    case None => Failure(Malformed)
    case Some(e) => Success(FieldSpan(e.number, e.wireType, pos, pos + e.from, pos + e.end))
  }

  lemma NextField(msg: seq<byte>, pos: nat, fields: seq<Field>)
    requires pos < |msg|
    ensures Parse(msg[pos..]).Some? ==> SpanAt(msg, pos).Success?
    ensures SpanAt(msg, pos).Success? ==>
              var span := SpanAt(msg, pos).value;
              Appended(fields, Parse(msg[pos..])) == Appended(fields + [SpanField(msg, span)], Parse(msg[span.end..]))
  {
    if SpanAt(msg, pos).Success? {
      var span := SpanAt(msg, pos).value;
      var tail, f := msg[pos..], SpanField(msg, span);
      var e := FieldExtent(tail).value;
      assert tail[e.end..] == msg[span.end..];
      assert FieldAt(tail, e) == f by {
        assert tail[..e.end] == msg[pos..span.end];
        assert tail[e.from..e.end] == msg[span.from..span.end];
      }
      var rest := Parse(msg[span.end..]);
      if rest.Some? {
        assert fields + ([f] + rest.value) == (fields + [f]) + rest.value;
      }
    }
  }

  lemma NextPayload(msg: seq<byte>, start: nat, at: nat)
    requires start <= at <= |msg|
    ensures msg[start..][at - start..] == msg[at..]
  {
  }

  lemma PayloadShifts(msg: seq<byte>, start: nat, number: nat, wireType: nat, at: nat)
    requires start <= at <= |msg|
    ensures PayloadExtent(msg[start..], number, wireType, at - start) ==
            match PayloadExtent(msg, number, wireType, at)
            case None => None
            case Some(e) => Some(Extent(number, wireType, e.from - start, e.end - start))
  {
    NextPayload(msg, start, at);
  }

  /** Where the payload after a tag that ends at `at` lies, by its wire type. */
  method ReadPayload(msg: seq<byte>, number: nat, wireType: nat, at: nat) returns (r: Result<(nat, nat), EditError>)
    requires at <= |msg| <= ISIZE_MAX
    ensures r == match PayloadExtent(msg, number, wireType, at) case None => Failure(Malformed)
            case Some(e) => Success((e.from, e.end))
  {
    if wireType == WIRE_VARINT {
      var value :- ReadVarint(msg, at);
      r := Success((at, value.1));
    } else if wireType == WIRE_I64 {
      r := Advance(at, 8, |msg|);
    } else if wireType == WIRE_LEN {
      var len :- ReadVarint(msg, at);
      r := Advance(len.1, len.0, |msg|);
    } else if wireType == WIRE_I32 {
      r := Advance(at, 4, |msg|);
    } else {
      // The group types, and numbers without a meaning.
      r := Failure(Malformed);
    }
  }

  /** What a turn of the scan gives, once the tag at `pos` is read. */
  lemma SpanAfterTag(msg: seq<byte>, pos: nat, tag: nat, at: nat)
    requires pos < |msg| && ReadAt(msg, pos) == Success((tag, at))
    ensures pos < at <= |msg|
    ensures var number := tag / 8 % U32_RANGE;
            SpanAt(msg, pos) ==
              if number == 0 then Failure(Malformed)
              else match PayloadExtent(msg, number, tag % 8, at)
                case None => Failure(Malformed)
                case Some(e) => Success(FieldSpan(number, tag % 8, pos, e.from, e.end))
  {
    PayloadShifts(msg, pos, tag / 8 % U32_RANGE, tag % 8, at);
  }

  /** One turn of the scan loop: the tag, then the payload its wire type calls for. */
  method ReadField(msg: seq<byte>, pos: nat) returns (r: Result<FieldSpan, EditError>)
    requires pos < |msg| <= ISIZE_MAX
    ensures r == SpanAt(msg, pos)
  {
    var tag :- ReadVarint(msg, pos);
    var number, wireType, at := tag.0 / 8 % U32_RANGE, tag.0 % 8, tag.1;
    SpanAfterTag(msg, pos, tag.0, at);
    if number == 0 {
      return Failure(Malformed);
    }
    var payload :- ReadPayload(msg, number, wireType, at);
    return Success(FieldSpan(number, wireType, pos, payload.0, payload.1));
  }

  ghost predicate Scanned(msg: seq<byte>, spans: seq<FieldSpan>, fields: seq<Field>, pos: nat) {
    && pos <= |msg|
    && Tiling(spans, pos)
    && Spells(msg, spans, fields)
    && Parse(msg) == Appended(fields, Parse(msg[pos..]))
  }

  lemma ScanStarts(msg: seq<byte>)
    ensures Scanned(msg, [], [], 0)
  {
    assert msg[0..] == msg;
    AppendedToNothing(Parse(msg));
  }

  lemma ScanSteps(msg: seq<byte>, spans: seq<FieldSpan>, fields: seq<Field>, pos: nat)
    requires pos < |msg| && Scanned(msg, spans, fields, pos)
    ensures Parse(msg).Some? ==> SpanAt(msg, pos).Success?
    ensures SpanAt(msg, pos).Success? ==>
              var span := SpanAt(msg, pos).value;
              Scanned(msg, spans + [span], fields + [SpanField(msg, span)], span.end)
  {
    NextField(msg, pos, fields);
    if SpanAt(msg, pos).Success? {
      var span := SpanAt(msg, pos).value;
      TilingStep(spans, span);
      SpellsStep(msg, spans, fields, span);
    }
  }

  lemma ScanEnds(msg: seq<byte>, spans: seq<FieldSpan>, fields: seq<Field>)
    requires Scanned(msg, spans, fields, |msg|)
    ensures Parse(msg) == Some(fields)
  {
    AppendedNothing(fields, msg[|msg|..]);
  }

  lemma AppendedNothing(fields: seq<Field>, rest: seq<byte>)
    requires rest == []
    ensures Appended(fields, Parse(rest)) == Some(fields)
  {
    assert fields + [] == fields;
  }

  lemma TilingStep(spans: seq<FieldSpan>, span: FieldSpan)
    requires Tiling(spans, span.start) && span.start < span.from <= span.end
    ensures Tiling(spans + [span], span.end)
  {
  }

  lemma SpellsStep(msg: seq<byte>, spans: seq<FieldSpan>, fields: seq<Field>, span: FieldSpan)
    requires Spells(msg, spans, fields) && span.start <= span.from <= span.end <= |msg|
    ensures Spells(msg, spans + [span], fields + [SpanField(msg, span)])
  {
  }

  /** `scan`: the spans lie end to end over the whole message, and each spells the field
      `Parse` finds there. */
  method Scan(msg: seq<byte>) returns (r: Result<seq<FieldSpan>, EditError>)
    requires |msg| <= ISIZE_MAX
    ensures r.Success? <==> Parse(msg).Some?
    ensures r.Failure? ==> r.error == Malformed
    ensures r.Success? ==> Tiling(r.value, |msg|) && Spells(msg, r.value, Parse(msg).value)
  {
    var spans, pos := [], 0;
    ghost var fields := [];
    ScanStarts(msg);
    while pos < |msg|
      invariant Scanned(msg, spans, fields, pos)
      decreases |msg| - pos
    {
      ScanSteps(msg, spans, fields, pos);
      var span :- ReadField(msg, pos);
      spans, fields, pos := spans + [span], fields + [SpanField(msg, span)], span.end;
    }
    ScanEnds(msg, spans, fields);
    return Success(spans);
  }
}
