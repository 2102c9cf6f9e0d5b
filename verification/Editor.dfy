/** `set_field`: rewrite a message so that one field number occurs exactly as a
    replacement block says, in the place of its first occurrence, and copy every other
    field through. On fields this is `Replaced`; `SetField` is the byte loop. */
module Editor {
  import opened Wrappers
  import opened Varint
  import opened Wire

  function Others(fields: seq<Field>, number: nat): seq<Field> {
    if fields == [] then []
    else if fields[0].number == number then Others(fields[1..], number)
    else [fields[0]] + Others(fields[1..], number)
  }

  function Matching(fields: seq<Field>, number: nat): seq<Field> {
    if fields == [] then []
    else if fields[0].number == number then [fields[0]] + Matching(fields[1..], number)
    else Matching(fields[1..], number)
  }

  ghost predicate AllNumbered(fields: seq<Field>, number: nat) {
    forall f :: f in fields ==> f.number == number
  }

  /** `block` in the place of the first `number` field, or appended when there is none;
      no other `number` field is left. */
  function Replaced(fields: seq<Field>, number: nat, block: seq<Field>): seq<Field> {
    if fields == [] then block
    else if fields[0].number == number then block + Others(fields[1..], number)
    else [fields[0]] + Replaced(fields[1..], number, block)
  }

  // ----- the edit as an operation on field lists

  lemma FilterAppend(a: seq<Field>, b: seq<Field>, number: nat)
    ensures Others(a + b, number) == Others(a, number) + Others(b, number)
    ensures Matching(a + b, number) == Matching(a, number) + Matching(b, number)
  {
    OthersAppend(a, b, number);
    MatchingAppend(a, b, number);
  }

  lemma {:induction false} OthersAppend(a: seq<Field>, b: seq<Field>, number: nat)
    ensures Others(a + b, number) == Others(a, number) + Others(b, number)
  {
    var ab := a + b;
    if a == [] {
      assert ab == b;
    } else {
      assert ab[0] == a[0] && ab[1..] == a[1..] + b;
      OthersAppend(a[1..], b, number);
      AppendAssociates(a[0], Others(a[1..], number), Others(b, number));
    }
  }

  lemma {:induction false} MatchingAppend(a: seq<Field>, b: seq<Field>, number: nat)
    ensures Matching(a + b, number) == Matching(a, number) + Matching(b, number)
  {
    var ab := a + b;
    if a == [] {
      assert ab == b;
    } else {
      assert ab[0] == a[0] && ab[1..] == a[1..] + b;
      MatchingAppend(a[1..], b, number);
      AppendAssociates(a[0], Matching(a[1..], number), Matching(b, number));
    }
  }

  lemma {:induction false} FilterBlock(block: seq<Field>, number: nat)
    requires AllNumbered(block, number)
    ensures Others(block, number) == [] && Matching(block, number) == block
  {
    if block != [] { FilterBlock(block[1..], number); }
  }

  lemma {:induction false} FilterOthers(fields: seq<Field>, number: nat)
    ensures Others(Others(fields, number), number) == Others(fields, number)
    ensures Matching(Others(fields, number), number) == []
  {
    if fields != [] {
      FilterOthers(fields[1..], number);
    }
  }

  /** Writing a block leaves exactly the block under its number and every other field, in
      order, as it was. */
  lemma {:induction false} ReplacedFields(fields: seq<Field>, number: nat, block: seq<Field>)
    requires AllNumbered(block, number)
    ensures Matching(Replaced(fields, number, block), number) == block
    ensures Others(Replaced(fields, number, block), number) == Others(fields, number)
  {
    FilterBlock(block, number);
    if fields == [] {
    } else if fields[0].number == number {
      FilterAppend(block, Others(fields[1..], number), number);
      FilterOthers(fields[1..], number);
      assert block + [] == block;
    } else {
      ReplacedFields(fields[1..], number, block);
    }
  }

  /** Fields under another number are untouched by the edit. */
  lemma {:induction false} ReplacedElsewhere(fields: seq<Field>, number: nat, block: seq<Field>, other: nat)
    requires AllNumbered(block, number) && other != number
    ensures Matching(Replaced(fields, number, block), other) == Matching(fields, other)
  {
    MatchingNone(block, number, other);
    if fields == [] {
    } else if fields[0].number == number {
      FilterAppend(block, Others(fields[1..], number), other);
      MatchingOthers(fields[1..], number, other);
    } else {
      ReplacedElsewhere(fields[1..], number, block, other);
    }
  }

  lemma {:induction false} MatchingNone(block: seq<Field>, number: nat, other: nat)
    requires AllNumbered(block, number) && other != number
    ensures Matching(block, other) == []
  {
    if block != [] { MatchingNone(block[1..], number, other); }
  }

  lemma {:induction false} MatchingOthers(fields: seq<Field>, number: nat, other: nat)
    requires other != number
    ensures Matching(Others(fields, number), other) == Matching(fields, other)
  {
    if fields != [] { MatchingOthers(fields[1..], number, other); }
  }

  /** Of two writes to the same field only the second shows, as long as the first left
      something for it to replace. */
  lemma {:induction false} ReplacedTwice(fields: seq<Field>, number: nat, first: seq<Field>, second: seq<Field>)
    requires first != [] && AllNumbered(first, number)
    ensures Replaced(Replaced(fields, number, first), number, second) == Replaced(fields, number, second)
  {
    if fields == [] {
      ReplacedBlock(first, [], number, second);
      assert first + [] == first && second + [] == second;
    } else if fields[0].number == number {
      ReplacedBlock(first, Others(fields[1..], number), number, second);
      FilterOthers(fields[1..], number);
    } else {
      ReplacedTwice(fields[1..], number, first, second);
    }
  }

  lemma {:induction false} ReplacedAbsent(fields: seq<Field>, number: nat, block: seq<Field>)
    requires forall f :: f in fields ==> f.number != number
    ensures Replaced(fields, number, block) == fields + block
  {
    if fields == [] {
      assert [] + block == block;
    } else {
      ReplacedAbsent(fields[1..], number, block);
      assert fields == [fields[0]] + fields[1..];
      AppendAssociates(fields[0], fields[1..], block);
    }
  }

  /** Where a write puts its block: in the place of the first occurrence, the others dropped,
      or after everything else. */
  lemma {:induction false} ReplacedPlace(before: seq<Field>, f: Field, rest: seq<Field>, number: nat, block: seq<Field>)
    requires f.number == number && forall g :: g in before ==> g.number != number
    ensures Replaced(before + ([f] + rest), number, block) == before + (block + Others(rest, number))
    ensures Replaced(before, number, block) == before + block
  {
    ReplacedAbsent(before, number, block);
    var tail, all := [f] + rest, before + ([f] + rest);
    if before == [] {
      assert all == tail && tail[1..] == rest;
      assert [] + (block + Others(rest, number)) == block + Others(rest, number);
    } else {
      assert all[0] == before[0] && all[1..] == before[1..] + tail;
      ReplacedPlace(before[1..], f, rest, number, block);
      assert before == [before[0]] + before[1..];
      AppendAssociates(before[0], before[1..], block + Others(rest, number));
    }
  }

  lemma ReplacedBlock(block: seq<Field>, rest: seq<Field>, number: nat, second: seq<Field>)
    requires block != [] && AllNumbered(block, number)
    ensures Replaced(block + rest, number, second) == second + Others(rest, number)
  {
    var all := block + rest;
    assert all[0] == block[0] && all[1..] == block[1..] + rest;
    FilterAppend(block[1..], rest, number);
    FilterBlock(block[1..], number);
    assert [] + Others(rest, number) == Others(rest, number);
  }

  /** Removing is dropping every occurrence. */
  lemma {:induction false} RemovedIsOthers(fields: seq<Field>, number: nat)
    ensures Replaced(fields, number, []) == Others(fields, number)
  {
    if fields != [] {
      if fields[0].number == number {
        assert [] + Others(fields[1..], number) == Others(fields[1..], number);
      } else {
        RemovedIsOthers(fields[1..], number);
      }
    }
  }

  lemma {:induction false} OthersLength(fields: seq<Field>, number: nat)
    ensures |Others(fields, number)| + |Matching(fields, number)| == |fields|
    ensures Matching(fields, number) == [] ==> Others(fields, number) == fields
  {
    if fields != [] { OthersLength(fields[1..], number); }
  }

  /** The fields whose number is none of `numbers`. */
  function Untouched(fields: seq<Field>, numbers: set<nat>): seq<Field> {
    if fields == [] then []
    else if fields[0].number in numbers then Untouched(fields[1..], numbers)
    else [fields[0]] + Untouched(fields[1..], numbers)
  }

  /** What is untouched is all there is but the fields of those numbers, taken out one by one. */
  lemma {:induction false} UntouchedPeels(fields: seq<Field>, numbers: set<nat>, number: nat)
    ensures Untouched(fields, {}) == fields
    ensures Untouched(fields, numbers + {number}) == Others(Untouched(fields, numbers), number)
  {
    if fields != [] { UntouchedPeels(fields[1..], numbers, number); }
  }

  lemma {:induction false} UntouchedAppend(a: seq<Field>, b: seq<Field>, numbers: set<nat>)
    ensures Untouched(a + b, numbers) == Untouched(a, numbers) + Untouched(b, numbers)
  {
    var ab := a + b;
    if a == [] {
      assert ab == b;
    } else {
      assert ab[0] == a[0] && ab[1..] == a[1..] + b;
      UntouchedAppend(a[1..], b, numbers);
      AppendAssociates(a[0], Untouched(a[1..], numbers), Untouched(b, numbers));
    }
  }

  lemma {:induction false} UntouchedBlock(block: seq<Field>, number: nat, numbers: set<nat>)
    requires AllNumbered(block, number) && number in numbers
    ensures Untouched(block, numbers) == []
  {
    if block != [] { UntouchedBlock(block[1..], number, numbers); }
  }

  lemma {:induction false} UntouchedOthers(fields: seq<Field>, number: nat, numbers: set<nat>)
    requires number in numbers
    ensures Untouched(Others(fields, number), numbers) == Untouched(fields, numbers)
  {
    if fields != [] { UntouchedOthers(fields[1..], number, numbers); }
  }

  lemma {:induction false} UntouchedReplaced(fields: seq<Field>, number: nat, block: seq<Field>, numbers: set<nat>)
    requires AllNumbered(block, number) && number in numbers
    ensures Untouched(Replaced(fields, number, block), numbers) == Untouched(fields, numbers)
  {
    UntouchedBlock(block, number, numbers);
    if fields == [] {
    } else if fields[0].number == number {
      UntouchedAppend(block, Others(fields[1..], number), numbers);
      UntouchedOthers(fields[1..], number, numbers);
      assert [] + Untouched(fields[1..], numbers) == Untouched(fields[1..], numbers);
    } else {
      UntouchedReplaced(fields[1..], number, block, numbers);
    }
  }

  lemma {:induction false} WidenUntouched(fields: seq<Field>, numbers: set<nat>, more: set<nat>)
    requires numbers <= more
    ensures Untouched(fields, more) == Untouched(Untouched(fields, numbers), more)
  {
    if fields != [] { WidenUntouched(fields[1..], numbers, more); }
  }

  lemma {:induction false} ReplacedSound(fields: seq<Field>, number: nat, block: seq<Field>)
    requires AllSound(fields) && AllSound(block)
    ensures AllSound(Replaced(fields, number, block))
  {
    OthersSound(fields, number);
    if fields != [] {
      OthersSound(fields[1..], number);
      if fields[0].number != number {
        ReplacedSound(fields[1..], number, block);
      }
    }
  }

  lemma {:induction false} OthersSound(fields: seq<Field>, number: nat)
    requires AllSound(fields)
    ensures AllSound(Others(fields, number))
  {
    if fields != [] { OthersSound(fields[1..], number); }
  }

  // ----- the edit on bytes

  /** The bytes `set_field` writes for these fields: `None` removes. */
  function Rewritten(fields: seq<Field>, number: nat, replacement: Option<seq<byte>>): seq<byte> {
    if fields == [] then replacement.GetOr([])
    else if fields[0].number == number then replacement.GetOr([]) + Concat(Others(fields[1..], number))
    else fields[0].whole + Rewritten(fields[1..], number, replacement)
  }

  function SetFieldSpec(msg: seq<byte>, number: nat, replacement: Option<seq<byte>>): Result<seq<byte>, EditError> {
    match Parse(msg)
    case None => Failure(Malformed)
    case Some(fields) => Success(Rewritten(fields, number, replacement))
  }

  lemma {:induction false} RewrittenIsReplaced(fields: seq<Field>, number: nat, block: seq<Field>,
                                               replacement: Option<seq<byte>>)
    requires replacement.GetOr([]) == Concat(block)
    ensures Rewritten(fields, number, replacement) == Concat(Replaced(fields, number, block))
  {
    if fields == [] {
    } else if fields[0].number == number {
      ConcatAppend(block, Others(fields[1..], number));
    } else {
      RewrittenIsReplaced(fields[1..], number, block, replacement);
      var tail := Replaced(fields[1..], number, block);
      assert ([fields[0]] + tail)[1..] == tail;
    }
  }

  /** What `set_field` writes always scans again: to the old fields with the target's
      occurrences replaced by the block where the first one stood, or appended. */
  lemma SetFieldScans(msg: seq<byte>, number: nat, block: seq<Field>, replacement: Option<seq<byte>>)
    requires Parse(msg).Some? && AllSound(block) && replacement.GetOr([]) == Concat(block)
    ensures SetFieldSpec(msg, number, replacement).Success?
    ensures Parse(SetFieldSpec(msg, number, replacement).value) == Some(Replaced(Parse(msg).value, number, block))
  {
    var fields := Parse(msg).value;
    ParseTiles(msg);
    ReplacedSound(fields, number, block);
    RewrittenIsReplaced(fields, number, block, replacement);
    ParseOfConcat(Replaced(fields, number, block));
  }

  /** How far the loop of `set_field` has come: `out` followed by what the remaining
      fields call for is the whole rewrite. */
  function Remaining(fields: seq<Field>, number: nat, replacement: Option<seq<byte>>, placed: bool): seq<byte> {
    if placed then Concat(Others(fields, number)) else Rewritten(fields, number, replacement)
  }

  lemma {:induction false} RemovedBytes(fields: seq<Field>, number: nat)
    ensures Rewritten(fields, number, None) == Concat(Others(fields, number))
  {
    RewrittenIsReplaced(fields, number, [], None);
    RemovedIsOthers(fields, number);
  }

  lemma RemainingStep(fields: seq<Field>, number: nat, replacement: Option<seq<byte>>, placed: bool, out: seq<byte>)
    requires fields != []
    requires placed ==> replacement.Some?
    ensures out + Remaining(fields, number, replacement, placed) ==
            if fields[0].number != number
              then (out + fields[0].whole) + Remaining(fields[1..], number, replacement, placed)
            else if replacement.Some? && !placed
              then (out + replacement.value) + Remaining(fields[1..], number, replacement, true)
            else out + Remaining(fields[1..], number, replacement, placed)
  {
    var f, rest := fields[0], fields[1..];
    if f.number != number {
      ConcatCons(f, Others(rest, number));
      assert out + (f.whole + Remaining(rest, number, replacement, placed)) ==
          (out + f.whole) + Remaining(rest, number, replacement, placed);
    } else if replacement.Some? && !placed {
      assert out + (replacement.value + Concat(Others(rest, number))) ==
          (out + replacement.value) + Concat(Others(rest, number));
    } else if !placed {
      RemovedBytes(rest, number);
      assert [] + Concat(Others(rest, number)) == Concat(Others(rest, number));
    }
  }

  lemma ConcatCons(f: Field, rest: seq<Field>)
    ensures Concat([f] + rest) == f.whole + Concat(rest)
  {
    assert ([f] + rest)[1..] == rest;
  }

  ghost predicate Rewriting(fields: seq<Field>, at: nat, number: nat, replacement: Option<seq<byte>>, placed: bool,
                            out: seq<byte>)
  {
    && at <= |fields|
    && (placed ==> replacement.Some?)
    && out + Remaining(fields[at..], number, replacement, placed) == Rewritten(fields, number, replacement)
  }

  lemma RewritingStarts(fields: seq<Field>, number: nat, replacement: Option<seq<byte>>)
    ensures Rewriting(fields, 0, number, replacement, false, [])
  {
    assert fields[0..] == fields;
    var all := Rewritten(fields, number, replacement);
    assert [] + all == all;
  }

  lemma RewritingSteps(fields: seq<Field>, at: nat, number: nat, replacement: Option<seq<byte>>, placed: bool,
                       out: seq<byte>)
    requires at < |fields| && Rewriting(fields, at, number, replacement, placed, out)
    ensures if fields[at].number != number
            then Rewriting(fields, at + 1, number, replacement, placed, out + fields[at].whole)
            else if replacement.Some? && !placed
              then Rewriting(fields, at + 1, number, replacement, true, out + replacement.value)
            else Rewriting(fields, at + 1, number, replacement, placed, out)
  {
    assert fields[at..][0] == fields[at] && fields[at..][1..] == fields[at + 1..];
    RemainingStep(fields[at..], number, replacement, placed, out);
  }

  lemma RewritingEnds(fields: seq<Field>, number: nat, replacement: Option<seq<byte>>, placed: bool, out: seq<byte>)
    requires Rewriting(fields, |fields|, number, replacement, placed, out)
    ensures Rewritten(fields, number, replacement) == if placed then out else out + replacement.GetOr([])
  {
    assert fields[|fields|..] == [];
    assert out + [] == out;
  }

  method SetField(msg: seq<byte>, number: nat, replacement: Option<seq<byte>>) returns (r: Result<seq<byte>, EditError>)
    requires |msg| <= ISIZE_MAX
    ensures r == SetFieldSpec(msg, number, replacement)
  {
    var spans :- Scan(msg);
    ghost var fields := Parse(msg).value;
    var out, placed := [], false;
    RewritingStarts(fields, number, replacement);
    for i := 0 to |spans|
      invariant Rewriting(fields, i, number, replacement, placed, out)
    {
      var span := spans[i];
      assert SpanField(msg, span) == fields[i];
      RewritingSteps(fields, i, number, replacement, placed, out);
      if span.number == number {
        if replacement.Some? && !placed {
          out, placed := out + replacement.value, true;
        }
      } else {
        out := out + msg[span.start..span.end];
      }
    }
    RewritingEnds(fields, number, replacement, placed, out);
    if !placed && replacement.Some? {
      out := out + replacement.value;
    } else {
      assert out + [] == out;
    }
    return Success(out);
  }
}
