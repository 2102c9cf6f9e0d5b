/** A backup's group history: the runs of items that are one change are joined
    (`coalesce_group_changes`, backup/convert.rs), and a batch of updates is planned as one
    set of actions (backup/group_change.rs). */
module GroupChanges {
  import opened Wrappers

  // ----- joining runs

  /** What one update says; its content is opaque here, but for creations. */
  datatype Update = Creation(updater: Option<string>) | OtherUpdate(content: string)

  datatype ItemBody = GroupChange(updates: seq<Update>) | OtherBody(content: string)

  datatype ChatItem = ChatItem(chatId: nat, authorId: nat, dateSent: nat, body: ItemBody)

  predicate SameRun(held: ChatItem, next: ChatItem) {
    held.chatId == next.chatId && held.authorId == next.authorId && held.dateSent == next.dateSent &&
        next.body.GroupChange?
  }

  function Joined(held: ChatItem, next: ChatItem): ChatItem
    requires held.body.GroupChange? && next.body.GroupChange?
  {
    held.(body := GroupChange(held.body.updates + next.body.updates))
  }

  type Slot = p: Option<ChatItem> | p.Some? ==> p.value.body.GroupChange? witness None

  /** The slot after one more item. */
  function SlotAfter(pending: Slot, next: ChatItem): Slot {
    if pending.Some? && SameRun(pending.value, next) then Some(Joined(pending.value, next))
    else if next.body.GroupChange? then Some(next)
    else None
  }

  /** What one more item makes ready. */
  function Ready(pending: Slot, next: ChatItem): seq<ChatItem> {
    if pending.Some? && SameRun(pending.value, next) then []
    else Held(pending) + if next.body.GroupChange? then [] else [next]
  }

  function Held(pending: Slot): seq<ChatItem> {
    if pending.Some? then [pending.value] else []
  }

  class Coalescer {
    var pending: Slot

    /** Absorb the item into the held run, or release the run and hold or pass the item. */
    method Coalesce(next: ChatItem) returns (ready: seq<ChatItem>)
      modifies this
      ensures pending == SlotAfter(old(pending), next)
      ensures ready == Ready(old(pending), next)
    {
      ready := [];
      match pending {
        case Some(held) =>
          if SameRun(held, next) {
            pending := Some(held.(body := GroupChange(held.body.updates + next.body.updates)));
            return;
          }
          pending := None;
          ready := ready + [held];
        case None =>
      }
      if next.body.GroupChange? {
        pending := Some(next);
      } else {
        ready := ready + [next];
      }
    }

    /** The import's loop over the items of a backup, and the flush at its end. */
    method CoalesceAll(items: seq<ChatItem>) returns (out: seq<ChatItem>)
      requires pending == None
      modifies this
      ensures out == Coalesced(None, items) && pending == None
    {
      out := [];
      assert items[0..] == items;
      for i := 0 to |items|
        invariant out + Coalesced(pending, items[i..]) == Coalesced(None, items)
      {
        CoalescedStep(pending, items, i, out);
        var ready := Coalesce(items[i]);
        out := out + ready;
      }
      assert items[|items|..] == [];
      if pending.Some? {
        out := out + [pending.value];
      }
      pending := None;
    }
  }

  /** Everything a stream yields, from a held run on. */
  function Coalesced(pending: Slot, items: seq<ChatItem>): seq<ChatItem>
    decreases |items|
  {
    if items == [] then Held(pending)
    else Ready(pending, items[0]) + Coalesced(SlotAfter(pending, items[0]), items[1..])
  }

  lemma CoalescedStep(pending: Slot, items: seq<ChatItem>, i: nat, out: seq<ChatItem>)
    requires i < |items|
    ensures out + Coalesced(pending, items[i..]) ==
            (out + Ready(pending, items[i])) + Coalesced(SlotAfter(pending, items[i]), items[i + 1..])
  {
    var rest := items[i..];
    assert rest[0] == items[i] && rest[1..] == items[i + 1..];
  }

  /** One thing the backup records: an update with the change it belongs to, or an item. */
  datatype Event = UpdateOf(chatId: nat, authorId: nat, dateSent: nat, update: Update) | Whole(item: ChatItem)

  function UpdatesOf(item: ChatItem, updates: seq<Update>): seq<Event> {
    if updates == [] then []
      else [UpdateOf(item.chatId, item.authorId, item.dateSent, updates[0])] + UpdatesOf(item, updates[1..])
  }

  function EventsOf(item: ChatItem): seq<Event> {
    if item.body.GroupChange? then UpdatesOf(item, item.body.updates) else [Whole(item)]
  }

  function History(items: seq<ChatItem>): seq<Event> {
    if items == [] then [] else EventsOf(items[0]) + History(items[1..])
  }

  lemma {:induction false} UpdatesAppend(a: ChatItem, b: ChatItem, first: seq<Update>, second: seq<Update>)
    requires a.chatId == b.chatId && a.authorId == b.authorId && a.dateSent == b.dateSent
    ensures UpdatesOf(a, first + second) == UpdatesOf(a, first) + UpdatesOf(b, second)
  {
    if first == [] {
      assert [] + second == second;
      SameUpdates(a, b, second);
    } else {
      UpdatesAppend(a, b, first[1..], second);
      assert (first + second)[1..] == first[1..] + second;
    }
  }

  lemma {:induction false} SameUpdates(a: ChatItem, b: ChatItem, updates: seq<Update>)
    requires a.chatId == b.chatId && a.authorId == b.authorId && a.dateSent == b.dateSent
    ensures UpdatesOf(a, updates) == UpdatesOf(b, updates)
  {
    if updates != [] { SameUpdates(a, b, updates[1..]); }
  }

  lemma {:induction false} HistoryAppend(a: seq<ChatItem>, b: seq<ChatItem>)
    ensures History(a + b) == History(a) + History(b)
  {
    var ab := a + b;
    if a == [] {
      assert ab == b;
    } else {
      assert ab[0] == a[0] && ab[1..] == a[1..] + b;
      HistoryAppend(a[1..], b);
    }
  }

  lemma StepHistory(pending: Slot, next: ChatItem)
    ensures History(Ready(pending, next)) + History(Held(SlotAfter(pending, next))) ==
            History(Held(pending)) + EventsOf(next)
  {
    assert History([next]) == EventsOf(next) + [] == EventsOf(next);
    if pending.Some? {
      var held := pending.value;
      assert History([held]) == EventsOf(held) + [] == EventsOf(held);
      if SameRun(held, next) {
        UpdatesAppend(held, next, held.body.updates, next.body.updates);
        var joined := Joined(held, next);
        SameUpdates(joined, held, joined.body.updates);
        assert History([joined]) == EventsOf(joined) + [] == EventsOf(joined);
      } else if !next.body.GroupChange? {
        HistoryAppend([held], [next]);
      }
    }
  }

  /** Conservative: the whole history, every update under its chat, author and instant and
      every other item, is what it was, in the order it was. */
  lemma {:induction false} CoalescingKeepsHistory(pending: Slot, items: seq<ChatItem>)
    ensures History(Coalesced(pending, items)) == History(Held(pending)) + History(items)
    decreases |items|
  {
    if items != [] {
      var next, rest := items[0], items[1..];
      StepHistory(pending, next);
      CoalescingKeepsHistory(SlotAfter(pending, next), rest);
      HistoryAppend(Ready(pending, next), Coalesced(SlotAfter(pending, next), rest));
      Regroup(History(Ready(pending, next)), History(Held(SlotAfter(pending, next))), History(rest),
              History(Held(pending)), EventsOf(next));
    }
  }

  lemma Regroup(a: seq<Event>, b: seq<Event>, c: seq<Event>, d: seq<Event>, e: seq<Event>)
    requires a + b == d + e
    ensures a + (b + c) == d + (e + c)
  {
    assert a + (b + c) == (a + b) + c;
    assert d + (e + c) == (d + e) + c;
  }

  /** Two items of one change: of the same chat, by the same author, at the same instant. */
  predicate OneChange(a: ChatItem, b: ChatItem) {
    a.body.GroupChange? && b.body.GroupChange? && a.chatId == b.chatId && a.authorId == b.authorId &&
        a.dateSent == b.dateSent
  }

  /** No two neighbours could still be joined. */
  predicate Maximal(items: seq<ChatItem>) {
    forall i :: 0 <= i < |items| - 1 ==> !OneChange(items[i], items[i + 1])
  }

  /** Two items that start alike: both of the run, or the same item. */
  predicate StartsAs(first: ChatItem, item: ChatItem) {
    if item.body.GroupChange? then SameRun(item, first) else first == item
  }

  lemma StartsAlike(before: ChatItem, first: ChatItem, item: ChatItem)
    requires StartsAs(first, item)
    ensures SameRun(before, first) <==> SameRun(before, item)
  {
  }

  lemma PrependMaximal(item: ChatItem, rest: seq<ChatItem>)
    requires Maximal(rest) && (rest != [] ==> !(item.body.GroupChange? && SameRun(item, rest[0])))
    ensures Maximal([item] + rest)
  {
    var all := [item] + rest;
    forall i | 0 <= i < |all| - 1 ensures !OneChange(all[i], all[i + 1]) {
      if i > 0 { assert all[i] == rest[i - 1] && all[i + 1] == rest[i]; }
    }
  }

  /** Maximal: no two neighbours of what comes out share chat, author and instant. */
  lemma {:induction false} CoalescingIsMaximal(pending: Slot, items: seq<ChatItem>)
    ensures var out := Coalesced(pending, items);
            && Maximal(out)
            && (pending.Some? ==> out != [] && StartsAs(out[0], pending.value))
            && (pending == None && items != [] ==> out != [] && StartsAs(out[0], items[0]))
    decreases |items|
  {
    if items != [] {
      var next, rest := items[0], items[1..];
      var slot := SlotAfter(pending, next);
      CoalescingIsMaximal(slot, rest);
      var tail := Coalesced(slot, rest);
      var passed := if next.body.GroupChange? then tail else [next] + tail;
      if pending.Some? && SameRun(pending.value, next) {
        assert Ready(pending, next) + tail == tail;
      } else {
        if !next.body.GroupChange? { PrependMaximal(next, tail); }
        if pending.Some? {
          PrependMaximal(pending.value, passed);
          assert Ready(pending, next) + tail == [pending.value] + passed;
        } else {
          assert Ready(pending, next) + tail == passed;
        }
      }
    }
  }

  lemma {:induction false} MaximalIsFixed(pending: Slot, items: seq<ChatItem>)
    requires Maximal(items) && (pending.Some? && items != [] ==> !SameRun(pending.value, items[0]))
    ensures Coalesced(pending, items) == Held(pending) + items
    decreases |items|
  {
    if items != [] {
      var next, rest := items[0], items[1..];
      assert Maximal(rest) by {
        assert forall i :: 0 <= i < |rest| ==> rest[i] == items[i + 1];
      }
      assert rest != [] ==> rest[0] == items[1];
      MaximalIsFixed(SlotAfter(pending, next), rest);
      assert [next] + rest == items;
    }
  }

  /** Running it again changes nothing. */
  lemma CoalescingTwice(items: seq<ChatItem>)
    ensures Coalesced(None, Coalesced(None, items)) == Coalesced(None, items)
  {
    CoalescingIsMaximal(None, items);
    MaximalIsFixed(None, Coalesced(None, items));
  }

  /** One change of a group, or an item: where it stands, whatever it holds. */
  datatype Mark = ChangeAt(chatId: nat, authorId: nat, dateSent: nat) | ItemAt(item: ChatItem)

  function MarkOf(item: ChatItem): Mark {
    if item.body.GroupChange? then ChangeAt(item.chatId, item.authorId, item.dateSent) else ItemAt(item)
  }

  /** The changes and items of a stream in order, a run of items of one change once. */
  function Outline(items: seq<ChatItem>): seq<Mark> {
    if items == [] then []
    else if items[0].body.GroupChange? && |items| > 1 && SameRun(items[0], items[1]) then Outline(items[1..])
    else [MarkOf(items[0])] + Outline(items[1..])
  }

  /** An outline depends on an item of a change only through what the change is. */
  lemma {:induction false} OutlineStarts(first: ChatItem, item: ChatItem, rest: seq<ChatItem>)
    requires StartsAs(first, item)
    ensures Outline([first] + rest) == Outline([item] + rest)
  {
    assert ([first] + rest)[1..] == rest && ([item] + rest)[1..] == rest;
  }

  lemma OutlineStep(item: ChatItem, rest: seq<ChatItem>)
    requires rest != []
    ensures Outline([item] + rest) ==
            if item.body.GroupChange? && SameRun(item, rest[0]) then Outline(rest) else [MarkOf(item)] + Outline(rest)
  {
    assert ([item] + rest)[1..] == rest;
  }

  /** Where a run is held, what follows it in the stream follows it in the outline. */
  lemma OutlineAfterHeld(pending: Slot, out: seq<ChatItem>, items: seq<ChatItem>)
    requires out != [] && items != [] && StartsAs(out[0], items[0]) && Outline(out) == Outline(items)
    requires pending.Some? ==> !SameRun(pending.value, items[0])
    ensures Outline(Held(pending) + out) == Outline(Held(pending) + items)
  {
    if pending.Some? {
      StartsAlike(pending.value, out[0], items[0]);
      OutlineStep(pending.value, out);
      OutlineStep(pending.value, items);
    } else {
      assert Held(pending) + out == out && Held(pending) + items == items;
    }
  }

  lemma OutlineJoined(held: ChatItem, next: ChatItem, rest: seq<ChatItem>)
    requires held.body.GroupChange? && SameRun(held, next)
    ensures Outline([Joined(held, next)] + rest) == Outline([held] + ([next] + rest))
  {
    OutlineStarts(Joined(held, next), next, rest);
    OutlineStep(held, [next] + rest);
  }

  lemma OutlinePassed(next: ChatItem, out: seq<ChatItem>, items: seq<ChatItem>)
    requires !next.body.GroupChange? && Outline(out) == Outline(items)
    ensures Outline([next] + out) == Outline([next] + items)
  {
    assert ([next] + out)[1..] == out && ([next] + items)[1..] == items;
  }

  /** No change and no item goes missing, appears or moves, an item without updates included. */
  lemma {:induction false} CoalescingKeepsOutline(pending: Slot, items: seq<ChatItem>)
    ensures Outline(Coalesced(pending, items)) == Outline(Held(pending) + items)
    decreases |items|
  {
    if items == [] {
      assert Held(pending) + items == Held(pending);
    } else {
      var slot, rest := SlotAfter(pending, items[0]), items[1..];
      CoalescingKeepsOutline(slot, rest);
      CoalescingIsMaximal(slot, rest);
      OutlineOfStep(pending, items, Coalesced(slot, rest));
    }
  }

  lemma OutlineOfStep(pending: Slot, items: seq<ChatItem>, tail: seq<ChatItem>)
    requires items != []
    requires var slot := SlotAfter(pending, items[0]);
             Outline(tail) == Outline(Held(slot) + items[1..]) &&
                 (slot.Some? ==> tail != [] && StartsAs(tail[0], slot.value))
    ensures Outline(Ready(pending, items[0]) + tail) == Outline(Held(pending) + items)
  {
    var next, rest := items[0], items[1..];
    assert items == [next] + rest;
    if pending.Some? && SameRun(pending.value, next) {
      assert Ready(pending, next) + tail == tail;
      OutlineJoined(pending.value, next, rest);
    } else if next.body.GroupChange? {
      assert Ready(pending, next) == Held(pending);
      OutlineAfterHeld(pending, tail, items);
    } else {
      assert [] + rest == rest;
      OutlinePassed(next, tail, rest);
      OutlineAfterHeld(pending, [next] + tail, items);
      assert Ready(pending, next) + tail == Held(pending) + ([next] + tail);
    }
  }

  // ----- planning a batch

  /** `Actions`, its repeated fields and its singular fields each in declaration order. */
  datatype Actions = Actions(repeated: seq<seq<string>>, singular: seq<Option<string>>)

  const REPEATED_FIELDS: nat := 14
  const SINGULAR_FIELDS: nat := 11

  predicate WellShaped(a: Actions) {
    |a.repeated| == REPEATED_FIELDS && |a.singular| == SINGULAR_FIELDS
  }

  function NoActions(): Actions {
    Actions(seq(REPEATED_FIELDS, _ => []), seq(SINGULAR_FIELDS, _ => None))
  }

  function Or(later: Option<string>, earlier: Option<string>): Option<string> {
    if later.Some? then later else earlier
  }

  /** Lists are joined, earlier first; of two single values the later stays. */
  function MergeActions(into: Actions, from: Actions): (r: Actions)
    requires WellShaped(into) && WellShaped(from)
    ensures WellShaped(r)
  {
    Actions(seq(REPEATED_FIELDS, i requires 0 <= i < REPEATED_FIELDS => into.repeated[i] + from.repeated[i]),
            seq(SINGULAR_FIELDS, i requires 0 <= i < SINGULAR_FIELDS => Or(from.singular[i], into.singular[i])))
  }

  /** What one update plans: the editor it names, and its actions when no participant is
      missing. The builders behind it are the group library's. */
  datatype Planned = Planned(editor: Option<string>, actions: Option<Actions>)

  ghost predicate Shaped(plan: Update -> Planned) {
    forall u :: plan(u).actions.Some? ==> WellShaped(plan(u).actions.value)
  }

  /** A change goes out as the bytes the group's encryption makes of it. */
  datatype GroupUpdate = Created | Change(bytes: seq<nat>)

  /** The group library's encryption of one change, by its editor; it may fail. */
  type Encrypt = (string, Actions) -> Option<seq<nat>>

  /** Who the first creation of the batch names, if there is a creation. */
  function FirstCreation(updates: seq<Update>): Option<Option<string>> {
    if updates == [] then None
    else if updates[0].Creation? then Some(updates[0].updater)
    else FirstCreation(updates[1..])
  }

  datatype BatchPlan = BatchPlan(editor: Option<string>, actions: Actions)

  function OneMore(batch: BatchPlan, p: Planned): (r: BatchPlan)
    requires WellShaped(batch.actions) && (p.actions.Some? ==> WellShaped(p.actions.value))
    ensures WellShaped(r.actions)
  {
    BatchPlan(Or(p.editor, batch.editor),
              if p.actions.Some? then MergeActions(batch.actions, p.actions.value) else batch.actions)
  }

  /** The updates of a batch planned in order: the last editor named, the actions merged. */
  ghost function Batch(plan: Update -> Planned, updates: seq<Update>): (r: BatchPlan)
    requires Shaped(plan)
    ensures WellShaped(r.actions)
  {
    if updates == [] then BatchPlan(None, NoActions())
    else OneMore(Batch(plan, updates[..|updates| - 1]), plan(updates[|updates| - 1]))
  }

  /** One change by `editor`, if it encrypts. */
  function Encrypted(encrypt: Encrypt, editor: string, actions: Actions): Option<(string, GroupUpdate)> {
    var bytes :- encrypt(editor, actions);
    Some((editor, Change(bytes)))
  }

  /** What a batch becomes: the group's creation if one of its updates is that, else one
      change, if that encrypts; made by the editor named, or the fallback. */
  ghost function GroupPlan(plan: Update -> Planned, encrypt: Encrypt, updates: seq<Update>,
                           fallback: string): Option<(string, GroupUpdate)>
    requires Shaped(plan)
  {
    match FirstCreation(updates)
    case Some(updater) => Some((updater.GetOr(fallback), Created))
    case None => Encrypted(encrypt, Batch(plan, updates).editor.GetOr(fallback), Batch(plan, updates).actions)
  }

  method PlanGroupUpdate(plan: Update -> Planned, encrypt: Encrypt, updates: seq<Update>, fallback: string)
    returns (r: Option<(string, GroupUpdate)>)
    requires Shaped(plan)
    ensures r == GroupPlan(plan, encrypt, updates, fallback)
  {
    var creation := FirstCreation(updates);
    if creation.Some? {
      return Some((creation.value.GetOr(fallback), Created));
    }
    var named: Option<string> := None;
    var merged := NoActions();
    for i := 0 to |updates|
      invariant WellShaped(merged) && BatchPlan(named, merged) == Batch(plan, updates[..i])
    {
      assert updates[..i + 1][..i] == updates[..i];
      var planned := plan(updates[i]);
      named := Or(planned.editor, named);
      if planned.actions.Some? {
        merged := MergeActions(merged, planned.actions.value);
      }
    }
    assert updates[..|updates|] == updates;
    var editor := named.GetOr(fallback);
    var bytes :- encrypt(editor, merged);
    return Some((editor, Change(bytes)));
  }

  lemma MergeAssociates(a: Actions, b: Actions, c: Actions)
    requires WellShaped(a) && WellShaped(b) && WellShaped(c)
    ensures MergeActions(MergeActions(a, b), c) == MergeActions(a, MergeActions(b, c))
  {
    forall i | 0 <= i < REPEATED_FIELDS
      ensures (a.repeated[i] + b.repeated[i]) + c.repeated[i] == a.repeated[i] + (b.repeated[i] + c.repeated[i])
    {
    }
  }

  lemma MergeNothing(a: Actions)
    requires WellShaped(a)
    ensures MergeActions(a, NoActions()) == a && MergeActions(NoActions(), a) == a
  {
    forall i | 0 <= i < REPEATED_FIELDS
        ensures a.repeated[i] + [] == a.repeated[i] && [] + a.repeated[i] == a.repeated[i] {
    }
  }

  /** Planning two batches as one is planning each and merging: the later editor that was
      named, the actions of both in order. */
  lemma {:induction false} BatchConcat(plan: Update -> Planned, a: seq<Update>, b: seq<Update>)
    requires Shaped(plan)
    ensures Batch(plan, a + b) ==
            BatchPlan(Or(Batch(plan, b).editor, Batch(plan, a).editor),
                      MergeActions(Batch(plan, a).actions, Batch(plan, b).actions))
  {
    var ab := a + b;
    if b == [] {
      assert ab == a;
      MergeNothing(Batch(plan, a).actions);
    } else {
      var n := |b| - 1;
      assert ab[..|ab| - 1] == a + b[..n] && ab[|ab| - 1] == b[n];
      BatchConcat(plan, a, b[..n]);
      var p := plan(b[n]);
      if p.actions.Some? {
        MergeAssociates(Batch(plan, a).actions, Batch(plan, b[..n]).actions, p.actions.value);
      }
    }
  }

  lemma {:induction false} CreationConcat(a: seq<Update>, b: seq<Update>)
    ensures FirstCreation(a + b) == if FirstCreation(a).Some? then FirstCreation(a) else FirstCreation(b)
  {
    if a == [] {
      assert a + b == b;
    } else {
      assert (a + b)[1..] == a[1..] + b;
      CreationConcat(a[1..], b);
    }
  }

  /** Joining two items of a run before planning gives what planning them apart and merging
      would; a creation in either makes the whole a creation, and the first one names it. */
  lemma JoinedPlan(plan: Update -> Planned, encrypt: Encrypt, held: ChatItem, next: ChatItem, fallback: string)
    requires Shaped(plan) && held.body.GroupChange? && next.body.GroupChange?
    ensures var (a, b) := (held.body.updates, next.body.updates);
            GroupPlan(plan, encrypt, Joined(held, next).body.updates, fallback) ==
              if FirstCreation(a).Some? then GroupPlan(plan, encrypt, a, fallback)
              else if FirstCreation(b).Some? then GroupPlan(plan, encrypt, b, fallback)
              else Encrypted(encrypt, Or(Batch(plan, b).editor, Batch(plan, a).editor).GetOr(fallback),
                             MergeActions(Batch(plan, a).actions, Batch(plan, b).actions))
  {
    CreationConcat(held.body.updates, next.body.updates);
    BatchConcat(plan, held.body.updates, next.body.updates);
  }

  // ----- what a batch comes to, field by field

  predicate FirstCreationAt(updates: seq<Update>, i: nat) {
    i < |updates| && updates[i].Creation? && forall j :: 0 <= j < i ==> !updates[j].Creation?
  }

  /** The first creation of a batch, wherever it stands, is the one that names it. */
  lemma {:induction false} FirstCreationIs(updates: seq<Update>, i: nat)
    requires FirstCreationAt(updates, i)
    ensures FirstCreation(updates) == Some(updates[i].updater)
  {
    if i > 0 { FirstCreationIs(updates[1..], i - 1); }
  }

  lemma {:induction false} NoCreation(updates: seq<Update>)
    requires forall j :: 0 <= j < |updates| ==> !updates[j].Creation?
    ensures FirstCreation(updates) == None
  {
    if updates != [] { NoCreation(updates[1..]); }
  }

  /** The editor is the one the last update to name one names. */
  lemma {:induction false} LastEditorNamed(plan: Update -> Planned, updates: seq<Update>, i: nat)
    requires Shaped(plan) && i < |updates| && plan(updates[i]).editor.Some?
    requires forall j :: i < j < |updates| ==> plan(updates[j]).editor == None
    ensures Batch(plan, updates).editor == plan(updates[i]).editor
    decreases |updates|
  {
    if i < |updates| - 1 { LastEditorNamed(plan, updates[..|updates| - 1], i); }
  }

  lemma {:induction false} NoEditorNamed(plan: Update -> Planned, updates: seq<Update>)
    requires Shaped(plan) && forall j :: 0 <= j < |updates| ==> plan(updates[j]).editor == None
    ensures Batch(plan, updates).editor == None
    decreases |updates|
  {
    if updates != [] { NoEditorNamed(plan, updates[..|updates| - 1]); }
  }

  /** What one update plans for a field that is a list. */
  function PlannedList(p: Planned, field: nat): seq<string>
    requires field < REPEATED_FIELDS && (p.actions.Some? ==> WellShaped(p.actions.value))
  {
    if p.actions.Some? then p.actions.value.repeated[field] else []
  }

  /** The lists planned, first update first. */
  ghost function AllPlanned(plan: Update -> Planned, updates: seq<Update>, field: nat): seq<string>
    requires Shaped(plan) && field < REPEATED_FIELDS
  {
    if updates == [] then []
    else PlannedList(plan(updates[0]), field) + AllPlanned(plan, updates[1..], field)
  }

  lemma {:induction false} AllPlannedLast(plan: Update -> Planned, updates: seq<Update>, field: nat)
    requires Shaped(plan) && field < REPEATED_FIELDS && updates != []
    ensures AllPlanned(plan, updates, field) ==
            AllPlanned(plan, updates[..|updates| - 1], field) + PlannedList(plan(updates[|updates| - 1]), field)
  {
    var n := |updates| - 1;
    if n > 0 {
      var rest, init := updates[1..], updates[..n];
      AllPlannedLast(plan, rest, field);
      assert rest[..n - 1] == init[1..] && rest[n - 1] == updates[n] && init[0] == updates[0];
      var head, middle := PlannedList(plan(updates[0]), field), AllPlanned(plan, init[1..], field);
      var last := PlannedList(plan(updates[n]), field);
      assert AllPlanned(plan, init, field) == head + middle;
      assert head + (middle + last) == (head + middle) + last;
    }
  }

  /** A list field holds what each update plans for it, in the order of the updates. */
  lemma {:induction false} ListsInOrder(plan: Update -> Planned, updates: seq<Update>, field: nat)
    requires Shaped(plan) && field < REPEATED_FIELDS
    ensures Batch(plan, updates).actions.repeated[field] == AllPlanned(plan, updates, field)
    decreases |updates|
  {
    if updates != [] {
      ListsInOrder(plan, updates[..|updates| - 1], field);
      AllPlannedLast(plan, updates, field);
    }
  }

  predicate PlansSingle(p: Planned, field: nat)
    requires field < SINGULAR_FIELDS && (p.actions.Some? ==> WellShaped(p.actions.value))
  {
    p.actions.Some? && p.actions.value.singular[field].Some?
  }

  /** A single field holds what the last update to plan it plans. */
  lemma {:induction false} LastSingleStays(plan: Update -> Planned, updates: seq<Update>, field: nat, i: nat)
    requires Shaped(plan) && field < SINGULAR_FIELDS && i < |updates| && PlansSingle(plan(updates[i]), field)
    requires forall j :: i < j < |updates| ==> !PlansSingle(plan(updates[j]), field)
    ensures Batch(plan, updates).actions.singular[field] == plan(updates[i]).actions.value.singular[field]
    decreases |updates|
  {
    if i < |updates| - 1 {
      LastSingleStays(plan, updates[..|updates| - 1], field, i);
      assert !PlansSingle(plan(updates[|updates| - 1]), field);
    }
  }

  lemma {:induction false} NoSingle(plan: Update -> Planned, updates: seq<Update>, field: nat)
    requires Shaped(plan) && field < SINGULAR_FIELDS
    requires forall j :: 0 <= j < |updates| ==> !PlansSingle(plan(updates[j]), field)
    ensures Batch(plan, updates).actions.singular[field] == None
    decreases |updates|
  {
    if updates != [] {
      NoSingle(plan, updates[..|updates| - 1], field);
      assert !PlansSingle(plan(updates[|updates| - 1]), field);
    }
  }

  /** A batch with a creation is that creation, made by whom the first one names or the fallback;
      any other is one change of the merged actions, made by the editor or the fallback, and
      nothing where that does not encrypt. */
  lemma PlanIs(plan: Update -> Planned, encrypt: Encrypt, updates: seq<Update>, fallback: string)
    requires Shaped(plan)
    ensures forall i: nat :: FirstCreationAt(updates, i) ==>
                GroupPlan(plan, encrypt, updates, fallback) ==
                Some((if updates[i].updater.Some? then updates[i].updater.value else fallback, Created))
    ensures (forall i :: 0 <= i < |updates| ==> !updates[i].Creation?) ==>
              var batch := Batch(plan, updates);
              var editor := if batch.editor.Some? then batch.editor.value else fallback;
              GroupPlan(plan, encrypt, updates, fallback) ==
                match encrypt(editor, batch.actions)
                case Some(bytes) => Some((editor, Change(bytes)))
                case None => None
  {
    forall i: nat | FirstCreationAt(updates, i) ensures FirstCreation(updates) == Some(updates[i].updater) {
      FirstCreationIs(updates, i);
    }
    if forall i :: 0 <= i < |updates| ==> !updates[i].Creation? { NoCreation(updates); }
  }
}
