/** How an edited message of a backup is stored (backup/convert.rs): one row for the message
    as it was first sent, one hidden row per later version, and pins and edits addressed to
    rows that exist. */
module EditHistory {
  import opened Wrappers

  datatype Direction = Incoming(dateReceived: nat, read: bool) | Outgoing(dateReceived: nat) | Directionless

  datatype Reaction = Reaction(authorId: nat, sentMs: nat, emoji: string)

  datatype Body =
    | Standard(text: Option<string>, reactions: seq<Reaction>)
    | Sticker(stickerReactions: seq<Reaction>)
    | OtherItem(rows: seq<Row>)

  datatype PinDetails = PinDetails(pinnedAtMs: nat, expiresAtMs: Option<nat>)

  /** An edited message is its latest version, with the earlier ones under `revisions`,
      oldest first. */
  datatype ChatItem = ChatItem(
    chatId: nat, authorId: nat, dateSent: nat, direction: Option<Direction>, body: Body,
    revisions: seq<ChatItem>, pin: Option<PinDetails>)

  type Thread = string
  type ServiceId = string

  datatype RowBody = Message(text: Option<string>) | Edit(targetSentMs: nat, newText: Option<string>)
    | ReactionTo(targetSentMs: nat, emoji: string)

  /** A stored row is addressed by thread, sender and time. */
  datatype Row = Row(thread: Thread, sender: ServiceId, sentMs: nat, body: RowBody, receivedAtMs: nat)

  /** The backup's tables: threads by chat, service ids by recipient, and this account. */
  datatype Tables = Tables(chats: map<nat, Thread>, recipients: map<nat, Option<ServiceId>>, ourAci: ServiceId)

  function ServiceIdOf(t: Tables, recipient: nat): Option<ServiceId> {
    if recipient in t.recipients then t.recipients[recipient] else None
  }

  function FirstVersion(item: ChatItem): ChatItem {
    if item.revisions == [] then item else item.revisions[0]
  }

  function SentMs(item: ChatItem): nat {
    FirstVersion(item).dateSent
  }

  /** A missing arrival is the send time. */
  function ArrivalMs(item: ChatItem): nat {
    var received := match item.direction
      case Some(Incoming(at, _)) => at
      case Some(Outgoing(at)) => at
      case _ => 0;
    if received > 0 then received else item.dateSent
  }

  /** Who sent an item: this account, or its author if the backup can name one. */
  function MessageSender(t: Tables, item: ChatItem): Option<ServiceId> {
    match item.direction
    case Some(Outgoing(_)) => Some(t.ourAci)
    case Some(Incoming(_, _)) => ServiceIdOf(t, item.authorId)
    case _ => None
  }

  /** Every version, oldest first, the item itself last. */
  function Versions(item: ChatItem): (versions: seq<ChatItem>)
    ensures |versions| == |item.revisions| + 1
  {
    item.revisions + [item]
  }

  /** Every step of the history: an earlier version and the one right after it. */
  function Edits(item: ChatItem): (edits: seq<(ChatItem, ChatItem)>)
    ensures |edits| == |item.revisions|
  {
    seq(|item.revisions|, i requires 0 <= i < |item.revisions| =>
      (item.revisions[i], if i + 1 < |item.revisions| then item.revisions[i + 1] else item))
  }

  function ReactionRows(t: Tables, thread: Thread, target: nat, reactions: seq<Reaction>): seq<Row> {
    if reactions == [] then []
    else
      var rest := ReactionRows(t, thread, target, reactions[1..]);
      match ServiceIdOf(t, reactions[0].authorId)
      case Some(author) => [Row(thread, author, reactions[0].sentMs, ReactionTo(target, reactions[0].emoji),
                                reactions[0].sentMs)] + rest
      case None => rest
  }

  /** The message row and its reactions; nothing when the message has no sender. */
  function WrapWithReactions(t: Tables, thread: Thread, item: ChatItem, text: Option<string>,
                             reactions: seq<Reaction>): seq<Row> {
    match MessageSender(t, item)
    case None => []
    case Some(sender) =>
      [Row(thread, sender, SentMs(item), Message(text), ArrivalMs(FirstVersion(item)))] +
          ReactionRows(t, thread, SentMs(item), reactions)
  }

  function EditRowsFrom(thread: Thread, sender: ServiceId, edits: seq<(ChatItem, ChatItem)>): seq<Row> {
    if edits == [] then []
    else
      var (previous, version) := edits[0];
      var rest := EditRowsFrom(thread, sender, edits[1..]);
      if version.body.Standard? then
        [Row(thread, sender, version.dateSent, Edit(previous.dateSent, version.body.text), ArrivalMs(version))] + rest
      else rest
  }

  function EditRows(t: Tables, thread: Thread, item: ChatItem): seq<Row> {
    match MessageSender(t, item)
    case None => []
    case Some(sender) => EditRowsFrom(thread, sender, Edits(item))
  }

  /** The rows stored for an item; which ones an item of another kind leaves is open. */
  function Contents(t: Tables, item: ChatItem): seq<Row> {
    if item.chatId !in t.chats then []
    else
      var thread := t.chats[item.chatId];
      match item.body
      case Standard(text, reactions) => WrapWithReactions(t, thread, item, text, reactions) + EditRows(t, thread, item)
      case Sticker(reactions) => WrapWithReactions(t, thread, item, None, reactions)
      case OtherItem(rows) => rows
  }

  // ----- pins and edits address stored rows

  datatype BackupPin = BackupPin(thread: Thread, ts: nat, author: ServiceId, pinnedAtMs: nat, expiresAtMs: Option<nat>)

  function ItemPin(t: Tables, item: ChatItem): Option<BackupPin> {
    if item.pin == None || !(item.body.Standard? || item.body.Sticker?) || item.chatId !in t.chats then None
    else
      var author :- MessageSender(t, item);
      Some(BackupPin(t.chats[item.chatId], SentMs(item), author, item.pin.value.pinnedAtMs, item.pin.value.expiresAtMs))
  }

  datatype Version = Version(sentMs: nat, text: Option<string>)

  datatype BackupEdit = BackupEdit(thread: Thread, ts: nat, author: ServiceId, editedAtMs: nat, earlier: seq<Version>)

  function ItemEdit(t: Tables, item: ChatItem): Option<BackupEdit> {
    if item.revisions == [] || !item.body.Standard? || item.chatId !in t.chats then None
    else
      var author :- MessageSender(t, item);
      Some(BackupEdit(t.chats[item.chatId], SentMs(item), author, item.dateSent,
        seq(|item.revisions|, i requires 0 <= i < |item.revisions| =>
          Version(item.revisions[i].dateSent,
                  if item.revisions[i].body.Standard? then item.revisions[i].body.text else None))))
  }

  predicate IsMessageAt(row: Row, thread: Thread, ts: nat, author: ServiceId) {
    row.thread == thread && row.sentMs == ts && row.sender == author && row.body.Message?
  }

  /** A pin or an edit is extracted exactly when its message was stored, and addresses that
      message's own row by thread, time and author. */
  lemma ExtractsAddressRows(t: Tables, item: ChatItem)
    ensures ItemPin(t, item).Some? <==>
              item.pin.Some? && (item.body.Standard? || item.body.Sticker?) && Contents(t, item) != []
    ensures ItemEdit(t, item).Some? <==> item.revisions != [] && item.body.Standard? && Contents(t, item) != []
    ensures ItemPin(t, item).Some? ==>
              var pin := ItemPin(t, item).value; IsMessageAt(Contents(t, item)[0], pin.thread, pin.ts, pin.author)
    ensures ItemEdit(t, item).Some? ==>
              var edit := ItemEdit(t, item).value;
              IsMessageAt(Contents(t, item)[0], edit.thread, edit.ts, edit.author) &&
                  Contents(t, item)[0].body.text == item.body.text
  {
  }

  // ----- the chain of an edited message

  /** All versions are standard messages, each sent after the one before. */
  predicate CleanHistory(item: ChatItem) {
    var v := Versions(item);
    && (forall i :: 0 <= i < |v| ==> v[i].body.Standard?)
    && (forall i, j :: 0 <= i < j < |v| ==> v[i].dateSent < v[j].dateSent)
  }

  lemma {:induction false} EditRowAt(thread: Thread, sender: ServiceId, edits: seq<(ChatItem, ChatItem)>, i: nat)
    requires forall j :: 0 <= j < |edits| ==> edits[j].1.body.Standard?
    ensures |EditRowsFrom(thread, sender, edits)| == |edits|
    ensures i < |edits| ==>
              EditRowsFrom(thread, sender, edits)[i] ==
              Row(thread, sender, edits[i].1.dateSent, Edit(edits[i].0.dateSent, edits[i].1.body.text),
                  ArrivalMs(edits[i].1))
  {
    if edits != [] {
      var rest := edits[1..];
      assert forall j :: 0 <= j < |rest| ==> rest[j] == edits[j + 1];
      EditRowAt(thread, sender, rest, if i > 0 then i - 1 else 0);
    }
  }

  lemma EditsAreSteps(item: ChatItem)
    requires CleanHistory(item)
    ensures var v := Versions(item);
            && v[0] == FirstVersion(item) && v[|v| - 1] == item && item.body.Standard?
            && (forall i :: 0 <= i < |Edits(item)| ==>
                Edits(item)[i] == (v[i], v[i + 1]) && Edits(item)[i].1.body.Standard?)
  {
    var v := Versions(item);
    assert v[|v| - 1] == item;
    forall i | 0 <= i < |Edits(item)| ensures Edits(item)[i] == (v[i], v[i + 1]) && Edits(item)[i].1.body.Standard? {
      assert v[i + 1].body.Standard?;
    }
  }

  /** The row of each later version: at its own time, naming the version before it. */
  function EditRow(thread: Thread, sender: ServiceId, previous: ChatItem, version: ChatItem): Row
    requires version.body.Standard?
  {
    Row(thread, sender, version.dateSent, Edit(previous.dateSent, version.body.text), ArrivalMs(version))
  }

  lemma ImportedRow(t: Tables, item: ChatItem, i: nat)
    requires CleanHistory(item) && item.chatId in t.chats && MessageSender(t, item).Some?
    ensures |EditRows(t, t.chats[item.chatId], item)| == |item.revisions|
    ensures i < |item.revisions| ==>
              EditRows(t, t.chats[item.chatId], item)[i] ==
              EditRow(t.chats[item.chatId], MessageSender(t, item).value, Versions(item)[i], Versions(item)[i + 1])
  {
    EditsAreSteps(item);
    EditRowAt(t.chats[item.chatId], MessageSender(t, item).value, Edits(item), i);
  }

  lemma ImportedMain(t: Tables, item: ChatItem)
    requires CleanHistory(item) && item.chatId in t.chats && MessageSender(t, item).Some?
    ensures var (v, rows) := (Versions(item), Contents(t, item));
            && rows != [] && IsMessageAt(rows[0], t.chats[item.chatId], v[0].dateSent, MessageSender(t, item).value)
            && rows[0].body.text == v[|v| - 1].body.text
            && (forall row :: row in EditRows(t, t.chats[item.chatId], item) ==> row in rows)
  {
    EditsAreSteps(item);
  }

  lemma ImportedTimes(item: ChatItem, edits: seq<Row>)
    requires CleanHistory(item) && |edits| == |item.revisions|
    requires forall i :: 0 <= i < |edits| ==> edits[i].sentMs == Versions(item)[i + 1].dateSent
    ensures forall i :: 0 <= i < |edits| ==> edits[i].sentMs > Versions(item)[0].dateSent
    ensures forall i, j :: 0 <= i < j < |edits| ==> edits[i].sentMs != edits[j].sentMs
  {
    var v := Versions(item);
    forall i | 0 <= i < |edits| ensures edits[i].sentMs > v[0].dateSent {
      assert v[0].dateSent < v[i + 1].dateSent;
    }
    forall i, j | 0 <= i < j < |edits| ensures edits[i].sentMs != edits[j].sentMs {
      assert v[i + 1].dateSent < v[j + 1].dateSent;
    }
  }

  /** Import of a clean history: one main row at the first version's time holding the latest
      text, and for each later version one edit row at its own time that names the version
      before it. No two of these rows share an address. */
  lemma ImportedChain(t: Tables, item: ChatItem)
    requires CleanHistory(item) && item.chatId in t.chats && MessageSender(t, item).Some?
    ensures var (v, edits, thread, sender) :=
            (Versions(item), EditRows(t, t.chats[item.chatId], item), t.chats[item.chatId],
             MessageSender(t, item).value);
            && Contents(t, item) != [] && IsMessageAt(Contents(t, item)[0], thread, v[0].dateSent, sender)
            && Contents(t, item)[0].body.text == v[|v| - 1].body.text
            && |edits| == |v| - 1
            && (forall i :: 0 <= i < |edits| ==> edits[i] == EditRow(thread, sender, v[i], v[i + 1]))
            && (forall row :: row in edits ==> row in Contents(t, item))
            && (forall i :: 0 <= i < |edits| ==> edits[i].sentMs > v[0].dateSent)
            && (forall i, j :: 0 <= i < j < |edits| ==> edits[i].sentMs != edits[j].sentMs)
  {
    var v := Versions(item);
    ImportedMain(t, item);
    ImportedRow(t, item, 0);
    forall i | 0 <= i < |item.revisions|
      ensures EditRows(t, t.chats[item.chatId], item)[i] ==
              EditRow(t.chats[item.chatId], MessageSender(t, item).value, v[i], v[i + 1])
    {
      ImportedRow(t, item, i);
    }
    ImportedTimes(item, EditRows(t, t.chats[item.chatId], item));
  }

  /** The time an edit row among `edits` at `at` names, if there is one there. */
  function TargetOf(edits: seq<Row>, at: nat): Option<nat> {
    if edits == [] then None
    else if edits[0].sentMs == at && edits[0].body.Edit? then Some(edits[0].body.targetSentMs)
    else TargetOf(edits[1..], at)
  }

  /** Follow edit targets back in time from `at` until no edit row is there. */
  function Root(edits: seq<Row>, at: nat): nat {
    match TargetOf(edits, at)
    case Some(target) => if target < at then Root(edits, target) else at
    case None => at
  }

  lemma {:induction false} TargetFound(edits: seq<Row>, i: nat)
    requires i < |edits| && edits[i].body.Edit?
    requires forall a, b :: 0 <= a < b < |edits| ==> edits[a].sentMs != edits[b].sentMs
    ensures TargetOf(edits, edits[i].sentMs) == Some(edits[i].body.targetSentMs)
  {
    if i > 0 {
      assert edits[0].sentMs != edits[i].sentMs;
      TargetFound(edits[1..], i - 1);
    }
  }

  lemma {:induction false} NoTarget(edits: seq<Row>, at: nat)
    requires forall i :: 0 <= i < |edits| ==> edits[i].sentMs != at
    ensures TargetOf(edits, at) == None
  {
    if edits != [] { NoTarget(edits[1..], at); }
  }

  /** From the row of any version, following what each edit row says it edits reaches the
      main row. */
  lemma {:induction false} ChainReachesMessage(t: Tables, item: ChatItem, i: nat)
    requires CleanHistory(item) && item.chatId in t.chats && MessageSender(t, item).Some? && i < |Versions(item)|
    ensures Contents(t, item) != []
    ensures Root(EditRows(t, t.chats[item.chatId], item), Versions(item)[i].dateSent) == Contents(t, item)[0].sentMs
  {
    var v, edits := Versions(item), EditRows(t, t.chats[item.chatId], item);
    ImportedChain(t, item);
    if i == 0 {
      NoTarget(edits, v[0].dateSent);
    } else {
      assert edits[i - 1].body == Edit(v[i - 1].dateSent, v[i].body.text) && edits[i - 1].sentMs == v[i].dateSent;
      TargetFound(edits, i - 1);
      assert v[i - 1].dateSent < v[i].dateSent;
      ChainReachesMessage(t, item, i - 1);
    }
  }

  // ----- which rows there are

  /** Who sent an item: this account what goes out, and the author, where the backup names one, what
      comes in. */
  predicate SentBy(t: Tables, item: ChatItem, sender: ServiceId) {
    item.direction.Some? &&
    match item.direction.value
    case Outgoing(_) => sender == t.ourAci
    case Incoming(_, _) => item.authorId in t.recipients && t.recipients[item.authorId] == Some(sender)
    case Directionless => false
  }

  /** When a version arrived, or was sent if the backup has no arrival. */
  predicate ArrivedAt(version: ChatItem, at: nat) {
    if version.direction.Some? && !version.direction.value.Directionless? && version.direction.value.dateReceived != 0
    then at == version.direction.value.dateReceived
    else at == version.dateSent
  }

  predicate IsReactionRow(t: Tables, thread: Thread, target: nat, reactions: seq<Reaction>, row: Row) {
    exists i :: 0 <= i < |reactions| && reactions[i].authorId in t.recipients &&
                t.recipients[reactions[i].authorId] ==
                Some(row.sender) && row == Row(thread, row.sender, reactions[i].sentMs,
                                               ReactionTo(target, reactions[i].emoji), reactions[i].sentMs)
  }

  predicate IsStepRow(thread: Thread, sender: ServiceId, edits: seq<(ChatItem, ChatItem)>, row: Row) {
    exists i :: 0 <= i < |edits| && edits[i].1.body.Standard? &&
                row == Row(thread, sender, edits[i].1.dateSent, Edit(edits[i].0.dateSent, edits[i].1.body.text),
                           row.receivedAtMs) && ArrivedAt(edits[i].1, row.receivedAtMs)
  }

  /** The row of a version after the first: at its own time, naming the version right before it. */
  predicate IsEditRow(thread: Thread, sender: ServiceId, versions: seq<ChatItem>, row: Row) {
    exists i :: 0 <= i < |versions| - 1 && versions[i + 1].body.Standard? &&
                row == Row(thread, sender, versions[i + 1].dateSent,
                           Edit(versions[i].dateSent, versions[i + 1].body.text), row.receivedAtMs) &&
                ArrivedAt(versions[i + 1], row.receivedAtMs)
  }

  lemma StepsAreEdits(thread: Thread, sender: ServiceId, item: ChatItem, row: Row)
    ensures IsStepRow(thread, sender, Edits(item), row) <==> IsEditRow(thread, sender, Versions(item), row)
  {
    var v, edits := Versions(item), Edits(item);
    assert forall i :: 0 <= i < |edits| ==> edits[i] == (v[i], v[i + 1]);
    if IsStepRow(thread, sender, edits, row) {
      var i :| 0 <= i < |edits| && edits[i].1.body.Standard? &&
               row == Row(thread, sender, edits[i].1.dateSent, Edit(edits[i].0.dateSent, edits[i].1.body.text),
                          row.receivedAtMs) && ArrivedAt(edits[i].1, row.receivedAtMs);
      assert edits[i] == (v[i], v[i + 1]);
    }
    if IsEditRow(thread, sender, v, row) {
      var i :| 0 <= i < |v| - 1 && v[i + 1].body.Standard? &&
               row == Row(thread, sender, v[i + 1].dateSent, Edit(v[i].dateSent, v[i + 1].body.text),
                          row.receivedAtMs) && ArrivedAt(v[i + 1], row.receivedAtMs);
      assert edits[i] == (v[i], v[i + 1]);
    }
  }

  lemma {:induction false} ReactionRowsAre(t: Tables, thread: Thread, target: nat, reactions: seq<Reaction>, row: Row)
    ensures row in ReactionRows(t, thread, target, reactions) <==> IsReactionRow(t, thread, target, reactions, row)
  {
    if reactions != [] {
      var rest := reactions[1..];
      ReactionRowsAre(t, thread, target, rest, row);
      if IsReactionRow(t, thread, target, rest, row) {
        var i :| 0 <= i < |rest| && rest[i].authorId in t.recipients &&
                 t.recipients[rest[i].authorId] ==
                 Some(row.sender) && row == Row(thread, row.sender, rest[i].sentMs,
                                                ReactionTo(target, rest[i].emoji), rest[i].sentMs);
        assert reactions[i + 1] == rest[i];
      }
      assert forall i :: 0 < i < |reactions| ==> reactions[i] == rest[i - 1];
    }
  }

  lemma {:induction false} EditRowsAre(thread: Thread, sender: ServiceId, edits: seq<(ChatItem, ChatItem)>, row: Row)
    ensures row in EditRowsFrom(thread, sender, edits) <==> IsStepRow(thread, sender, edits, row)
  {
    if edits != [] {
      var rest := edits[1..];
      EditRowsAre(thread, sender, rest, row);
      if IsStepRow(thread, sender, rest, row) {
        var i :| 0 <= i < |rest| && rest[i].1.body.Standard? &&
                 row == Row(thread, sender, rest[i].1.dateSent, Edit(rest[i].0.dateSent, rest[i].1.body.text),
                            row.receivedAtMs) && ArrivedAt(rest[i].1, row.receivedAtMs);
        assert edits[i + 1] == rest[i];
      }
      assert forall i :: 0 < i < |edits| ==> edits[i] == rest[i - 1];
    }
  }

  /** Of a stored message or sticker: its own row first, at the first version's time, by the sender,
      with the latest text. Then exactly one row for every reaction whose author the backup names,
      and for a message every later version that is one. Without a sender there is nothing. */
  lemma ContentsAre(t: Tables, item: ChatItem, sender: ServiceId, row: Row)
    requires item.chatId in t.chats && !item.body.OtherItem?
    ensures SentBy(t, item, sender) ==>
              var (thread, rows, first) := (t.chats[item.chatId], Contents(t, item), Versions(item)[0]);
              && rows != [] && ArrivedAt(first, rows[0].receivedAtMs)
              && rows[0] == Row(thread, sender, first.dateSent,
                                Message(if item.body.Standard? then item.body.text else None), rows[0].receivedAtMs)
              && (row in rows <==>
                    || row == rows[0]
                    || IsReactionRow(t, thread, first.dateSent,
                                     if item.body.Standard? then item.body.reactions else item.body.stickerReactions,
                                     row)
                    || (item.body.Standard? && IsEditRow(thread, sender, Versions(item), row)))
    ensures (forall any :: !SentBy(t, item, any)) ==> Contents(t, item) == []
  {
    assert MessageSender(t, item).Some? ==> SentBy(t, item, MessageSender(t, item).value);
    assert Versions(item)[0] == FirstVersion(item);
    var thread, target := t.chats[item.chatId], SentMs(item);
    if item.body.Standard? {
      ReactionRowsAre(t, thread, target, item.body.reactions, row);
      EditRowsAre(thread, sender, Edits(item), row);
      StepsAreEdits(thread, sender, item, row);
    } else {
      ReactionRowsAre(t, thread, target, item.body.stickerReactions, row);
    }
  }

  /** What a pin and an edit say of the row they address. */
  lemma ExtractsSay(t: Tables, item: ChatItem)
    ensures ItemPin(t, item).Some? ==>
              var pin := ItemPin(t, item).value;
              item.pin == Some(PinDetails(pin.pinnedAtMs, pin.expiresAtMs)) && SentBy(t, item, pin.author)
    ensures ItemEdit(t, item).Some? ==>
              var edit := ItemEdit(t, item).value;
              && edit.editedAtMs == item.dateSent && SentBy(t, item, edit.author)
              && |edit.earlier| == |item.revisions|
              && forall i :: 0 <= i < |edit.earlier| ==>
                   var revision := item.revisions[i];
                   edit.earlier[i] == Version(revision.dateSent,
                                              if revision.body.Standard? then revision.body.text else None)
  {
  }
}
