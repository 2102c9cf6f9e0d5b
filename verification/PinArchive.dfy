/** Pinning and archiving chats (manager/registered.rs), and the unarchiving a sync ends an
    account record with (manager/storage.rs): no chat is both. */
module PinArchive {
  import opened Wrappers
  import opened Codecs
  import opened AccountChat

  datatype EditError = UnknownGroup | NoteToSelfHasNoContactRecord

  datatype ContactRow = ContactRow(archived: bool, blocked: bool, mutedUntil: nat, name: string)

  datatype GroupRow = GroupRow(archived: bool, mutedUntil: nat, title: string)

  /** The rows and flags these operations read and write. Contact rows are filed under the
      raw uuid, whichever kind of service id asks. */
  datatype Chats = Chats(
    account: AccountState, accountFlag: bool,
    contacts: map<Uuid, ContactRow>, contactFlags: set<ServiceId>,
    groups: map<MasterKey, GroupRow>, groupFlags: set<MasterKey>)

  /** A recipient not in the contact list yet. */
  const MINIMAL_CONTACT := ContactRow(false, false, 0, "")

  predicate IsSelf(self: Uuid, id: ServiceId) {
    id == Aci(self)
  }

  predicate IsArchived(s: Chats, self: Uuid, thread: Thread) {
    match thread
    case ContactThread(id) =>
      if IsSelf(self, id) then s.account.noteToSelfArchived
      else id.uuid in s.contacts && s.contacts[id.uuid].archived
    case GroupThread(key) => key in s.groups && s.groups[key].archived
  }

  // ----- what the operations do to the rows

  /** Only an account that differs is saved and flagged. */
  function WithAccount(s: Chats, account: AccountState): Chats {
    if account == s.account then s else s.(account := account, accountFlag := true)
  }

  function WithContact(s: Chats, id: ServiceId, edit: ContactRow -> ContactRow): Chats {
    var row := if id.uuid in s.contacts then s.contacts[id.uuid] else MINIMAL_CONTACT;
    s.(contacts := s.contacts[id.uuid := edit(row)], contactFlags := s.contactFlags + {id})
  }

  function WithGroup(s: Chats, key: MasterKey, edit: GroupRow -> GroupRow): Chats
    requires key in s.groups
  {
    s.(groups := s.groups[key := edit(s.groups[key])], groupFlags := s.groupFlags + {key})
  }

  function WithContactArchived(s: Chats, id: ServiceId, archived: bool): Chats {
    WithContact(s, id, (row: ContactRow) => row.(archived := archived))
  }

  function WithGroupArchived(s: Chats, key: MasterKey, archived: bool): Chats
    requires key in s.groups
  {
    WithGroup(s, key, (row: GroupRow) => row.(archived := archived))
  }

  function Unpinned(c: PinCodec, s: Chats, thread: Thread): Chats {
    WithAccount(s, s.account.(pinned := RemovePin(c, s.account.pinned, thread)))
  }

  /** Archiving unpins first. An unknown group fails, after the unpin. */
  function ArchivedIn(c: PinCodec, self: Uuid, s: Chats, thread: Thread, archived: bool): (Chats, Option<EditError>) {
    var s := if archived then Unpinned(c, s, thread) else s;
    match thread
    case ContactThread(id) =>
      if IsSelf(self, id) then (WithAccount(s, s.account.(noteToSelfArchived := archived)), None)
      else (WithContactArchived(s, id, archived), None)
    case GroupThread(key) =>
      if key in s.groups then (WithGroupArchived(s, key, archived), None) else (s, Some(UnknownGroup))
  }

  function PinnedIn(c: PinCodec, self: Uuid, s: Chats, thread: Thread, pinned: bool): (Chats, Option<EditError>) {
    var pins := if pinned then AddPin(c, s.account.pinned, thread) else RemovePin(c, s.account.pinned, thread);
    var s := WithAccount(s, s.account.(pinned := pins));
    if pinned && IsArchived(s, self, thread) then ArchivedIn(c, self, s, thread, false) else (s, None)
  }

  /** `unarchive_pinned`, chat by chat: the row only, nothing is flagged, and a chat with a
      change of its own pending is left alone. */
  function UnarchivedOne(s: Chats, thread: Thread, contactPending: set<ServiceId>,
                         groupPending: set<MasterKey>): Chats {
    match thread
    case ContactThread(id) =>
      if id !in contactPending && id.uuid in s.contacts && s.contacts[id.uuid].archived
      then s.(contacts := s.contacts[id.uuid := s.contacts[id.uuid].(archived := false)]) else s
    case GroupThread(key) =>
      if key !in groupPending && key in s.groups && s.groups[key].archived
      then s.(groups := s.groups[key := s.groups[key].(archived := false)]) else s
  }

  function UnarchivedAll(s: Chats, threads: seq<Thread>, contactPending: set<ServiceId>,
                         groupPending: set<MasterKey>): Chats
    decreases |threads|
  {
    if threads == [] then s
    else UnarchivedAll(UnarchivedOne(s, threads[0], contactPending, groupPending), threads[1..], contactPending,
                       groupPending)
  }

  class ChatStore {
    const codec: PinCodec
    const self: Uuid
    var account: AccountState
    var accountFlag: bool
    var contacts: map<Uuid, ContactRow>
    var contactFlags: set<ServiceId>
    var groups: map<MasterKey, GroupRow>
    var groupFlags: set<MasterKey>

    ghost function State(): Chats
      reads this
    {
      Chats(account, accountFlag, contacts, contactFlags, groups, groupFlags)
    }

    /** Save an edited account and flag it, unless nothing changed. */
    method EditAccount(edited: AccountState)
      modifies this`account, this`accountFlag
      ensures State() == WithAccount(old(State()), edited)
      ensures account == edited && (accountFlag <==> old(accountFlag) || edited != old(account))
    {
      if edited == account {
        return;
      }
      account := edited;
      accountFlag := true;
    }

    /** Save the edited row, or a minimal new one, and flag it; there is no row for Note to Self. */
    method EditContact(id: ServiceId, edit: ContactRow -> ContactRow) returns (error: Option<EditError>)
      modifies this`contacts, this`contactFlags
      ensures IsSelf(self, id) ==> error == Some(NoteToSelfHasNoContactRecord) && State() == old(State())
      ensures !IsSelf(self, id) ==> error == None && State() == WithContact(old(State()), id, edit)
      ensures !IsSelf(self, id) ==>
                && contactFlags == old(contactFlags) + {id}
                && contacts == old(contacts)[id.uuid :=
                     edit(if id.uuid in old(contacts) then old(contacts)[id.uuid] else ContactRow(false, false, 0, ""))]
    {
      if IsSelf(self, id) {
        return Some(NoteToSelfHasNoContactRecord);
      }
      var row := if id.uuid in contacts then contacts[id.uuid] else MINIMAL_CONTACT;
      contacts := contacts[id.uuid := edit(row)];
      contactFlags := contactFlags + {id};
      return None;
    }

    method EditGroup(key: MasterKey, edit: GroupRow -> GroupRow) returns (error: Option<EditError>)
      modifies this`groups, this`groupFlags
      ensures key !in old(groups) ==> error == Some(UnknownGroup) && State() == old(State())
      ensures key in old(groups) ==> error == None && State() == WithGroup(old(State()), key, edit)
      ensures key in old(groups) ==>
                && groupFlags == old(groupFlags) + {key}
                && groups == old(groups)[key := edit(old(groups)[key])]
    {
      if key !in groups {
        return Some(UnknownGroup);
      }
      groups := groups[key := edit(groups[key])];
      groupFlags := groupFlags + {key};
      return None;
    }

    /** Archive or unarchive a chat; archiving unpins it. */
    method SetArchived(thread: Thread, archived: bool) returns (error: Option<EditError>)
      modifies this
      ensures (State(), error) == ArchivedIn(codec, self, old(State()), thread, archived)
    {
      if archived {
        var edited := new AccountChatState(account);
        edited.Unpin(codec, thread);
        EditAccount(edited.Value());
      }
      match thread {
        case ContactThread(id) =>
          if IsSelf(self, id) {
            EditAccount(account.(noteToSelfArchived := archived));
            error := None;
          } else {
            error := EditContact(id, (row: ContactRow) => row.(archived := archived));
          }
        case GroupThread(key) =>
          error := EditGroup(key, (row: GroupRow) => row.(archived := archived));
      }
    }

    /** Pin or unpin a chat; a chat that is pinned comes out of the archive. */
    method SetPinned(thread: Thread, pinned: bool) returns (error: Option<EditError>)
      requires codec.Lawful()
      modifies this
      ensures (State(), error) == PinnedIn(codec, self, old(State()), thread, pinned)
    {
      var edited := new AccountChatState(account);
      if pinned {
        edited.Pin(codec, thread);
      } else {
        edited.Unpin(codec, thread);
      }
      EditAccount(edited.Value());
      error := None;
      if pinned && IsArchived(Chats(account, accountFlag, contacts, contactFlags, groups, groupFlags), self, thread) {
        error := SetArchived(thread, false);
      }
    }

    method UnarchivePinned(contactPending: set<ServiceId>, groupPending: set<MasterKey>)
      modifies this`contacts, this`groups
      ensures State() == UnarchivedAll(old(State()), PinnedThreads(codec, account.pinned), contactPending, groupPending)
    {
      var threads := PinnedThreads(codec, account.pinned);
      assert threads[0..] == threads;
      for i := 0 to |threads|
        invariant account == old(account) && accountFlag == old(accountFlag)
        invariant contactFlags == old(contactFlags) && groupFlags == old(groupFlags)
        invariant UnarchivedAll(State(), threads[i..], contactPending, groupPending)
               == UnarchivedAll(old(State()), threads, contactPending, groupPending)
      {
        assert threads[i..][0] == threads[i] && threads[i..][1..] == threads[i + 1..];
        match threads[i] {
          case ContactThread(id) =>
            if id !in contactPending && id.uuid in contacts && contacts[id.uuid].archived {
              contacts := contacts[id.uuid := contacts[id.uuid].(archived := false)];
            }
          case GroupThread(key) =>
            if key !in groupPending && key in groups && groups[key].archived {
              groups := groups[key := groups[key].(archived := false)];
            }
        }
      }
    }
  }

  // ----- pinned and archived exclude each other

  /** A uuid is an account's or a phone number's, never both; `isAci` says which. */
  type Namespace = Uuid -> bool

  /** A group, or a contact by an id that exists: an ACI or a PNI, each of its own kind. */
  predicate RealChat(isAci: Namespace, thread: Thread) {
    thread.GroupThread? || (thread.id.Aci? <==> isAci(thread.id.uuid))
  }

  /** No chat is both pinned and archived, Note to Self included. */
  ghost predicate Exclusive(c: PinCodec, isAci: Namespace, self: Uuid, s: Chats) {
    forall t :: RealChat(isAci, t) && IsPinned(c, s.account.pinned, t) ==> !IsArchived(s, self, t)
  }

  datatype Edit = SetArchived(thread: Thread, on: bool) | SetPinned(thread: Thread, on: bool)

  function Apply(c: PinCodec, self: Uuid, s: Chats, e: Edit): Chats {
    match e
    case SetArchived(t, on) => ArchivedIn(c, self, s, t, on).0
    case SetPinned(t, on) => PinnedIn(c, self, s, t, on).0
  }

  function ApplyAll(c: PinCodec, self: Uuid, s: Chats, edits: seq<Edit>): Chats
    decreases |edits|
  {
    if edits == [] then s else ApplyAll(c, self, Apply(c, self, s, edits[0]), edits[1..])
  }

  lemma ArchivedElsewhere(isAci: Namespace, self: Uuid, s: Chats, thread: Thread, on: bool, t: Thread)
    requires RealChat(isAci, thread) && RealChat(isAci, t) && t != thread
    ensures match thread
            case ContactThread(id) => !IsSelf(self, id) ==>
              IsArchived(WithContactArchived(s, id, on), self, t) == IsArchived(s, self, t)
            case GroupThread(key) => key in s.groups ==>
              IsArchived(WithGroupArchived(s, key, on), self, t) == IsArchived(s, self, t)
  {
  }

  lemma AccountEditElsewhere(self: Uuid, s: Chats, account: AccountState, t: Thread)
    requires t != ContactThread(Aci(self)) || account.noteToSelfArchived == s.account.noteToSelfArchived
    ensures IsArchived(WithAccount(s, account), self, t) == IsArchived(s, self, t)
  {
  }

  /** Archiving or unarchiving one of these chats leaves every other alone and pins nothing. */
  lemma ArchivingChangesOne(c: PinCodec, isAci: Namespace, self: Uuid, s: Chats, thread: Thread, on: bool, t: Thread)
    requires RealChat(isAci, thread) && RealChat(isAci, t) && t != thread
    ensures var after := ArchivedIn(c, self, s, thread, on).0;
            IsArchived(after, self, t) == IsArchived(s, self, t) &&
                (IsPinned(c, after.account.pinned, t) <==> IsPinned(c, s.account.pinned, t))
  {
    UnpinRemoves(c, s.account.pinned, thread);
    AccountEditElsewhere(self, s, s.account.(pinned := RemovePin(c, s.account.pinned, thread)), t);
    var mid := if on then Unpinned(c, s, thread) else s;
    if thread == ContactThread(Aci(self)) {
      AccountEditElsewhere(self, mid, mid.account.(noteToSelfArchived := on), t);
    } else {
      ArchivedElsewhere(isAci, self, mid, thread, on, t);
    }
  }

  lemma ArchivingSettlesOne(c: PinCodec, self: Uuid, s: Chats, thread: Thread, on: bool)
    ensures var after := ArchivedIn(c, self, s, thread, on).0;
            && (on ==> !IsPinned(c, after.account.pinned, thread))
            && (!on ==> !IsArchived(after, self, thread))
            && Unreadable(c, after.account.pinned) == Unreadable(c, s.account.pinned)
  {
    UnpinRemoves(c, s.account.pinned, thread);
  }

  lemma ArchivingKeeps(c: PinCodec, isAci: Namespace, self: Uuid, s: Chats, thread: Thread, on: bool)
    requires RealChat(isAci, thread)
    requires forall t :: RealChat(isAci, t) && t != thread && IsPinned(c, s.account.pinned, t) ==>
             !IsArchived(s, self, t)
    ensures Exclusive(c, isAci, self, ArchivedIn(c, self, s, thread, on).0)
    ensures Unreadable(c, ArchivedIn(c, self, s, thread, on).0.account.pinned) == Unreadable(c, s.account.pinned)
  {
    var after := ArchivedIn(c, self, s, thread, on).0;
    ArchivingSettlesOne(c, self, s, thread, on);
    forall t | RealChat(isAci, t) && IsPinned(c, after.account.pinned, t) ensures !IsArchived(after, self, t) {
      if t != thread { ArchivingChangesOne(c, isAci, self, s, thread, on, t); }
    }
  }

  lemma PinningKeeps(c: PinCodec, isAci: Namespace, self: Uuid, s: Chats, thread: Thread, on: bool)
    requires c.Lawful() && RealChat(isAci, thread) && Exclusive(c, isAci, self, s)
    ensures Exclusive(c, isAci, self, PinnedIn(c, self, s, thread, on).0)
    ensures Unreadable(c, PinnedIn(c, self, s, thread, on).0.account.pinned) == Unreadable(c, s.account.pinned)
  {
    PinAdds(c, s.account.pinned, thread);
    UnpinRemoves(c, s.account.pinned, thread);
    var pins := if on then AddPin(c, s.account.pinned, thread) else RemovePin(c, s.account.pinned, thread);
    var mid := WithAccount(s, s.account.(pinned := pins));
    if on && IsArchived(mid, self, thread) {
      ArchivingKeeps(c, isAci, self, mid, thread, false);
    }
  }

  /** Any sequence of archiving and pinning of contacts, by ACI or by PNI, and of groups,
      failed ones included, keeps no chat both pinned and archived, and keeps every pin entry this build
      cannot read, in order. */
  lemma {:induction false} EditsKeepExclusive(c: PinCodec, isAci: Namespace, self: Uuid, s: Chats, edits: seq<Edit>)
    requires c.Lawful() && Exclusive(c, isAci, self, s)
    requires forall e :: e in edits ==> RealChat(isAci, e.thread)
    ensures Exclusive(c, isAci, self, ApplyAll(c, self, s, edits))
    ensures Unreadable(c, ApplyAll(c, self, s, edits).account.pinned) == Unreadable(c, s.account.pinned)
    decreases |edits|
  {
    if edits != [] {
      var e := edits[0];
      assert e in edits;
      match e {
        case SetArchived(t, on) => ArchivingKeeps(c, isAci, self, s, t, on);
        case SetPinned(t, on) => PinningKeeps(c, isAci, self, s, t, on);
      }
      EditsKeepExclusive(c, isAci, self, Apply(c, self, s, e), edits[1..]);
    }
  }

  /** What one uuid of both kinds would do: rows go by the bare uuid and pins by the id, so
      archiving by one leaves a chat pinned and archived exactly when it was pinned by the
      other. */
  lemma SharedUuidArchive(c: PinCodec, self: Uuid, s: Chats, uuid: Uuid)
    requires uuid != self
    ensures var (aci, pni) := (ContactThread(Aci(uuid)), ContactThread(Pni(uuid)));
            var after := ArchivedIn(c, self, s, aci, true).0;
            (exists t :: t in {aci, pni} && IsPinned(c, after.account.pinned, t) && IsArchived(after, self, t))
              <==> IsPinned(c, s.account.pinned, pni)
  {
    var (aci, pni) := (ContactThread(Aci(uuid)), ContactThread(Pni(uuid)));
    var after := ArchivedIn(c, self, s, aci, true).0;
    UnpinRemoves(c, s.account.pinned, aci);
    assert IsArchived(after, self, pni);
    assert pni in {aci, pni};
  }

  // ----- a sync re-establishes it

  predicate Pending(thread: Thread, contactPending: set<ServiceId>, groupPending: set<MasterKey>) {
    match thread
    case ContactThread(id) => id in contactPending
    case GroupThread(key) => key in groupPending
  }

  lemma {:induction false} UnarchivedStays(s: Chats, self: Uuid, threads: seq<Thread>, contactPending: set<ServiceId>,
                                           groupPending: set<MasterKey>, t: Thread)
    requires !IsArchived(s, self, t)
    ensures !IsArchived(UnarchivedAll(s, threads, contactPending, groupPending), self, t)
    ensures UnarchivedAll(s, threads, contactPending, groupPending).account == s.account
    decreases |threads|
  {
    if threads != [] {
      UnarchivedStays(UnarchivedOne(s, threads[0], contactPending, groupPending), self, threads[1..], contactPending,
                      groupPending, t);
    }
  }

  lemma {:induction false} UnarchivedWhereListed(s: Chats, self: Uuid, threads: seq<Thread>,
                                                 contactPending: set<ServiceId>, groupPending: set<MasterKey>,
                                                     t: Thread)
    requires t in threads && !Pending(t, contactPending, groupPending) && t != ContactThread(Aci(self))
    ensures !IsArchived(UnarchivedAll(s, threads, contactPending, groupPending), self, t)
    decreases |threads|
  {
    var next := UnarchivedOne(s, threads[0], contactPending, groupPending);
    if t == threads[0] {
      UnarchivedStays(next, self, threads[1..], contactPending, groupPending, t);
    } else {
      UnarchivedWhereListed(next, self, threads[1..], contactPending, groupPending, t);
    }
  }

  lemma {:induction false} UnarchivingFlagsNothing(s: Chats, threads: seq<Thread>, contactPending: set<ServiceId>,
                                                   groupPending: set<MasterKey>)
    ensures var after := UnarchivedAll(s, threads, contactPending, groupPending);
            after.account == s.account && after.contactFlags == s.contactFlags && after.groupFlags == s.groupFlags
            && after.contacts.Keys == s.contacts.Keys && after.groups.Keys == s.groups.Keys
    decreases |threads|
  {
    if threads != [] {
      UnarchivingFlagsNothing(UnarchivedOne(s, threads[0], contactPending, groupPending), threads[1..],
                              contactPending, groupPending);
    }
  }

  /** Whatever the account record pins: once it is merged and its pins are walked, no pinned
      chat without a change of its own is archived, Note to Self aside; no flag is raised and
      the pins stay as they were. */
  lemma SyncRestoresExclusion(c: PinCodec, self: Uuid, s: Chats, contactPending: set<ServiceId>,
                              groupPending: set<MasterKey>)
    ensures var after := UnarchivedAll(s, PinnedThreads(c, s.account.pinned), contactPending, groupPending);
            && (forall t ::
                  IsPinned(c, after.account.pinned, t) && !Pending(t, contactPending, groupPending)
                  && t != ContactThread(Aci(self)) ==>
                    !IsArchived(after, self, t))
            && after.account == s.account && after.contactFlags == s.contactFlags && after.groupFlags == s.groupFlags
  {
    var threads := PinnedThreads(c, s.account.pinned);
    UnarchivingFlagsNothing(s, threads, contactPending, groupPending);
    forall t | t in threads && !Pending(t, contactPending, groupPending) && t != ContactThread(Aci(self))
      ensures !IsArchived(UnarchivedAll(s, threads, contactPending, groupPending), self, t)
    {
      UnarchivedWhereListed(s, self, threads, contactPending, groupPending, t);
    }
  }

  /** A chat to unarchive: pinned by an id that has no change of its own pending. */
  ghost predicate ContactWalked(threads: seq<Thread>, contactPending: set<ServiceId>, uuid: Uuid) {
    exists id: ServiceId :: id.uuid == uuid && id !in contactPending && ContactThread(id) in threads
  }

  lemma ContactWalkedStep(threads: seq<Thread>, contactPending: set<ServiceId>, uuid: Uuid)
    requires threads != []
    ensures ContactWalked(threads, contactPending, uuid) <==>
              (threads[0].ContactThread? && threads[0].id.uuid == uuid && threads[0].id !in contactPending) ||
              ContactWalked(threads[1..], contactPending, uuid)
  {
    assert threads == [threads[0]] + threads[1..];
    if ContactWalked(threads[1..], contactPending, uuid) {
      var id: ServiceId :| id.uuid == uuid && id !in contactPending && ContactThread(id) in threads[1..];
      assert ContactThread(id) in threads;
    }
    if threads[0].ContactThread? && threads[0].id.uuid == uuid && threads[0].id !in contactPending {
      assert ContactThread(threads[0].id) in threads;
    }
  }

  lemma {:induction false} ContactUnarchived(s: Chats, threads: seq<Thread>, contactPending: set<ServiceId>,
                                             groupPending: set<MasterKey>, uuid: Uuid)
    requires uuid in s.contacts
    ensures var after := UnarchivedAll(s, threads, contactPending, groupPending);
            uuid in after.contacts &&
            after.contacts[uuid] == if ContactWalked(threads, contactPending, uuid)
                                    then s.contacts[uuid].(archived := false) else s.contacts[uuid]
    decreases |threads|
  {
    if threads != [] {
      var next := UnarchivedOne(s, threads[0], contactPending, groupPending);
      ContactUnarchived(next, threads[1..], contactPending, groupPending, uuid);
      ContactWalkedStep(threads, contactPending, uuid);
    }
  }

  lemma {:induction false} GroupUnarchived(s: Chats, threads: seq<Thread>, contactPending: set<ServiceId>,
                                           groupPending: set<MasterKey>, key: MasterKey)
    requires key in s.groups
    ensures var after := UnarchivedAll(s, threads, contactPending, groupPending);
            key in after.groups &&
            after.groups[key] == if GroupThread(key) in threads && key !in groupPending
                                 then s.groups[key].(archived := false) else s.groups[key]
    decreases |threads|
  {
    if threads != [] {
      var next := UnarchivedOne(s, threads[0], contactPending, groupPending);
      GroupUnarchived(next, threads[1..], contactPending, groupPending, key);
      assert threads == [threads[0]] + threads[1..];
    }
  }

  /** The walk exactly: the archive flag of each contact and group it reaches is cleared, and
      nothing else of any row, and no row it does not reach, is changed. */
  lemma UnarchivesExactly(s: Chats, threads: seq<Thread>, contactPending: set<ServiceId>, groupPending: set<MasterKey>)
    ensures var after := UnarchivedAll(s, threads, contactPending, groupPending);
            && after.contacts.Keys == s.contacts.Keys && after.groups.Keys == s.groups.Keys
            && (forall uuid :: uuid in s.contacts ==>
                  after.contacts[uuid] == if ContactWalked(threads, contactPending, uuid)
                                          then s.contacts[uuid].(archived := false) else s.contacts[uuid])
            && (forall key :: key in s.groups ==>
                  after.groups[key] == if GroupThread(key) in threads && key !in groupPending
                                       then s.groups[key].(archived := false) else s.groups[key])
  {
    UnarchivingFlagsNothing(s, threads, contactPending, groupPending);
    forall uuid | uuid in s.contacts { ContactUnarchived(s, threads, contactPending, groupPending, uuid); }
    forall key | key in s.groups { GroupUnarchived(s, threads, contactPending, groupPending, key); }
  }

  // ----- what archiving and pinning do to the chat itself

  /** What every archiving shares: which calls fail, what becomes of the pins, and that the rest
      of the account stays and the account is flagged where it changed. */
  lemma ArchivingIs(c: PinCodec, self: Uuid, s: Chats, thread: Thread, on: bool)
    ensures var (after, error) := ArchivedIn(c, self, s, thread, on);
            && (error == Some(UnknownGroup) <==> thread.GroupThread? && thread.masterKey !in s.groups)
            && (error.Some? ==> error.value == UnknownGroup)
            && (error == None ==> IsArchived(after, self, thread) == on)
            && (forall t :: IsPinned(c, after.account.pinned, t) <==>
                  IsPinned(c, s.account.pinned, t) && !(on && t == thread))
            && (!on ==> after.account.pinned == s.account.pinned)
            && after.account.keepMutedArchived == s.account.keepMutedArchived
            && (thread != ContactThread(Aci(self)) ==>
                after.account.noteToSelfArchived == s.account.noteToSelfArchived)
            && (after.accountFlag <==> s.accountFlag || after.account != s.account)
  {
    UnpinRemoves(c, s.account.pinned, thread);
  }

  /** Archiving a contact writes its row, or a bare new one, and raises its flag; archiving a group
      writes the group's. No other row or flag changes, and Note to Self has none of its own. */
  lemma ArchivingWrites(c: PinCodec, self: Uuid, s: Chats, thread: Thread, on: bool)
    ensures var after := ArchivedIn(c, self, s, thread, on).0;
            match thread
            case ContactThread(id) =>
              && after.groups == s.groups && after.groupFlags == s.groupFlags
              && if id == Aci(self)
                 then after.contacts == s.contacts && after.contactFlags == s.contactFlags &&
                      after.account.noteToSelfArchived == on
                 else after.contactFlags == s.contactFlags + {id} &&
                      after.contacts == s.contacts[id.uuid :=
                        (if id.uuid in s.contacts then s.contacts[id.uuid] else ContactRow(false, false, 0, ""))
                        .(archived := on)]
            case GroupThread(key) =>
              && after.contacts == s.contacts && after.contactFlags == s.contactFlags
              && if key !in s.groups then after.groups == s.groups && after.groupFlags == s.groupFlags
                 else after.groupFlags == s.groupFlags + {key} &&
                      after.groups == s.groups[key := s.groups[key].(archived := on)]
  {
  }

  /** Pinning pins the chat and unpinning unpins it, and no other chat's pin changes; neither fails.
      A pinned chat is not archived, and is flagged if that had to be undone. */
  lemma PinningIs(c: PinCodec, self: Uuid, s: Chats, thread: Thread, on: bool)
    requires c.Lawful()
    ensures var (after, error) := PinnedIn(c, self, s, thread, on);
            && error == None
            && (forall t :: IsPinned(c, after.account.pinned, t) <==>
                  if t == thread then on else IsPinned(c, s.account.pinned, t))
            && (on ==> !IsArchived(after, self, thread))
            && (!on || !IsArchived(s, self, thread) ==>
                after.contacts == s.contacts && after.groups == s.groups &&
                after.contactFlags == s.contactFlags && after.groupFlags == s.groupFlags &&
                after.account == s.account.(pinned := after.account.pinned))
            && (after.accountFlag <==> s.accountFlag || after.account != s.account)
            && (on && IsArchived(s, self, thread) ==>
                match thread
                case ContactThread(id) => id == Aci(self) || id in after.contactFlags
                case GroupThread(key) => key in after.groupFlags)
  {
    PinAdds(c, s.account.pinned, thread);
    UnpinRemoves(c, s.account.pinned, thread);
    var pins := if on then AddPin(c, s.account.pinned, thread) else RemovePin(c, s.account.pinned, thread);
    var mid := WithAccount(s, s.account.(pinned := pins));
    assert IsArchived(mid, self, thread) == IsArchived(s, self, thread);
    ArchivingIs(c, self, mid, thread, false);
  }
}
