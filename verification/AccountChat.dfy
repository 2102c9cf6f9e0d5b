/** The account's chat-list state (model/account.rs): which chats are pinned, as the raw
    entries the account record carries. */
module AccountChat {
  import opened Wrappers
  import opened Codecs

  type Uuid = string
  type MasterKey = string

  datatype ServiceId = Aci(uuid: Uuid) | Pni(uuid: Uuid)

  datatype Thread = ContactThread(id: ServiceId) | GroupThread(masterKey: MasterKey)

  /** How an entry's bytes name a chat. The protobuf library decides this; all that is
      relied on is `Lawful`. */
  datatype PinCodec = PinCodec(threadOf: Pin -> Option<Thread>, forThread: Thread -> Pin) {
    ghost predicate Lawful() {
      forall t :: threadOf(forThread(t)) == Some(t)
    }
  }

  datatype AccountState = AccountState(noteToSelfArchived: bool, keepMutedArchived: bool, pinned: seq<Pin>)

  /** Which chats the entries name, skipping entries that name none this build knows. */
  function PinnedThreads(c: PinCodec, pins: seq<Pin>): seq<Thread> {
    if pins == [] then []
    else match c.threadOf(pins[0])
      case Some(t) => [t] + PinnedThreads(c, pins[1..])
      case None => PinnedThreads(c, pins[1..])
  }

  predicate IsPinned(c: PinCodec, pins: seq<Pin>, thread: Thread) {
    thread in PinnedThreads(c, pins)
  }

  /** The entries no thread is known for. */
  function Unreadable(c: PinCodec, pins: seq<Pin>): seq<Pin> {
    if pins == [] then []
    else if c.threadOf(pins[0]) == None then [pins[0]] + Unreadable(c, pins[1..])
    else Unreadable(c, pins[1..])
  }

  function AddPin(c: PinCodec, pins: seq<Pin>, thread: Thread): seq<Pin> {
    if IsPinned(c, pins, thread) then pins else pins + [c.forThread(thread)]
  }

  function RemovePin(c: PinCodec, pins: seq<Pin>, thread: Thread): seq<Pin> {
    if pins == [] then []
    else if c.threadOf(pins[0]) == Some(thread) then RemovePin(c, pins[1..], thread)
    else [pins[0]] + RemovePin(c, pins[1..], thread)
  }

  lemma {:induction false} PinnedAppend(c: PinCodec, a: seq<Pin>, b: seq<Pin>)
    ensures PinnedThreads(c, a + b) == PinnedThreads(c, a) + PinnedThreads(c, b)
    ensures Unreadable(c, a + b) == Unreadable(c, a) + Unreadable(c, b)
  {
    var ab := a + b;
    if a == [] {
      assert ab == b;
    } else {
      assert ab[0] == a[0] && ab[1..] == a[1..] + b;
      PinnedAppend(c, a[1..], b);
    }
  }

  /** Pinning adds one chat at the end and nothing else; no entry is lost or moved. */
  lemma PinAdds(c: PinCodec, pins: seq<Pin>, thread: Thread)
    requires c.Lawful()
    ensures PinnedThreads(c, AddPin(c, pins, thread)) ==
            PinnedThreads(c, pins) + if IsPinned(c, pins, thread) then [] else [thread]
    ensures Unreadable(c, AddPin(c, pins, thread)) == Unreadable(c, pins)
    ensures pins <= AddPin(c, pins, thread)
  {
    if !IsPinned(c, pins, thread) {
      var entry := c.forThread(thread);
      PinnedAppend(c, pins, [entry]);
      assert c.threadOf(entry) == Some(thread);
      assert PinnedThreads(c, [entry]) == [thread] && Unreadable(c, [entry]) == [];
    }
  }

  function Without(threads: seq<Thread>, thread: Thread): seq<Thread> {
    if threads == [] then []
    else if threads[0] == thread then Without(threads[1..], thread)
    else [threads[0]] + Without(threads[1..], thread)
  }

  /** Unpinning removes every entry of that chat and keeps the rest in order, the entries
      it cannot read included. */
  lemma UnpinRemoves(c: PinCodec, pins: seq<Pin>, thread: Thread)
    ensures PinnedThreads(c, RemovePin(c, pins, thread)) == Without(PinnedThreads(c, pins), thread)
    ensures Unreadable(c, RemovePin(c, pins, thread)) == Unreadable(c, pins)
    ensures !IsPinned(c, RemovePin(c, pins, thread), thread)
    ensures forall t :: t != thread ==> (IsPinned(c, RemovePin(c, pins, thread), t) <==> IsPinned(c, pins, t))
  {
    UnpinFilters(c, pins, thread);
    WithoutIn(PinnedThreads(c, pins), thread);
  }

  lemma {:induction false} UnpinFilters(c: PinCodec, pins: seq<Pin>, thread: Thread)
    ensures PinnedThreads(c, RemovePin(c, pins, thread)) == Without(PinnedThreads(c, pins), thread)
    ensures Unreadable(c, RemovePin(c, pins, thread)) == Unreadable(c, pins)
  {
    if pins != [] {
      UnpinFilters(c, pins[1..], thread);
      if c.threadOf(pins[0]) != Some(thread) {
        var rest := RemovePin(c, pins[1..], thread);
        assert RemovePin(c, pins, thread) == [pins[0]] + rest && ([pins[0]] + rest)[1..] == rest;
        if c.threadOf(pins[0]).Some? {
          var t := c.threadOf(pins[0]).value;
          assert ([t] + PinnedThreads(c, pins[1..]))[1..] == PinnedThreads(c, pins[1..]);
        }
      } else {
        assert ([thread] + PinnedThreads(c, pins[1..]))[1..] == PinnedThreads(c, pins[1..]);
      }
    }
  }

  lemma {:induction false} WithoutIn(threads: seq<Thread>, thread: Thread)
    ensures thread !in Without(threads, thread)
    ensures forall t :: t != thread ==> (t in Without(threads, thread) <==> t in threads)
  {
    if threads != [] { WithoutIn(threads[1..], thread); }
  }

  // ----- the account's state, edited in place

  class AccountChatState {
    var noteToSelfArchived: bool
    var keepMutedArchived: bool
    var pinned: seq<Pin>

    constructor (state: AccountState)
      ensures Value() == state
    {
      noteToSelfArchived, keepMutedArchived, pinned := state.noteToSelfArchived, state.keepMutedArchived, state.pinned;
    }

    function Value(): AccountState
      reads this
    {
      AccountState(noteToSelfArchived, keepMutedArchived, pinned)
    }

    /** Pin a chat after the ones already pinned, unless it already is. */
    method Pin(c: PinCodec, thread: Thread)
      requires c.Lawful()
      modifies this`pinned
      ensures Value() == old(Value()).(pinned := AddPin(c, old(pinned), thread))
      ensures PinnedThreads(c, pinned) ==
              PinnedThreads(c, old(pinned)) + if IsPinned(c, old(pinned), thread) then [] else [thread]
      ensures Unreadable(c, pinned) == Unreadable(c, old(pinned))
    {
      PinAdds(c, pinned, thread);
      if !IsPinned(c, pinned, thread) {
        pinned := pinned + [c.forThread(thread)];
      }
    }

    /** Take every entry of a chat out. */
    method Unpin(c: PinCodec, thread: Thread)
      modifies this`pinned
      ensures Value() == old(Value()).(pinned := RemovePin(c, old(pinned), thread))
      ensures PinnedThreads(c, pinned) == Without(PinnedThreads(c, old(pinned)), thread)
      ensures Unreadable(c, pinned) == Unreadable(c, old(pinned))
    {
      UnpinRemoves(c, pinned, thread);
      pinned := RemovePin(c, pinned, thread);
    }
  }

  /** The first account record this device reads: its own pins, then every chat pinned
      here before now. */
  function AdoptPins(c: PinCodec, adopted: seq<Pin>, local: seq<Thread>): seq<Pin>
    decreases |local|
  {
    if local == [] then adopted else AdoptPins(c, AddPin(c, adopted, local[0]), local[1..])
  }

  /** Adopting keeps every entry of the account's in front and in order, and pins exactly
      the chats either side had pinned. */
  lemma {:induction false} AdoptKeepsBoth(c: PinCodec, adopted: seq<Pin>, local: seq<Thread>)
    requires c.Lawful()
    ensures adopted <= AdoptPins(c, adopted, local)
    ensures forall t :: IsPinned(c, AdoptPins(c, adopted, local), t) <==> IsPinned(c, adopted, t) || t in local
    ensures Unreadable(c, AdoptPins(c, adopted, local)) == Unreadable(c, adopted)
    decreases |local|
  {
    if local != [] {
      PinAdds(c, adopted, local[0]);
      AdoptKeepsBoth(c, AddPin(c, adopted, local[0]), local[1..]);
    }
  }

  /** The adopted chats follow the record's own, in the order they were pinned here. */
  lemma {:induction false} AdoptKeepsOrder(c: PinCodec, adopted: seq<Pin>, local: seq<Thread>)
    requires c.Lawful()
    requires forall i, j :: 0 <= i < j < |local| ==> local[i] != local[j]
    requires forall t :: t in local ==> !IsPinned(c, adopted, t)
    ensures PinnedThreads(c, AdoptPins(c, adopted, local)) == PinnedThreads(c, adopted) + local
    decreases |local|
  {
    if local != [] {
      var next := AddPin(c, adopted, local[0]);
      PinAdds(c, adopted, local[0]);
      forall t | t in local[1..] ensures !IsPinned(c, next, t) {
        var i :| 0 <= i < |local[1..]| && local[1..][i] == t;
        assert local[0] != local[i + 1] && local[i + 1] in local;
      }
      AdoptKeepsOrder(c, next, local[1..]);
      assert PinnedThreads(c, adopted) + local == (PinnedThreads(c, adopted) + [local[0]]) + local[1..];
    }
  }
}
