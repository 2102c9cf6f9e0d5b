/** The call log's state machine (model/calls.rs) and its store half (`ingest_call_event`,
    store.rs): sync events of one call fold into one entry. */
module CallHistory {
  import opened Wrappers

  datatype CallMode = DirectMode | GroupMode | AdhocMode | UnknownMode
  datatype CallType = AudioCall | VideoCall | GroupCall | AdhocCall | UnknownCall
  datatype CallDirection = Incoming | Outgoing | UnknownDirection
  datatype CallEventKind = Accepted | NotAccepted | Delete | Observed | UnknownEvent

  datatype DirectStatus = Pending | DirectAccepted | DirectMissed | DirectDeclined | DirectDeleted | DirectUnknown
  datatype GroupStatus = Generic | OutgoingRing | Ringing | Joined | GroupAccepted | GroupMissed | GroupDeclined
    | GroupDeleted | GroupUnknown
  datatype CallStatus = Direct(direct: DirectStatus) | Group(group: GroupStatus)

  datatype CallEvent = CallEvent(
    callId: nat, peerId: string, timestampMs: nat, mode: CallMode, callType: CallType, direction: CallDirection,
        kind: CallEventKind)

  datatype CallEntry = CallEntry(
    callId: nat, peerId: string, mode: CallMode, callType: CallType, direction: CallDirection, status: CallStatus,
        timestampMs: nat)

  /** Everything but the status: the latest event's, dated by the first. */
  function EntryFor(prev: Option<CallEntry>, e: CallEvent, status: CallStatus): CallEntry {
    CallEntry(e.callId, e.peerId, e.mode, e.callType, e.direction, status,
              if prev.Some? then prev.value.timestampMs else e.timestampMs)
  }

  function DirectTransition(prev: Option<CallEntry>, e: CallEvent): CallEntry {
    var before := if prev.Some? && prev.value.status.Direct? then Some(prev.value.status.direct) else None;
    var status :=
      if e.kind == Delete || before == Some(DirectDeleted) then DirectDeleted
      else if before == Some(DirectAccepted) || e.kind == Accepted then DirectAccepted
      else match e.kind
        case NotAccepted => DirectMissed
        case Observed => Pending
        case _ => before.GetOr(Pending);
    EntryFor(prev, e, Direct(status))
  }

  function GroupTransition(prev: Option<CallEntry>, e: CallEvent): CallEntry {
    var before := if prev.Some? && prev.value.status.Group? then Some(prev.value.status.group) else None;
    var status :=
      if e.kind == Delete || before == Some(GroupDeleted) then GroupDeleted
      else if before == Some(Joined) || e.kind == Accepted then Joined
      else match e.kind
        case Observed => Generic
        case NotAccepted => if e.direction == Incoming then GroupMissed else Generic
        case _ => before.GetOr(Generic);
    EntryFor(prev, e, Group(status))
  }

  /** Call links and unknown modes are not merged at all. */
  function Transition(prev: Option<CallEntry>, e: CallEvent): Option<CallEntry> {
    match e.mode
    case DirectMode => Some(DirectTransition(prev, e))
    case GroupMode => Some(GroupTransition(prev, e))
    case _ => None
  }

  type CallLog = map<nat, CallEntry>

  function Lookup(log: CallLog, callId: nat): Option<CallEntry> {
    if callId in log then Some(log[callId]) else None
  }

  function Ingested(log: CallLog, e: CallEvent): CallLog {
    match Transition(Lookup(log, e.callId), e)
    case Some(entry) => log[entry.callId := entry]
    case None => log
  }

  class CallStore {
    var calls: CallLog

    /** Load the entry, run the state machine, save what it says. */
    method IngestCallEvent(e: CallEvent) returns (merged: Option<CallEntry>)
      modifies this
      ensures calls == Ingested(old(calls), e)
      ensures merged == Transition(Lookup(old(calls), e.callId), e)
    {
      var prev := Lookup(calls, e.callId);
      merged := Transition(prev, e);
      if merged.Some? {
        calls := calls[merged.value.callId := merged.value];
      }
    }
  }

  // ----- one call

  function Fold(events: seq<CallEvent>): Option<CallEntry> {
    if events == [] then None
    else
      var n := |events| - 1;
      match Transition(Fold(events[..n]), events[n])
      case Some(entry) => Some(entry)
      case None => Fold(events[..n])
  }

  predicate Has(events: seq<CallEvent>, kind: CallEventKind) {
    exists i :: 0 <= i < |events| && events[i].kind == kind
  }

  /** The last event that says how the call went. */
  function LastKnown(events: seq<CallEvent>): Option<CallEvent> {
    if events == [] then None
    else
      var last := events[|events| - 1];
      if last.kind in {Observed, NotAccepted} then Some(last) else LastKnown(events[..|events| - 1])
  }

  function DirectOutcome(events: seq<CallEvent>): DirectStatus {
    if Has(events, Delete) then DirectDeleted
    else if Has(events, Accepted) then DirectAccepted
    else match LastKnown(events)
      case Some(e) => if e.kind == NotAccepted then DirectMissed else Pending
      case None => Pending
  }

  function GroupOutcome(events: seq<CallEvent>): GroupStatus {
    if Has(events, Delete) then GroupDeleted
    else if Has(events, Accepted) then Joined
    else match LastKnown(events)
      case Some(e) => if e.kind == NotAccepted && e.direction == Incoming then GroupMissed else Generic
      case None => Generic
  }

  lemma HasPrefix(events: seq<CallEvent>, kind: CallEventKind)
    requires events != []
    ensures Has(events, kind) <==> Has(events[..|events| - 1], kind) || events[|events| - 1].kind == kind
  {
    var init := events[..|events| - 1];
    if Has(init, kind) {
      var i :| 0 <= i < |init| && init[i].kind == kind;
      assert events[i].kind == kind;
    }
    if Has(events, kind) && events[|events| - 1].kind != kind {
      var i :| 0 <= i < |events| && events[i].kind == kind;
      assert init[i].kind == kind;
    }
  }

  predicate AllOf(events: seq<CallEvent>, mode: CallMode) {
    forall i :: 0 <= i < |events| ==> events[i].mode == mode
  }

  function Outcome(mode: CallMode, events: seq<CallEvent>): CallStatus
    requires mode == DirectMode || mode == GroupMode
  {
    if mode == DirectMode then Direct(DirectOutcome(events)) else Group(GroupOutcome(events))
  }

  /** The closed form, for a non-empty run of direct or of group events: deleted if any event
      deletes, else accepted (joined, for a group) if any accepts, else what the last telling
      event says; dated by the first event, and for the rest the last event's. */
  lemma {:induction false} FoldOutcome(mode: CallMode, events: seq<CallEvent>)
    requires mode == DirectMode || mode == GroupMode
    requires events != [] && AllOf(events, mode)
    ensures var last := events[|events| - 1];
            Fold(events) == Some(CallEntry(last.callId, last.peerId, mode, last.callType, last.direction,
                                           Outcome(mode, events), events[0].timestampMs))
  {
    var n := |events| - 1;
    var init := events[..n];
    HasPrefix(events, Delete);
    HasPrefix(events, Accepted);
    if n == 0 {
      assert init == [] && LastKnown(init) == None;
      assert !Has(init, Delete) && !Has(init, Accepted);
    } else {
      FoldOutcome(mode, init);
      assert init[0] == events[0];
    }
  }

  // ----- a stream of events of many calls

  function IngestAll(log: CallLog, events: seq<CallEvent>): CallLog {
    if events == [] then log else Ingested(IngestAll(log, events[..|events| - 1]), events[|events| - 1])
  }

  predicate Merges(e: CallEvent, callId: nat) {
    e.callId == callId && (e.mode == DirectMode || e.mode == GroupMode)
  }

  /** The events of one call the state machine takes, in order. */
  function EventsOf(events: seq<CallEvent>, callId: nat): (r: seq<CallEvent>)
    ensures forall e :: e in r ==> Merges(e, callId)
  {
    if events == [] then []
    else
      var rest := EventsOf(events[..|events| - 1], callId);
      if Merges(events[|events| - 1], callId) then rest + [events[|events| - 1]] else rest
  }

  /** However the events of many calls arrive interleaved, the log holds for each call the
      fold of its own; call-link and unknown-mode events leave no trace anywhere. */
  lemma {:induction false} LogHoldsFolds(events: seq<CallEvent>, callId: nat)
    ensures Lookup(IngestAll(map[], events), callId) == Fold(EventsOf(events, callId))
  {
    if events != [] {
      var n := |events| - 1;
      var last := events[n];
      LogHoldsFolds(events[..n], callId);
      var rest := EventsOf(events[..n], callId);
      if Merges(last, callId) {
        assert (rest + [last])[..|rest|] == rest;
      }
    }
  }

  /** The two together: what the log says of a call after any stream. */
  lemma LogOutcome(events: seq<CallEvent>, callId: nat, mode: CallMode)
    requires mode == DirectMode || mode == GroupMode
    requires EventsOf(events, callId) != [] && AllOf(EventsOf(events, callId), mode)
    ensures var own := EventsOf(events, callId);
            var entry := Lookup(IngestAll(map[], events), callId);
            entry.Some? && entry.value.status == Outcome(mode, own) &&
                entry.value.timestampMs == own[0].timestampMs && entry.value.callId == callId
  {
    LogHoldsFolds(events, callId);
    FoldOutcome(mode, EventsOf(events, callId));
    var own := EventsOf(events, callId);
    assert own[|own| - 1] in own;
  }

  // ----- the closed form, spelled out

  /** The last event that says how the call went stands at `i`. */
  predicate TellsLast(events: seq<CallEvent>, i: nat) {
    && i < |events| && (events[i].kind == Observed || events[i].kind == NotAccepted)
    && forall j :: i < j < |events| ==> events[j].kind != Observed && events[j].kind != NotAccepted
  }

  lemma {:induction false} LastKnownIs(events: seq<CallEvent>)
    ensures match LastKnown(events)
            case Some(e) => exists i: nat :: TellsLast(events, i) && events[i] == e
            case None => forall i :: 0 <= i < |events| ==> events[i].kind != Observed && events[i].kind != NotAccepted
  {
    if events != [] {
      var n := |events| - 1;
      LastKnownIs(events[..n]);
      if events[n].kind == Observed || events[n].kind == NotAccepted {
        assert TellsLast(events, n);
      } else if LastKnown(events[..n]).Some? {
        var i: nat :| TellsLast(events[..n], i) && events[..n][i] == LastKnown(events[..n]).value;
        assert forall j :: 0 <= j < n ==> events[..n][j] == events[j];
        assert TellsLast(events, i);
      } else {
        assert forall j :: 0 <= j < n ==> events[..n][j] == events[j];
      }
    }
  }

  /** What a run of events of a one-to-one call comes to. */
  lemma DirectOutcomeIs(events: seq<CallEvent>)
    ensures var (deleted, accepted) := (exists i :: 0 <= i < |events| && events[i].kind == Delete,
                                        exists i :: 0 <= i < |events| && events[i].kind == Accepted);
            && (deleted ==> DirectOutcome(events) == DirectDeleted)
            && (!deleted && accepted ==> DirectOutcome(events) == DirectAccepted)
            && (!deleted && !accepted ==>
                  && (forall i: nat :: TellsLast(events, i) ==>
                        DirectOutcome(events) == if events[i].kind == NotAccepted then DirectMissed else Pending)
                  && ((forall i: nat :: !TellsLast(events, i)) ==> DirectOutcome(events) == Pending))
  {
    LastKnownIs(events);
  }

  /** And of a group call: a ring that was not answered is missed only when it came in. */
  lemma GroupOutcomeIs(events: seq<CallEvent>)
    ensures var (deleted, accepted) := (exists i :: 0 <= i < |events| && events[i].kind == Delete,
                                        exists i :: 0 <= i < |events| && events[i].kind == Accepted);
            && (deleted ==> GroupOutcome(events) == GroupDeleted)
            && (!deleted && accepted ==> GroupOutcome(events) == Joined)
            && (!deleted && !accepted ==>
                  && (forall i: nat :: TellsLast(events, i) ==>
                        GroupOutcome(events) == if events[i].kind == NotAccepted && events[i].direction == Incoming
                                                then GroupMissed else Generic)
                  && ((forall i: nat :: !TellsLast(events, i)) ==> GroupOutcome(events) == Generic))
  {
    LastKnownIs(events);
  }

  /** From any stored entry, one the log could not have reached by these events included: a delete
      is final, an accepted or joined call is left only by a delete, an event of unknown kind
      changes no status of its own mode, and the entry keeps its date and takes the rest from the
      event. */
  lemma OneMoreEvent(prev: CallEntry, e: CallEvent)
    requires e.mode == DirectMode || e.mode == GroupMode
    ensures var (r, deleted, taken) := (Transition(Some(prev), e),
              if e.mode == DirectMode then Direct(DirectDeleted) else Group(GroupDeleted),
              if e.mode == DirectMode then Direct(DirectAccepted) else Group(Joined));
            && r.Some? && r.value == CallEntry(e.callId, e.peerId, e.mode, e.callType, e.direction, r.value.status,
                                               prev.timestampMs)
            && (r.value.status.Direct? <==> e.mode == DirectMode)
            && (e.kind == Delete || prev.status == deleted ==> r.value.status == deleted)
            && (e.kind != Delete && prev.status == taken ==> r.value.status == taken)
            && (e.kind == UnknownEvent && prev.status.Direct? == (e.mode == DirectMode) ==>
                r.value.status == prev.status)
  {
  }
}
