/** The approval rendezvous between the agent and the browser. Every lock region is one atomic step; a wait is its
    registration followed by any number of wake-ups, and steps of all parties interleave freely. */
module Approvals {
  import opened Wrappers
  import opened Whitespace
  import opened Values

  const MAX_APPROVAL_ID_BYTES: nat := 512
  const MAX_TRACKED_APPROVALS: nat := 64

  datatype Reply = Allow | Deny | Cancelled

  datatype ApprovalState = Pending | Resolved(reply: Reply) | Closed

  datatype Reason = ByCancel | TimedOut | InBrowser | NoLongerPending

  datatype Decision = Allowed | Denied(reason: Reason)

  datatype Refusal = EmptyId | IdTooLong | AlreadyResolved | NotPending | TooMany

  /** What happened, in the order of the lock. */
  datatype Event =
    | Registered(id: string)
    | Accepted(id: string, reply: Reply)
    | Returned(id: string, decision: Decision)
    | PendingCancelled
    | TurnBegan

  /** The tracked requests, and the history of steps. */
  datatype Store = Store(states: map<string, ApprovalState>, log: seq<Event>)

  datatype Outcome = Outcome(next: Store, decision: Option<Decision>)

  // ----- the steps -----

  /** Ends a wait: the request is closed whatever the decision. */
  function Close(s: Store, id: string, decision: Decision): Outcome {
    Outcome(Store(s.states[id := Closed], s.log + [Returned(id, decision)]), Some(decision))
  }

  function DecisionOf(state: Option<ApprovalState>): Decision {
    match state
    case Some(Resolved(Allow)) => Allowed
    case Some(Resolved(Deny)) => Denied(InBrowser)
    case Some(Resolved(Cancelled)) => Denied(ByCancel)
    case _ => Denied(NoLongerPending)
  }

  function StateAt(s: Store, id: string): Option<ApprovalState> {
    if id in s.states then Some(s.states[id]) else None
  }

  /** One turn of the waiting loop with the lock held: still pending, or a decision. */
  function Settle(s: Store, id: string, cancelled: bool): Outcome {
    if cancelled then Close(s, id, Denied(ByCancel))
    else if StateAt(s, id) == Some(Pending) then Outcome(s, None)
    else Close(s, id, DecisionOf(StateAt(s, id)))
  }

  function Register(s: Store, id: string): Store {
    Store(if id in s.states && s.states[id].Resolved? then s.states else s.states[id := Pending], s.log + [Registered(id)])
  }

  /** The start of `wait_with_cancel`, until the lock is given up or a decision returned. */
  function Enter(s: Store, id: string, cancelled: bool): Outcome {
    Settle(Register(s, id), id, cancelled)
  }

  /** A wake-up inside `wait_with_cancel`. */
  function Wake(s: Store, id: string, cancelled: bool, timedOut: bool): Outcome {
    if timedOut then Close(s, id, Denied(TimedOut)) else Settle(s, id, cancelled)
  }

  /** The first reason to refuse a decision. */
  function Refused(s: Store, id: string): Option<Refusal> {
    if Trim(id) == [] then Some(EmptyId)
    else if Utf8Len(id) > MAX_APPROVAL_ID_BYTES then Some(IdTooLong)
    else
      match StateAt(s, id)
      case Some(Pending) => None
      case Some(Resolved(_)) => Some(AlreadyResolved)
      case Some(Closed) => Some(NotPending)
      case None => if |s.states| >= MAX_TRACKED_APPROVALS then Some(TooMany) else None
  }

  /** `resolve`. */
  function Resolve(s: Store, id: string, reply: Reply): Store {
    if Refused(s, id).Some? then s else Store(s.states[id := Resolved(reply)], s.log + [Accepted(id, reply)])
  }

  function CancelPending(s: Store): Store {
    Store(map id | id in s.states :: if s.states[id].Pending? then Resolved(Cancelled) else s.states[id], s.log + [PendingCancelled])
  }

  function BeginTurn(s: Store): Store {
    Store(map[], s.log + [TurnBegan])
  }

  // ----- what the history says -----

  /** A wait for the id came to its end, or everything was forgotten. */
  predicate Closes(e: Event, id: string) {
    (e.Returned? && e.id == id) || e.TurnBegan?
  }

  /** The decision accepted at `i` has not been used up or forgotten before `j`. */
  ghost predicate Unclaimed(log: seq<Event>, id: string, reply: Reply, i: nat, j: nat) {
    && i < j <= |log| && log[i] == Accepted(id, reply)
    && forall k :: i < k < j ==> !Closes(log[k], id)
  }

  /** The wait that returned at `i` ended it: no turn began and nothing was registered for the id since. */
  ghost predicate EndedAt(log: seq<Event>, id: string, i: nat) {
    && i < |log| && log[i].Returned? && log[i].id == id
    && forall k :: i < k < |log| ==> !log[k].TurnBegan? && log[k] != Registered(id)
  }

  /** A pending request for the id is settled by the event, cancelled by it or forgotten. */
  predicate Shuts(e: Event, id: string) {
    e.TurnBegan? || e.PendingCancelled? || (e.Accepted? && e.id == id) || (e.Returned? && e.id == id)
  }

  /** The request registered at `i` has not been answered, returned or cancelled since, and no turn began. */
  ghost predicate OpenAt(log: seq<Event>, id: string, i: nat) {
    && i < |log| && log[i] == Registered(id)
    && forall k :: i < k < |log| ==> !Shuts(log[k], id)
  }

  /** The open request for the id was cancelled at `i`; no wait for it returned and no turn began since. */
  ghost predicate WithdrawnAt(log: seq<Event>, id: string, i: nat) {
    && i < |log| && log[i].PendingCancelled? && Open(log[..i], id)
    && forall k :: i < k < |log| ==> !Closes(log[k], id)
  }

  ghost predicate Open(log: seq<Event>, id: string) {
    exists i :: OpenAt(log, id, i)
  }

  /** A decision for the id was accepted and is neither used nor forgotten. */
  ghost predicate Held(log: seq<Event>, id: string, reply: Reply) {
    exists i :: Unclaimed(log, id, reply, i, |log|)
  }

  ghost predicate Withdrawn(log: seq<Event>, id: string) {
    exists i :: WithdrawnAt(log, id, i)
  }

  ghost predicate Ended(log: seq<Event>, id: string) {
    exists i :: EndedAt(log, id, i)
  }

  ghost predicate Touched(log: seq<Event>, id: string) {
    exists i :: TouchedAt(log, id, i)
  }

  predicate Touches(e: Event, id: string) {
    (e.Registered? || e.Accepted? || e.Returned?) && e.id == id
  }

  /** Something happened for the id at `i`, and no turn began since. */
  ghost predicate TouchedAt(log: seq<Event>, id: string, i: nat) {
    && i < |log| && Touches(log[i], id)
    && forall k :: i < k < |log| ==> !log[k].TurnBegan?
  }

  /** The Allow returned at `j` uses the Allow accepted at `i`. */
  ghost predicate Uses(log: seq<Event>, j: nat, i: nat) {
    j < |log| && log[j].Returned? && log[j].decision.Allowed? && Unclaimed(log, log[j].id, Allow, i, j)
  }

  ghost predicate StatesMatch(s: Store) {
    && (forall id :: id in s.states && s.states[id].Resolved? && s.states[id].reply != Cancelled ==>
          exists i :: Unclaimed(s.log, id, s.states[id].reply, i, |s.log|))
    && (forall id, reply, i :: Unclaimed(s.log, id, reply, i, |s.log|) ==> StateAt(s, id) == Some(Resolved(reply)))
    && (forall id, i :: EndedAt(s.log, id, i) ==> StateAt(s, id) == Some(Closed))
    && (forall id :: StateAt(s, id) == Some(Closed) ==> exists i :: EndedAt(s.log, id, i))
    && (forall id :: StateAt(s, id) == Some(Pending) ==> exists i :: OpenAt(s.log, id, i))
  }

  /** Every Allow that was returned uses one that was accepted. */
  ghost predicate AllowsUsed(log: seq<Event>) {
    forall j :: 0 <= j < |log| && log[j].Returned? && log[j].decision.Allowed? ==> exists i :: Uses(log, j, i)
  }

  ghost predicate StoreOk(s: Store) {
    StatesMatch(s) && AllowsUsed(s.log)
  }

  // ----- every step keeps it -----

  lemma UnclaimedAfter(log: seq<Event>, e: Event, id: string, reply: Reply, i: nat)
    ensures Unclaimed(log + [e], id, reply, i, |log| + 1) <==>
      (Unclaimed(log, id, reply, i, |log|) && !Closes(e, id)) || (i == |log| && e == Accepted(id, reply))
  {
    var after := log + [e];
    if Unclaimed(after, id, reply, i, |log| + 1) && i < |log| {
      assert after[|log|] == e;
      assert forall k :: i < k < |log| ==> after[k] == log[k];
    }
  }

  lemma EndedAfter(log: seq<Event>, e: Event, id: string, i: nat)
    ensures EndedAt(log + [e], id, i) <==>
      (EndedAt(log, id, i) && !e.TurnBegan? && e != Registered(id)) || (i == |log| && e.Returned? && e.id == id)
  {
    var after := log + [e];
    if EndedAt(after, id, i) && i < |log| {
      assert after[|log|] == e;
      assert forall k :: i < k < |log| ==> after[k] == log[k];
    }
  }

  lemma OpenAfter(log: seq<Event>, e: Event, id: string, i: nat)
    ensures OpenAt(log + [e], id, i) <==> (OpenAt(log, id, i) && !Shuts(e, id)) || (i == |log| && e == Registered(id))
  {
    var after := log + [e];
    if OpenAt(after, id, i) && i < |log| {
      assert after[|log|] == e;
      assert forall k :: i < k < |log| ==> after[k] == log[k];
    }
  }

  lemma AllowsAfter(log: seq<Event>, e: Event)
    requires AllowsUsed(log)
    requires e.Returned? && e.decision.Allowed? ==> exists i :: Unclaimed(log, e.id, Allow, i, |log|)
    ensures AllowsUsed(log + [e])
  {
    var after := log + [e];
    forall j | 0 <= j < |after| && after[j].Returned? && after[j].decision.Allowed? ensures exists i :: Uses(after, j, i) {
      if j < |log| {
        var i :| Uses(log, j, i);
        assert Uses(after, j, i);
      } else {
        var i :| Unclaimed(log, e.id, Allow, i, |log|);
        assert Uses(after, j, i);
      }
    }
  }

  /** A step that appends one event keeps the invariant if the states of all requests follow the event. */
  lemma Appended(s: Store, next: Store, e: Event)
    requires StoreOk(s) && next.log == s.log + [e]
    requires e.Returned? && e.decision.Allowed? ==> StateAt(s, e.id) == Some(Resolved(Allow))
    requires forall id :: Follows(StateAt(s, id), StateAt(next, id), e, id)
    ensures StoreOk(next)
  {
    hide Unclaimed, EndedAt, OpenAt, Uses;
    forall id, reply, i ensures Unclaimed(next.log, id, reply, i, |next.log|) ==> StateAt(next, id) == Some(Resolved(reply)) {
      UnclaimedAfter(s.log, e, id, reply, i);
      assert Follows(StateAt(s, id), StateAt(next, id), e, id);
    }
    forall id, i ensures EndedAt(next.log, id, i) ==> StateAt(next, id) == Some(Closed) {
      EndedAfter(s.log, e, id, i);
      assert Follows(StateAt(s, id), StateAt(next, id), e, id);
    }
    forall id | id in next.states && next.states[id].Resolved? && next.states[id].reply != Cancelled
      ensures exists i :: Unclaimed(next.log, id, next.states[id].reply, i, |next.log|)
    {
      assert Follows(StateAt(s, id), StateAt(next, id), e, id);
      StillUnclaimed(s, next.log, e, id, next.states[id].reply);
    }
    forall id ensures StateAt(next, id) == Some(Closed) ==> exists i :: EndedAt(next.log, id, i) {
      assert Follows(StateAt(s, id), StateAt(next, id), e, id);
      if StateAt(next, id) == Some(Closed) { StillEnded(s, next.log, e, id); }
    }
    forall id ensures StateAt(next, id) == Some(Pending) ==> exists i :: OpenAt(next.log, id, i) {
      assert Follows(StateAt(s, id), StateAt(next, id), e, id);
      if StateAt(next, id) == Some(Pending) { StillOpen(s, next.log, e, id); }
    }
    AllowsAfter(s.log, e);
  }

  lemma StillEnded(s: Store, log: seq<Event>, e: Event, id: string)
    requires StatesMatch(s) && log == s.log + [e]
    requires (e.Returned? && e.id == id) || (StateAt(s, id) == Some(Closed) && !e.TurnBegan? && e != Registered(id))
    ensures exists i :: EndedAt(log, id, i)
  {
    hide Unclaimed, EndedAt, OpenAt;
    if e.Returned? && e.id == id {
      EndedAfter(s.log, e, id, |s.log|);
    } else {
      var i :| EndedAt(s.log, id, i);
      EndedAfter(s.log, e, id, i);
    }
  }

  lemma StillOpen(s: Store, log: seq<Event>, e: Event, id: string)
    requires StatesMatch(s) && log == s.log + [e]
    requires e == Registered(id) || (StateAt(s, id) == Some(Pending) && !Shuts(e, id))
    ensures exists i :: OpenAt(log, id, i)
  {
    hide Unclaimed, EndedAt, OpenAt;
    if e == Registered(id) {
      OpenAfter(s.log, e, id, |s.log|);
    } else {
      var i :| OpenAt(s.log, id, i);
      OpenAfter(s.log, e, id, i);
    }
  }

  lemma StillUnclaimed(s: Store, log: seq<Event>, e: Event, id: string, reply: Reply)
    requires StatesMatch(s) && reply != Cancelled && log == s.log + [e]
    requires e == Accepted(id, reply) || (StateAt(s, id) == Some(Resolved(reply)) && !Closes(e, id))
    ensures exists i :: Unclaimed(log, id, reply, i, |log|)
  {
    hide Unclaimed, EndedAt, OpenAt;
    if e == Accepted(id, reply) {
      UnclaimedAfter(s.log, e, id, reply, |s.log|);
    } else {
      var i :| Unclaimed(s.log, id, reply, i, |s.log|);
      UnclaimedAfter(s.log, e, id, reply, i);
    }
  }

  /** How an event moves the state of one request. */
  predicate Follows(was: Option<ApprovalState>, now: Option<ApprovalState>, e: Event, id: string) {
    match e
    case Registered(r) =>
      if r == id && !(was.Some? && was.value.Resolved?) then now == Some(Pending) else now == was
    case Accepted(r, reply) =>
      if r == id then now == Some(Resolved(reply)) && (was == Some(Pending) || was == None) else now == was
    case Returned(r, _) => if r == id then now == Some(Closed) else now == was
    case PendingCancelled => if was == Some(Pending) then now == Some(Resolved(Cancelled)) else now == was
    case TurnBegan => now == None
  }

  /** One step of any party. */
  datatype Action =
    | StartWait(id: string, cancelled: bool)
    | WakeUp(id: string, cancelled: bool, timedOut: bool)
    | Decide(id: string, reply: Reply)
    | CancelAll
    | NewTurn

  function Acted(s: Store, action: Action): Store {
    match action
    case StartWait(id, cancelled) => Enter(s, id, cancelled).next
    case WakeUp(id, cancelled, timedOut) => Wake(s, id, cancelled, timedOut).next
    case Decide(id, reply) => Resolve(s, id, reply)
    case CancelAll => CancelPending(s)
    case NewTurn => BeginTurn(s)
  }

  lemma SettleKeeps(s: Store, id: string, cancelled: bool)
    requires StoreOk(s)
    ensures StoreOk(Settle(s, id, cancelled).next)
  {
    hide StoreOk;
    var r := Settle(s, id, cancelled);
    if r.decision.Some? { Appended(s, r.next, Returned(id, r.decision.value)); }
  }

  lemma ActionKeeps(s: Store, action: Action)
    requires StoreOk(s)
    ensures StoreOk(Acted(s, action)) && s.log <= Acted(s, action).log
  {
    hide StoreOk, Trim, Utf8Len;
    match action
    case StartWait(id, cancelled) =>
      Appended(s, Register(s, id), Registered(id));
      SettleKeeps(Register(s, id), id, cancelled);
    case WakeUp(id, cancelled, timedOut) =>
      if timedOut {
        Appended(s, Wake(s, id, cancelled, timedOut).next, Returned(id, Denied(TimedOut)));
      } else {
        SettleKeeps(s, id, cancelled);
      }
    case Decide(id, reply) =>
      if Refused(s, id).None? { Appended(s, Resolve(s, id, reply), Accepted(id, reply)); }
    case CancelAll => Appended(s, CancelPending(s), PendingCancelled);
    case NewTurn => Appended(s, BeginTurn(s), TurnBegan);
  }

  function Ran(s: Store, actions: seq<Action>): Store
    decreases |actions|
  {
    if actions == [] then s else Acted(Ran(s, actions[..|actions| - 1]), actions[|actions| - 1])
  }

  const FRESH: Store := Store(map[], [])

  lemma {:induction false} RunKeeps(actions: seq<Action>)
    ensures StoreOk(Ran(FRESH, actions))
    decreases |actions|
  {
    if actions != [] {
      RunKeeps(actions[..|actions| - 1]);
      hide StoreOk, Acted;
      ActionKeeps(Ran(FRESH, actions[..|actions| - 1]), actions[|actions| - 1]);
    }
  }

  // ----- what follows for every run -----

  /** Across any interleaving, every Allow a wait returns uses an Allow accepted for the same id since the id was
      last closed or the turn began, and no accepted Allow is used twice. */
  lemma AllowsAreEarned(actions: seq<Action>)
    ensures var log := Ran(FRESH, actions).log;
      && (forall j :: 0 <= j < |log| && log[j].Returned? && log[j].decision.Allowed? ==> exists i :: Uses(log, j, i))
      && (forall i, j, k :: Uses(log, j, i) && Uses(log, k, i) ==> j == k)
  {
    RunKeeps(actions);
    var log := Ran(FRESH, actions).log;
    forall i, j, k | Uses(log, j, i) && Uses(log, k, i) ensures j == k {
      UsedOnce(log, i, j, k);
    }
  }

  lemma UsedOnce(log: seq<Event>, i: nat, j: nat, k: nat)
    requires Uses(log, j, i) && Uses(log, k, i)
    ensures j == k
  {
    if j < k { assert Closes(log[j], log[k].id); }
    if k < j { assert Closes(log[k], log[j].id); }
  }

  /** The requests tracked, from the history alone. */
  function Tracked(log: seq<Event>): set<string> {
    if log == [] then {}
    else
      var before := Tracked(log[..|log| - 1]);
      match log[|log| - 1]
      case Registered(id) => before + {id}
      case Accepted(id, _) => before + {id}
      case Returned(id, _) => before + {id}
      case PendingCancelled => before
      case TurnBegan => {}
  }

  /** The decisions held for requests that have not been registered. */
  function Parked(log: seq<Event>): set<string> {
    if log == [] then {}
    else
      var before := Parked(log[..|log| - 1]);
      match log[|log| - 1]
      case Registered(id) => before - {id}
      case Accepted(id, _) => if id in Tracked(log[..|log| - 1]) then before else before + {id}
      case Returned(id, _) => before - {id}
      case PendingCancelled => before
      case TurnBegan => {}
  }

  /** A decision for the id was accepted at `i` before anything else happened for it in the turn, and no request for it
      was registered, no wait returned and no turn began since. */
  ghost predicate ParkedAt(log: seq<Event>, id: string, i: nat) {
    && i < |log| && log[i].Accepted? && log[i].id == id && !Touched(log[..i], id)
    && forall k :: i < k < |log| ==> !Closes(log[k], id) && log[k] != Registered(id)
  }

  lemma ParkedAfter(log: seq<Event>, e: Event, id: string, i: nat)
    ensures ParkedAt(log + [e], id, i) <==>
      (ParkedAt(log, id, i) && !Closes(e, id) && e != Registered(id)) ||
      (i == |log| && e.Accepted? && e.id == id && !Touched(log, id))
  {
    hide Touched;
    var after := log + [e];
    if i < |log| { assert after[..i] == log[..i]; }
    assert after[..|log|] == log;
    if ParkedAt(after, id, i) && i < |log| {
      assert after[|log|] == e;
      assert forall k :: i < k < |log| ==> after[k] == log[k];
    }
  }

  /** The decisions held for unregistered requests, read off the history. */
  lemma {:induction false} ParkedMeans(log: seq<Event>, id: string)
    ensures id in Parked(log) <==> exists i :: ParkedAt(log, id, i)
    decreases |log|
  {
    if log != [] {
      var n := |log| - 1;
      ParkedMeans(log[..n], id);
      TrackedMeans(log[..n], id);
      assert log == log[..n] + [log[n]];
      forall i
        ensures ParkedAt(log, id, i) <==>
          (ParkedAt(log[..n], id, i) && !Closes(log[n], id) && log[n] != Registered(id)) ||
          (i == n && log[n].Accepted? && log[n].id == id && !Touched(log[..n], id))
      {
        ParkedAfter(log[..n], log[n], id, i);
      }
      hide ParkedAt;
      if log[n].Accepted? && log[n].id == id && !Touched(log[..n], id) { assert ParkedAt(log, id, n); }
    }
  }

  ghost predicate ParkingOk(s: Store) {
    Tracked(s.log) == s.states.Keys && Parked(s.log) <= s.states.Keys && |Parked(s.log)| <= MAX_TRACKED_APPROVALS
  }

  lemma ParkingAfter(s: Store, next: Store, e: Event)
    requires ParkingOk(s) && next.log == s.log + [e]
    requires match e
      case Registered(id) => next.states.Keys == s.states.Keys + {id}
      case Accepted(id, _) => next.states.Keys == s.states.Keys + {id} && (id in s.states || |s.states| < MAX_TRACKED_APPROVALS)
      case Returned(id, _) => next.states.Keys == s.states.Keys + {id}
      case PendingCancelled => next.states.Keys == s.states.Keys
      case TurnBegan => next.states.Keys == {}
    ensures ParkingOk(next)
  {
    assert next.log[..|next.log| - 1] == s.log;
    var was, now := Parked(s.log), Parked(next.log);
    if e.Accepted? && e.id !in s.states {
      assert |s.states| == |s.states.Keys|;
      SubsetSize(was, s.states.Keys);
    } else if !e.TurnBegan? {
      SubsetSize(now, was);
    }
  }

  lemma {:induction false} SubsetSize(a: set<string>, b: set<string>)
    requires a <= b
    ensures |a| <= |b|
  {
    if a != {} {
      var x :| x in a;
      SubsetSize(a - {x}, b - {x});
    }
  }

  lemma ActionKeepsParking(s: Store, action: Action)
    requires ParkingOk(s)
    ensures ParkingOk(Acted(s, action))
  {
    hide ParkingOk, Settle, Resolve, Refused, Register, CancelPending, Close;
    match action
    case StartWait(id, cancelled) =>
      RegisteredKeys(s, id);
      ParkingAfter(s, Register(s, id), Registered(id));
      SettleKeepsParking(Register(s, id), id, cancelled);
    case WakeUp(id, cancelled, timedOut) =>
      ClosedKeys(s, id, Denied(TimedOut));
      if timedOut {
        ParkingAfter(s, Wake(s, id, cancelled, timedOut).next, Returned(id, Denied(TimedOut)));
      } else {
        SettleKeepsParking(s, id, cancelled);
      }
    case Decide(id, reply) =>
      ResolvedKeys(s, id, reply);
      if Refused(s, id).None? { ParkingAfter(s, Resolve(s, id, reply), Accepted(id, reply)); }
    case CancelAll =>
      CancelledKeys(s);
      ParkingAfter(s, CancelPending(s), PendingCancelled);
    case NewTurn => ParkingAfter(s, BeginTurn(s), TurnBegan);
  }

  lemma SettleKeepsParking(s: Store, id: string, cancelled: bool)
    requires ParkingOk(s)
    ensures ParkingOk(Settle(s, id, cancelled).next)
  {
    hide ParkingOk, Close;
    ClosedKeys(s, id, Denied(ByCancel));
    ClosedKeys(s, id, DecisionOf(StateAt(s, id)));
    var r := Settle(s, id, cancelled);
    if cancelled {
      ParkingAfter(s, r.next, Returned(id, Denied(ByCancel)));
    } else if StateAt(s, id) != Some(Pending) {
      ParkingAfter(s, r.next, Returned(id, DecisionOf(StateAt(s, id))));
    }
  }

  lemma ClosedKeys(s: Store, id: string, decision: Decision)
    ensures Close(s, id, decision).next.states.Keys == s.states.Keys + {id}
    ensures Close(s, id, decision).next.log == s.log + [Returned(id, decision)]
  {
  }

  lemma RegisteredKeys(s: Store, id: string)
    ensures Register(s, id).states.Keys == s.states.Keys + {id} && Register(s, id).log == s.log + [Registered(id)]
  {
  }

  lemma ResolvedKeys(s: Store, id: string, reply: Reply)
    ensures Refused(s, id).Some? ==> Resolve(s, id, reply) == s
    ensures Refused(s, id).None? ==>
      && Resolve(s, id, reply).states.Keys == s.states.Keys + {id}
      && Resolve(s, id, reply).log == s.log + [Accepted(id, reply)]
      && (id in s.states || |s.states| < MAX_TRACKED_APPROVALS)
  {
    hide Trim, Utf8Len;
  }

  lemma CancelledKeys(s: Store)
    ensures CancelPending(s).states.Keys == s.states.Keys && CancelPending(s).log == s.log + [PendingCancelled]
  {
  }

  /** In every run, at most the limit of decisions is held for requests that never registered. */
  lemma {:induction false} ParkingBounded(actions: seq<Action>)
    ensures ParkingOk(Ran(FRESH, actions))
    decreases |actions|
  {
    if actions != [] {
      ParkingBounded(actions[..|actions| - 1]);
      hide ParkingOk, Acted;
      ActionKeepsParking(Ran(FRESH, actions[..|actions| - 1]), actions[|actions| - 1]);
    }
  }

  // ----- which decisions are accepted -----

  /** A request the history shows open is pending: what a step leaves, though not its middle. */
  ghost predicate OpenOk(s: Store) {
    forall id, i :: OpenAt(s.log, id, i) ==> StateAt(s, id) == Some(Pending)
  }

  lemma OpenAppended(s: Store, next: Store, e: Event)
    requires OpenOk(s) && next.log == s.log + [e]
    requires forall id :: Follows(StateAt(s, id), StateAt(next, id), e, id)
    requires e.Registered? ==> StateAt(next, e.id) == Some(Pending)
    ensures OpenOk(next)
  {
    hide OpenAt;
    forall id, i ensures OpenAt(next.log, id, i) ==> StateAt(next, id) == Some(Pending) {
      OpenAfter(s.log, e, id, i);
      assert Follows(StateAt(s, id), StateAt(next, id), e, id);
    }
  }

  lemma OpenEnter(s: Store, id: string, cancelled: bool)
    requires OpenOk(s)
    ensures OpenOk(Enter(s, id, cancelled).next)
  {
    hide OpenAt, OpenOk;
    var r := Enter(s, id, cancelled);
    if r.decision.None? {
      OpenAppended(s, r.next, Registered(id));
    } else {
      OpenTwice(s, r.next, id, r.decision.value);
    }
  }

  lemma OpenTwice(s: Store, next: Store, id: string, decision: Decision)
    requires OpenOk(s) && next.log == s.log + [Registered(id)] + [Returned(id, decision)]
    requires forall other :: other != id ==> StateAt(next, other) == StateAt(s, other)
    ensures OpenOk(next)
  {
    hide OpenAt;
    forall other, i ensures OpenAt(next.log, other, i) ==> StateAt(next, other) == Some(Pending) {
      OpenAfter(s.log, Registered(id), other, i);
      OpenAfter(s.log + [Registered(id)], Returned(id, decision), other, i);
    }
  }

  lemma ActionKeepsOpen(s: Store, action: Action)
    requires OpenOk(s)
    ensures OpenOk(Acted(s, action))
  {
    hide OpenOk, Trim, Utf8Len;
    match action
    case StartWait(id, cancelled) => OpenEnter(s, id, cancelled);
    case WakeUp(id, cancelled, timedOut) =>
      var r := Wake(s, id, cancelled, timedOut);
      if r.decision.Some? { OpenAppended(s, r.next, Returned(id, r.decision.value)); }
    case Decide(id, reply) =>
      if Refused(s, id).None? { OpenAppended(s, Resolve(s, id, reply), Accepted(id, reply)); }
    case CancelAll => OpenAppended(s, CancelPending(s), PendingCancelled);
    case NewTurn => OpenAppended(s, BeginTurn(s), TurnBegan);
  }

  lemma {:induction false} RunKeepsOpen(actions: seq<Action>)
    ensures OpenOk(Ran(FRESH, actions))
    decreases |actions|
  {
    if actions != [] {
      RunKeepsOpen(actions[..|actions| - 1]);
      hide OpenOk, Acted;
      ActionKeepsOpen(Ran(FRESH, actions[..|actions| - 1]), actions[|actions| - 1]);
    }
  }

  /** The tracked ids are those something happened for since the last turn began. */
  lemma {:induction false} TrackedMeans(log: seq<Event>, id: string)
    ensures id in Tracked(log) <==> exists i :: TouchedAt(log, id, i)
    decreases |log|
  {
    if log != [] {
      var n := |log| - 1;
      TrackedMeans(log[..n], id);
      assert log == log[..n] + [log[n]];
      forall i ensures TouchedAt(log, id, i) <==>
        (TouchedAt(log[..n], id, i) && !log[n].TurnBegan?) || (i == n && Touches(log[n], id))
      {
        TouchedAfter(log[..n], log[n], id, i);
      }
      hide TouchedAt;
      if Touches(log[n], id) { assert TouchedAt(log, id, n); }
    }
  }

  lemma TouchedAfter(log: seq<Event>, e: Event, id: string, i: nat)
    ensures TouchedAt(log + [e], id, i) <==> (TouchedAt(log, id, i) && !e.TurnBegan?) || (i == |log| && Touches(e, id))
  {
    var after := log + [e];
    if TouchedAt(after, id, i) && i < |log| {
      assert after[|log|] == e;
      assert forall k :: i < k < |log| ==> after[k] == log[k];
    }
  }

  predicate WellFormedId(id: string) {
    Trim(id) != [] && Utf8Len(id) <= MAX_APPROVAL_ID_BYTES
  }

  /** Read off the history alone: a decision is accepted exactly when its id is well formed and, since the last turn
      began, either a request for it was registered and not yet answered, returned or cancelled, or nothing happened
      for it and fewer than the limit of ids are tracked. It is refused as no longer pending exactly when the wait for
      it ended in this turn and was not registered again. */
  lemma DecisionExact(actions: seq<Action>, id: string)
    ensures var s := Ran(FRESH, actions);
      && (Refused(s, id).None? <==>
          && WellFormedId(id)
          && ((exists i :: OpenAt(s.log, id, i)) ||
              (!(exists i :: TouchedAt(s.log, id, i)) && |Tracked(s.log)| < MAX_TRACKED_APPROVALS)))
      && (Refused(s, id) == Some(NotPending) <==> WellFormedId(id) && exists i :: EndedAt(s.log, id, i))
      && (Refused(s, id) == Some(TooMany) <==>
          WellFormedId(id) && !(exists i :: TouchedAt(s.log, id, i)) && |Tracked(s.log)| >= MAX_TRACKED_APPROVALS)
  {
    var s := Ran(FRESH, actions);
    RunKeeps(actions);
    RunKeepsOpen(actions);
    ParkingBounded(actions);
    TrackedMeans(s.log, id);
    hide Trim, Utf8Len, OpenAt, EndedAt, TouchedAt, Unclaimed, Tracked, Parked, Ran, AllowsUsed;
    assert |s.states| == |s.states.Keys|;
  }

  /** A decision for an id whose wait ended in this turn and that was not registered again is refused and changes
      nothing. */
  lemma LateDecisionRefused(actions: seq<Action>, id: string, i: nat, reply: Reply)
    requires EndedAt(Ran(FRESH, actions).log, id, i)
    ensures var s := Ran(FRESH, actions);
      Refused(s, id).Some? && Resolve(s, id, reply) == s
  {
    RunKeeps(actions);
  }

  /** When a decision comes after the wait for its id ended and nothing else happened for the id, it is accepted
      exactly when its id is well formed, a turn began in between and the table has room. */
  lemma LateDecisionExact(actions: seq<Action>, id: string, i: nat)
    requires var log := Ran(FRESH, actions).log;
      && i < |log| && log[i].Returned? && log[i].id == id
      && forall k :: i < k < |log| ==> !Touches(log[k], id)
    ensures var s := Ran(FRESH, actions);
      Refused(s, id).None? <==>
        && WellFormedId(id)
        && (exists k :: i < k < |s.log| && s.log[k].TurnBegan?)
        && |Tracked(s.log)| < MAX_TRACKED_APPROVALS
  {
    DecisionExact(actions, id);
    hide Trim, Utf8Len, Tracked, Ran, Refused;
    var log := Ran(FRESH, actions).log;
    if k :| i < k < |log| && log[k].TurnBegan? {
      forall j ensures !TouchedAt(log, id, j) && !OpenAt(log, id, j) {}
    } else {
      assert TouchedAt(log, id, i);
      forall j ensures !OpenAt(log, id, j) {}
    }
  }

  lemma RanOne(actions: seq<Action>, action: Action)
    ensures Ran(FRESH, actions + [action]) == Acted(Ran(FRESH, actions), action)
  {
    assert (actions + [action])[..|actions|] == actions;
  }

  /** A wait that times out, a new turn, the Allow meant for that wait, and a later wait that reuses its id. */
  function ReusedId(id: string): seq<Action> {
    [] + [StartWait(id, false)] + [WakeUp(id, false, true)] + [NewTurn] + [Decide(id, Allow)] + [StartWait(id, false)]
  }

  /** Beginning a turn forgets that a wait ended: in this run the Allow for a request that timed out in the turn
      before is stored, and answers the next request that reuses the id. */
  lemma LateAllowAnswersNextTurn(id: string)
    requires WellFormedId(id)
    ensures Ran(FRESH, ReusedId(id)).log ==
      [Registered(id), Returned(id, Denied(TimedOut)), TurnBegan, Accepted(id, Allow), Registered(id), Returned(id, Allowed)]
  {
    hide Trim, Utf8Len, Ran;
    assert Ran(FRESH, []) == FRESH by { NoActions(); }
    RanOne([], StartWait(id, false));
    RanOne([] + [StartWait(id, false)], WakeUp(id, false, true));
    RanOne([] + [StartWait(id, false)] + [WakeUp(id, false, true)], NewTurn);
    RanOne([] + [StartWait(id, false)] + [WakeUp(id, false, true)] + [NewTurn], Decide(id, Allow));
    RanOne([] + [StartWait(id, false)] + [WakeUp(id, false, true)] + [NewTurn] + [Decide(id, Allow)], StartWait(id, false));
  }

  lemma NoActions()
    ensures Ran(FRESH, []) == FRESH
  {
  }

  /** An accepted decision that is neither used nor forgotten is what the next step of a wait for its id returns, at
      once, unless that step finds the wait cancelled or timed out: then the decision is dropped and the id closed. */
  lemma AcceptedDecisionDelivered(actions: seq<Action>, id: string, reply: Reply, i: nat, cancelled: bool, timedOut: bool)
    requires var log := Ran(FRESH, actions).log; Unclaimed(log, id, reply, i, |log|)
    ensures var s := Ran(FRESH, actions);
      var delivered := match reply case Allow => Allowed case Deny => Denied(InBrowser) case Cancelled => Denied(ByCancel);
      && Enter(s, id, cancelled).decision == Some(if cancelled then Denied(ByCancel) else delivered)
      && Wake(s, id, cancelled, timedOut).decision ==
           Some(if timedOut then Denied(TimedOut) else if cancelled then Denied(ByCancel) else delivered)
      && StateAt(Enter(s, id, cancelled).next, id) == Some(Closed)
      && StateAt(Wake(s, id, cancelled, timedOut).next, id) == Some(Closed)
      && Refused(s, id).Some?
  {
    RunKeeps(actions);
  }

  // ----- what a wait answers -----

  /** A request the history shows withdrawn holds a cancellation, and a cancellation is held for no other reason. */
  ghost predicate WithdrawnOk(s: Store) {
    forall id ::
      && (Withdrawn(s.log, id) ==> StateAt(s, id) == Some(Resolved(Cancelled)))
      && (StateAt(s, id) == Some(Resolved(Cancelled)) ==> Withdrawn(s.log, id) || Held(s.log, id, Cancelled))
  }

  lemma WithdrawnAfter(log: seq<Event>, e: Event, id: string, i: nat)
    ensures WithdrawnAt(log + [e], id, i) <==>
      (WithdrawnAt(log, id, i) && !Closes(e, id)) || (i == |log| && e.PendingCancelled? && Open(log, id))
  {
    hide Open;
    var after := log + [e];
    if i < |log| { assert after[..i] == log[..i]; }
    assert after[..|log|] == log;
    if WithdrawnAt(after, id, i) && i < |log| {
      assert after[|log|] == e;
      assert forall k :: i < k < |log| ==> after[k] == log[k];
    }
  }

  lemma WithdrawnAppended(s: Store, next: Store, e: Event)
    requires StatesMatch(s) && WithdrawnOk(s) && (e.PendingCancelled? ==> OpenOk(s)) && next.log == s.log + [e]
    requires forall id :: Follows(StateAt(s, id), StateAt(next, id), e, id)
    ensures WithdrawnOk(next)
  {
    hide StatesMatch;
    forall id
      ensures Withdrawn(next.log, id) ==> StateAt(next, id) == Some(Resolved(Cancelled))
      ensures StateAt(next, id) == Some(Resolved(Cancelled)) ==> Withdrawn(next.log, id) || Held(next.log, id, Cancelled)
    {
      assert Follows(StateAt(s, id), StateAt(next, id), e, id);
      OneWithdrawn(s, next, e, id);
    }
  }

  lemma OneWithdrawn(s: Store, next: Store, e: Event, id: string)
    requires StatesMatch(s) && WithdrawnOk(s) && (e.PendingCancelled? ==> OpenOk(s)) && next.log == s.log + [e]
    requires Follows(StateAt(s, id), StateAt(next, id), e, id)
    ensures Withdrawn(next.log, id) ==> StateAt(next, id) == Some(Resolved(Cancelled))
    ensures StateAt(next, id) == Some(Resolved(Cancelled)) ==> Withdrawn(next.log, id) || Held(next.log, id, Cancelled)
  {
    hide Unclaimed, EndedAt, OpenAt, WithdrawnAt;
    forall i | WithdrawnAt(next.log, id, i) ensures StateAt(next, id) == Some(Resolved(Cancelled)) {
      WithdrawnAfter(s.log, e, id, i);
    }
    if StateAt(next, id) == Some(Resolved(Cancelled)) {
      if e == Accepted(id, Cancelled) {
        UnclaimedAfter(s.log, e, id, Cancelled, |s.log|);
      } else if StateAt(s, id) == Some(Pending) {
        WithdrawnAfter(s.log, e, id, |s.log|);
      } else if Withdrawn(s.log, id) {
        var i :| WithdrawnAt(s.log, id, i);
        WithdrawnAfter(s.log, e, id, i);
      } else {
        var i :| Unclaimed(s.log, id, Cancelled, i, |s.log|);
        UnclaimedAfter(s.log, e, id, Cancelled, i);
      }
    }
  }

  /** Everything the states and the history owe each other between steps. */
  ghost predicate Faithful(s: Store) {
    StoreOk(s) && OpenOk(s) && WithdrawnOk(s) && ParkingOk(s)
  }

  lemma SettleKeepsWithdrawn(s: Store, id: string, cancelled: bool)
    requires StoreOk(s) && WithdrawnOk(s)
    ensures WithdrawnOk(Settle(s, id, cancelled).next)
  {
    hide WithdrawnOk, StatesMatch;
    var r := Settle(s, id, cancelled);
    if r.decision.Some? { WithdrawnAppended(s, r.next, Returned(id, r.decision.value)); }
  }

  lemma ActionKeepsWithdrawn(s: Store, action: Action)
    requires StoreOk(s) && OpenOk(s) && WithdrawnOk(s)
    ensures WithdrawnOk(Acted(s, action))
  {
    hide StatesMatch, OpenOk, WithdrawnOk, Trim, Utf8Len;
    match action
    case StartWait(id, cancelled) =>
      RegisterKeeps(s, id);
      WithdrawnAppended(s, Register(s, id), Registered(id));
      SettleKeepsWithdrawn(Register(s, id), id, cancelled);
    case WakeUp(id, cancelled, timedOut) =>
      if timedOut {
        WithdrawnAppended(s, Wake(s, id, cancelled, timedOut).next, Returned(id, Denied(TimedOut)));
      } else {
        SettleKeepsWithdrawn(s, id, cancelled);
      }
    case Decide(id, reply) =>
      if Refused(s, id).None? { WithdrawnAppended(s, Resolve(s, id, reply), Accepted(id, reply)); }
    case CancelAll => WithdrawnAppended(s, CancelPending(s), PendingCancelled);
    case NewTurn => WithdrawnAppended(s, BeginTurn(s), TurnBegan);
  }

  lemma RegisterKeeps(s: Store, id: string)
    requires StoreOk(s)
    ensures StoreOk(Register(s, id))
  {
    hide StoreOk;
    Appended(s, Register(s, id), Registered(id));
  }

  /** Whatever step is taken next, states and history stay faithful to each other. */
  lemma ActionKeepsFaithful(s: Store, action: Action)
    requires Faithful(s)
    ensures Faithful(Acted(s, action))
  {
    hide StoreOk, OpenOk, WithdrawnOk, ParkingOk, Acted;
    ActionKeeps(s, action);
    ActionKeepsOpen(s, action);
    ActionKeepsWithdrawn(s, action);
    ActionKeepsParking(s, action);
  }

  lemma {:induction false} RunFaithful(actions: seq<Action>)
    ensures Faithful(Ran(FRESH, actions))
    decreases |actions|
  {
    if actions != [] {
      RunFaithful(actions[..|actions| - 1]);
      hide Faithful, Acted;
      ActionKeepsFaithful(Ran(FRESH, actions[..|actions| - 1]), actions[|actions| - 1]);
    }
  }

  /** The state of every request, read off the history: exactly one of the six holds. */
  lemma StateExact(s: Store, id: string)
    requires Faithful(s)
    ensures StateAt(s, id) == Some(Pending) <==> Open(s.log, id)
    ensures StateAt(s, id) == Some(Resolved(Allow)) <==> Held(s.log, id, Allow)
    ensures StateAt(s, id) == Some(Resolved(Deny)) <==> Held(s.log, id, Deny)
    ensures StateAt(s, id) == Some(Resolved(Cancelled)) <==> Withdrawn(s.log, id) || Held(s.log, id, Cancelled)
    ensures StateAt(s, id) == Some(Closed) <==> Ended(s.log, id)
    ensures StateAt(s, id) == None <==> !Touched(s.log, id)
  {
    TrackedMeans(s.log, id);
    hide OpenAt, EndedAt, TouchedAt, Unclaimed, WithdrawnAt, Tracked, Parked, AllowsUsed;
  }

  /** What a wake-up answers, from the history alone; `None` is to go on waiting. */
  ghost function AnswerOnWaking(log: seq<Event>, id: string, cancelled: bool, timedOut: bool): Option<Decision> {
    if timedOut then Some(Denied(TimedOut))
    else if cancelled then Some(Denied(ByCancel))
    else if Open(log, id) then None
    else if Held(log, id, Allow) then Some(Allowed)
    else if Held(log, id, Deny) then Some(Denied(InBrowser))
    else if Withdrawn(log, id) || Held(log, id, Cancelled) then Some(Denied(ByCancel))
    else Some(Denied(NoLongerPending))
  }

  /** What the first step of a wait answers: a decision made before it, or nothing yet. */
  ghost function AnswerOnEntry(log: seq<Event>, id: string, cancelled: bool): Option<Decision> {
    if cancelled then Some(Denied(ByCancel))
    else if Held(log, id, Allow) then Some(Allowed)
    else if Held(log, id, Deny) then Some(Denied(InBrowser))
    else if Withdrawn(log, id) || Held(log, id, Cancelled) then Some(Denied(ByCancel))
    else None
  }

  /** In every run, each step of a wait answers what the history before it says: it times out exactly when it is told
      to, is cancelled when the flag is set, blocks exactly while the request is open, and otherwise gives the one
      decision that is held for the id, the cancellation that withdrew it, or that nothing is pending. */
  lemma AnswersExact(actions: seq<Action>, id: string, cancelled: bool, timedOut: bool)
    ensures var s := Ran(FRESH, actions);
      && Wake(s, id, cancelled, timedOut).decision == AnswerOnWaking(s.log, id, cancelled, timedOut)
      && Enter(s, id, cancelled).decision == AnswerOnEntry(s.log, id, cancelled)
  {
    hide Faithful, Open, Held, Withdrawn, Ended, Touched, Ran;
    RunFaithful(actions);
    StepAnswers(Ran(FRESH, actions), id, cancelled, timedOut);
  }

  lemma StepAnswers(s: Store, id: string, cancelled: bool, timedOut: bool)
    requires Faithful(s)
    ensures Wake(s, id, cancelled, timedOut).decision == AnswerOnWaking(s.log, id, cancelled, timedOut)
    ensures Enter(s, id, cancelled).decision == AnswerOnEntry(s.log, id, cancelled)
  {
    hide Faithful, Open, Held, Withdrawn, Ended, Touched;
    StateExact(s, id);
  }

  /** The reason a decision is refused for, from the history alone. */
  ghost function RefusalFor(log: seq<Event>, id: string): Option<Refusal> {
    if AllSpace(id) then Some(EmptyId)
    else if Utf8Len(id) > MAX_APPROVAL_ID_BYTES then Some(IdTooLong)
    else if Open(log, id) then None
    else if Ended(log, id) then Some(NotPending)
    else if Touched(log, id) then Some(AlreadyResolved)
    else if |Tracked(log)| >= MAX_TRACKED_APPROVALS then Some(TooMany)
    else None
  }

  lemma RefusalExact(s: Store, id: string)
    requires Faithful(s)
    ensures Refused(s, id) == RefusalFor(s.log, id)
  {
    StateExact(s, id);
    TrimBlank(id);
    hide Open, Held, Withdrawn, Ended, Touched, Utf8Len, Tracked, Parked, StoreOk, OpenOk, WithdrawnOk;
    assert |s.states| == |s.states.Keys|;
  }

  // ----- the store itself -----

  class ApprovalStore {
    var states: map<string, ApprovalState>
    /** History of the steps taken under the lock. */
    ghost var log: seq<Event>

    constructor ()
      ensures Valid() && Now() == FRESH
    {
      states := map[];
      log := [];
      new;
      RunFaithful([]);
      NoActions();
    }

    /** The states say what the history says. */
    ghost predicate Valid()
      reads this
    {
      Faithful(Now())
    }

    ghost function Now(): Store
      reads this
    {
      Store(states, log)
    }

    /** Closes a request and returns its decision. */
    method CloseWith(id: string, decision: Decision) returns (r: Option<Decision>)
      modifies this
      ensures Now() == Close(old(Now()), id, decision).next && r == Some(decision)
    {
      states := states[id := Closed];
      log := log + [Returned(id, decision)];
      r := Some(decision);
    }

    /** The waiting loop up to the point where it blocks or returns. */
    method Poll(id: string, cancelled: bool) returns (r: Option<Decision>)
      modifies this
      ensures Now() == Settle(old(Now()), id, cancelled).next && r == Settle(old(Now()), id, cancelled).decision
    {
      if cancelled {
        r := CloseWith(id, Denied(ByCancel));
      } else if id in states && states[id].Pending? {
        r := None;
      } else {
        var previous := if id in states then Some(states[id]) else None;
        r := CloseWith(id, DecisionOf(previous));
      }
    }

    /** `wait_with_cancel`, until it blocks or returns. */
    method StartWaiting(id: string, cancelled: bool) returns (r: Option<Decision>)
      requires Valid()
      modifies this
      ensures Valid() && r == AnswerOnEntry(old(log), id, cancelled)
      ensures log == old(log) + [Registered(id)] + if r.Some? then [Returned(id, r.value)] else []
      ensures Now() == Enter(old(Now()), id, cancelled).next && r == Enter(old(Now()), id, cancelled).decision
    {
      hide Faithful;
      StepAnswers(Now(), id, cancelled, false);
      ActionKeepsFaithful(Now(), StartWait(id, cancelled));
      if !(id in states && states[id].Resolved?) { states := states[id := Pending]; }
      log := log + [Registered(id)];
      r := Poll(id, cancelled);
    }

    /** `wait_with_cancel`, from a wake-up until it blocks again or returns. */
    method WakeWaiting(id: string, cancelled: bool, timedOut: bool) returns (r: Option<Decision>)
      requires Valid()
      modifies this
      ensures Valid() && r == AnswerOnWaking(old(log), id, cancelled, timedOut)
      ensures log == old(log) + if r.Some? then [Returned(id, r.value)] else []
      ensures Now() == Wake(old(Now()), id, cancelled, timedOut).next && r == Wake(old(Now()), id, cancelled, timedOut).decision
    {
      hide Faithful;
      StepAnswers(Now(), id, cancelled, timedOut);
      ActionKeepsFaithful(Now(), WakeUp(id, cancelled, timedOut));
      if timedOut { r := CloseWith(id, Denied(TimedOut)); } else { r := Poll(id, cancelled); }
    }

    /** `resolve`. */
    method Decision(id: string, reply: Reply) returns (refusal: Option<Refusal>)
      requires Valid()
      modifies this
      ensures Valid() && refusal == RefusalFor(old(log), id)
      ensures log == old(log) + if refusal.None? then [Accepted(id, reply)] else []
      ensures Now() == Resolve(old(Now()), id, reply) && refusal == Refused(old(Now()), id)
    {
      hide Faithful, Trim, Utf8Len;
      RefusalExact(Now(), id);
      ActionKeepsFaithful(Now(), Decide(id, reply));
      if Trim(id) == [] { return Some(EmptyId); }
      if Utf8Len(id) > MAX_APPROVAL_ID_BYTES { return Some(IdTooLong); }
      if id in states {
        match states[id]
        case Pending => states := states[id := Resolved(reply)];
        case Resolved(_) => return Some(AlreadyResolved);
        case Closed => return Some(NotPending);
      } else {
        if |states| >= MAX_TRACKED_APPROVALS { return Some(TooMany); }
        states := states[id := Resolved(reply)];
      }
      log := log + [Accepted(id, reply)];
      refusal := None;
    }

    /** `cancel_pending`. */
    method CancelAllPending()
      requires Valid()
      modifies this
      ensures Valid() && log == old(log) + [PendingCancelled]
      ensures Now() == CancelPending(old(Now()))
    {
      hide Faithful;
      ActionKeepsFaithful(Now(), CancelAll);
      var left := states.Keys;
      ghost var was := states;
      while left != {}
        invariant left <= was.Keys && states.Keys == was.Keys && log == old(log)
        invariant forall id :: id in was ==>
          states[id] == if id !in left && was[id].Pending? then Resolved(Cancelled) else was[id]
        decreases |left|
      {
        var id :| id in left;
        if states[id].Pending? { states := states[id := Resolved(Cancelled)]; }
        left := left - {id};
      }
      log := log + [PendingCancelled];
      assert states == CancelPending(Store(was, [])).states;
    }

    /** `begin_turn`. */
    method StartTurn()
      requires Valid()
      modifies this
      ensures Valid() && log == old(log) + [TurnBegan]
      ensures Now() == BeginTurn(old(Now()))
    {
      hide Faithful;
      ActionKeepsFaithful(Now(), NewTurn);
      states := map[];
      log := log + [TurnBegan];
    }
  }
}
