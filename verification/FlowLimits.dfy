/**
  The advertised limits over whole runs, in their own terms: what an admission
  leaves within them, who is admitted below them, which limits are in force, and
  how many may wait.
*/
module FlowLimits {
  import opened FlowSpec
  import opened FlowSystem
  import opened FlowInterleavings
  import opened Results
  import Laws = FlowLaws

  /** Both limits of the lane and the connection's leave room for one more. */
  ghost predicate HasRoom(f: Flow<Ticket>, lane: Lane) {
    && f.activeTotal < f.limits.connection
    && f.ActiveOf(lane) < f.limits.laneWindow && f.ActiveOf(lane) < f.limits.laneQueue
  }

  ghost predicate Within(f: Flow<Ticket>, lane: Lane) {
    && f.activeTotal <= f.limits.connection
    && f.ActiveOf(lane) <= f.limits.laneWindow && f.ActiveOf(lane) <= f.limits.laneQueue
  }

  lemma RoomIsCredit(f: Flow<Ticket>, lane: Lane)
    requires f.WF()
    ensures f.CanAcquire(lane) <==> HasRoom(f, lane)
    ensures f.laneLimit <= f.limits.laneWindow && f.laneLimit <= f.limits.laneQueue
    ensures f.laneLimit == 0 <==> f.limits.laneWindow == 0 || f.limits.laneQueue == 0
    ensures f.activeTotal >= 0
  {
    hide QueuesAddUp, ListsQueues;
  }

  // ----- admissions

  ghost predicate Owns(s: System, t: Ticket) {
    t in s.phases && s.phases[t].HasCredit()
  }

  lemma DeliveredOwner(s: System, pumped: Pumped<Ticket>, t: Ticket)
    requires s.flow.WF() && QueuesWait(s.flow, s.phases) && Laws.Granted(s.flow, pumped.grants, pumped.flow)
    requires Laws.WithinLimits(pumped.grants, pumped.flow) && pumped.flow.WF()
    requires !Owns(s, t) && Owns(Deliver(s, pumped), t)
    ensures Within(pumped.flow, Deliver(s, pumped).phases[t].lane)
  {
    hide Flow.WF, Flow.QueueOf, Flow.ActiveOf, Laws.Granted, Laws.To, GrantPhases, Serve, Deliverable;
    if lane: Lane :| t in Laws.To(pumped.grants, lane) {
      PumpIsDeliverable(s.flow, s.phases, pumped.grants, pumped.flow);
      DeliveredTo(s.phases, pumped.grants, t, lane);
      SomeGrant(pumped.grants, lane);
      RoomIsCredit(pumped.flow, lane);
    } else {
      NotDelivered(s.phases, pumped.grants, t);
    }
  }

  lemma {:induction false} SomeGrant(grants: seq<Grant<Ticket>>, lane: Lane)
    requires Laws.To(grants, lane) != []
    ensures exists i :: 0 <= i < |grants| && grants[i].lane == lane
  {
    if grants[0].lane != lane {
      SomeGrant(grants[1..], lane);
      var i :| 0 <= i < |grants[1..]| && grants[1..][i].lane == lane;
      assert grants[i + 1].lane == lane;
    }
  }

  lemma EnteredOwner(s: System, lane: Lane, t: Ticket)
    requires Inv(s) && !Owns(s, t) && Owns(DoEnter(s, lane), t)
    ensures DoEnter(s, lane).phases[t].lane == lane && Within(DoEnter(s, lane).flow, lane)
  {
    hide Conserved, QueuesWait, InOrder, Numbered, Flow.WF, Flow.Saturated;
    RoomIsCredit(s.flow, lane);
  }

  lemma LimitedOwner(s: System, connection: Option<nat>, laneWindow: Option<nat>, t: Ticket)
    requires Inv(s)
    requires var after := Deliver(s, s.flow.UpdateLimits(connection, laneWindow)); !Owns(s, t) && Owns(after, t)
    ensures var after := Deliver(s, s.flow.UpdateLimits(connection, laneWindow)); Within(after.flow, after.phases[t].lane)
  {
    hide Conserved, QueuesWait, InOrder, Numbered, Flow.Pump, GrantPhases, QueuesAddUp, CreditsAddUp, ListsQueues, Laws.Granted,
      Within, Laws.WithinLimits;
    var mid := s.(flow := s.flow.WithLimits(connection, laneWindow));
    LimitedRest(s, mid.flow);
    if s.flow.closed {
      NothingToDeliver(mid);
    } else {
      Laws.PumpLaw(mid.flow);
      DeliveredOwner(mid, mid.flow.Pump(), t);
    }
  }

  lemma ReleasedOwner(s: System, giver: Ticket, t: Ticket)
    requires Inv(s) && !Owns(s, t) && Owns(DoGiveBack(s, giver), t)
    ensures var after := DoGiveBack(s, giver); Within(after.flow, after.phases[t].lane)
  {
    hide Flow.WF, Flow.Saturated, Conserved, QueuesWait, InOrder, Numbered, Flow.Pump, GrantPhases, Flow.ActiveOf, Laws.Granted,
      Within, Laws.WithinLimits;
    var lane := s.phases[giver].lane;
    GiveBackConserved(s, giver);
    GiveBackQueues(s.flow, s.phases, giver, lane);
    Laws.DeactivateKeeps(s.flow, lane);
    var mid := s.(flow := s.flow.Deactivate(lane), phases := s.phases[giver := Gone]);
    if s.flow.closed {
      NothingToDeliver(mid);
    } else {
      Laws.PumpLaw(mid.flow);
      DeliveredOwner(mid, mid.flow.Pump(), t);
    }
  }

  /** Whoever gets a credit, on arrival or later, leaves its lane and the connection within the limits in force. */
  lemma AdmittedWithin(s: System, a: Action, t: Ticket)
    requires Inv(s) && !Owns(s, t) && Owns(Step(s, a), t)
    ensures Within(Step(s, a).flow, Step(s, a).phases[t].lane)
  {
    hide Inv, DoGiveBack, Deliver, Within, DoEnter;
    match a
    case Enter(lane) => EnteredOwner(s, lane, t);
    case Observe(_) =>
    case Cancel(_) =>
    case GiveBack(giver) => ReleasedOwner(s, giver, t);
    case Limit(connection, laneWindow) => LimitedOwner(s, connection, laneWindow, t);
    case Shut =>
  }

  /** A newcomer below all limits is admitted at once, and is refused or queued at any of them. */
  lemma BelowIsAdmitted(s: System, lane: Lane)
    requires Inv(s)
    ensures !s.flow.closed && HasRoom(s.flow, lane) <==> Step(s, Enter(lane)).Is(s.next, Holding(lane))
    ensures !s.flow.closed && HasRoom(s.flow, lane)
      ==> Step(s, Enter(lane)).flow.ActiveOf(lane) == s.flow.ActiveOf(lane) + 1
  {
    hide Conserved, QueuesWait, InOrder, Flow.WF, Flow.Saturated;
    RoomIsCredit(s.flow, lane);
    assert s.next !in s.phases;
  }

  /** As long as somebody waits in a lane, the lane or the connection has no room. */
  lemma WaitingMeansFull(s: System, t: Ticket, lane: Lane)
    requires Inv(s) && s.Is(t, Waiting(lane))
    ensures !HasRoom(s.flow, lane)
  {
    hide Conserved, InOrder, Numbered, Flow.WF, HasRoom;
    assert t in s.flow.QueueOf(lane);
    RoomIsCredit(s.flow, lane);
  }

  // ----- what the other actions do

  /** Each action does what it is for: nothing that is enabled is lost. */
  lemma ActionsTakeEffect(s: System, t: Ticket, lane: Lane)
    requires Inv(s)
    ensures s.Is(t, Granted(lane)) ==> Step(s, Observe(t)).Is(t, Holding(lane)) && Step(s, Cancel(t)).Is(t, Refunding(lane))
    ensures s.Is(t, Waiting(lane)) ==> Step(s, Cancel(t)).Is(t, Gone) && t !in Step(s, Cancel(t)).flow.QueueOf(lane)
    ensures s.Is(t, Failed) ==> Step(s, Observe(t)).Is(t, Gone) && Step(s, Cancel(t)).Is(t, Gone)
    ensures s.Is(t, Holding(lane)) || s.Is(t, Refunding(lane)) ==> Step(s, GiveBack(t)).Is(t, Gone)
    ensures Step(s, Shut).flow.closed && (!s.flow.closed && s.Is(t, Waiting(lane)) ==> Step(s, Shut).Is(t, Failed))
  {
    hide Flow.WF, Flow.Saturated, Conserved, InOrder, Numbered, Flow.Pump, GrantPhases, Serve, QueuesWait, Flow.Remove;
    if s.Is(t, Waiting(lane)) { LeavesQueue(s, t, lane); }
    if s.Is(t, Holding(lane)) || s.Is(t, Refunding(lane)) { Leaves(s, t); }
  }

  lemma LeavesQueue(s: System, t: Ticket, lane: Lane)
    requires Inv(s) && s.Is(t, Waiting(lane))
    ensures s.flow.queuedTotal > 0 && t !in s.flow.Remove(lane, t).QueueOf(lane)
  {
    hide Conserved, InOrder, Numbered, Flow.WF, Flow.Remove, Flow.Saturated;
    assert t in s.flow.QueueOf(lane);
    RemovedQueue(s.flow, lane, t, lane);
  }

  lemma Leaves(s: System, t: Ticket)
    requires Inv(s) && t in s.phases && (s.phases[t].Holding? || s.phases[t].Refunding?)
    ensures Step(s, GiveBack(t)).Is(t, Gone)
  {
    hide Flow.WF, Flow.Saturated, Conserved, QueuesWait, InOrder, Numbered, Flow.Pump, GrantPhases, Serve, Flow.ActiveOf, Laws.To,
      Laws.Granted;
    var lane := s.phases[t].lane;
    GiveBackConserved(s, t);
    GiveBackQueues(s.flow, s.phases, t, lane);
    Laws.DeactivateKeeps(s.flow, lane);
    var mid := s.(flow := s.flow.Deactivate(lane), phases := s.phases[t := Gone]);
    if s.flow.closed {
      NothingToDeliver(mid);
    } else {
      Laws.PumpLaw(mid.flow);
      PumpIsDeliverable(mid.flow, mid.phases, mid.flow.Pump().grants, mid.flow.Pump().flow);
      GrantedIsNotWaiting(mid.phases, mid.flow.Pump().grants, t);
      NotDelivered(mid.phases, mid.flow.Pump().grants, t);
    }
  }

  // ----- the limits in force

  lemma PumpSame(f: Flow<Ticket>)
    requires f.WF() && !f.closed
    ensures f.Pump().flow.limits == f.limits && f.Pump().flow.queuedTotal <= f.queuedTotal
  {
    hide Flow.WF, Flow.Pump, Flow.Saturated, Flow.QueueOf, Flow.ActiveOf;
    Laws.PumpLaw(f);
  }

  /** Only the server's announcements change limits: those that it gives, and no other. */
  lemma LimitsInForce(s: System, a: Action)
    requires Inv(s)
    ensures var was, now := s.flow.limits, Step(s, a).flow.limits;
      && now.connection == (if a.Limit? && a.connection.Some? then a.connection.value else was.connection)
      && now.laneWindow == (if a.Limit? && a.laneWindow.Some? then a.laneWindow.value else was.laneWindow)
      && now.laneQueue == was.laneQueue && now.maxQueued == was.maxQueued
    ensures Step(s, a).flow.queuedTotal <= if a.Enter? && s.flow.queuedTotal < s.flow.limits.maxQueued
      then s.flow.queuedTotal + 1 else s.flow.queuedTotal
  {
    hide Flow.WF, Flow.Saturated, Conserved, QueuesWait, InOrder, Numbered, Flow.Pump, GrantPhases, Serve, Flow.ActiveOf, FailWaiters;
    match a
    case Limit(connection, laneWindow) =>
      if !s.flow.closed {
        LimitedIsWF(s.flow, connection, laneWindow);
        PumpSame(s.flow.WithLimits(connection, laneWindow));
      }
    case GiveBack(t) =>
      if t in s.phases && (s.phases[t].Holding? || s.phases[t].Refunding?) && !s.flow.closed {
        Laws.DeactivateKeeps(s.flow, s.phases[t].lane);
        PumpSame(s.flow.Deactivate(s.phases[t].lane));
      }
    case _ =>
  }

  lemma LimitedIsWF(f: Flow<Ticket>, connection: Option<nat>, laneWindow: Option<nat>)
    requires f.WF()
    ensures f.WithLimits(connection, laneWindow).WF()
  {
    hide CreditsAddUp, QueuesAddUp, ListsQueues;
  }

  // ----- how many wait

  lemma {:induction false} FewWaitFrom(s: System, actions: seq<Action>)
    requires Inv(s) && s.flow.queuedTotal <= s.flow.limits.maxQueued
    ensures var after := Run(s, actions); after.flow.queuedTotal <= after.flow.limits.maxQueued == s.flow.limits.maxQueued
    decreases |actions|
  {
    hide Inv, Step;
    if actions != [] {
      StepKeeps(s, actions[0]);
      LimitsInForce(s, actions[0]);
      FewWaitFrom(Step(s, actions[0]), actions[1..]);
    }
  }

  /** In every run no more callers wait than the client allows. */
  lemma FewWait(limits: Limits, actions: seq<Action>)
    ensures Run(Initial(limits), actions).flow.queuedTotal <= limits.maxQueued
  {
    hide Inv, Step, Run;
    InitialInv(limits);
    FewWaitFrom(Initial(limits), actions);
  }

  /**
    A newcomer is turned away only when the controller is closed, when a limit is
    zero, or when exactly as many wait as may wait and there is no room.
  */
  lemma RefusedOnlyWhen(limits: Limits, actions: seq<Action>, lane: Lane)
    ensures var s := Run(Initial(limits), actions);
      Step(s, Enter(lane)) == s
      <==> || s.flow.closed || s.flow.limits.connection == 0 || s.flow.limits.laneWindow == 0 || s.flow.limits.laneQueue == 0
           || (!HasRoom(s.flow, lane) && s.flow.queuedTotal == s.flow.limits.maxQueued)
  {
    hide Inv, Step, Run, HasRoom;
    Reachable(limits, actions);
    InitialInv(limits);
    FewWaitFrom(Initial(limits), actions);
    EnterRefuses(Run(Initial(limits), actions), lane);
  }

  lemma EnterRefuses(s: System, lane: Lane)
    requires Inv(s) && s.flow.queuedTotal <= s.flow.limits.maxQueued
    ensures Step(s, Enter(lane)) == s
      <==> || s.flow.closed || s.flow.limits.connection == 0 || s.flow.limits.laneWindow == 0 || s.flow.limits.laneQueue == 0
           || (!HasRoom(s.flow, lane) && s.flow.queuedTotal == s.flow.limits.maxQueued)
  {
    hide Conserved, QueuesWait, InOrder, Numbered, Flow.WF, Flow.Saturated, HasRoom;
    RoomIsCredit(s.flow, lane);
  }
}
