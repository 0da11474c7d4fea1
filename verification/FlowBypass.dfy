/**
  Bounded bypass over runs: however enters, releases, cancellations and limit
  changes interleave, a lane that waits below its own limit is passed by at most
  once for each lane ahead of it in the ready list.
*/
module FlowBypass {
  import opened FlowSpec
  import opened FlowSystem
  import opened FlowInterleavings
  import opened FlowGuarantees
  import opened Results
  import Laws = FlowLaws

  /** The lanes that gain a credit in one action, in order. */
  function Admissions(s: System, a: Action): seq<Lane> {
    match a
    case Enter(lane) => if !Refuses(s.flow) && s.flow.CanAcquire(lane) then [lane] else []
    case GiveBack(t) =>
      if t !in s.phases || !(s.phases[t].Holding? || s.phases[t].Refunding?) then []
      else LanesOf(s.flow.Release(s.phases[t].lane).grants)
    case Limit(connection, laneWindow) => LanesOf(s.flow.UpdateLimits(connection, laneWindow).grants)
    case _ => []
  }

  /** The lane has waiters and a free lane credit. */
  predicate Eager(s: System, lane: Lane) {
    lane in s.flow.queues && s.flow.ActiveOf(lane) < s.flow.laneLimit
  }

  /** The lane stays eager until it is admitted or the run ends. */
  ghost predicate StaysEager(s: System, actions: seq<Action>, lane: Lane)
    decreases |actions|
  {
    && Eager(s, lane)
    && (actions != [] ==> lane in Admissions(s, actions[0]) || StaysEager(Step(s, actions[0]), actions[1..], lane))
  }

  /** Admissions to other lanes before the lane's own next one. */
  function Bypasses(s: System, actions: seq<Action>, lane: Lane): nat
    decreases |actions|
  {
    if actions == [] then 0
    else
      Bypassing(Admissions(s, actions[0]), lane)
      + if lane in Admissions(s, actions[0]) then 0 else Bypasses(Step(s, actions[0]), actions[1..], lane)
  }

  /** What one action may do to the lane's standing. */
  ghost predicate Bounded(s: System, a: Action, lane: Lane) {
    Bypassing(Admissions(s, a), lane)
      + (if lane in Admissions(s, a) then 0 else Position(Step(s, a).flow.ready, lane))
      <= Position(s.flow.ready, lane)
  }

  lemma EagerIsListed(s: System, lane: Lane)
    requires Inv(s) && Eager(s, lane)
    ensures lane in s.flow.ready && !s.flow.closed && s.flow.activeTotal >= s.flow.limits.connection
  {
    hide QueuesAddUp, CreditsAddUp, Conserved, QueuesWait, InOrder, Numbered;
    assert !s.flow.CanAcquire(lane);
  }

  lemma EnterBounded(s: System, entered: Lane, lane: Lane)
    requires Inv(s) && Eager(s, lane)
    ensures Bounded(s, Enter(entered), lane)
  {
    hide Inv, Position;
    EagerIsListed(s, lane);
    PositionAppend(s.flow.ready, [entered], lane);
  }

  lemma CancelBounded(s: System, t: Ticket, lane: Lane)
    requires Inv(s) && Eager(s, lane) && Eager(Step(s, Cancel(t)), lane)
    ensures Bounded(s, Cancel(t), lane)
  {
    hide Flow.WF, Flow.Saturated, Conserved, InOrder, Numbered, Position, Without;
    EagerIsListed(s, lane);
    if t in s.phases && s.phases[t].Waiting? && s.flow.queuedTotal > 0 {
      var from := s.phases[t].lane;
      if from != lane {
        PositionWithout(s.flow.ready, from, lane);
      }
    }
  }

  /** A lane at its limit when a pump starts is neither granted nor below its limit afterwards. */
  lemma AtLimitStays(f: Flow<Ticket>, lane: Lane)
    requires f.WF() && !f.closed && f.ActiveOf(lane) >= f.laneLimit
    ensures lane !in LanesOf(f.Pump().grants) && f.Pump().flow.ActiveOf(lane) >= f.Pump().flow.laneLimit
  {
    hide Flow.WF, Flow.Pump, Laws.To, Flow.Saturated, Flow.ActiveOf;
    Laws.PumpLaw(f);
    var p := f.Pump();
    assert p.flow.ActiveOf(lane) == f.ActiveOf(lane) + |Laws.To(p.grants, lane)|;
    if lane in LanesOf(p.grants) {
      var i := GrantIndex(p.grants, lane);
      GrantedOnce(p.grants, i);
    }
  }

  lemma {:induction false} GrantIndex(grants: seq<Grant<Ticket>>, lane: Lane) returns (i: nat)
    requires lane in LanesOf(grants)
    ensures i < |grants| && grants[i].lane == lane
  {
    if grants[0].lane == lane {
      i := 0;
    } else {
      i := GrantIndex(grants[1..], lane);
      i := i + 1;
    }
  }

  lemma {:induction false} GrantedOnce(grants: seq<Grant<Ticket>>, i: nat)
    requires i < |grants|
    ensures |Laws.To(grants, grants[i].lane)| > 0
    decreases |grants|
  {
    if i > 0 { GrantedOnce(grants[1..], i - 1); }
  }

  lemma PumpBounded(f: Flow<Ticket>, lane: Lane)
    requires f.WF() && !f.closed && lane in f.ready
    requires lane in LanesOf(f.Pump().grants) || f.Pump().flow.ActiveOf(lane) < f.Pump().flow.laneLimit
    ensures Bypassing(LanesOf(f.Pump().grants), lane)
      + (if lane in LanesOf(f.Pump().grants) then 0 else Position(f.Pump().flow.ready, lane)) <= Position(f.ready, lane)
  {
    hide Flow.WF, Flow.Pump, Position, Bypassing, LanesOf, Flow.ActiveOf;
    if f.ActiveOf(lane) >= f.laneLimit {
      AtLimitStays(f, lane);
    } else {
      PumpBypass(f, lane);
    }
  }

  lemma GiveBackBounded(s: System, t: Ticket, lane: Lane)
    requires Inv(s) && Eager(s, lane)
    requires lane in Admissions(s, GiveBack(t)) || Eager(Step(s, GiveBack(t)), lane)
    ensures Bounded(s, GiveBack(t), lane)
  {
    hide Flow.WF, Flow.Saturated, Conserved, QueuesWait, InOrder, Numbered, Flow.Pump, Position, GrantPhases, Serve,
      LanesOf;
    EagerIsListed(s, lane);
    if t in s.phases && (s.phases[t].Holding? || s.phases[t].Refunding?) {
      Laws.DeactivateKeeps(s.flow, s.phases[t].lane);
      GiveBackConserved(s, t);
      PumpBounded(s.flow.Deactivate(s.phases[t].lane), lane);
    }
  }

  lemma LimitBounded(s: System, connection: Option<nat>, laneWindow: Option<nat>, lane: Lane)
    requires Inv(s) && Eager(s, lane)
    requires lane in Admissions(s, Limit(connection, laneWindow)) || Eager(Step(s, Limit(connection, laneWindow)), lane)
    ensures Bounded(s, Limit(connection, laneWindow), lane)
  {
    hide Flow.Saturated, Conserved, QueuesWait, InOrder, Numbered, Flow.Pump, Position, GrantPhases, Serve, LanesOf,
      Bypassing, QueuesAddUp, CreditsAddUp, ListsQueues;
    EagerIsListed(s, lane);
    PumpBounded(s.flow.WithLimits(connection, laneWindow), lane);
  }

  lemma StepBounded(s: System, a: Action, lane: Lane)
    requires Inv(s) && Eager(s, lane)
    requires lane in Admissions(s, a) || Eager(Step(s, a), lane)
    ensures Bounded(s, a, lane)
  {
    hide Inv, DoEnter, DoGiveBack, Deliver, Flow.UpdateLimits, Flow.Release, Position, FailWaiters;
    match a
    case Enter(entered) => EnterBounded(s, entered, lane);
    case Observe(_) =>
    case Cancel(t) => CancelBounded(s, t, lane);
    case GiveBack(t) => GiveBackBounded(s, t, lane);
    case Limit(connection, laneWindow) => LimitBounded(s, connection, laneWindow, lane);
    case Shut =>
  }

  /** Every waiting lane that may be served is served after at most `Position` admissions elsewhere. */
  lemma {:induction false} BoundedBypass(s: System, actions: seq<Action>, lane: Lane)
    requires Inv(s) && StaysEager(s, actions, lane)
    ensures Bypasses(s, actions, lane) <= Position(s.flow.ready, lane)
    decreases |actions|
  {
    hide Inv, Step, Admissions, Position, Eager, Bypassing;
    if actions != [] {
      var after := Step(s, actions[0]);
      StepKeeps(s, actions[0]);
      StepBounded(s, actions[0], lane);
      if lane !in Admissions(s, actions[0]) {
        BoundedBypass(after, actions[1..], lane);
      }
    }
  }
}
