/** What callers may rely on in every run: fairness, settlement once, no lost credit, bounded bypass. */
module FlowGuarantees {
  import opened MapSums
  import opened FlowSpec
  import opened FlowSystem
  import opened FlowInterleavings
  import opened Results
  import Laws = FlowLaws

  /** No ticket is ever admitted to a lane while an earlier ticket of that lane still waits. */
  lemma FirstInFirstOut(limits: Limits, actions: seq<Action>, lane: Lane, admitted: Ticket, waiting: Ticket)
    requires var s := Run(Initial(limits), actions);
      admitted in s.ServedOf(lane) && s.Is(waiting, Waiting(lane))
    ensures admitted < waiting
  {
    hide Initial, Run, Conserved, Flow.WF, Flow.Saturated;
    Reachable(limits, actions);
    var s := Run(Initial(limits), actions);
    assert waiting in s.flow.QueueOf(lane);
    var line := s.ServedOf(lane) + s.flow.QueueOf(lane);
    assert Increasing(line);
    var i :| 0 <= i < |s.ServedOf(lane)| && s.ServedOf(lane)[i] == admitted;
    var j :| 0 <= j < |s.flow.QueueOf(lane)| && s.flow.QueueOf(lane)[j] == waiting;
    assert line[i] == admitted && line[|s.ServedOf(lane)| + j] == waiting;
  }

  /** Once nobody owns a credit any more, every credit is back. */
  lemma NoLostCredit(limits: Limits, actions: seq<Action>)
    requires var s := Run(Initial(limits), actions); forall t :: t in s.phases ==> !s.phases[t].HasCredit()
    ensures Run(Initial(limits), actions).flow.activeTotal == 0
    ensures Run(Initial(limits), actions).flow.active == map[]
  {
    hide Initial, Run, QueuesWait, InOrder, Numbered, Flow.Saturated, QueuesAddUp, ListsQueues;
    Reachable(limits, actions);
    var s := Run(Initial(limits), actions);
    AllZero(OwnedAnywhere(s.phases));
    forall l: Lane ensures l !in s.flow.active {
      AllZero(Owned(s.phases, l));
      assert s.flow.ActiveOf(l) == Sum(Owned(s.phases, l));
    }
  }

  lemma {:induction false} AllZero<K>(m: map<K, nat>)
    requires forall k :: k in m ==> m[k] == 0
    ensures Sum(m) == 0
    decreases |m|
  {
    if |m| != 0 {
      var k := Picked(m);
      RemoveOne(m, k);
      AllZero(m - {k});
    }
  }

  lemma RemoveOne<K>(m: map<K, nat>, k: K)
    requires k in m
    ensures |m - {k}| < |m|
  {
    assert (m - {k}).Keys == m.Keys - {k};
  }

  // ----- each request settles once

  /** The only ways a ticket can move: granted, failed or cancelled once; observed or refunded once; released once. */
  predicate Moves(p: Phase, q: Phase) {
    match p
    case Waiting(lane) => q == Granted(lane) || q == Failed || q == Gone
    case Granted(lane) => q == Holding(lane) || q == Refunding(lane)
    case Holding(_) => q == Gone
    case Refunding(_) => q == Gone
    case Failed => q == Gone
    case Gone => false
  }

  ghost predicate Forward(before: map<Ticket, Phase>, after: map<Ticket, Phase>, t: Ticket) {
    t in before ==> t in after && (after[t] == before[t] || Moves(before[t], after[t]))
  }

  lemma DeliveryIsForward(s: System, pumped: Pumped<Ticket>, t: Ticket)
    requires s.flow.WF() && QueuesWait(s.flow, s.phases) && Laws.Granted(s.flow, pumped.grants, pumped.flow)
    ensures Forward(s.phases, Deliver(s, pumped).phases, t)
  {
    hide Flow.WF, Flow.QueueOf, Laws.Granted, Laws.To, GrantPhases, Serve;
    if lane: Lane :| t in Laws.To(pumped.grants, lane) {
      PumpIsDeliverable(s.flow, s.phases, pumped.grants, pumped.flow);
      DeliveredTo(s.phases, pumped.grants, t, lane);
      WasQueued(s.flow, pumped.grants, pumped.flow, t, lane);
    } else {
      NotDelivered(s.phases, pumped.grants, t);
    }
  }

  lemma GiveBackIsForward(s: System, giver: Ticket, t: Ticket)
    requires Inv(s)
    ensures Forward(s.phases, DoGiveBack(s, giver).phases, t)
  {
    hide Flow.WF, Flow.Saturated, Conserved, QueuesWait, InOrder, Numbered, Flow.Pump, GrantPhases, Serve, Flow.ActiveOf;
    if giver in s.phases && (s.phases[giver].Holding? || s.phases[giver].Refunding?) {
      var lane := s.phases[giver].lane;
      GiveBackConserved(s, giver);
      GiveBackQueues(s.flow, s.phases, giver, lane);
      Laws.DeactivateKeeps(s.flow, lane);
      var mid := s.(flow := s.flow.Deactivate(lane), phases := s.phases[giver := Gone]);
      if s.flow.closed {
        NothingToDeliver(mid);
      } else {
        Laws.PumpLaw(mid.flow);
        DeliveryIsForward(mid, mid.flow.Pump(), t);
      }
    }
  }

  lemma SettlesOnce(s: System, a: Action, t: Ticket)
    requires Inv(s)
    ensures Forward(s.phases, Step(s, a).phases, t)
  {
    hide Flow.WF, Flow.Saturated, Conserved, InOrder, Flow.Pump, GrantPhases, Serve;
    match a
    case Enter(lane) => assert s.next !in s.phases;
    case Observe(_) =>
    case Cancel(_) =>
    case GiveBack(giver) => GiveBackIsForward(s, giver, t);
    case Limit(connection, laneWindow) =>
      var mid := s.(flow := s.flow.WithLimits(connection, laneWindow));
      LimitedRest(s, mid.flow);
      if s.flow.closed {
        NothingToDeliver(mid);
      } else {
        LimitedWF(s.flow, mid.flow);
        Laws.PumpLaw(mid.flow);
        DeliveryIsForward(mid, mid.flow.Pump(), t);
      }
    case Shut =>
  }

  lemma LimitedWF(f: Flow<Ticket>, g: Flow<Ticket>)
    requires f.WF() && g == f.(limits := g.limits, laneLimit := g.limits.Lane())
    ensures g.WF()
  {
  }

  // ----- bounded bypass

  /** Where the lane stands in the round-robin list. */
  function Position(ready: seq<Lane>, lane: Lane): nat {
    if ready == [] || ready[0] == lane then 0 else 1 + Position(ready[1..], lane)
  }

  /** How many admissions go elsewhere before the lane's next one. */
  function Bypassing(lanes: seq<Lane>, lane: Lane): nat {
    if lanes == [] || lanes[0] == lane then 0 else 1 + Bypassing(lanes[1..], lane)
  }

  function LanesOf(grants: seq<Grant<Ticket>>): seq<Lane> {
    if grants == [] then [] else [grants[0].lane] + LanesOf(grants[1..])
  }

  lemma {:induction false} PositionAppend(ready: seq<Lane>, more: seq<Lane>, lane: Lane)
    requires lane in ready
    ensures Position(ready + more, lane) == Position(ready, lane) < |ready|
    ensures ready[Position(ready, lane)] == lane
  {
    if ready[0] != lane {
      assert (ready + more)[1..] == ready[1..] + more;
      PositionAppend(ready[1..], more, lane);
    }
  }

  lemma {:induction false} PositionWithout(ready: seq<Lane>, other: Lane, lane: Lane)
    requires lane in ready && other != lane
    ensures lane in Without(ready, other) && Position(Without(ready, other), lane) <= Position(ready, lane)
  {
    assert ready == [ready[0]] + ready[1..];
    if ready[0] != lane && ready[0] != other {
      PositionWithout(ready[1..], other, lane);
      assert Without(ready, other) == [ready[0]] + Without(ready[1..], other);
    }
  }

  lemma TurnAdvances(ready: seq<Lane>, lane: Lane)
    requires lane in ready && ready[0] != lane
    ensures lane in ready[1..] && Position(ready[1..], lane) == Position(ready, lane) - 1
    ensures lane in ready[1..] + [ready[0]] && Position(ready[1..] + [ready[0]], lane) == Position(ready, lane) - 1
  {
    assert ready == [ready[0]] + ready[1..];
    PositionAppend(ready[1..], [ready[0]], lane);
  }

  lemma GrantTurns(f: Flow<Ticket>)
    requires f.HasFront()
    ensures f.GrantFront().ready == f.ready[1..] || f.GrantFront().ready == f.ready[1..] + [f.ready[0]]
  {
  }

  lemma RotatedCanAcquire(f: Flow<Ticket>, lane: Lane)
    requires f.ready != []
    ensures f.Rotate().CanAcquire(lane) == f.CanAcquire(lane)
    ensures f.Rotate().closed == f.closed && f.Rotate().ready == f.ready[1..] + [f.ready[0]]
  {
  }

  /** A pass that finds the lane below its limit grants to it or brings it strictly nearer the front. */
  lemma {:induction false} PassAdvances(f: Flow<Ticket>, attempts: nat, lane: Lane)
    requires f.WF() && !f.closed && attempts <= |f.ready| && lane in f.ready
    requires Position(f.ready, lane) < attempts && f.CanAcquire(lane)
    ensures var p := f.Pass(attempts);
      && p.grant.Some?
      && (p.grant.value.lane != lane
          ==> lane in p.flow.ready && Position(p.flow.ready, lane) < Position(f.ready, lane))
    decreases attempts
  {
    hide Flow.WF, Flow.GrantFront, Flow.Rotate, Position;
    Laws.FrontExists(f);
    GrantTurns(f);
    var front := f.ready[0];
    if front != lane {
      TurnAdvances(f.ready, lane);
      if f.ActiveOf(front) >= f.laneLimit {
        Laws.RotateKeeps(f);
        RotatedCanAcquire(f, lane);
        PassAdvances(f.Rotate(), attempts - 1, lane);
      }
    }
  }

  /** During a pump at most as many grants pass the lane by as there are entries ahead of it. */
  lemma {:induction false} PumpBypass(f: Flow<Ticket>, lane: Lane)
    requires f.WF() && !f.closed && lane in f.ready && f.ActiveOf(lane) < f.laneLimit
    ensures var p := f.Pump();
      && (lane !in LanesOf(p.grants) ==> lane in p.flow.ready)
      && Bypassing(LanesOf(p.grants), lane)
         + (if lane in LanesOf(p.grants) then 0 else Position(p.flow.ready, lane)) <= Position(f.ready, lane)
    decreases f.queuedTotal
  {
    hide QueuesAddUp, CreditsAddUp, ListsQueues, Flow.Saturated, Flow.Pass, Laws.Granted, Flow.WF;
    if f.activeTotal < f.limits.connection {
      PositionAppend(f.ready, [], lane);
      assert f.ready + [] == f.ready;
      PassAdvances(f, |f.ready|, lane);
      Laws.PassLaw(f, |f.ready|);
      f.PassQueued(|f.ready|);
      var pass := f.Pass(|f.ready|);
      var g := pass.grant.value;
      var rest := pass.flow.Pump();
      assert f.Pump().grants == [g] + rest.grants;
      assert ([g] + rest.grants)[1..] == rest.grants;
      assert LanesOf([g] + rest.grants) == [g.lane] + LanesOf(rest.grants);
      if g.lane != lane {
        UnchangedCredit(f, g, pass.flow, lane);
        PumpBypass(pass.flow, lane);
        assert ([g.lane] + LanesOf(rest.grants))[1..] == LanesOf(rest.grants);
      }
    }
  }

  lemma UnchangedCredit(f: Flow<Ticket>, g: Grant<Ticket>, after: Flow<Ticket>, lane: Lane)
    requires Laws.Granted(f, [g], after) && g.lane != lane
    ensures after.ActiveOf(lane) == f.ActiveOf(lane) && after.laneLimit == f.laneLimit && after.closed == f.closed
  {
    Laws.ToNobody([g], lane);
  }
}
