/**
  Every interleaving of the flow controller's callers.

  A caller is a ticket, numbered in arrival order. The two mutex-protected
  halves of acquire are separate actions: `Enter` is the first half, and `Observe`
  or `Cancel` the second, so a grant can arrive between them. A run is any
  sequence of actions; an action that is not enabled does nothing.
*/
module FlowSystem {
  import opened MapSums
  import opened FlowSpec
  import opened Sequences
  import Laws = FlowLaws
  import opened Results

  type Ticket = nat

  /** `Granted` has a credit it has not seen yet; `Refunding` saw it too late and will give it back. */
  datatype Phase =
    | Waiting(lane: Lane)
    | Granted(lane: Lane)
    | Holding(lane: Lane)
    | Refunding(lane: Lane)
    | Failed
    | Gone
  {
    predicate HasCredit() {
      Granted? || Holding? || Refunding?
    }
  }

  /** `served` is the history of admissions to each lane, in order. */
  datatype System = System(
    flow: Flow<Ticket>,
    phases: map<Ticket, Phase>,
    next: Ticket,
    served: map<Lane, seq<Ticket>>)
  {
    function ServedOf(lane: Lane): seq<Ticket> {
      At(served, lane)
    }

    predicate Is(ticket: Ticket, phase: Phase) {
      ticket in phases && phases[ticket] == phase
    }
  }

  datatype Action =
    | Enter(lane: Lane)
    | Observe(ticket: Ticket)
    | Cancel(ticket: Ticket)
    | GiveBack(ticket: Ticket)
    | Limit(connection: Option<nat>, laneWindow: Option<nat>)
    | Shut

  // ----- actions

  function GrantPhases(phases: map<Ticket, Phase>, grants: seq<Grant<Ticket>>): map<Ticket, Phase>
    decreases |grants|
  {
    if grants == [] then phases
    else GrantPhases(phases[grants[0].waiter := Granted(grants[0].lane)], grants[1..])
  }

  function At(served: map<Lane, seq<Ticket>>, lane: Lane): seq<Ticket> {
    if lane in served then served[lane] else []
  }

  function Serve(served: map<Lane, seq<Ticket>>, grants: seq<Grant<Ticket>>): map<Lane, seq<Ticket>>
    decreases |grants|
  {
    if grants == [] then served
    else Serve(served[grants[0].lane := At(served, grants[0].lane) + [grants[0].waiter]], grants[1..])
  }

  /** The controller pumped: each grant reaches its waiter. */
  function Deliver(s: System, pumped: Pumped<Ticket>): System {
    s.(flow := pumped.flow, phases := GrantPhases(s.phases, pumped.grants), served := Serve(s.served, pumped.grants))
  }

  predicate Refuses(f: Flow<Ticket>) {
    f.closed || f.limits.laneQueue == 0 || f.limits.connection == 0 || f.laneLimit == 0
  }

  function DoEnter(s: System, lane: Lane): System {
    var f := s.flow;
    if Refuses(f) then s
    else if f.CanAcquire(lane) then
      System(f.Activate(lane), s.phases[s.next := Holding(lane)], s.next + 1,
             s.served[lane := s.ServedOf(lane) + [s.next]])
    else if f.queuedTotal >= f.limits.maxQueued then s
    else System(f.Enqueue(lane, s.next), s.phases[s.next := Waiting(lane)], s.next + 1, s.served)
  }

  function DoObserve(s: System, t: Ticket): System {
    if t !in s.phases then s
    else match s.phases[t]
      case Granted(lane) => s.(phases := s.phases[t := Holding(lane)])
      case Failed => s.(phases := s.phases[t := Gone])
      case _ => s
  }

  function DoCancel(s: System, t: Ticket): System {
    if t !in s.phases then s
    else match s.phases[t]
      case Waiting(lane) =>
        if s.flow.queuedTotal == 0 then s
        else s.(flow := s.flow.Remove(lane, t), phases := s.phases[t := Gone])
      case Granted(lane) => s.(phases := s.phases[t := Refunding(lane)])
      case Failed => s.(phases := s.phases[t := Gone])
      case _ => s
  }

  /** A holder finishes, or a refund is paid: either way `release` runs once. */
  function DoGiveBack(s: System, t: Ticket): System {
    if t !in s.phases || !(s.phases[t].Holding? || s.phases[t].Refunding?) then s
    else
      Deliver(s.(phases := s.phases[t := Gone]), s.flow.Release(s.phases[t].lane))
  }

  function FailWaiters(phases: map<Ticket, Phase>): map<Ticket, Phase> {
    map t | t in phases :: if phases[t].Waiting? then Failed else phases[t]
  }

  function Step(s: System, a: Action): System {
    match a
    case Enter(lane) => DoEnter(s, lane)
    case Observe(t) => DoObserve(s, t)
    case Cancel(t) => DoCancel(s, t)
    case GiveBack(t) => DoGiveBack(s, t)
    case Limit(connection, laneWindow) => Deliver(s, s.flow.UpdateLimits(connection, laneWindow))
    case Shut =>
      if s.flow.closed then s else s.(flow := s.flow.Close(), phases := FailWaiters(s.phases))
  }

  function Run(s: System, actions: seq<Action>): System
    decreases |actions|
  {
    if actions == [] then s else Run(Step(s, actions[0]), actions[1..])
  }

  function Initial(limits: Limits): System {
    System(Flow(limits, limits.Lane(), map[], 0, map[], [], 0, false), map[], 0, map[])
  }

  // ----- what every reachable state satisfies

  /** One for each ticket that owns a credit of the lane. */
  ghost function Owned(phases: map<Ticket, Phase>, lane: Lane): map<Ticket, nat> {
    map t | t in phases :: if phases[t].HasCredit() && phases[t].lane == lane then 1 else 0
  }

  ghost function OwnedAnywhere(phases: map<Ticket, Phase>): map<Ticket, nat> {
    map t | t in phases :: if phases[t].HasCredit() then 1 else 0
  }

  /** Credits taken are exactly the credits that callers hold, were granted, or are giving back. */
  ghost predicate Conserved(f: Flow<Ticket>, phases: map<Ticket, Phase>) {
    && (forall l :: f.ActiveOf(l) == Sum(Owned(phases, l)))
    && f.activeTotal == Sum(OwnedAnywhere(phases))
  }

  /** The queues hold exactly the waiting tickets. */
  ghost predicate QueuesWait(f: Flow<Ticket>, phases: map<Ticket, Phase>) {
    forall t: Ticket, l: Lane :: t in f.QueueOf(l) <==> t in phases && phases[t] == Waiting(l)
  }

  predicate Increasing(s: seq<Ticket>) {
    forall i, j :: 0 <= i < j < |s| ==> s[i] < s[j]
  }

  /** Each lane's admissions, followed by its queue, are in arrival order. */
  ghost predicate InOrder(s: System) {
    forall l :: Increasing(s.ServedOf(l) + s.flow.QueueOf(l))
  }

  ghost predicate Numbered(s: System) {
    && (forall t: Ticket :: t in s.phases <==> t < s.next)
    && (forall l: Lane, t: Ticket :: t in s.ServedOf(l) ==> t < s.next)
  }

  ghost predicate Inv(s: System) {
    && s.flow.WF()
    && s.flow.Saturated()
    && Conserved(s.flow, s.phases)
    && QueuesWait(s.flow, s.phases)
    && InOrder(s)
    && Numbered(s)
  }

  // ----- counting owners

  lemma OwnedUpdate(phases: map<Ticket, Phase>, t: Ticket, p: Phase, lane: Lane)
    ensures Sum(Owned(phases[t := p], lane))
      == Sum(Owned(phases, lane))
         - (if t in phases && phases[t].HasCredit() && phases[t].lane == lane then 1 else 0)
         + (if p.HasCredit() && p.lane == lane then 1 else 0)
  {
    hide Sum;
    var v := if p.HasCredit() && p.lane == lane then 1 else 0;
    SumUpdate(Owned(phases, lane), t, v);
    assert Owned(phases[t := p], lane) == Owned(phases, lane)[t := v];
  }

  lemma OwnedAnywhereUpdate(phases: map<Ticket, Phase>, t: Ticket, p: Phase)
    ensures Sum(OwnedAnywhere(phases[t := p]))
      == Sum(OwnedAnywhere(phases)) - (if t in phases && phases[t].HasCredit() then 1 else 0)
         + (if p.HasCredit() then 1 else 0)
  {
    hide Sum;
    var v := if p.HasCredit() then 1 else 0;
    SumUpdate(OwnedAnywhere(phases), t, v);
    assert OwnedAnywhere(phases[t := p]) == OwnedAnywhere(phases)[t := v];
  }

  /** The grants reach distinct tickets that are waiting in the granted lane. */
  ghost predicate Deliverable(phases: map<Ticket, Phase>, grants: seq<Grant<Ticket>>) {
    forall l :: Distinct(Laws.To(grants, l)) && forall t: Ticket :: t in Laws.To(grants, l) ==> t in phases && phases[t] == Waiting(l)
  }

  lemma FirstDelivery(phases: map<Ticket, Phase>, grants: seq<Grant<Ticket>>)
    requires grants != [] && Deliverable(phases, grants)
    ensures var g := grants[0];
      && g.waiter in phases && phases[g.waiter] == Waiting(g.lane)
      && Deliverable(phases[g.waiter := Granted(g.lane)], grants[1..])
  {
    var g := grants[0];
    assert Laws.To(grants, g.lane)[0] == g.waiter;
    forall l
      ensures Distinct(Laws.To(grants[1..], l))
      ensures forall t :: t in Laws.To(grants[1..], l) ==> t in phases && phases[t] == Waiting(l) && t != g.waiter
    {
      var all, rest := Laws.To(grants, l), Laws.To(grants[1..], l);
      if l == g.lane {
        assert all == [g.waiter] + rest;
        assert rest == all[1..];
      } else {
        assert all == rest;
      }
    }
  }

  /** Delivering the grants adds exactly their credits to their owners. */
  lemma {:induction false} DeliveryCounts(phases: map<Ticket, Phase>, grants: seq<Grant<Ticket>>, lane: Lane)
    requires Deliverable(phases, grants)
    ensures Sum(Owned(GrantPhases(phases, grants), lane)) == Sum(Owned(phases, lane)) + |Laws.To(grants, lane)|
    ensures Sum(OwnedAnywhere(GrantPhases(phases, grants))) == Sum(OwnedAnywhere(phases)) + |grants|
    decreases |grants|
  {
    hide Sum, Deliverable, Owned, OwnedAnywhere;
    if grants != [] {
      var g := grants[0];
      FirstDelivery(phases, grants);
      OwnedUpdate(phases, g.waiter, Granted(g.lane), lane);
      OwnedAnywhereUpdate(phases, g.waiter, Granted(g.lane));
      DeliveryCounts(phases[g.waiter := Granted(g.lane)], grants[1..], lane);
    }
  }

  lemma {:induction false} NotDelivered(phases: map<Ticket, Phase>, grants: seq<Grant<Ticket>>, t: Ticket)
    requires forall l :: t !in Laws.To(grants, l)
    ensures var after := GrantPhases(phases, grants);
      (t in after <==> t in phases) && (t in phases ==> after[t] == phases[t])
    decreases |grants|
  {
    if grants != [] {
      var g := grants[0];
      assert g.waiter in Laws.To(grants, g.lane);
      forall l ensures t !in Laws.To(grants[1..], l) { assert t !in Laws.To(grants, l); }
      NotDelivered(phases[g.waiter := Granted(g.lane)], grants[1..], t);
    }
  }

  lemma {:induction false} DeliveredTo(phases: map<Ticket, Phase>, grants: seq<Grant<Ticket>>, t: Ticket, lane: Lane)
    requires Deliverable(phases, grants) && t in Laws.To(grants, lane)
    ensures var after := GrantPhases(phases, grants); t in after && after[t] == Granted(lane)
    decreases |grants|
  {
    hide Deliverable;
    var g := grants[0];
    FirstDelivery(phases, grants);
    var mid := phases[g.waiter := Granted(g.lane)];
    if t in Laws.To(grants[1..], lane) {
      DeliveredTo(mid, grants[1..], t, lane);
    } else {
      GrantedIsNotWaiting(mid, grants[1..], t);
      NotDelivered(mid, grants[1..], t);
    }
  }

  lemma GrantedIsNotWaiting(phases: map<Ticket, Phase>, grants: seq<Grant<Ticket>>, t: Ticket)
    requires Deliverable(phases, grants) && t in phases && !phases[t].Waiting?
    ensures forall l :: t !in Laws.To(grants, l)
  {
  }

  lemma {:induction false} ServeLaw(served: map<Lane, seq<Ticket>>, grants: seq<Grant<Ticket>>, lane: Lane)
    ensures At(Serve(served, grants), lane) == At(served, lane) + Laws.To(grants, lane)
    decreases |grants|
  {
    if grants == [] {
      assert At(served, lane) + [] == At(served, lane);
    } else {
      var g := grants[0];
      var mid := served[g.lane := At(served, g.lane) + [g.waiter]];
      var own := if g.lane == lane then [g.waiter] else [];
      ServeLaw(mid, grants[1..], lane);
      assert At(mid, lane) == At(served, lane) + own;
      assert At(served, lane) + (own + Laws.To(grants[1..], lane)) == At(served, lane) + own + Laws.To(grants[1..], lane);
    }
  }
}
