/**
  The controller's invariants over all interleavings: credit conservation, no
  barging, strict first-in first-out per lane, and settlement once.
*/
module FlowInterleavings {
  import opened MapSums
  import opened FlowSpec
  import opened Sequences
  import opened FlowSystem
  import opened Results
  import Laws = FlowLaws

  // ----- delivering the grants of a pump

  lemma PumpIsDeliverable(f: Flow<Ticket>, phases: map<Ticket, Phase>, grants: seq<Grant<Ticket>>, g: Flow<Ticket>)
    requires f.WF() && QueuesWait(f, phases) && Laws.Granted(f, grants, g)
    ensures Deliverable(phases, grants)
  {
    hide QueuesAddUp, CreditsAddUp, ListsQueues, Laws.To;
    forall l
      ensures Distinct(Laws.To(grants, l))
      ensures forall t :: t in Laws.To(grants, l) ==> t in phases && phases[t] == Waiting(l)
    {
      var queue, served := f.QueueOf(l), Laws.To(grants, l);
      QueueIsDistinct(f, l);
      assert queue == served + g.QueueOf(l);
      assert forall i :: 0 <= i < |served| ==> served[i] == queue[i];
      assert forall t :: t in served ==> t in queue;
    }
  }

  lemma QueueIsDistinct(f: Flow<Ticket>, lane: Lane)
    requires f.WF()
    ensures Distinct(f.QueueOf(lane))
  {
  }

  lemma DeliveredQueuesWait(f: Flow<Ticket>, phases: map<Ticket, Phase>, grants: seq<Grant<Ticket>>, g: Flow<Ticket>)
    requires f.WF() && QueuesWait(f, phases) && Laws.Granted(f, grants, g)
    ensures QueuesWait(g, GrantPhases(phases, grants))
  {
    hide Flow.WF, Laws.Granted, Laws.To, GrantPhases, Flow.QueueOf;
    forall t: Ticket, l: Lane
      ensures t in g.QueueOf(l) <==> t in GrantPhases(phases, grants) && GrantPhases(phases, grants)[t] == Waiting(l)
    {
      if lane: Lane :| t in Laws.To(grants, lane) {
        GrantedLeavesQueue(f, phases, grants, g, t, lane, l);
      } else {
        NotDelivered(phases, grants, t);
        StaysQueued(f, grants, g, t, l);
      }
    }
  }

  lemma GrantedLeavesQueue(
    f: Flow<Ticket>, phases: map<Ticket, Phase>, grants: seq<Grant<Ticket>>, g: Flow<Ticket>,
    t: Ticket, lane: Lane, l: Lane)
    requires f.WF() && QueuesWait(f, phases) && Laws.Granted(f, grants, g) && t in Laws.To(grants, lane)
    ensures t in GrantPhases(phases, grants) && GrantPhases(phases, grants)[t] == Granted(lane)
    ensures t !in g.QueueOf(l)
  {
    hide Flow.WF, Laws.To, GrantPhases, Flow.QueueOf, Deliverable, Flow.ActiveOf;
    PumpIsDeliverable(f, phases, grants, g);
    DeliveredTo(phases, grants, t, lane);
    assert f.QueueOf(lane) == Laws.To(grants, lane) + g.QueueOf(lane);
    assert f.QueueOf(l) == Laws.To(grants, l) + g.QueueOf(l);
    QueueIsDistinct(f, lane);
    TwiceInQueue(Laws.To(grants, lane), g.QueueOf(lane), t);
    assert t in f.QueueOf(lane);
    assert t in phases && phases[t] == Waiting(lane);
    assert t in g.QueueOf(l) ==> t in f.QueueOf(l);
    assert t in f.QueueOf(l) ==> phases[t] == Waiting(l);
  }

  lemma StaysQueued(f: Flow<Ticket>, grants: seq<Grant<Ticket>>, g: Flow<Ticket>, t: Ticket, l: Lane)
    requires Laws.Granted(f, grants, g) && t !in Laws.To(grants, l)
    ensures t in f.QueueOf(l) <==> t in g.QueueOf(l)
  {
    hide Laws.To, Flow.QueueOf, Flow.ActiveOf;
    assert f.QueueOf(l) == Laws.To(grants, l) + g.QueueOf(l);
  }

  lemma TwiceInQueue(a: seq<Ticket>, b: seq<Ticket>, t: Ticket)
    requires Distinct(a + b)
    ensures !(t in a && t in b)
  {
    forall i, j | 0 <= i < |a| && 0 <= j < |b| ensures a[i] != b[j] {
      assert (a + b)[i] == a[i] && (a + b)[|a| + j] == b[j];
    }
  }

  lemma DeliveredConserved(f: Flow<Ticket>, phases: map<Ticket, Phase>, grants: seq<Grant<Ticket>>, g: Flow<Ticket>)
    requires f.WF() && QueuesWait(f, phases) && Conserved(f, phases) && Laws.Granted(f, grants, g)
    ensures Conserved(g, GrantPhases(phases, grants))
  {
    hide QueuesAddUp, CreditsAddUp, ListsQueues, Laws.To, GrantPhases, Deliverable, Sum, Owned, OwnedAnywhere, QueuesWait, Flow.QueueOf;
    PumpIsDeliverable(f, phases, grants, g);
    DeliveryCounts(phases, grants, 0);
    forall l ensures g.ActiveOf(l) == Sum(Owned(GrantPhases(phases, grants), l)) {
      DeliveryCounts(phases, grants, l);
    }
  }

  /** Admission moves tickets from the front of the queue to the end of the history. */
  lemma DeliveredInOrder(s: System, pumped: Pumped<Ticket>)
    requires InOrder(s) && Laws.Granted(s.flow, pumped.grants, pumped.flow)
    ensures InOrder(Deliver(s, pumped))
  {
    hide Increasing, Flow.QueueOf, Flow.ActiveOf, Laws.To, Serve;
    var after := Deliver(s, pumped);
    forall l ensures Increasing(after.ServedOf(l) + after.flow.QueueOf(l)) {
      ServeLaw(s.served, pumped.grants, l);
      assert s.ServedOf(l) + (Laws.To(pumped.grants, l) + pumped.flow.QueueOf(l))
        == s.ServedOf(l) + Laws.To(pumped.grants, l) + pumped.flow.QueueOf(l);
    }
  }

  lemma WasQueued(f: Flow<Ticket>, grants: seq<Grant<Ticket>>, g: Flow<Ticket>, t: Ticket, l: Lane)
    requires Laws.Granted(f, grants, g) && t in Laws.To(grants, l)
    ensures t in f.QueueOf(l)
  {
    hide Laws.To, Flow.QueueOf, Flow.ActiveOf;
    assert f.QueueOf(l) == Laws.To(grants, l) + g.QueueOf(l);
  }

  lemma DeliveredNumbered(s: System, pumped: Pumped<Ticket>)
    requires s.flow.WF() && QueuesWait(s.flow, s.phases) && Numbered(s)
    requires Laws.Granted(s.flow, pumped.grants, pumped.flow)
    ensures Numbered(Deliver(s, pumped))
  {
    hide Flow.WF, Laws.To, Laws.Granted, GrantPhases, Serve, Deliverable, Flow.QueueOf;
    PumpIsDeliverable(s.flow, s.phases, pumped.grants, pumped.flow);
    var after := Deliver(s, pumped);
    forall t: Ticket ensures t in after.phases <==> t < after.next {
      if lane: Lane :| t in Laws.To(pumped.grants, lane) {
        DeliveredTo(s.phases, pumped.grants, t, lane);
        WasQueued(s.flow, pumped.grants, pumped.flow, t, lane);
        assert t in s.phases;
      } else {
        NotDelivered(s.phases, pumped.grants, t);
        assert t in s.phases <==> t < s.next;
      }
    }
    forall l: Lane, t: Ticket | t in after.ServedOf(l) ensures t < after.next {
      ServeLaw(s.served, pumped.grants, l);
      if t in Laws.To(pumped.grants, l) {
        WasQueued(s.flow, pumped.grants, pumped.flow, t, l);
        assert t in s.phases;
      } else {
        assert t in s.ServedOf(l);
      }
    }
    assert Numbered(after);
  }

  /** Pumping an open controller, whatever changed its credits or limits, restores the whole invariant. */
  lemma DeliverKeeps(s: System)
    requires s.flow.WF() && !s.flow.closed
    requires Conserved(s.flow, s.phases) && QueuesWait(s.flow, s.phases) && InOrder(s) && Numbered(s)
    ensures Inv(Deliver(s, s.flow.Pump()))
  {
    hide Flow.WF, Flow.Saturated, Conserved, QueuesWait, InOrder, Numbered, Flow.Pump, Laws.Granted, GrantPhases, Serve;
    var pumped := s.flow.Pump();
    Laws.PumpLaw(s.flow);
    DeliveredQueuesWait(s.flow, s.phases, pumped.grants, pumped.flow);
    DeliveredConserved(s.flow, s.phases, pumped.grants, pumped.flow);
    DeliveredInOrder(s, pumped);
    DeliveredNumbered(s, pumped);
  }

  // ----- single actions

  /** A ticket that changes phase without gaining or losing a credit or a queue place. */
  lemma Rephase(f: Flow<Ticket>, phases: map<Ticket, Phase>, t: Ticket, p: Phase)
    requires Conserved(f, phases) && QueuesWait(f, phases) && t in phases
    requires !phases[t].Waiting? && !p.Waiting? && p.HasCredit() == phases[t].HasCredit()
    requires p.HasCredit() ==> p.lane == phases[t].lane
    ensures Conserved(f, phases[t := p]) && QueuesWait(f, phases[t := p])
  {
    hide Sum, Owned, OwnedAnywhere, Flow.QueueOf, Flow.ActiveOf;
    OwnedAnywhereUpdate(phases, t, p);
    forall l: Lane ensures f.ActiveOf(l) == Sum(Owned(phases[t := p], l)) { OwnedUpdate(phases, t, p, l); }
  }

  lemma RephaseRest(s: System, t: Ticket, p: Phase)
    requires InOrder(s) && Numbered(s) && t in s.phases
    ensures InOrder(s.(phases := s.phases[t := p])) && Numbered(s.(phases := s.phases[t := p]))
  {
    var after := s.(phases := s.phases[t := p]);
    assert after.phases.Keys == s.phases.Keys;
    forall l: Lane ensures after.ServedOf(l) == s.ServedOf(l) && after.flow.QueueOf(l) == s.flow.QueueOf(l) { }
  }

  lemma ObserveKeeps(s: System, t: Ticket)
    requires Inv(s)
    ensures Inv(DoObserve(s, t))
  {
    hide Flow.WF, Flow.Saturated, Conserved, QueuesWait, InOrder, Numbered;
    if t in s.phases {
      var p := match s.phases[t] case Granted(lane) => Holding(lane) case Failed => Gone case other => other;
      if p != s.phases[t] {
        Rephase(s.flow, s.phases, t, p);
        RephaseRest(s, t, p);
      }
    }
  }

  // ----- entering

  /** The fast path is taken only when nobody is queued in the lane. */
  lemma NoBarging(f: Flow<Ticket>, lane: Lane)
    requires f.Saturated() && f.CanAcquire(lane)
    ensures f.QueueOf(lane) == []
  {
  }

  lemma FastPathKeeps(s: System, lane: Lane)
    requires Inv(s) && !Refuses(s.flow) && s.flow.CanAcquire(lane)
    ensures Inv(DoEnter(s, lane))
  {
    hide QueuesAddUp, CreditsAddUp, ListsQueues, Conserved, QueuesWait, InOrder, Numbered;
    NoBarging(s.flow, lane);
    Laws.ActivateKeeps(s.flow.active, s.flow.activeTotal, lane);
    FastPathConserved(s, lane);
    FastPathQueues(s, lane);
    FastPathInOrder(s, lane);
    FastPathNumbered(s, lane);
  }

  lemma FastPathConserved(s: System, lane: Lane)
    requires Conserved(s.flow, s.phases) && Numbered(s)
    ensures Conserved(s.flow.Activate(lane), s.phases[s.next := Holding(lane)])
  {
    hide Sum, Owned, OwnedAnywhere;
    var f, after := s.flow, s.phases[s.next := Holding(lane)];
    assert s.next !in s.phases;
    OwnedAnywhereUpdate(s.phases, s.next, Holding(lane));
    forall l: Lane ensures f.Activate(lane).ActiveOf(l) == Sum(Owned(after, l)) {
      OwnedUpdate(s.phases, s.next, Holding(lane), l);
      assert f.ActiveOf(l) == Sum(Owned(s.phases, l));
    }
  }

  lemma FastPathQueues(s: System, lane: Lane)
    requires QueuesWait(s.flow, s.phases) && Numbered(s)
    ensures QueuesWait(s.flow.Activate(lane), s.phases[s.next := Holding(lane)])
  {
    assert s.next !in s.phases;
    forall l: Lane ensures s.flow.Activate(lane).QueueOf(l) == s.flow.QueueOf(l) { }
  }

  lemma FastPathInOrder(s: System, lane: Lane)
    requires InOrder(s) && Numbered(s) && s.flow.QueueOf(lane) == []
    ensures InOrder(DoFast(s, lane))
  {
    var after := DoFast(s, lane);
    forall l: Lane ensures Increasing(after.ServedOf(l) + after.flow.QueueOf(l)) {
      assert after.flow.QueueOf(l) == s.flow.QueueOf(l);
      assert Increasing(s.ServedOf(l) + s.flow.QueueOf(l));
      if l == lane {
        assert after.ServedOf(l) == s.ServedOf(l) + [s.next];
        assert s.ServedOf(l) + s.flow.QueueOf(l) == s.ServedOf(l);
        assert after.ServedOf(l) + after.flow.QueueOf(l) == s.ServedOf(l) + [s.next];
        assert forall i :: 0 <= i < |s.ServedOf(l)| ==> s.ServedOf(l)[i] in s.ServedOf(l);
      } else {
        assert after.ServedOf(l) == s.ServedOf(l);
      }
    }
  }

  function DoFast(s: System, lane: Lane): System {
    System(s.flow.Activate(lane), s.phases[s.next := Holding(lane)], s.next + 1,
           s.served[lane := s.ServedOf(lane) + [s.next]])
  }

  lemma FastPathNumbered(s: System, lane: Lane)
    requires Numbered(s)
    ensures Numbered(DoFast(s, lane))
  {
    var after := DoFast(s, lane);
    forall l: Lane, t: Ticket | t in after.ServedOf(l) ensures t < after.next {
      assert t in s.ServedOf(l) || t == s.next;
    }
  }

  lemma QueuePathKeeps(s: System, lane: Lane)
    requires Inv(s) && !Refuses(s.flow) && !s.flow.CanAcquire(lane) && s.flow.queuedTotal < s.flow.limits.maxQueued
    ensures Inv(DoEnter(s, lane))
  {
    hide QueuesAddUp, CreditsAddUp, ListsQueues, Conserved, QueuesWait, InOrder, Numbered, Flow.WF;
    FreshTicket(s, lane);
    Laws.EnqueueKeeps(s.flow, lane, s.next);
    QueuePathConserved(s, lane);
    QueuePathQueues(s, lane);
    QueuePathInOrder(s, lane);
  }

  lemma FreshTicket(s: System, lane: Lane)
    requires QueuesWait(s.flow, s.phases) && Numbered(s)
    ensures s.next !in s.phases && s.next !in s.flow.QueueOf(lane)
  {
    assert s.next !in s.phases;
  }

  lemma QueuePathConserved(s: System, lane: Lane)
    requires Conserved(s.flow, s.phases) && s.next !in s.phases
    ensures Conserved(s.flow.Enqueue(lane, s.next), s.phases[s.next := Waiting(lane)])
  {
    hide Sum, Owned, OwnedAnywhere;
    var after := s.phases[s.next := Waiting(lane)];
    OwnedAnywhereUpdate(s.phases, s.next, Waiting(lane));
    forall l: Lane ensures s.flow.Enqueue(lane, s.next).ActiveOf(l) == Sum(Owned(after, l)) {
      OwnedUpdate(s.phases, s.next, Waiting(lane), l);
      assert s.flow.ActiveOf(l) == Sum(Owned(s.phases, l));
    }
  }

  lemma EnqueuedQueue(f: Flow<Ticket>, lane: Lane, t: Ticket, l: Lane)
    ensures f.Enqueue(lane, t).QueueOf(l) == if l == lane then f.QueueOf(l) + [t] else f.QueueOf(l)
  {
  }

  lemma QueuePathQueues(s: System, lane: Lane)
    requires QueuesWait(s.flow, s.phases) && s.next !in s.phases
    ensures QueuesWait(s.flow.Enqueue(lane, s.next), s.phases[s.next := Waiting(lane)])
  {
    hide Flow.QueueOf, Flow.Enqueue;
    var g, after := s.flow.Enqueue(lane, s.next), s.phases[s.next := Waiting(lane)];
    forall t: Ticket, l: Lane ensures t in g.QueueOf(l) <==> t in after && after[t] == Waiting(l) {
      EnqueuedQueue(s.flow, lane, s.next, l);
      assert t in s.flow.QueueOf(l) <==> t in s.phases && s.phases[t] == Waiting(l);
      assert t in g.QueueOf(l) <==> t in s.flow.QueueOf(l) || (l == lane && t == s.next);
    }
  }

  lemma QueuePathInOrder(s: System, lane: Lane)
    requires InOrder(s) && Numbered(s) && QueuesWait(s.flow, s.phases)
    ensures var after := System(s.flow.Enqueue(lane, s.next), s.phases[s.next := Waiting(lane)], s.next + 1, s.served);
      InOrder(after) && Numbered(after)
  {
    hide Flow.QueueOf, Flow.Enqueue;
    var after := System(s.flow.Enqueue(lane, s.next), s.phases[s.next := Waiting(lane)], s.next + 1, s.served);
    forall l: Lane ensures Increasing(after.ServedOf(l) + after.flow.QueueOf(l)) {
      EnqueuedQueue(s.flow, lane, s.next, l);
      assert Increasing(s.ServedOf(l) + s.flow.QueueOf(l));
      if l == lane {
        var line := s.ServedOf(l) + s.flow.QueueOf(l);
        assert after.ServedOf(l) + after.flow.QueueOf(l) == line + [s.next];
        forall i | 0 <= i < |line| ensures line[i] < s.next {
          if i >= |s.ServedOf(l)| {
            assert line[i] in s.flow.QueueOf(l);
            assert line[i] in s.phases;
          } else {
            assert line[i] in s.ServedOf(l);
          }
        }
      }
    }
    forall l: Lane, t: Ticket | t in after.ServedOf(l) ensures t < after.next {
      assert t in s.ServedOf(l);
    }
    assert Numbered(after);
  }

  lemma EnterKeeps(s: System, lane: Lane)
    requires Inv(s)
    ensures Inv(DoEnter(s, lane))
  {
    hide Inv;
    if !Refuses(s.flow) {
      if s.flow.CanAcquire(lane) {
        FastPathKeeps(s, lane);
      } else if s.flow.queuedTotal < s.flow.limits.maxQueued {
        QueuePathKeeps(s, lane);
      }
    }
  }

  // ----- giving up, giving back

  lemma RemovedQueue(f: Flow<Ticket>, lane: Lane, t: Ticket, l: Lane)
    requires f.WF() && lane in f.queues && t in f.queues[lane]
    ensures f.queuedTotal > 0
    ensures f.Remove(lane, t).QueueOf(l) == if l == lane then Without(f.QueueOf(l), t) else f.QueueOf(l)
    ensures forall u: Ticket :: u in f.Remove(lane, t).QueueOf(l) <==> u in f.QueueOf(l) && (l != lane || u != t)
  {
    hide QueuesAddUp, CreditsAddUp, ListsQueues;
    Laws.QueueFacts(f, lane);
    WithoutMembers(f.queues[lane], t);
  }

  lemma {:induction false} WithoutIncreasing(a: seq<Ticket>, q: seq<Ticket>, t: Ticket)
    requires Increasing(a + q)
    ensures Increasing(a + Without(q, t))
    decreases |q|
  {
    if q != [] {
      if q[0] == t {
        assert forall i :: 0 <= i < |a + q[1..]| ==> (a + q[1..])[i] == (a + q)[if i < |a| then i else i + 1];
      } else {
        assert a + q == a + [q[0]] + q[1..];
        WithoutIncreasing(a + [q[0]], q[1..], t);
        assert a + [q[0]] + Without(q[1..], t) == a + Without(q, t);
      }
    }
  }

  lemma CancelWaitingKeeps(s: System, t: Ticket)
    requires Inv(s) && t in s.phases && s.phases[t].Waiting?
    ensures s.flow.queuedTotal > 0 && Inv(DoCancel(s, t))
  {
    hide QueuesAddUp, CreditsAddUp, ListsQueues, Conserved, InOrder, Numbered, Flow.WF, Flow.Remove, Flow.Saturated;
    var lane := s.phases[t].lane;
    assert t in s.flow.QueueOf(lane);
    Laws.RemoveKeeps(s.flow, lane, t);
    var after := s.(flow := s.flow.Remove(lane, t), phases := s.phases[t := Gone]);
    CancelSaturated(s.flow, lane, t);
    CancelConserved(s, t);
    CancelQueues(s, t);
    CancelInOrder(s, t);
  }

  lemma CancelSaturated(f: Flow<Ticket>, lane: Lane, t: Ticket)
    requires f.WF() && f.Saturated() && lane in f.queues && t in f.queues[lane]
    ensures f.queuedTotal > 0 && f.Remove(lane, t).Saturated()
  {
    hide QueuesAddUp, CreditsAddUp, ListsQueues;
    Laws.QueueFacts(f, lane);
    var g := f.Remove(lane, t);
    forall l | l in g.queues ensures !g.CanAcquire(l) {
      assert l in f.queues && !f.CanAcquire(l);
    }
  }

  lemma CancelConserved(s: System, t: Ticket)
    requires Conserved(s.flow, s.phases) && t in s.phases && s.phases[t].Waiting? && s.flow.queuedTotal > 0
    ensures Conserved(s.flow.Remove(s.phases[t].lane, t), s.phases[t := Gone])
  {
    hide Sum, Owned, OwnedAnywhere;
    OwnedAnywhereUpdate(s.phases, t, Gone);
    var g := s.flow.Remove(s.phases[t].lane, t);
    forall l: Lane ensures g.ActiveOf(l) == Sum(Owned(s.phases[t := Gone], l)) {
      OwnedUpdate(s.phases, t, Gone, l);
      assert s.flow.ActiveOf(l) == Sum(Owned(s.phases, l));
    }
  }

  lemma CancelQueues(s: System, t: Ticket)
    requires s.flow.WF() && QueuesWait(s.flow, s.phases) && t in s.phases && s.phases[t].Waiting?
    ensures s.flow.queuedTotal > 0 && QueuesWait(s.flow.Remove(s.phases[t].lane, t), s.phases[t := Gone])
  {
    hide Flow.WF, Flow.Remove;
    var lane := s.phases[t].lane;
    assert t in s.flow.QueueOf(lane);
    RemovedQueue(s.flow, lane, t, lane);
    var g, after := s.flow.Remove(lane, t), s.phases[t := Gone];
    forall u: Ticket, l: Lane ensures u in g.QueueOf(l) <==> u in after && after[u] == Waiting(l) {
      RemovedQueue(s.flow, lane, t, l);
      assert u in s.flow.QueueOf(l) <==> u in s.phases && s.phases[u] == Waiting(l);
    }
  }

  lemma CancelInOrder(s: System, t: Ticket)
    requires s.flow.WF() && QueuesWait(s.flow, s.phases) && t in s.phases && s.phases[t].Waiting?
    requires InOrder(s) && Numbered(s)
    ensures s.flow.queuedTotal > 0
    ensures var after := s.(flow := s.flow.Remove(s.phases[t].lane, t), phases := s.phases[t := Gone]);
      InOrder(after) && Numbered(after)
  {
    hide Flow.WF, Flow.Remove;
    var lane := s.phases[t].lane;
    assert t in s.flow.QueueOf(lane);
    RemovedQueue(s.flow, lane, t, lane);
    var after := s.(flow := s.flow.Remove(lane, t), phases := s.phases[t := Gone]);
    forall l: Lane ensures Increasing(after.ServedOf(l) + after.flow.QueueOf(l)) {
      RemovedQueue(s.flow, lane, t, l);
      assert Increasing(s.ServedOf(l) + s.flow.QueueOf(l));
      WithoutIncreasing(s.ServedOf(l), s.flow.QueueOf(l), t);
    }
    assert after.phases.Keys == s.phases.Keys;
    forall l: Lane ensures after.ServedOf(l) == s.ServedOf(l) { }
  }

  lemma CancelKeeps(s: System, t: Ticket)
    requires Inv(s)
    ensures Inv(DoCancel(s, t))
  {
    hide Flow.WF, Flow.Saturated, Conserved, QueuesWait, InOrder, Numbered;
    if t in s.phases {
      var p := match s.phases[t] case Granted(lane) => Refunding(lane) case Failed => Gone case other => other;
      if s.phases[t].Waiting? {
        CancelWaitingKeeps(s, t);
      } else if p != s.phases[t] {
        Rephase(s.flow, s.phases, t, p);
        RephaseRest(s, t, p);
      }
    }
  }

  lemma GiveBackConserved(s: System, t: Ticket)
    requires s.flow.WF() && Conserved(s.flow, s.phases) && t in s.phases && s.phases[t].HasCredit()
    ensures s.flow.ActiveOf(s.phases[t].lane) > 0
    ensures Conserved(s.flow.Deactivate(s.phases[t].lane), s.phases[t := Gone])
  {
    hide Sum, Owned, OwnedAnywhere, Flow.WF;
    var lane := s.phases[t].lane;
    OwnedAnywhereUpdate(s.phases, t, Gone);
    OwnedUpdate(s.phases, t, Gone, lane);
    assert s.flow.ActiveOf(lane) == Sum(Owned(s.phases, lane));
    var g := s.flow.Deactivate(lane);
    forall l: Lane ensures g.ActiveOf(l) == Sum(Owned(s.phases[t := Gone], l)) {
      OwnedUpdate(s.phases, t, Gone, l);
      assert s.flow.ActiveOf(l) == Sum(Owned(s.phases, l));
    }
  }

  lemma GiveBackQueues(f: Flow<Ticket>, phases: map<Ticket, Phase>, t: Ticket, lane: Lane)
    requires QueuesWait(f, phases) && t in phases && !phases[t].Waiting?
    ensures QueuesWait(f.Deactivate(lane), phases[t := Gone])
  {
    forall l: Lane ensures f.Deactivate(lane).QueueOf(l) == f.QueueOf(l) { }
  }

  /** A released credit goes to whoever is next, or back to the pool; after closing, to the pool. */
  lemma GiveBackKeeps(s: System, t: Ticket)
    requires Inv(s)
    ensures Inv(DoGiveBack(s, t))
  {
    hide Flow.WF, Flow.Saturated, Conserved, QueuesWait, InOrder, Numbered, Flow.Pump, GrantPhases, Flow.ActiveOf;
    if t in s.phases && (s.phases[t].Holding? || s.phases[t].Refunding?) {
      var lane := s.phases[t].lane;
      GiveBackConserved(s, t);
      GiveBackQueues(s.flow, s.phases, t, lane);
      Laws.DeactivateKeeps(s.flow, lane);
      RephaseRest(s, t, Gone);
      var mid := s.(flow := s.flow.Deactivate(lane), phases := s.phases[t := Gone]);
      DeactivatedInOrder(s.(phases := s.phases[t := Gone]), lane);
      if s.flow.closed {
        NothingToDeliver(mid);
        ClosedSaturated(mid.flow);
      } else {
        DeliverKeeps(mid);
      }
    }
  }

  lemma DeactivatedInOrder(s: System, lane: Lane)
    requires InOrder(s) && Numbered(s)
    ensures InOrder(s.(flow := s.flow.Deactivate(lane))) && Numbered(s.(flow := s.flow.Deactivate(lane)))
  {
    var after := s.(flow := s.flow.Deactivate(lane));
    forall l: Lane ensures after.flow.QueueOf(l) == s.flow.QueueOf(l) && after.ServedOf(l) == s.ServedOf(l) { }
  }

  lemma NothingToDeliver(s: System)
    ensures Deliver(s, Pumped(s.flow, [])) == s
  {
  }

  lemma ClosedSaturated(f: Flow<Ticket>)
    requires f.WF() && f.closed
    ensures f.Saturated()
  {
  }

  // ----- limits and closing

  lemma LimitKeeps(s: System, connection: Option<nat>, laneWindow: Option<nat>)
    requires Inv(s)
    ensures Inv(Deliver(s, s.flow.UpdateLimits(connection, laneWindow)))
  {
    hide Conserved, QueuesWait, InOrder, Numbered, Flow.Pump, GrantPhases, QueuesAddUp, CreditsAddUp, ListsQueues;
    var mid := s.(flow := s.flow.WithLimits(connection, laneWindow));
    LimitedRest(s, mid.flow);
    if s.flow.closed {
      NothingToDeliver(mid);
    } else {
      DeliverKeeps(mid);
    }
  }

  /** The other invariants do not mention the limits. */
  lemma LimitedRest(s: System, g: Flow<Ticket>)
    requires Conserved(s.flow, s.phases) && QueuesWait(s.flow, s.phases) && InOrder(s) && Numbered(s)
    requires g.active == s.flow.active && g.activeTotal == s.flow.activeTotal && g.queues == s.flow.queues
    ensures Conserved(g, s.phases) && QueuesWait(g, s.phases) && InOrder(s.(flow := g)) && Numbered(s.(flow := g))
  {
    hide Sum, Owned, OwnedAnywhere;
    forall l: Lane ensures g.QueueOf(l) == s.flow.QueueOf(l) && g.ActiveOf(l) == s.flow.ActiveOf(l) { }
    forall l: Lane ensures s.(flow := g).ServedOf(l) == s.ServedOf(l) { }
  }

  lemma FailedOwned(phases: map<Ticket, Phase>, lane: Lane)
    ensures Owned(FailWaiters(phases), lane) == Owned(phases, lane)
    ensures OwnedAnywhere(FailWaiters(phases)) == OwnedAnywhere(phases)
  {
  }

  lemma ShutConserved(f: Flow<Ticket>, phases: map<Ticket, Phase>)
    requires Conserved(f, phases)
    ensures Conserved(f.Close(), FailWaiters(phases))
  {
    hide Sum, Owned, OwnedAnywhere, FailWaiters;
    FailedOwned(phases, 0);
    forall l: Lane ensures f.Close().ActiveOf(l) == Sum(Owned(FailWaiters(phases), l)) {
      FailedOwned(phases, l);
      assert f.ActiveOf(l) == Sum(Owned(phases, l));
    }
  }

  lemma ShutInOrder(s: System)
    requires InOrder(s) && Numbered(s) && !s.flow.closed
    ensures var after := s.(flow := s.flow.Close(), phases := FailWaiters(s.phases)); InOrder(after) && Numbered(after)
  {
    var after := s.(flow := s.flow.Close(), phases := FailWaiters(s.phases));
    forall l: Lane ensures Increasing(after.ServedOf(l) + after.flow.QueueOf(l)) {
      var line := s.ServedOf(l) + s.flow.QueueOf(l);
      assert Increasing(line);
      assert after.ServedOf(l) + [] == line[..|s.ServedOf(l)|];
    }
    assert after.phases.Keys == s.phases.Keys;
    forall l: Lane ensures after.ServedOf(l) == s.ServedOf(l) { }
  }

  lemma ShutKeeps(s: System)
    requires Inv(s) && !s.flow.closed
    ensures Inv(s.(flow := s.flow.Close(), phases := FailWaiters(s.phases)))
  {
    hide Conserved, InOrder, Numbered, CreditsAddUp;
    ShutConserved(s.flow, s.phases);
    ShutInOrder(s);
    ClosedWF(s.flow);
  }

  lemma ClosedWF(f: Flow<Ticket>)
    requires f.WF() && !f.closed
    ensures f.Close().WF()
  {
    hide CreditsAddUp;
    assert Lengths(f.Close().queues) == map[];
  }

  // ----- every run

  lemma StepKeeps(s: System, a: Action)
    requires Inv(s)
    ensures Inv(Step(s, a))
  {
    hide Inv, DoEnter, DoObserve, DoCancel, DoGiveBack, Deliver, FailWaiters;
    match a
    case Enter(lane) => EnterKeeps(s, lane);
    case Observe(t) => ObserveKeeps(s, t);
    case Cancel(t) => CancelKeeps(s, t);
    case GiveBack(t) => GiveBackKeeps(s, t);
    case Limit(connection, laneWindow) => LimitKeeps(s, connection, laneWindow);
    case Shut => if !s.flow.closed { ShutKeeps(s); }
  }

  lemma InitialInv(limits: Limits)
    ensures Inv(Initial(limits))
  {
    hide Conserved, QueuesWait, InOrder, Numbered;
    var s := Initial(limits);
    assert Lengths(s.flow.queues) == map[];
    InitiallyConserved(s);
    InitiallyOrdered(s);
  }

  lemma InitiallyConserved(s: System)
    requires s.phases == map[] && s.flow.active == map[] && s.flow.activeTotal == 0
    ensures Conserved(s.flow, s.phases)
  {
    assert OwnedAnywhere(s.phases) == map[];
    forall l: Lane ensures s.flow.ActiveOf(l) == Sum(Owned(s.phases, l)) { assert Owned(s.phases, l) == map[]; }
  }

  lemma InitiallyOrdered(s: System)
    requires s.phases == map[] && s.next == 0 && s.served == map[] && s.flow.queues == map[]
    ensures QueuesWait(s.flow, s.phases) && InOrder(s) && Numbered(s)
  {
  }

  /**
    In every reachable state credits are conserved, the counters are the sums
    they stand for, no lane with a waiter has credit free, and every lane has
    been served in arrival order.
  */
  lemma {:induction false} RunKeeps(s: System, actions: seq<Action>)
    requires Inv(s)
    ensures Inv(Run(s, actions))
    decreases |actions|
  {
    hide Inv, Step;
    if actions != [] {
      StepKeeps(s, actions[0]);
      RunKeeps(Step(s, actions[0]), actions[1..]);
    }
  }

  lemma Reachable(limits: Limits, actions: seq<Action>)
    ensures Inv(Run(Initial(limits), actions))
  {
    hide Inv, Run, Initial;
    InitialInv(limits);
    RunKeeps(Initial(limits), actions);
  }
}
