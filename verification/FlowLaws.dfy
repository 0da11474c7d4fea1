/**
  What every operation of the flow controller keeps: the counters are the sums
  they stand for, and the controller stays saturated.

  Saturation is what makes the fast path of acquire fair: a lane with waiters
  never has a credit that a newcomer could take, so looking at the counters
  alone cannot overtake anybody.
*/
module FlowLaws {
  import opened MapSums
  import opened FlowSpec
  import opened Sequences
  import opened Results

  // ----- counters

  lemma ActivateKeeps(active: map<Lane, nat>, total: int, lane: Lane)
    requires CreditsAddUp(active, total)
    ensures CreditsAddUp(active[lane := (if lane in active then active[lane] else 0) + 1], total + 1)
  {
    hide Sum;
    SumUpdate(active, lane, (if lane in active then active[lane] else 0) + 1);
  }

  lemma DeactivateKeeps<W>(f: Flow<W>, lane: Lane)
    requires f.WF()
    ensures f.Deactivate(lane).WF()
    ensures f.ActiveOf(lane) > 0 ==> f.activeTotal > 0
  {
    hide Sum, QueuesAddUp, ListsQueues;
    if f.ActiveOf(lane) > 0 {
      SumWithout(f.active, lane);
      SumUpdate(f.active, lane, f.active[lane] - 1);
      SumAtLeast(f.active, lane);
    }
  }

  lemma EnqueueCounts<W>(queues: map<Lane, seq<W>>, total: nat, lane: Lane, w: W)
    requires QueuesAddUp(queues, total)
    requires lane in queues ==> w !in queues[lane]
    ensures QueuesAddUp(queues[lane := (if lane in queues then queues[lane] else []) + [w]], total + 1)
  {
    hide Sum;
    var before := if lane in queues then queues[lane] else [];
    SumUpdate(Lengths(queues), lane, |before| + 1);
    assert Lengths(queues[lane := before + [w]]) == Lengths(queues)[lane := |before| + 1];
  }

  lemma EnqueueKeeps<W>(f: Flow<W>, lane: Lane, w: W)
    requires f.WF() && !f.closed && w !in f.QueueOf(lane)
    ensures f.Enqueue(lane, w).WF()
  {
    hide QueuesAddUp, CreditsAddUp;
    EnqueueCounts(f.queues, f.queuedTotal, lane, w);
  }

  lemma ShrinkQueue<W>(queues: map<Lane, seq<W>>, total: nat, lane: Lane, rest: seq<W>)
    requires QueuesAddUp(queues, total) && lane in queues && |rest| == |queues[lane]| - 1 && Distinct(rest)
    ensures total > 0
    ensures QueuesAddUp(if rest == [] then queues - {lane} else queues[lane := rest], total - 1)
  {
    hide Sum;
    SumAtLeast(Lengths(queues), lane);
    if rest == [] {
      SumWithout(Lengths(queues), lane);
      assert Lengths(queues - {lane}) == Lengths(queues) - {lane};
    } else {
      SumUpdate(Lengths(queues), lane, |rest|);
      assert Lengths(queues[lane := rest]) == Lengths(queues)[lane := |rest|];
    }
  }

  lemma QueueFacts<W>(f: Flow<W>, lane: Lane)
    requires f.WF() && lane in f.queues
    ensures f.queuedTotal > 0 && f.queues[lane] != [] && Distinct(f.queues[lane])
  {
    hide Sum;
    SumAtLeast(Lengths(f.queues), lane);
  }

  lemma RemoveKeeps<W>(f: Flow<W>, lane: Lane, w: W)
    requires f.WF() && lane in f.queues && w in f.queues[lane]
    ensures f.queuedTotal > 0 && f.Remove(lane, w).WF()
  {
    hide QueuesAddUp, CreditsAddUp;
    QueueFacts(f, lane);
    WithoutDistinct(f.queues[lane], w);
    WithoutMembers(f.queues[lane], w);
    WithoutDistinct(f.ready, lane);
    WithoutMembers(f.ready, lane);
    ShrinkQueue(f.queues, f.queuedTotal, lane, Without(f.queues[lane], w));
  }

  lemma ListTurns<W>(ready: seq<Lane>, queues: map<Lane, seq<W>>, rest: seq<W>)
    requires ListsQueues(ready, queues) && ready != []
    ensures ListsQueues(ready[1..] + [ready[0]], queues)
    ensures ListsQueues(ready[1..] + [ready[0]], queues[ready[0] := rest])
    ensures ListsQueues(ready[1..], queues - {ready[0]})
  {
    assert ready == [ready[0]] + ready[1..];
    assert ready[0] !in ready[1..];
  }

  lemma RotateKeeps<W>(f: Flow<W>)
    requires f.WF() && f.ready != []
    ensures f.Rotate().WF()
  {
    hide QueuesAddUp, CreditsAddUp, ListsQueues;
    ListTurns(f.ready, f.queues, []);
  }

  lemma PopKeeps<W>(f: Flow<W>)
    requires f.WF() && f.HasFront() && !f.closed
    ensures f.PopFront().WF()
  {
    hide QueuesAddUp, CreditsAddUp, ListsQueues;
    var lane := f.ready[0];
    var rest := f.queues[lane][1..];
    QueueFacts(f, lane);
    ShrinkQueue(f.queues, f.queuedTotal, lane, rest);
    ListTurns(f.ready, f.queues, rest);
  }

  lemma ActivateKeepsFlow<W>(f: Flow<W>, lane: Lane)
    requires f.WF()
    ensures f.Activate(lane).WF()
  {
    hide QueuesAddUp, CreditsAddUp, ListsQueues;
    ActivateKeeps(f.active, f.activeTotal, lane);
  }

  lemma GrantKeeps<W>(f: Flow<W>)
    requires f.WF() && f.HasFront() && !f.closed
    ensures f.GrantFront().WF()
  {
    hide Flow.WF, Flow.PopFront, Flow.Activate;
    PopKeeps(f);
    ActivateKeepsFlow(f.PopFront(), f.ready[0]);
  }

  lemma FrontExists<W>(f: Flow<W>)
    requires f.WF() && f.ready != []
    ensures f.HasFront() && !f.closed
  {
    hide QueuesAddUp, CreditsAddUp;
    assert f.ready[0] in f.queues;
    QueueFacts(f, f.ready[0]);
  }

  lemma CloseKeeps<W>(f: Flow<W>)
    requires f.WF()
    ensures f.Close().WF()
  {
    hide CreditsAddUp, Sum;
    if !f.closed {
      assert Lengths(f.Close().queues) == map[];
      NothingToSum(Lengths(f.Close().queues));
    }
  }

  lemma NothingToSum(m: map<Lane, nat>)
    requires m == map[]
    ensures Sum(m) == 0
  {
  }

  // ----- what a pump does

  /** The waiters of one lane among the grants, in the order they were granted. */
  ghost function To<W>(grants: seq<Grant<W>>, lane: Lane): seq<W> {
    if grants == [] then []
    else (if grants[0].lane == lane then [grants[0].waiter] else []) + To(grants[1..], lane)
  }

  /** Nothing but queues, credits and the ready list differs. */
  ghost predicate SameLimits<W>(f: Flow<W>, g: Flow<W>) {
    g.limits == f.limits && g.laneLimit == f.laneLimit && g.closed == f.closed
  }

  /**
    From `f` to `g` exactly these grants were made: each lane served its own oldest
    waiters in order, and each grant took one credit of its lane and one of the
    connection.
  */
  ghost predicate Granted<W>(f: Flow<W>, grants: seq<Grant<W>>, g: Flow<W>) {
    && SameLimits(f, g)
    && (forall l :: f.QueueOf(l) == To(grants, l) + g.QueueOf(l))
    && (forall l :: g.ActiveOf(l) == f.ActiveOf(l) + |To(grants, l)|)
    && g.activeTotal == f.activeTotal + |grants|
  }

  /** The lanes after the first `attempts` of the ready list are at their limit. */
  ghost predicate TailBlocked<W>(f: Flow<W>, attempts: nat) {
    forall i :: attempts <= i < |f.ready| ==> f.ActiveOf(f.ready[i]) >= f.laneLimit
  }

  lemma BlockedIsSaturated<W>(f: Flow<W>)
    requires f.WF() && (TailBlocked(f, 0) || f.activeTotal >= f.limits.connection || f.ready == [])
    ensures f.Saturated()
  {
    hide QueuesAddUp, CreditsAddUp;
    forall l | l in f.queues ensures !f.CanAcquire(l) {
      assert l in f.ready;
      var i :| 0 <= i < |f.ready| && f.ready[i] == l;
    }
  }

  lemma GrantIsGranted<W>(f: Flow<W>)
    requires f.WF() && f.HasFront()
    ensures Granted(f, [f.FrontGrant()], f.GrantFront())
  {
    hide QueuesAddUp, CreditsAddUp, ListsQueues;
    var lane, grants := f.ready[0], [f.FrontGrant()];
    assert grants[1..] == [];
    forall l ensures To(grants, l) == if l == lane then [f.queues[lane][0]] else [] {
      assert To(grants[1..], l) == [];
    }
    assert f.queues[lane] == [f.queues[lane][0]] + f.queues[lane][1..];
  }

  /** A pass that grants nothing leaves the controller saturated; a grant was below both limits. */
  lemma {:induction false} PassLaw<W>(f: Flow<W>, attempts: nat)
    requires f.WF() && !f.closed && attempts <= |f.ready| && TailBlocked(f, attempts)
    ensures var p := f.Pass(attempts);
      && p.flow.WF() && !p.flow.closed
      && (p.grant.None? ==> Granted(f, [], p.flow) && p.flow.Saturated())
      && (p.grant.Some? ==> Granted(f, [p.grant.value], p.flow) && f.CanAcquire(p.grant.value.lane))
    decreases attempts
  {
    hide QueuesAddUp, CreditsAddUp, ListsQueues, Flow.Saturated, Flow.GrantFront;
    if f.ready != [] { FrontExists(f); }
    if attempts == 0 || f.activeTotal >= f.limits.connection || f.ready == [] {
      BlockedIsSaturated(f);
      NothingGranted(f);
    } else if f.ActiveOf(f.ready[0]) >= f.laneLimit {
      RotateKeeps(f);
      RotateBlocks(f, attempts);
      PassLaw(f.Rotate(), attempts - 1);
      RotatedGranted(f, f.Rotate().Pass(attempts - 1));
    } else {
      GrantKeeps(f);
      GrantIsGranted(f);
    }
  }

  lemma RotateBlocks<W>(f: Flow<W>, attempts: nat)
    requires f.ready != [] && 0 < attempts <= |f.ready| && TailBlocked(f, attempts)
    requires f.ActiveOf(f.ready[0]) >= f.laneLimit
    ensures TailBlocked(f.Rotate(), attempts - 1)
  {
    var g := f.Rotate();
    forall i | attempts - 1 <= i < |g.ready| ensures g.ActiveOf(g.ready[i]) >= g.laneLimit {
      if i < |f.ready| - 1 { assert g.ready[i] == f.ready[i + 1]; }
    }
  }

  lemma NothingGranted<W>(f: Flow<W>)
    ensures Granted(f, [], f)
  {
    forall l ensures f.QueueOf(l) == To([], l) + f.QueueOf(l) { }
  }

  lemma RotatedGranted<W>(f: Flow<W>, p: Passed<W>)
    requires f.ready != []
    ensures forall grants :: Granted(f.Rotate(), grants, p.flow) ==> Granted(f, grants, p.flow)
    ensures forall l :: f.Rotate().CanAcquire(l) == f.CanAcquire(l)
  {
    forall l ensures f.Rotate().QueueOf(l) == f.QueueOf(l) && f.Rotate().ActiveOf(l) == f.ActiveOf(l) { }
  }

  lemma GrantedThen<W>(f: Flow<W>, first: Grant<W>, g: Flow<W>, rest: seq<Grant<W>>, h: Flow<W>)
    requires Granted(f, [first], g) && Granted(g, rest, h)
    ensures Granted(f, [first] + rest, h)
  {
    hide To, Flow.QueueOf, Flow.ActiveOf;
    var all := [first] + rest;
    forall l
      ensures f.QueueOf(l) == To(all, l) + h.QueueOf(l)
      ensures h.ActiveOf(l) == f.ActiveOf(l) + |To(all, l)|
    {
      ToSplit(first, rest, l);
      assert To([first], l) + (To(rest, l) + h.QueueOf(l)) == To([first], l) + To(rest, l) + h.QueueOf(l);
    }
  }

  lemma ToSplit<W>(first: Grant<W>, rest: seq<Grant<W>>, lane: Lane)
    ensures To([first] + rest, lane) == To([first], lane) + To(rest, lane)
  {
    assert ([first] + rest)[1..] == rest && [first][1..] == [];
  }

  /** Every grant is made strictly below both limits in force. */
  ghost predicate WithinLimits<W>(grants: seq<Grant<W>>, g: Flow<W>) {
    grants != [] ==>
      && g.activeTotal <= g.limits.connection
      && forall i :: 0 <= i < |grants| ==> g.ActiveOf(grants[i].lane) <= g.laneLimit
  }

  /** Pumping re-establishes saturation, serving every lane first-in first-out below both limits. */
  lemma {:induction false} PumpLaw<W>(f: Flow<W>)
    requires f.WF() && !f.closed
    ensures var p := f.Pump();
      && p.flow.WF() && p.flow.Saturated()
      && Granted(f, p.grants, p.flow)
      && WithinLimits(p.grants, p.flow)
    decreases f.queuedTotal
  {
    hide QueuesAddUp, CreditsAddUp, ListsQueues, Flow.Saturated, Flow.Pass, Granted, Flow.WF, Flow.ActiveOf, WithinLimits;
    if f.activeTotal >= f.limits.connection || f.ready == [] {
      BlockedIsSaturated(f);
      NothingGranted(f);
      NoGrantsWithin(f);
    } else {
      PassLaw(f, |f.ready|);
      f.PassQueued(|f.ready|);
      var pass := f.Pass(|f.ready|);
      if pass.grant.Some? {
        PumpLaw(pass.flow);
        var rest := pass.flow.Pump();
        GrantedThen(f, pass.grant.value, pass.flow, rest.grants, rest.flow);
        StaysWithin(f, pass.grant.value, pass.flow, rest.grants, rest.flow);
      } else {
        NoGrantsWithin(pass.flow);
      }
    }
  }

  lemma NoGrantsWithin<W>(g: Flow<W>)
    ensures WithinLimits([], g)
  {
  }

  lemma StaysWithin<W>(f: Flow<W>, first: Grant<W>, g: Flow<W>, rest: seq<Grant<W>>, h: Flow<W>)
    requires Granted(f, [first], g) && f.CanAcquire(first.lane)
    requires Granted(g, rest, h) && WithinLimits(rest, h)
    ensures WithinLimits([first] + rest, h)
  {
    var all := [first] + rest;
    assert [first][1..] == [];
    assert To([first], first.lane) == [first.waiter] + To([first][1..], first.lane);
    if rest != [] {
      forall i | 0 <= i < |all| ensures h.ActiveOf(all[i].lane) <= h.laneLimit {
        if i > 0 {
          assert all[i] == rest[i - 1];
        } else {
          GrantedOrSame(g, first.lane, rest, h);
        }
      }
    }
  }

  /** A lane that got none of the grants has the credits it had. */
  lemma {:induction false} GrantedOrSame<W>(g: Flow<W>, lane: Lane, grants: seq<Grant<W>>, h: Flow<W>)
    requires Granted(g, grants, h)
    ensures h.ActiveOf(lane) == g.ActiveOf(lane) || exists i :: 0 <= i < |grants| && grants[i].lane == lane
  {
    if forall i :: 0 <= i < |grants| ==> grants[i].lane != lane {
      ToNobody(grants, lane);
    }
  }

  lemma {:induction false} ToNobody<W>(grants: seq<Grant<W>>, lane: Lane)
    requires forall i :: 0 <= i < |grants| ==> grants[i].lane != lane
    ensures To(grants, lane) == []
  {
    if grants != [] { ToNobody(grants[1..], lane); }
  }
}
