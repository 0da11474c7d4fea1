/**
  The credit flow controller: counters, maps, intrusive queues and the ready
  list, updated in place. Each method here is one mutex-protected section.

  `flow` is the controller's abstract value. Every method says which operation of
  `FlowSpec` it performs on it, and `Valid` ties it to the heap; fairness,
  conservation and saturation are proved about that value.
*/
module FlowController {
  import opened FlowSpec
  import opened Sequences
  import opened FlowQueue
  import opened Results
  import Laws = FlowLaws

  datatype FlowError = Closed | LaneQueueClosed | NoInflightCredit | QueueFull

  const DEFAULT_CONNECTION_CREDITS: nat := 4096
  const DEFAULT_LANE_CREDITS: nat := 1024
  const DEFAULT_LANE_QUEUE: nat := 1024
  const DEFAULT_QUEUED_REQUESTS: nat := 65536

  /** The outcome of acquire's first half. */
  datatype Entered = Admitted | Refused(error: FlowError) | Queued(waiter: Waiter)

  class Controller {
    var connectionLimit: nat
    var laneWindowLimit: nat
    var laneQueueLimit: nat
    var laneLimit: nat
    var maxQueued: nat
    var activeTotal: int
    var activeByLane: map<Lane, nat>
    var queues: map<Lane, LaneQueue>
    var ready: seq<Lane>
    var queuedTotal: int
    var closed: bool
    ghost var flow: Flow<Waiter>

    /** The fields are those of the abstract value. */
    ghost predicate Mirrors()
      reads this
    {
      && flow.WF()
      && queuedTotal >= 0
      && flow == Flow(
        Limits(connectionLimit, laneWindowLimit, laneQueueLimit, maxQueued), laneLimit,
        activeByLane, activeTotal, flow.queues, ready, queuedTotal, closed)
    }

    ghost predicate Valid()
      reads this, QueueSet(queues), WaiterSet(flow.queues)
    {
      Mirrors() && LanesOk(queues, flow.queues)
    }

    constructor (connection: int, lane: int, queue: int, queued: Option<int>)
      ensures Valid()
      ensures flow.limits == Limits(
        if connection < 0 then DEFAULT_CONNECTION_CREDITS else connection,
        if lane < 0 then DEFAULT_LANE_CREDITS else lane,
        if queue < 0 then DEFAULT_LANE_QUEUE else queue,
        if queued.None? then DEFAULT_QUEUED_REQUESTS else if queued.value < 0 then 0 else queued.value)
      ensures flow.activeTotal == 0 && flow.queues == map[] && !flow.closed && flow.Saturated()
      ensures IsLeast(laneLimit, laneWindowLimit, laneQueueLimit)
    {
      var c, w := if connection < 0 then DEFAULT_CONNECTION_CREDITS else connection, if lane < 0 then DEFAULT_LANE_CREDITS else lane;
      var q, m := if queue < 0 then DEFAULT_LANE_QUEUE else queue, DEFAULT_QUEUED_REQUESTS;
      if queued.Some? {
        m := if queued.value < 0 then 0 else queued.value;
      }
      connectionLimit, laneWindowLimit, laneQueueLimit, maxQueued := c, w, q, m;
      laneLimit := if w < q then w else q;
      activeTotal, activeByLane, queues, ready, queuedTotal, closed := 0, map[], map[], [], 0, false;
      flow := Flow(Limits(c, w, q, m), if w < q then w else q, map[], 0, map[], [], 0, false);
      new;
      assert Lengths(flow.queues) == map[];
    }

    function CanAcquire(lane: Lane): (can: bool)
      reads this
    {
      activeTotal < connectionLimit && ActiveOf(lane) < laneLimit
    }

    function ActiveOf(lane: Lane): nat
      reads this
    {
      if lane in activeByLane then activeByLane[lane] else 0
    }

    /** The queue counters and the ready list after the front lane lost its oldest waiter. */
    method TurnFront(left: map<Lane, LaneQueue>)
      requires Mirrors() && flow.HasFront() && !closed
      requires left == if flow.queues[ready[0]][1..] == [] then queues - {ready[0]} else queues
      requires ready[0] in queues && queues.Keys == flow.queues.Keys
      modifies this`queues, this`ready, this`queuedTotal, this`flow
      ensures Mirrors() && flow == old(flow).PopFront() && queues == left
    {
      hide Flow.WF, Flow.PopFront, Flow.HasFront, LanesOk;
      ghost var next := flow.PopFront();
      Laws.PopKeeps(flow);
      PopFields(flow);
      var lane := ready[0];
      var turned := if lane in left then ready[1..] + [lane] else ready[1..];
      flow, ready, queues, queuedTotal := next, turned, left, queuedTotal - 1;
    }

    method Activate(lane: Lane)
      requires Mirrors()
      modifies this`activeTotal, this`activeByLane, this`flow
      ensures Mirrors() && flow == old(flow).Activate(lane)
    {
      hide Flow.WF, LanesOk;
      Laws.ActivateKeepsFlow(flow, lane);
      activeTotal, activeByLane := activeTotal + 1, activeByLane[lane := ActiveOf(lane) + 1];
      flow := flow.Activate(lane);
    }

    /** Changing the controller's own fields does not disturb the lanes. */
    method TakeCredit(lane: Lane, left: map<Lane, LaneQueue>, ghost lines: map<Lane, seq<Waiter>>)
      requires Mirrors() && flow.HasFront() && !closed && LanesOk(left, lines)
      requires left == if flow.queues[ready[0]][1..] == [] then queues - {ready[0]} else queues
      requires ready != [] && lane == ready[0] == flow.ready[0] && lane in queues && queues.Keys == flow.queues.Keys
      modifies this`queues, this`ready, this`queuedTotal, this`flow, this`activeTotal, this`activeByLane
      ensures Mirrors() && flow == old(flow).GrantFront() && queues == left && LanesOk(left, lines)
    {
      hide Flow.WF, Flow.PopFront, Flow.Activate, Controller.Mirrors;
      TurnFront(left);
      Activate(lane);
    }

    /** Grant a credit to the oldest waiter of the front lane, and turn or drop the lane. */
    method GrantFront() returns (waiter: Waiter)
      requires Valid() && flow.HasFront() && !closed
      modifies this`queues, this`ready, this`queuedTotal, this`flow, this`activeTotal, this`activeByLane
      modifies QueueSet(queues), WaiterSet(flow.queues)
      ensures Valid() && flow == old(flow).GrantFront()
      ensures waiter == old(flow.FrontGrant().waiter) && waiter.WasGranted() && waiter in WaiterSet(old(flow.queues))
      ensures WaiterSet(flow.queues) <= WaiterSet(old(flow.queues)) - {waiter}
      ensures QueueSet(queues) <= QueueSet(old(queues))
    {
      hide Controller.Mirrors, Flow.WF, Flow.PopFront, Flow.HasFront, LanesOk, QueueSet, WaiterSet;
      PopFields(flow);
      FrontFacts();
      var lane := ready[0];
      ghost var lines := flow.queues;
      SetsOf(queues, lines, lane);
      var left;
      waiter, left := GrantLane(queues, lines, lane);
      TakeCredit(lane, left, flow.PopFront().queues);
    }

    lemma FrontFacts()
      requires Valid() && flow.HasFront()
      ensures ready == flow.ready && queues.Keys == flow.queues.Keys
      ensures ready[0] in queues && flow.queues[ready[0]] != [] && Distinct(flow.queues[ready[0]])
      ensures queues[ready[0]].ready && queues[ready[0]].waiting > 0
    {
      Laws.QueueFacts(flow, ready[0]);
      assert LaneOk(queues[ready[0]], flow.queues[ready[0]]);
    }

    /** The front lane is at its limit: it goes to the back of the ready list. */
    method TurnBlocked()
      requires Mirrors() && ready != []
      modifies this`ready, this`flow
      ensures Mirrors() && flow == old(flow).Rotate()
    {
      hide Flow.WF, LanesOk;
      Laws.RotateKeeps(flow);
      flow := flow.Rotate();
      ready := ready[1..] + [ready[0]];
    }

    method Rotate()
      requires Valid() && ready != []
      modifies this`ready, this`flow
      ensures Valid() && flow == old(flow).Rotate()
    {
      hide Flow.WF, Controller.Mirrors;
      TurnBlocked();
    }

    /** One pass over the ready list. The stale entries that it guards against never occur. */
    method Pass() returns (granted: bool, ghost grant: Option<Grant<Waiter>>)
      requires Valid() && !closed && ready != []
      modifies this`queues, this`ready, this`queuedTotal, this`flow, this`activeTotal, this`activeByLane
      modifies QueueSet(queues), WaiterSet(flow.queues)
      ensures Valid() && !closed && QueueSet(queues) <= QueueSet(old(queues))
      ensures Passed(flow, grant) == old(flow.Pass(|flow.ready|)) && granted == grant.Some?
      ensures grant.None? ==> WaiterSet(flow.queues) <= WaiterSet(old(flow.queues))
      ensures grant.Some?
        ==> && grant.value.waiter.WasGranted() && grant.value.waiter in WaiterSet(old(flow.queues))
            && WaiterSet(flow.queues) <= WaiterSet(old(flow.queues)) - {grant.value.waiter}
    {
      hide LanesOk, Flow.WF, Flow.GrantFront, Flow.HasFront, Flow.FrontGrant, WaiterSet, QueueSet;
      ghost var lines := flow.queues;
      var attempts: nat := |ready|;
      while attempts > 0 && activeTotal < connectionLimit
        invariant Valid() && !closed && attempts <= |ready| && ready != []
        invariant queues == old(queues) && flow.queues == lines
        invariant flow.Pass(attempts) == old(flow.Pass(|flow.ready|))
        decreases attempts
      {
        attempts := attempts - 1;
        var lane := ready[0];
        Laws.FrontExists(flow);
        FrontFacts();
        if lane !in queues || !queues[lane].ready || queues[lane].waiting == 0 {
          assert false;
        }
        if ActiveOf(lane) >= laneLimit {
          Rotate();
          continue;
        }
        grant := Some(flow.FrontGrant());
        var waiter := GrantFront();
        return true, grant;
      }
      PassStops(flow, attempts);
      return false, None;
    }

    /** Grant until the connection is full, nobody waits, or a whole pass grants nothing. */
    method Pump() returns (ghost grants: seq<Grant<Waiter>>)
      requires Valid() && !closed
      modifies this`queues, this`ready, this`queuedTotal, this`flow, this`activeTotal, this`activeByLane
      modifies QueueSet(queues), WaiterSet(flow.queues)
      ensures Valid() && flow == old(flow).Pump().flow && grants == old(flow).Pump().grants
      ensures forall i :: 0 <= i < |grants| ==> grants[i].waiter.WasGranted()
    {
      hide LanesOk, Flow.WF, Flow.Pass, Flow.Pump, WaiterSet, QueueSet;
      grants := [];
      while !closed && activeTotal < connectionLimit && |ready| > 0
        invariant Valid() && !closed
        invariant QueueSet(queues) <= QueueSet(old(queues)) && WaiterSet(flow.queues) <= WaiterSet(old(flow.queues))
        invariant flow.Pump().flow == old(flow).Pump().flow
        invariant grants + flow.Pump().grants == old(flow).Pump().grants
        invariant forall i :: 0 <= i < |grants| ==> grants[i].waiter.WasGranted() && grants[i].waiter !in WaiterSet(flow.queues)
        decreases queuedTotal
      {
        PumpStep(flow);
        var granted, grant := Pass();
        if !granted {
          return;
        }
        grants := grants + [grant.value];
      }
      PumpStops(flow);
    }

    // ----- release

    method DropCredit(lane: Lane)
      requires Mirrors() && ActiveOf(lane) > 0
      modifies this`activeTotal, this`activeByLane, this`flow
      ensures Mirrors() && flow == old(flow).Deactivate(lane)
    {
      hide Flow.WF, LanesOk;
      Laws.DeactivateKeeps(flow, lane);
      var held := ActiveOf(lane);
      activeTotal := activeTotal - 1;
      if held == 1 {
        activeByLane := activeByLane - {lane};
      } else {
        activeByLane := activeByLane[lane := held - 1];
      }
      flow := flow.Deactivate(lane);
    }

    method ReturnCredit(lane: Lane)
      requires Valid() && ActiveOf(lane) > 0
      modifies this`activeTotal, this`activeByLane, this`flow
      ensures Valid() && flow == old(flow).Deactivate(lane)
    {
      hide Flow.WF, Controller.Mirrors;
      DropCredit(lane);
    }

    /** A credit of the lane comes back, and whoever may use it is granted it. */
    method Release(lane: Lane) returns (ghost grants: seq<Grant<Waiter>>)
      requires Valid()
      modifies this`queues, this`ready, this`queuedTotal, this`flow, this`activeTotal, this`activeByLane
      modifies QueueSet(queues), WaiterSet(flow.queues)
      ensures Valid() && Pumped(flow, grants) == old(flow).Release(lane)
      ensures forall i :: 0 <= i < |grants| ==> grants[i].waiter.WasGranted()
    {
      hide LanesOk, Flow.WF, Flow.Pump, WaiterSet, QueueSet;
      if ActiveOf(lane) <= 0 {
        return [];
      }
      ReturnCredit(lane);
      grants := [];
      if !closed {
        grants := Pump();
      }
    }

    // ----- changing limits

    method SetLimits(connection: Option<int>, laneWindow: Option<int>)
      requires Mirrors()
      modifies this`connectionLimit, this`laneWindowLimit, this`laneLimit, this`flow
      ensures Mirrors() && flow == old(flow).WithLimits(Usable(connection), Usable(laneWindow))
    {
      hide CreditsAddUp, QueuesAddUp, ListsQueues, LanesOk;
      if connection.Some? && connection.value >= 0 {
        connectionLimit := connection.value;
      }
      if laneWindow.Some? && laneWindow.value >= 0 {
        laneWindowLimit := laneWindow.value;
      }
      laneLimit := if laneWindowLimit < laneQueueLimit then laneWindowLimit else laneQueueLimit;
      flow := flow.WithLimits(Usable(connection), Usable(laneWindow));
    }

    method ChangeLimits(connection: Option<int>, laneWindow: Option<int>)
      requires Valid()
      modifies this`connectionLimit, this`laneWindowLimit, this`laneLimit, this`flow
      ensures Valid() && flow == old(flow).WithLimits(Usable(connection), Usable(laneWindow))
    {
      hide Flow.WF, Controller.Mirrors;
      SetLimits(connection, laneWindow);
    }

    /** The server advertised new limits; negative ones are ignored. */
    method UpdateLimits(connection: Option<int>, laneWindow: Option<int>) returns (ghost grants: seq<Grant<Waiter>>)
      requires Valid()
      modifies this, QueueSet(queues), WaiterSet(flow.queues)
      ensures Valid() && Pumped(flow, grants) == old(flow).UpdateLimits(Usable(connection), Usable(laneWindow))
      ensures forall i :: 0 <= i < |grants| ==> grants[i].waiter.WasGranted()
      ensures LimitsSet(old(flow.limits), flow.limits, connection, laneWindow)
      ensures IsLeast(laneLimit, laneWindowLimit, laneQueueLimit)
    {
      hide LanesOk, Flow.WF, Flow.Pump, WaiterSet, QueueSet;
      ChangeLimits(connection, laneWindow);
      LaneIsLeast(flow);
      if !closed { PumpKeepsLimits(flow); }
      grants := [];
      if !closed {
        grants := Pump();
      }
    }

    // ----- acquire

    method Admit(lane: Lane)
      requires Valid()
      modifies this`activeTotal, this`activeByLane, this`flow
      ensures Valid() && flow == old(flow).Activate(lane)
    {
      hide Flow.WF, Controller.Mirrors;
      Activate(lane);
    }

    method CountIn(lane: Lane, waiter: Waiter, after: map<Lane, LaneQueue>)
      requires Mirrors() && !closed && waiter !in flow.QueueOf(lane) && queues.Keys == flow.queues.Keys
      modifies this`queues, this`ready, this`queuedTotal, this`flow
      ensures Mirrors() && flow == old(flow).Enqueue(lane, waiter) && queues == after
    {
      hide Flow.WF, LanesOk;
      Laws.EnqueueKeeps(flow, lane, waiter);
      if lane !in queues {
        ready := ready + [lane];
      }
      queues := after;
      queuedTotal := queuedTotal + 1;
      flow := flow.Enqueue(lane, waiter);
    }

    method TakePlace(lane: Lane, waiter: Waiter, after: map<Lane, LaneQueue>)
      requires Mirrors() && !closed && waiter !in flow.QueueOf(lane) && queues.Keys == flow.queues.Keys
      requires LanesOk(after, flow.queues[lane := flow.QueueOf(lane) + [waiter]])
      modifies this`queues, this`ready, this`queuedTotal, this`flow
      ensures Valid() && flow == old(flow).Enqueue(lane, waiter) && queues == after
    {
      hide Flow.WF, Controller.Mirrors;
      CountIn(lane, waiter, after);
    }

    lemma NotQueued(lane: Lane, waiter: Waiter)
      requires waiter !in WaiterSet(flow.queues)
      ensures waiter !in flow.QueueOf(lane)
    {
    }

    method Queue(lane: Lane) returns (waiter: Waiter)
      requires Valid() && !closed
      modifies this`queues, this`ready, this`queuedTotal, this`flow
      modifies QueueSet(queues), WaiterSet(flow.queues)
      ensures Valid() && fresh(waiter) && waiter.Unsettled() && flow == old(flow).Enqueue(lane, waiter)
    {
      hide LanesOk, Flow.WF, QueueSet, WaiterSet;
      var after;
      SameLanes(queues, flow.queues);
      waiter, after := JoinLane(queues, flow.queues, lane);
      NotQueued(lane, waiter);
      TakePlace(lane, waiter, after);
    }

    /**
      The first half of acquire. The credits alone decide whether a newcomer is
      admitted; the queues are not looked at.
    */
    method Enter(lane: Lane) returns (entered: Entered)
      requires Valid()
      modifies this`queues, this`ready, this`queuedTotal, this`flow, this`activeTotal, this`activeByLane
      modifies QueueSet(queues), WaiterSet(flow.queues)
      ensures Valid()
      ensures EnteredFrom(old(flow), flow, lane, entered)
      ensures entered.Queued? ==> fresh(entered.waiter) && entered.waiter.Unsettled()
    {
      hide LanesOk, Flow.WF, QueueSet, WaiterSet;
      LaneIsLeast(flow);
      if closed {
        return Refused(Closed);
      }
      if laneQueueLimit == 0 {
        return Refused(LaneQueueClosed);
      }
      if connectionLimit == 0 || laneLimit == 0 {
        return Refused(NoInflightCredit);
      }
      if CanAcquire(lane) {
        Admit(lane);
        return Admitted;
      }
      if queuedTotal >= maxQueued {
        return Refused(QueueFull);
      }
      var waiter := Queue(lane);
      return Queued(waiter);
    }

    // ----- giving up

    method CountAway(lane: Lane, waiter: Waiter, left: map<Lane, LaneQueue>)
      requires Mirrors() && lane in flow.queues && waiter in flow.queues[lane]
      requires lane in left <==> Without(flow.queues[lane], waiter) != []
      modifies this`queues, this`ready, this`queuedTotal, this`flow
      ensures Mirrors() && old(flow).queuedTotal > 0 && flow == old(flow).Remove(lane, waiter) && queues == left
    {
      hide Flow.WF, LanesOk, Without;
      Laws.RemoveKeeps(flow, lane, waiter);
      if lane !in left {
        ready := Without(ready, lane);
      }
      queues := left;
      queuedTotal := queuedTotal - 1;
      flow := flow.Remove(lane, waiter);
    }

    method LeavePlace(lane: Lane, waiter: Waiter, left: map<Lane, LaneQueue>)
      requires Mirrors() && lane in flow.queues && waiter in flow.queues[lane]
      requires var rest := Without(flow.queues[lane], waiter);
        && (lane in left <==> rest != [])
        && LanesOk(left, if rest == [] then flow.queues - {lane} else flow.queues[lane := rest])
      modifies this`queues, this`ready, this`queuedTotal, this`flow
      ensures Valid() && old(flow).queuedTotal > 0 && flow == old(flow).Remove(lane, waiter)
    {
      hide Flow.WF, Controller.Mirrors, Without;
      CountAway(lane, waiter, left);
    }

    lemma QueuedFacts(lane: Lane, waiter: Waiter)
      requires Valid() && lane in flow.queues && waiter in flow.queues[lane]
      ensures lane in queues && waiter.queue == queues[lane] && queues[lane].waiting > 0
      ensures Distinct(flow.queues[lane]) && waiter.Unsettled()
    {
      Laws.QueueFacts(flow, lane);
      assert LaneOk(queues[lane], flow.queues[lane]);
      OwnerOf(queues[lane], flow.queues[lane], waiter);
    }

    /** A waiter that has not settled leaves its queue. The stale cases it guards against never occur. */
    method RemoveQueued(lane: Lane, waiter: Waiter)
      requires Valid() && lane in flow.queues && waiter in flow.queues[lane]
      modifies this`queues, this`ready, this`queuedTotal, this`flow
      modifies QueueSet(queues), WaiterSet(flow.queues)
      ensures Valid() && old(flow).queuedTotal > 0 && flow == old(flow).Remove(lane, waiter)
      ensures waiter.settled && !waiter.granted && !waiter.failed && !waiter.signalled
    {
      hide LanesOk, Flow.WF, QueueSet, WaiterSet, Without;
      QueuedFacts(lane, waiter);
      SetsOf(queues, flow.queues, lane);
      if waiter.queue == null || lane !in queues || waiter.queue != queues[lane] || queues[lane].waiting <= 0 {
        assert false;
      }
      var left := DropFromLane(queues, flow.queues, lane, waiter);
      LeavePlace(lane, waiter, left);
    }

    /**
      The second half of acquire when its caller gives up: a waiter still queued
      leaves its lane; one that was granted meanwhile gives the credit back.
    */
    method Cancel(lane: Lane, waiter: Waiter) returns (ghost grants: seq<Grant<Waiter>>)
      requires Valid() && (waiter.settled || (lane in flow.queues && waiter in flow.queues[lane]))
      modifies this`queues, this`ready, this`queuedTotal, this`flow, this`activeTotal, this`activeByLane
      modifies QueueSet(queues), WaiterSet(flow.queues)
      ensures Valid()
      ensures old(waiter.settled && waiter.granted) ==> Pumped(flow, grants) == old(flow).Release(lane)
      ensures old(waiter.settled && !waiter.granted) ==> flow == old(flow) && grants == []
      ensures old(!waiter.settled)
        ==> && old(flow).queuedTotal > 0 && flow == old(flow).Remove(lane, waiter) && grants == []
            && waiter.settled && !waiter.granted && !waiter.signalled
      ensures forall i :: 0 <= i < |grants| ==> grants[i].waiter.WasGranted()
    {
      hide LanesOk, Flow.WF, QueueSet, WaiterSet, Flow.Pump, Without, Flow.Remove, Flow.Release;
      grants := [];
      if !waiter.settled {
        RemoveQueued(lane, waiter);
        return;
      }
      if waiter.granted {
        grants := Release(lane);
      }
    }

    // ----- closing

    method Clear()
      requires Mirrors() && !closed
      modifies this`queues, this`ready, this`queuedTotal, this`closed, this`flow
      ensures Valid() && closed && flow == old(flow).Close()
    {
      hide Flow.WF, LanesOk;
      Laws.CloseKeeps(flow);
      closed := true;
      queues := map[];
      ready := [];
      queuedTotal := 0;
      flow := flow.Close();
      NoLanes();
    }

    lemma NoLanes()
      ensures LanesOk(map[], map[])
    {
    }

    method Finish(ghost failed: set<Waiter>)
      requires Mirrors() && !closed && AllFailed(failed)
      modifies this`queues, this`ready, this`queuedTotal, this`closed, this`flow
      ensures Valid() && closed && flow == old(flow).Close() && AllFailed(failed)
    {
      hide Flow.WF, Controller.Mirrors, Flow.Close, LanesOk;
      Clear();
    }

    lemma AllDistinct()
      requires Valid()
      ensures forall l :: l in flow.queues ==> Distinct(flow.queues[l])
    {
      forall l | l in flow.queues ensures Distinct(flow.queues[l]) { Laws.QueueFacts(flow, l); }
    }

    /** Every waiter fails, once; nobody is queued afterwards. */
    method Close()
      requires Valid()
      modifies this`queues, this`ready, this`queuedTotal, this`closed, this`flow
      modifies WaiterSet(flow.queues)
      ensures Valid() && closed && flow == old(flow).Close()
      ensures !old(closed) ==> AllFailed(WaiterSet(old(flow.queues)))
    {
      hide LanesOk, Flow.WF, QueueSet, WaiterSet, Distinct, Flow.Close, AllFailed;
      if closed {
        CloseAgain(flow);
        return;
      }
      AllDistinct();
      ghost var lines := flow.queues;
      FailLanes(queues, lines);
      Finish(WaiterSet(lines));
    }
  }

  lemma CloseAgain(f: Flow<Waiter>)
    requires f.closed
    ensures f.Close() == f
  {
  }

  function Usable(limit: Option<int>): (u: Option<nat>)
    ensures u.Some? <==> limit.Some? && limit.value >= 0
    ensures u.Some? ==> limit == Some(u.value)
  {
    if limit.Some? && limit.value >= 0 then Some(limit.value) else None
  }

  /** What the first half of acquire comes to, in the order in which it looks at the limits. */
  ghost predicate EnteredFrom(was: Flow<Waiter>, now: Flow<Waiter>, lane: Lane, entered: Entered) {
    var l := was.limits;
    if was.closed then entered == Refused(Closed) && now == was
    else if l.laneQueue == 0 then entered == Refused(LaneQueueClosed) && now == was
    else if l.connection == 0 || l.laneWindow == 0 then entered == Refused(NoInflightCredit) && now == was
    else if was.activeTotal < l.connection && was.ActiveOf(lane) < l.laneWindow && was.ActiveOf(lane) < l.laneQueue then
      && entered == Admitted
      && now == was.(activeTotal := was.activeTotal + 1, active := was.active[lane := was.ActiveOf(lane) + 1])
    else if was.queuedTotal >= l.maxQueued then entered == Refused(QueueFull) && now == was
    else
      && entered.Queued?
      && now == was.(
        queues := was.queues[lane := was.QueueOf(lane) + [entered.waiter]],
        ready := if lane in was.queues then was.ready else was.ready + [lane],
        queuedTotal := was.queuedTotal + 1)
  }

  predicate IsLeast(n: nat, a: nat, b: nat) {
    n <= a && n <= b && (n == a || n == b)
  }

  /** The lane limit is the smaller of the lane window and the lane queue. */
  lemma LaneIsLeast(f: Flow<Waiter>)
    requires f.WF()
    ensures IsLeast(f.laneLimit, f.limits.laneWindow, f.limits.laneQueue)
  {
    hide CreditsAddUp, QueuesAddUp, ListsQueues;
  }

  /** Every limit that was given and is not negative is in force, the others are as before. */
  ghost predicate LimitsSet(was: Limits, now: Limits, connection: Option<int>, laneWindow: Option<int>) {
    && now.connection == (if connection.Some? && connection.value >= 0 then connection.value else was.connection)
    && now.laneWindow == (if laneWindow.Some? && laneWindow.value >= 0 then laneWindow.value else was.laneWindow)
    && now.laneQueue == was.laneQueue && now.maxQueued == was.maxQueued
  }

  lemma PumpKeepsLimits(f: Flow<Waiter>)
    requires f.WF() && !f.closed
    ensures f.Pump().flow.limits == f.limits
  {
    hide Flow.WF, Flow.Pump, Flow.Saturated;
    Laws.PumpLaw(f);
  }

  lemma PumpStep(f: Flow<Waiter>)
    requires !f.closed && f.activeTotal < f.limits.connection && f.ready != []
    ensures var pass := f.Pass(|f.ready|);
      match pass.grant
      case None => f.Pump() == Pumped(pass.flow, [])
      case Some(g) =>
        && pass.flow.queuedTotal < f.queuedTotal
        && f.Pump() == Pumped(pass.flow.Pump().flow, [g] + pass.flow.Pump().grants)
  {
    f.PassQueued(|f.ready|);
  }

  lemma PumpStops(f: Flow<Waiter>)
    requires f.closed || f.activeTotal >= f.limits.connection || f.ready == []
    ensures f.Pump() == Pumped(f, [])
  {
  }

  lemma PassStops(f: Flow<Waiter>, attempts: nat)
    requires attempts <= |f.ready| && (attempts == 0 || f.activeTotal >= f.limits.connection)
    ensures f.Pass(attempts) == Passed(f, None)
  {
  }

  lemma PopFields(f: Flow<Waiter>)
    requires f.HasFront()
    ensures var g, lane := f.PopFront(), f.ready[0];
      && f.ready != [] && lane in f.queues && f.queues[lane] != []
      && g == f.(queues := g.queues, ready := g.ready, queuedTotal := f.queuedTotal - 1)
      && g.queues == (if f.queues[lane][1..] == [] then f.queues - {lane} else f.queues[lane := f.queues[lane][1..]])
      && g.ready == if lane in g.queues then f.ready[1..] + [lane] else f.ready[1..]
  {
  }

  lemma SetsOf(queues: map<Lane, LaneQueue>, lines: map<Lane, seq<Waiter>>, lane: Lane)
    requires lane in lines && lane in queues
    ensures queues[lane] in QueueSet(queues) && QueueSet(queues - {lane}) <= QueueSet(queues)
    ensures forall w :: w in lines[lane] ==> w in WaiterSet(lines)
    ensures WaiterSet(lines - {lane}) <= WaiterSet(lines)
    ensures lines[lane] != [] ==> WaiterSet(lines[lane := lines[lane][1..]]) <= WaiterSet(lines)
  {
  }
}
