/**
  The credit flow controller's state and operations as values.

  Queued requests are named by a type `W`: heap waiters for the controller
  class, tickets for the interleaving model. `ready` is the round-robin list of
  lanes that have waiters.
*/
module FlowSpec {
  import opened MapSums
  import opened Results
  import opened Sequences

  type Lane = nat

  datatype Grant<+W> = Grant(lane: Lane, waiter: W)

  datatype Limits = Limits(connection: nat, laneWindow: nat, laneQueue: nat, maxQueued: nat) {
    function Lane(): nat {
      if laneWindow < laneQueue then laneWindow else laneQueue
    }
  }

  datatype Flow<W(==)> = Flow(
    limits: Limits,
    laneLimit: nat,
    active: map<Lane, nat>,
    activeTotal: int,
    queues: map<Lane, seq<W>>,
    ready: seq<Lane>,
    queuedTotal: nat,
    closed: bool)
  {
    // ----- invariants

    ghost predicate WF() {
      && CreditsAddUp(active, activeTotal)
      && QueuesAddUp(queues, queuedTotal)
      && ListsQueues(ready, queues)
      && laneLimit == limits.Lane()
      && (closed ==> queues == map[])
    }

    /** No lane with a waiter has both lane and connection credit free. */
    ghost predicate Saturated() {
      forall l :: l in queues ==> !CanAcquire(l)
    }

    // ----- operations

    function ActiveOf(lane: Lane): nat {
      if lane in active then active[lane] else 0
    }

    function CanAcquire(lane: Lane): bool {
      activeTotal < limits.connection && ActiveOf(lane) < laneLimit
    }

    function Activate(lane: Lane): Flow<W> {
      this.(activeTotal := activeTotal + 1, active := active[lane := ActiveOf(lane) + 1])
    }

    /** A credit of the lane is returned; a lane without credits is left alone. */
    function Deactivate(lane: Lane): Flow<W> {
      if ActiveOf(lane) == 0 then this
      else if active[lane] == 1 then this.(activeTotal := activeTotal - 1, active := active - {lane})
      else this.(activeTotal := activeTotal - 1, active := active[lane := active[lane] - 1])
    }

    function QueueOf(lane: Lane): seq<W> {
      if lane in queues then queues[lane] else []
    }

    function Enqueue(lane: Lane, w: W): Flow<W> {
      this.(
        queues := queues[lane := QueueOf(lane) + [w]],
        ready := if lane in queues then ready else ready + [lane],
        queuedTotal := queuedTotal + 1)
    }

    /** A queued request gives up. */
    function Remove(lane: Lane, w: W): Flow<W>
      requires queuedTotal > 0
    {
      var rest := Without(QueueOf(lane), w);
      this.(
        queues := if rest == [] then queues - {lane} else queues[lane := rest],
        ready := if rest == [] then Without(ready, lane) else ready,
        queuedTotal := queuedTotal - 1)
    }

    /** The front lane goes to the back of the ready list. */
    function Rotate(): Flow<W>
      requires ready != []
    {
      this.(ready := ready[1..] + [ready[0]])
    }

    predicate HasFront() {
      ready != [] && ready[0] in queues && queues[ready[0]] != [] && queuedTotal > 0
    }

    function FrontGrant(): Grant<W>
      requires HasFront()
    {
      Grant(ready[0], queues[ready[0]][0])
    }

    /** The oldest waiter of the front lane leaves its queue; the lane goes to the back, or away. */
    function PopFront(): Flow<W>
      requires HasFront()
    {
      var lane := ready[0];
      var rest := queues[lane][1..];
      this.(
        queues := if rest == [] then queues - {lane} else queues[lane := rest],
        ready := if rest == [] then ready[1..] else ready[1..] + [lane],
        queuedTotal := queuedTotal - 1)
    }

    /** The oldest waiter of the front lane receives a credit. */
    function GrantFront(): Flow<W>
      requires HasFront()
    {
      PopFront().Activate(ready[0])
    }

    /** One pass over the ready list: rotate past lanes at their limit, grant to the first that is not. */
    function Pass(attempts: nat): (p: Passed<W>)
      requires attempts <= |ready|
      decreases attempts
    {
      if attempts == 0 || activeTotal >= limits.connection || !HasFront() then Passed(this, None)
      else if ActiveOf(ready[0]) >= laneLimit then Rotate().Pass(attempts - 1)
      else Passed(GrantFront(), Some(FrontGrant()))
    }

    /** Grant until the connection is full, nobody waits, or a whole pass grants nothing. */
    function Pump(): (p: Pumped<W>)
      ensures p.flow.queuedTotal + |p.grants| == queuedTotal
      decreases queuedTotal
    {
      PassQueued(|ready|);
      var pass := Pass(|ready|);
      if closed || activeTotal >= limits.connection || ready == [] then Pumped(this, [])
      else if pass.grant.None? then Pumped(pass.flow, [])
      else
        var rest := pass.flow.Pump();
        Pumped(rest.flow, [pass.grant.value] + rest.grants)
    }

    lemma {:induction false} PassQueued(attempts: nat)
      requires attempts <= |ready|
      ensures Pass(attempts).flow.queuedTotal + (if Pass(attempts).grant.Some? then 1 else 0) == queuedTotal
      decreases attempts
    {
      if attempts > 0 && activeTotal < limits.connection && HasFront() && ActiveOf(ready[0]) >= laneLimit {
        Rotate().PassQueued(attempts - 1);
      }
    }

    function Release(lane: Lane): Pumped<W> {
      if ActiveOf(lane) == 0 then Pumped(this, [])
      else if closed then Pumped(Deactivate(lane), [])
      else Deactivate(lane).Pump()
    }

    function WithLimits(connection: Option<nat>, laneWindow: Option<nat>): Flow<W> {
      var updated := limits.(
        connection := if connection.Some? then connection.value else limits.connection,
        laneWindow := if laneWindow.Some? then laneWindow.value else limits.laneWindow);
      this.(limits := updated, laneLimit := updated.Lane())
    }

    function UpdateLimits(connection: Option<nat>, laneWindow: Option<nat>): Pumped<W> {
      if closed then Pumped(WithLimits(connection, laneWindow), [])
      else WithLimits(connection, laneWindow).Pump()
    }

    function Close(): Flow<W> {
      if closed then this
      else this.(closed := true, queues := map[], ready := [], queuedTotal := 0)
    }
  }

  /** The connection's credit count is the sum of its lanes' counts. */
  ghost predicate CreditsAddUp(active: map<Lane, nat>, total: int) {
    && (forall l :: l in active ==> active[l] > 0)
    && Sum(active) == total
  }

  ghost function Lengths<W>(queues: map<Lane, seq<W>>): map<Lane, nat> {
    map l | l in queues :: |queues[l]|
  }

  /** The queued count is the sum of the lanes' queue lengths; nobody queues twice in a lane. */
  ghost predicate QueuesAddUp<W>(queues: map<Lane, seq<W>>, total: nat) {
    && (forall l :: l in queues ==> queues[l] != [] && Distinct(queues[l]))
    && Sum(Lengths(queues)) == total
  }

  /** The ready list names each lane with waiters once. */
  ghost predicate ListsQueues<W>(ready: seq<Lane>, queues: map<Lane, seq<W>>) {
    && (forall l :: l in ready <==> l in queues)
    && Distinct(ready)
  }

  datatype Passed<W> = Passed(flow: Flow<W>, grant: Option<Grant<W>>)
  datatype Pumped<W> = Pumped(flow: Flow<W>, grants: seq<Grant<W>>)

  /** `s` without the first occurrence of `x`. */
  function Without<T(==)>(s: seq<T>, x: T): seq<T> {
    if s == [] then []
    else if s[0] == x then s[1..]
    else [s[0]] + Without(s[1..], x)
  }

  lemma {:induction false} WithoutMembers<T>(s: seq<T>, x: T)
    requires Distinct(s)
    ensures forall y :: y in Without(s, x) <==> y in s && y != x
    ensures |Without(s, x)| == if x in s then |s| - 1 else |s|
  {
    if s != [] {
      assert s == [s[0]] + s[1..];
      if s[0] == x {
        assert x !in s[1..];
      } else {
        WithoutMembers(s[1..], x);
      }
    }
  }

  lemma {:induction false} WithoutDistinct<T>(s: seq<T>, x: T)
    requires Distinct(s)
    ensures Distinct(Without(s, x))
  {
    if s != [] && s[0] != x {
      WithoutDistinct(s[1..], x);
      WithoutMembers(s[1..], x);
      var rest := Without(s[1..], x);
      assert s[0] !in s[1..];
      assert forall j :: 0 <= j < |rest| ==> rest[j] in rest;
    }
  }
}
