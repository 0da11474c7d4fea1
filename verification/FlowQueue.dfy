/** The intrusive doubly linked queue of the requests waiting in one lane. */
module FlowQueue {
  import opened FlowSpec
  import opened Sequences

  /** `signalled`: the waiter's channel is closed; closing it twice would be a fault. */
  class Waiter {
    var queue: LaneQueue?
    var previous: Waiter?
    var next: Waiter?
    var settled: bool
    var granted: bool
    var failed: bool
    var signalled: bool

    constructor ()
      ensures queue == null && previous == null && next == null
      ensures Unsettled()
    {
      queue, previous, next := null, null, null;
      settled, granted, failed, signalled := false, false, false, false;
    }

    predicate Unsettled()
      reads this`settled, this`granted, this`failed, this`signalled
    {
      !settled && !granted && !failed && !signalled
    }

    predicate WasGranted()
      reads this`settled, this`granted, this`failed, this`signalled
    {
      settled && granted && !failed && signalled
    }

    predicate WasFailed()
      reads this`settled, this`granted, this`failed, this`signalled
    {
      settled && !granted && failed && signalled
    }
  }

  class LaneQueue {
    var head: Waiter?
    var tail: Waiter?
    var waiting: int
    var ready: bool
    ghost var contents: seq<Waiter>

    constructor ()
      ensures Linked() && contents == [] && waiting == 0 && !ready
    {
      head, tail, waiting, ready := null, null, 0, false;
      contents := [];
    }

    /** `s` is what a walk from the head along `next` meets. */
    ghost predicate Forward(s: seq<Waiter>)
      reads this`head, s`next
    {
      && (s == [] ==> head == null)
      && (s != [] ==> head == s[0] && s[|s| - 1].next == null)
      && (forall i {:trigger s[i].next} :: 0 <= i < |s| - 1 ==> s[i].next == s[i + 1])
    }

    /** `s` is what a walk from the tail along `previous` meets, last first. */
    ghost predicate Backward(s: seq<Waiter>)
      reads this`tail, s`previous
    {
      && (s == [] ==> tail == null)
      && (s != [] ==> tail == s[|s| - 1] && s[0].previous == null)
      && (forall i {:trigger s[i].previous} :: 0 < i < |s| ==> s[i].previous == s[i - 1])
    }

    ghost predicate Owns(s: seq<Waiter>)
      reads s`queue
    {
      forall i :: 0 <= i < |s| ==> s[i].queue == this
    }

    ghost predicate Linked()
      reads this`contents, this`head, this`tail, contents`next, contents`previous, contents`queue
    {
      Forward(contents) && Backward(contents) && Owns(contents) && Distinct(contents)
    }

    /** The tail of acquire's slow path: link the waiter behind the last one. */
    method Append(waiter: Waiter)
      requires Linked() && waiter !in contents && waiter.next == null
      modifies this`head, this`tail, this`waiting, this`contents, contents`next, waiter`queue, waiter`previous
      ensures Linked() && contents == old(contents) + [waiter]
      ensures waiting == old(waiting) + 1
    {
      waiter.queue := this;
      waiter.previous := tail;
      if tail == null {
        head := waiter;
      } else {
        tail.next := waiter;
      }
      tail := waiter;
      waiting := waiting + 1;
      contents := contents + [waiter];
    }

    /** The forward walk skips the waiter at position `k`. */
    method SkipForward(waiter: Waiter, ghost k: nat)
      requires Forward(contents) && Backward(contents) && Distinct(contents) && k < |contents| && contents[k] == waiter
      modifies this`head, contents`next
      ensures Forward(contents[..k] + contents[k + 1..])
      ensures waiter.next == old(waiter.next)
    {
      hide Distinct;
      ghost var after := contents[..k] + contents[k + 1..];
      WithoutIndices(contents, k);
      Elsewhere(contents, k);
      if waiter.previous == null {
        head := waiter.next;
      } else {
        Elsewhere(contents, k - 1);
        waiter.previous.next := waiter.next;
      }
    }

    /** The backward walk skips the waiter at position `k`. */
    method SkipBackward(waiter: Waiter, ghost k: nat)
      requires Backward(contents) && Distinct(contents) && k < |contents| && contents[k] == waiter
      requires waiter.next == if k + 1 < |contents| then contents[k + 1] else null
      modifies this`tail, contents`previous
      ensures Backward(contents[..k] + contents[k + 1..])
    {
      hide Distinct;
      ghost var after := contents[..k] + contents[k + 1..];
      WithoutIndices(contents, k);
      Elsewhere(contents, k);
      if waiter.next == null {
        tail := waiter.previous;
      } else {
        Elsewhere(contents, k + 1);
        waiter.next.previous := waiter.previous;
      }
    }

    method Unlink(waiter: Waiter)
      requires Linked() && waiter in contents
      modifies this`head, this`tail, this`contents, contents`queue, contents`previous, contents`next
      ensures Linked() && contents == Without(old(contents), waiter)
      ensures waiter.queue == null
    {
      hide Distinct, Without, LaneQueue.Forward, LaneQueue.Backward;
      ghost var k :| 0 <= k < |contents| && contents[k] == waiter;
      ghost var after := contents[..k] + contents[k + 1..];
      WithoutAt(contents, k);
      WithoutDistinct(contents, waiter);
      WithoutMembers(contents, waiter);
      NextAt(contents, k);
      SkipForward(waiter, k);
      SkipBackward(waiter, k);
      contents := after;
      waiter.queue := null;
      waiter.previous := null;
      waiter.next := null;
    }

    lemma HeadOf(s: seq<Waiter>)
      requires Forward(s)
      ensures head == if s == [] then null else s[0]
    {
    }

    lemma NextAt(s: seq<Waiter>, k: nat)
      requires Forward(s) && k < |s|
      ensures s[k].next == if k + 1 < |s| then s[k + 1] else null
    {
    }

    /** The first waiter that is not settled, with everything up to it unlinked. */
    method Take() returns (taken: Waiter?, ghost k: nat)
      requires Linked()
      modifies this`head, this`tail, this`contents, contents`queue, contents`previous, contents`next
      ensures Linked() && k <= |old(contents)|
      ensures forall i :: 0 <= i < k ==> old(contents)[i].settled
      ensures taken == null ==> k == |old(contents)| && contents == []
      ensures taken != null
        ==> && k < |old(contents)| && taken == old(contents)[k] && contents == old(contents)[k + 1..]
            && !taken.settled && taken.queue == null
    {
      hide Distinct, Without, LaneQueue.Forward, LaneQueue.Backward, LaneQueue.Owns;
      k := 0;
      HeadOf(contents);
      while head != null
        invariant Forward(contents) && (head == null <==> contents == []) && (head != null ==> head == contents[0])
        invariant Linked() && k <= |old(contents)| && contents == old(contents)[k..]
        invariant forall i :: 0 <= i < k ==> old(contents)[i].settled
        decreases |contents|
      {
        var waiter := head;
        WithoutFirst(contents);
        Unlink(waiter);
        HeadOf(contents);
        if !waiter.settled {
          return waiter, k;
        }
        k := k + 1;
      }
      return null, k;
    }
  }

  lemma {:induction false} WithoutAt<T>(s: seq<T>, k: nat)
    requires Distinct(s) && k < |s|
    ensures Without(s, s[k]) == s[..k] + s[k + 1..]
  {
    if k > 0 {
      WithoutAt(s[1..], k - 1);
      assert s[..k] + s[k + 1..] == [s[0]] + (s[1..][..k - 1] + s[1..][k..]);
    }
  }

  /** A lane's heap queue holds these waiters, none of them settled. */
  ghost predicate LaneOk(q: LaneQueue, s: seq<Waiter>)
    reads q, s
  {
    && q.contents == s
    && q.Linked()
    && q.waiting == |s|
    && (q.ready <==> s != [])
    && forall w :: w in s ==> w.Unsettled()
  }

  /** Take the oldest waiter of a lane, count it out and tell it that it was granted. */
  method GrantOldest(q: LaneQueue, ghost s: seq<Waiter>) returns (waiter: Waiter)
    requires LaneOk(q, s) && s != [] && Distinct(s)
    modifies q, s
    ensures waiter == s[0] && waiter.WasGranted() && waiter.queue == null
    ensures LaneOk(q, s[1..])
  {
    hide LaneQueue.Linked, Distinct;
    assert s[0].Unsettled();
    assert forall w :: w in s[1..] ==> w in s;
    var taken, k := q.Take();
    waiter := taken;
    CountOut(q, s[1..]);
    FirstIsUnique(s);
    Signal(waiter, q, s[1..]);
  }

  /** The waiter's channel is closed once, when it is granted. */
  method Signal(waiter: Waiter, ghost q: LaneQueue, ghost rest: seq<Waiter>)
    requires waiter.Unsettled() && LaneOk(q, rest) && waiter !in rest
    modifies waiter`granted, waiter`settled, waiter`signalled
    ensures waiter.WasGranted() && LaneOk(q, rest)
  {
    waiter.granted := true;
    waiter.settled := true;
    waiter.signalled := true;
  }

  /** A waiter was unlinked: count it out, and take an empty lane off the ready list. */
  method CountOut(q: LaneQueue, ghost rest: seq<Waiter>)
    requires q.Linked() && q.contents == rest && q.waiting == |rest| + 1 && q.ready
    requires forall w :: w in rest ==> w.Unsettled()
    modifies q`waiting, q`ready
    ensures LaneOk(q, rest)
  {
    q.waiting := q.waiting - 1;
    if q.waiting == 0 {
      q.ready := false;
    }
  }

  /** Take a given waiter, which has just settled, out of a lane. */
  method TakeGiven(q: LaneQueue, ghost s: seq<Waiter>, waiter: Waiter)
    requires q.contents == s && q.Linked() && q.waiting == |s| && q.ready && waiter in s && Distinct(s)
    requires forall w :: w in s && w != waiter ==> w.Unsettled()
    modifies q, s`queue, s`previous, s`next
    ensures LaneOk(q, Without(s, waiter))
    ensures waiter.queue == null
  {
    hide LaneQueue.Linked, Distinct, Without;
    Others(s, waiter);
    q.Unlink(waiter);
    assert forall w :: w in Without(s, waiter) ==> w.Unsettled();
    CountOut(q, Without(s, waiter));
  }

  lemma Others(s: seq<Waiter>, waiter: Waiter)
    requires Distinct(s) && waiter in s
    ensures |Without(s, waiter)| == |s| - 1
    ensures forall w :: w in Without(s, waiter) ==> w in s && w != waiter
  {
    WithoutMembers(s, waiter);
  }

  /** Put a new waiter at the end of a lane. */
  method PutLast(q: LaneQueue, ghost s: seq<Waiter>, waiter: Waiter)
    requires LaneOk(q, s) && waiter !in s && waiter.next == null && waiter.Unsettled()
    modifies q, s`next, waiter`queue, waiter`previous
    ensures LaneOk(q, s + [waiter])
  {
    hide LaneQueue.Linked;
    q.Append(waiter);
    q.ready := true;
  }

  lemma OwnerOf(q: LaneQueue, s: seq<Waiter>, w: Waiter)
    requires LaneOk(q, s) && w in s
    ensures w.queue == q && w.Unsettled()
  {
  }

  lemma WithoutFirst<T>(s: seq<T>)
    requires s != []
    ensures Without(s, s[0]) == s[1..]
  {
  }

  lemma WithoutIndices<T>(s: seq<T>, k: nat)
    requires k < |s|
    ensures var after := s[..k] + s[k + 1..];
      |after| == |s| - 1 && forall i :: 0 <= i < |after| ==> after[i] == if i < k then s[i] else s[i + 1]
  {
  }

  lemma Elsewhere<T>(s: seq<T>, k: nat)
    requires Distinct(s) && k < |s|
    ensures forall i :: 0 <= i < |s| && i != k ==> s[i] != s[k]
  {
  }

  // ----- all lanes

  ghost function QueueSet(queues: map<Lane, LaneQueue>): set<LaneQueue> {
    set l | l in queues :: queues[l]
  }

  ghost function WaiterSet(lines: map<Lane, seq<Waiter>>): set<Waiter> {
    set l, w | l in lines && w in lines[l] :: w
  }

  /** Every lane's heap queue holds the lane's line, and no two lanes share a queue. */
  ghost predicate LanesOk(queues: map<Lane, LaneQueue>, lines: map<Lane, seq<Waiter>>)
    reads QueueSet(queues), WaiterSet(lines)
  {
    && queues.Keys == lines.Keys
    && (forall l :: l in queues ==>
          assert queues[l] in QueueSet(queues);
          assert forall w :: w in lines[l] ==> w in WaiterSet(lines);
          LaneOk(queues[l], lines[l]))
    && (forall l, m :: l in queues && m in queues && l != m ==> queues[l] != queues[m])
  }

  /** Lanes share neither queues nor waiters. */
  lemma LanesDisjoint(queues: map<Lane, LaneQueue>, lines: map<Lane, seq<Waiter>>, lane: Lane)
    requires LanesOk(queues, lines) && lane in queues
    ensures LaneOk(queues[lane], lines[lane])
    ensures forall l :: l in queues && l != lane ==> queues[l] != queues[lane]
    ensures forall l, w :: l in queues && l != lane && w in lines[l] ==> w !in lines[lane]
  {
    forall l, w | l in queues && l != lane && w in lines[l] ensures w !in lines[lane] {
      OwnerOf(queues[l], lines[l], w);
      if w in lines[lane] { OwnerOf(queues[lane], lines[lane], w); }
    }
  }

  /** Grant to the oldest waiter of one lane; the other lanes are as they were. */
  method GrantFrom(queues: map<Lane, LaneQueue>, ghost lines: map<Lane, seq<Waiter>>, lane: Lane) returns (waiter: Waiter)
    requires LanesOk(queues, lines) && lane in queues && lines[lane] != [] && Distinct(lines[lane])
    modifies queues[lane], lines[lane]
    ensures waiter == lines[lane][0] && waiter.WasGranted() && waiter.queue == null
    ensures LaneOk(queues[lane], lines[lane][1..])
    ensures forall l :: l in queues && l != lane ==> LaneOk(queues[l], lines[l])
  {
    LanesDisjoint(queues, lines, lane);
    waiter := GrantOldest(queues[lane], lines[lane]);
  }

  /** As `GrantFrom`; the lane goes when its line is empty. */
  method GrantLane(queues: map<Lane, LaneQueue>, ghost lines: map<Lane, seq<Waiter>>, lane: Lane)
    returns (waiter: Waiter, left: map<Lane, LaneQueue>)
    requires LanesOk(queues, lines) && lane in queues && lines[lane] != [] && Distinct(lines[lane])
    modifies queues[lane], lines[lane]
    ensures waiter == lines[lane][0] && waiter.WasGranted() && waiter.queue == null
    ensures left == if lines[lane][1..] == [] then queues - {lane} else queues
    ensures LanesOk(left, if lines[lane][1..] == [] then lines - {lane} else lines[lane := lines[lane][1..]])
    ensures waiter !in WaiterSet(if lines[lane][1..] == [] then lines - {lane} else lines[lane := lines[lane][1..]])
  {
    hide LaneOk, Distinct;
    LanesDisjoint(queues, lines, lane);
    var queue := queues[lane];
    waiter := GrantFrom(queues, lines, lane);
    WaitingCount(queue, lines[lane][1..]);
    FirstIsUnique(lines[lane]);
    left := queues;
    if queue.waiting == 0 {
      left := queues - {lane};
    }
    ghost var rest := lines[lane][1..];
    ghost var after := if rest == [] then lines - {lane} else lines[lane := rest];
    forall l | l in after ensures waiter !in after[l] {
      if l != lane {
        assert lines[lane][0] in lines[lane];
        assert after[l] == lines[l];
      }
    }
  }

  /** A lane's settled waiter leaves; the other lanes are as they were. */
  method TakeGivenFrom(queues: map<Lane, LaneQueue>, ghost lines: map<Lane, seq<Waiter>>, lane: Lane, waiter: Waiter)
    requires LanesOk(queues, lines) && lane in queues && waiter in lines[lane] && Distinct(lines[lane])
    modifies queues[lane], lines[lane]
    ensures waiter.queue == null && waiter.settled && !waiter.granted && !waiter.failed && !waiter.signalled
    ensures LaneOk(queues[lane], Without(lines[lane], waiter))
    ensures forall l :: l in queues && l != lane ==> LaneOk(queues[l], lines[l])
  {
    LanesDisjoint(queues, lines, lane);
    waiter.settled := true;
    TakeGiven(queues[lane], lines[lane], waiter);
  }

  /** As `TakeGivenFrom`; the lane goes when its line is empty. */
  method DropFromLane(queues: map<Lane, LaneQueue>, ghost lines: map<Lane, seq<Waiter>>, lane: Lane, waiter: Waiter)
    returns (left: map<Lane, LaneQueue>)
    requires LanesOk(queues, lines) && lane in queues && waiter in lines[lane] && Distinct(lines[lane])
    modifies queues[lane], lines[lane]
    ensures waiter.settled && !waiter.granted && !waiter.failed && !waiter.signalled
    ensures var rest := Without(lines[lane], waiter);
      && left == (if rest == [] then queues - {lane} else queues)
      && LanesOk(left, if rest == [] then lines - {lane} else lines[lane := rest])
  {
    hide LaneOk, Distinct, Without;
    LanesDisjoint(queues, lines, lane);
    var queue := queues[lane];
    TakeGivenFrom(queues, lines, lane, waiter);
    WaitingCount(queue, Without(lines[lane], waiter));
    left := queues;
    if queue.waiting == 0 {
      left := queues - {lane};
    }
  }

  /** A new waiter joins a lane that has others. */
  method PutLastIn(queues: map<Lane, LaneQueue>, ghost lines: map<Lane, seq<Waiter>>, lane: Lane, waiter: Waiter)
    requires LanesOk(queues, lines) && lane in queues && waiter !in WaiterSet(lines)
    requires waiter.next == null && waiter.Unsettled()
    modifies queues[lane], lines[lane], waiter
    ensures waiter.Unsettled()
    ensures LaneOk(queues[lane], lines[lane] + [waiter])
    ensures forall l :: l in queues && l != lane ==> LaneOk(queues[l], lines[l])
  {
    LanesDisjoint(queues, lines, lane);
    assert forall l, w :: l in lines && w in lines[l] ==> w in WaiterSet(lines);
    PutLast(queues[lane], lines[lane], waiter);
  }

  /** A lane that nobody waits in gets an empty queue. */
  method OpenLane(queues: map<Lane, LaneQueue>, ghost lines: map<Lane, seq<Waiter>>, lane: Lane)
    returns (after: map<Lane, LaneQueue>)
    requires LanesOk(queues, lines)
    ensures lane in after && forall l :: l in queues ==> l in after && after[l] == queues[l]
    ensures lane !in queues ==> fresh(after[lane])
    ensures lane in queues ==> after == queues
    ensures LanesOk(after, if lane in lines then lines else lines[lane := []])
  {
    after := queues;
    if lane !in queues {
      var queue := new LaneQueue();
      after := queues[lane := queue];
    }
  }

  /** A new waiter joins the end of a lane, which is opened when needed. */
  method JoinLane(queues: map<Lane, LaneQueue>, ghost lines: map<Lane, seq<Waiter>>, lane: Lane)
    returns (waiter: Waiter, after: map<Lane, LaneQueue>)
    requires LanesOk(queues, lines)
    modifies QueueSet(queues), WaiterSet(lines)
    ensures fresh(waiter) && waiter.Unsettled() && waiter !in WaiterSet(lines)
    ensures LanesOk(after, lines[lane := (if lane in lines then lines[lane] else []) + [waiter]])
    ensures lane in queues ==> after == queues
    ensures lane !in queues ==> lane in after && after == queues[lane := after[lane]] && fresh(after[lane])
  {
    hide LaneOk;
    after := OpenLane(queues, lines, lane);
    ghost var base := if lane in lines then lines else lines[lane := []];
    SetsOpened(queues, lines, lane);
    waiter := new Waiter();
    NotAmong(base, waiter);
    NotAmong(lines, waiter);
    LanesDisjoint(after, base, lane);
    PutLastIn(after, base, lane, waiter);
    assert after == if lane in queues then queues else queues[lane := after[lane]];
  }

  lemma SetsOpened(queues: map<Lane, LaneQueue>, lines: map<Lane, seq<Waiter>>, lane: Lane)
    ensures lane in queues ==> queues[lane] in QueueSet(queues)
    ensures lane in lines ==> forall w :: w in lines[lane] ==> w in WaiterSet(lines)
    ensures WaiterSet(lines[lane := []]) <= WaiterSet(lines)
  {
  }

  lemma NotAmong(lines: map<Lane, seq<Waiter>>, waiter: Waiter)
    requires forall l, w :: l in lines && w in lines[l] ==> w != waiter
    ensures waiter !in WaiterSet(lines)
  {
  }

  // ----- closing

  /** Walk a lane and fail each of its waiters. */
  method FailQueue(q: LaneQueue, ghost s: seq<Waiter>)
    requires LaneOk(q, s) && Distinct(s)
    modifies s
    ensures forall w :: w in s ==> w.WasFailed()
  {
    LinksOf(q, s);
    hide LaneOk, LaneQueue.Linked;
    var waiter := q.head;
    ghost var i := 0;
    while waiter != null
      invariant i <= |s| && waiter == if i < |s| then s[i] else null
      invariant forall j :: i <= j < |s| ==> s[j].Unsettled()
      invariant forall j {:trigger s[j].next} :: i <= j < |s| ==> s[j].next == if j + 1 < |s| then s[j + 1] else null
      invariant forall j :: 0 <= j < i ==> s[j].WasFailed()
      decreases |s| - i
    {
      var next := waiter.next;
      if waiter.settled {
        assert false;
      }
      waiter.settled := true;
      waiter.failed := true;
      waiter.signalled := true;
      waiter.queue := null;
      waiter.previous := null;
      waiter.next := null;
      waiter := next;
      i := i + 1;
    }
  }

  lemma LinksOf(q: LaneQueue, s: seq<Waiter>)
    requires LaneOk(q, s)
    ensures q.head == if s == [] then null else s[0]
    ensures forall j :: 0 <= j < |s| ==> s[j].Unsettled()
    ensures forall j {:trigger s[j].next} :: 0 <= j < |s| ==> s[j].next == if j + 1 < |s| then s[j + 1] else null
  {
    q.HeadOf(s);
    forall j | 0 <= j < |s| ensures s[j].next == if j + 1 < |s| then s[j + 1] else null { q.NextAt(s, j); }
  }

  /** Without one lane, the lanes are in order and none of their waiters is in it. */
  lemma WithoutLane(queues: map<Lane, LaneQueue>, lines: map<Lane, seq<Waiter>>, lane: Lane)
    requires LanesOk(queues, lines) && lane in queues
    ensures LaneOk(queues[lane], lines[lane])
    ensures LanesOk(queues - {lane}, lines - {lane})
    ensures forall w :: w in WaiterSet(lines - {lane}) ==> w !in lines[lane]
    ensures WaiterSet(lines - {lane}) <= WaiterSet(lines)
    ensures forall w :: w in WaiterSet(lines) <==> w in lines[lane] || w in WaiterSet(lines - {lane})
    ensures |(queues - {lane}).Keys| < |queues.Keys|
  {
    LanesDisjoint(queues, lines, lane);
    assert (queues - {lane}).Keys == queues.Keys - {lane};
    forall w ensures w in WaiterSet(lines) <==> w in lines[lane] || w in WaiterSet(lines - {lane}) {
      if w in WaiterSet(lines) {
        var l :| l in lines && w in lines[l];
        if l != lane { assert (lines - {lane})[l] == lines[l]; }
      }
      if w in WaiterSet(lines - {lane}) {
        var l :| l in lines - {lane} && w in (lines - {lane})[l];
        assert w in lines[l];
      }
    }
  }

  /** Fail one lane's waiters; the other lanes are as they were. */
  method FailLane(queues: map<Lane, LaneQueue>, ghost lines: map<Lane, seq<Waiter>>, lane: Lane)
    requires LanesOk(queues, lines) && lane in queues && Distinct(lines[lane])
    modifies lines[lane]
    ensures forall w :: w in lines[lane] ==> w.WasFailed()
    ensures LanesOk(queues - {lane}, lines - {lane})
  {
    WithoutLane(queues, lines, lane);
    FailQueue(queues[lane], lines[lane]);
  }

  ghost predicate AllFailed(waiters: set<Waiter>)
    reads waiters
  {
    forall w :: w in waiters ==> w.WasFailed()
  }

  /** Fail the waiters of one of the lanes that are left. */
  method FailAnother(left: map<Lane, LaneQueue>, ghost rest: map<Lane, seq<Waiter>>, lane: Lane, ghost all: set<Waiter>)
    requires LanesOk(left, rest) && lane in left && lane in rest && Distinct(rest[lane])
    requires WaiterSet(rest) <= all && AllFailed(all - WaiterSet(rest))
    modifies WaiterSet(rest)
    ensures LanesOk(left - {lane}, rest - {lane})
    ensures WaiterSet(rest - {lane}) <= all && AllFailed(all - WaiterSet(rest - {lane}))
  {
    hide LaneOk, LanesOk, Distinct, WaiterSet, QueueSet, LaneQueue.Linked;
    WithoutLane(left, rest, lane);
    FailLane(left, rest, lane);
    forall w | w in all && w !in WaiterSet(rest - {lane}) ensures w.WasFailed() {
      if w !in WaiterSet(rest) { assert w in all - WaiterSet(rest); }
    }
  }

  /** Closing fails every queued waiter, once. */
  method FailLanes(queues: map<Lane, LaneQueue>, ghost lines: map<Lane, seq<Waiter>>)
    requires LanesOk(queues, lines) && forall l :: l in lines ==> Distinct(lines[l])
    modifies WaiterSet(lines)
    ensures AllFailed(WaiterSet(lines))
  {
    hide LaneOk, LanesOk, Distinct, WaiterSet, QueueSet, AllFailed;
    var left := queues;
    ghost var rest, all := lines, WaiterSet(lines);
    SameLanes(queues, lines);
    assert all - WaiterSet(lines) == {};
    NoneFailed();
    while left.Keys != {}
      invariant LanesOk(left, rest) && left.Keys == rest.Keys
      invariant forall l :: l in rest ==> Distinct(rest[l])
      invariant WaiterSet(rest) <= all && AllFailed(all - WaiterSet(rest))
      decreases |left.Keys|
    {
      var lane :| lane in left.Keys;
      FewerLanes(left, rest, lane);
      FailAnother(left, rest, lane, all);
      left, rest := left - {lane}, rest - {lane};
    }
    NoWaiters(rest);
    assert all - WaiterSet(rest) == all;
  }

  lemma FewerLanes(left: map<Lane, LaneQueue>, rest: map<Lane, seq<Waiter>>, lane: Lane)
    requires lane in left && left.Keys == rest.Keys
    ensures (left - {lane}).Keys == (rest - {lane}).Keys && |(left - {lane}).Keys| < |left.Keys|
    ensures forall l :: l in rest - {lane} ==> l in rest && rest[l] == (rest - {lane})[l]
  {
    assert (left - {lane}).Keys == left.Keys - {lane};
  }

  lemma NoneFailed()
    ensures AllFailed({})
  {
  }

  lemma SameLanes(queues: map<Lane, LaneQueue>, lines: map<Lane, seq<Waiter>>)
    requires LanesOk(queues, lines)
    ensures queues.Keys == lines.Keys
  {
  }

  lemma NoWaiters(lines: map<Lane, seq<Waiter>>)
    requires lines.Keys == {}
    ensures WaiterSet(lines) == {}
  {
  }

  lemma WaitingCount(q: LaneQueue, s: seq<Waiter>)
    requires LaneOk(q, s)
    ensures q.waiting == |s|
  {
  }

  lemma FirstIsUnique<T>(s: seq<T>)
    requires s != [] && Distinct(s)
    ensures s[0] !in s[1..]
  {
  }
}
