/** What a caller of the automatic batcher can rely on, in every run. */
module AutoBatchGuarantees {
  import opened MapSums
  import opened Results
  import opened AutoBatchSystem
  import opened AutoBatchInvariants

  // ----- answers

  lemma {:induction false} NumberedOnce(requests: seq<Request>, r: Request)
    requires forall i :: 0 <= i < |requests| ==> requests[i].number == i
    ensures multiset(requests)[r] == if r in requests then 1 else 0
  {
    if requests != [] {
      var init, last := requests[..|requests| - 1], requests[|requests| - 1];
      assert requests == init + [last];
      NumberedOnce(init, r);
    }
  }

  /** No request is answered twice, so no answer can block; only accepted requests are answered. */
  lemma NoSecondAnswer(size: nat, maxSize: nat, actions: seq<Action>, r: Request)
    requires maxSize > 0
    ensures var s := Run(Initial(size, maxSize), actions);
      && multiset(Requests(s.gather.answers))[r] <= 1
      && (r in Requests(s.gather.answers) ==> r in s.admission.order)
  {
    hide Run, Requests;
    Reachable(size, maxSize, actions);
    var s := Run(Initial(size, maxSize), actions);
    HandledOnce(s, r);
  }

  lemma HandledOnce(s: Batcher, r: Request)
    requires Inv(s)
    ensures multiset(s.gather.handled)[r] <= 1
    ensures r in multiset(Requests(s.gather.answers)) ==> r in s.gather.handled && r in s.admission.order
    ensures multiset(Requests(s.gather.answers))[r] <= multiset(s.gather.handled)[r]
  {
    hide Requests, Sum, Slots, Increasing;
    var g := s.gather;
    forall i | 0 <= i < |g.handled| ensures g.handled[i].number == i {
      assert s.admission.order[i] == g.handled[i];
    }
    NumberedOnce(g.handled, r);
    if r in multiset(Requests(g.answers)) {
      assert r in multiset(g.handled);
      assert r in s.admission.order;
    }
  }

  /** By the time the executor is done, each accepted request has got exactly one answer. */
  lemma ExactlyOneAnswer(size: nat, maxSize: nat, actions: seq<Action>)
    requires maxSize > 0
    ensures var s := Run(Initial(size, maxSize), actions);
      s.gather.loop.Stopped?
      ==> && multiset(s.admission.order) == multiset(Requests(s.gather.answers))
          && forall r :: r in s.admission.order ==> multiset(Requests(s.gather.answers))[r] == 1
  {
    hide Run, Requests;
    Reachable(size, maxSize, actions);
    var s := Run(Initial(size, maxSize), actions);
    if s.gather.loop.Stopped? { StoppedAnswered(s); }
  }

  lemma StoppedAnswered(s: Batcher)
    requires Inv(s) && s.gather.loop.Stopped?
    ensures multiset(s.admission.order) == multiset(Requests(s.gather.answers))
    ensures forall r :: r in s.admission.order ==> multiset(Requests(s.gather.answers))[r] == 1
  {
    hide Requests, Sum, Slots, Increasing;
    assert s.admission.order == s.gather.handled;
    forall r | r in s.admission.order ensures multiset(Requests(s.gather.answers))[r] == 1 {
      NumberedOnce(s.admission.order, r);
    }
  }

  lemma FinishAnswers(g: Gather, why: Why, error: Option<Error>, expired: bool, closed: bool)
    ensures g.answers <= g.FinishFlush(why, error, expired, closed).answers
    ensures g.answers <= g.StartFlush(why, closed).answers
  {
  }

  lemma GatherAnswers(g: Gather, done: set<nat>, outcome: Outcome, expired: bool, closed: bool)
    ensures g.loop.Have? ==> g.answers <= g.Dispatch(closed).answers
    ensures g.answers <= g.DrainEmpty(closed).answers
    ensures g.loop.Filtering? ==> g.answers <= g.Filter(done, closed).answers
    ensures g.loop.Acquiring? || g.loop.Awaiting? ==> g.answers <= g.GiveUp(expired, closed).answers
    ensures g.loop.Awaiting? ==> g.answers <= g.Deliver(outcome, expired, closed).answers
  {
    hide Gather.FinishFlush, Gather.StartFlush, Chosen;
    forall h: Gather, why, error, x
      ensures h.answers <= h.FinishFlush(why, error, x, closed).answers
    {
      FinishAnswers(h, why, error, x, closed);
    }
    forall h: Gather, why ensures h.answers <= h.StartFlush(why, closed).answers {
      FinishAnswers(h, why, None, false, closed);
    }
  }

  /** Answers, once given, stand. */
  lemma AnswersStand(s: Batcher, a: Action)
    ensures s.gather.answers <= Step(s, a).gather.answers
  {
    hide Gather.Dispatch, Gather.DrainEmpty, Gather.Filter, Gather.GiveUp, Gather.Deliver, Gather.StartFlush,
      Gather.FinishFlush, Admission.Reserve, Admission.Abandon, Admission.ReadLock, Admission.Check, Admission.Send,
      Admission.ReadUnlock, Admission.ReturnSlot, Admission.CloseStep, Pipelines.Spawn, Pipelines.Report, Pipelines.ReturnSlot;
    var g, closed := s.gather, s.Closed();
    FinishAnswers(g.(timer := false), Regular(None), None, false, closed);
    var done, expired := if a.Filter? then a.done else {}, if a.GiveUp? || a.TakeResult? then a.expired else false;
    var outcome :=
      if g.loop.Awaiting? && g.loop.job in s.pipelines.results then s.pipelines.results[g.loop.job] else Broke(WrongCount);
    GatherAnswers(g, done, outcome, expired, closed);
  }

  /** A flush request is answered after everything that was accepted before it. */
  lemma FlushIsABarrier(size: nat, maxSize: nat, actions: seq<Action>, flush: Request, earlier: Request)
    requires maxSize > 0 && flush.isFlush && earlier.number < flush.number
    ensures var s := Run(Initial(size, maxSize), actions);
      flush in Requests(s.gather.answers) && earlier in s.admission.order ==> earlier in Requests(s.gather.answers)
  {
    hide Run, Requests, Inv;
    Reachable(size, maxSize, actions);
    var s := Run(Initial(size, maxSize), actions);
    if flush in Requests(s.gather.answers) && earlier in s.admission.order {
      EarlierIsHandled(s, flush, earlier);
    }
  }

  lemma EarlierIsHandled(s: Batcher, flush: Request, earlier: Request)
    requires Inv(s) && flush in Requests(s.gather.answers) && earlier in s.admission.order && earlier.number < flush.number
    requires flush.isFlush
    ensures earlier in Requests(s.gather.answers)
  {
    hide Requests, Sum, Slots, Increasing;
    assert flush in multiset(Requests(s.gather.answers));
    HandledOnce(s, flush);
    var i :| 0 <= i < |s.gather.handled| && s.gather.handled[i] == flush;
    var j :| 0 <= j < |s.admission.order| && s.admission.order[j] == earlier;
    assert s.admission.order[i] == flush && s.gather.handled[j] == earlier;
  }

  lemma {:induction false} ChosenExactly(batch: seq<Request>, done: set<nat>, which: bool, r: Request)
    ensures r in Chosen(batch, done, which) <==> r in batch && (r.number in done) == which
  {
    if batch != [] { ChosenExactly(batch[1..], done, which, r); }
  }

  /** A request whose context is done is told so and is not sent; every other one of the batch goes on to a pipeline. */
  lemma OnlyTheDoneAreDropped(g: Gather, done: set<nat>, closed: bool, r: Request)
    requires g.loop.Filtering? && r in g.batch
    ensures var f := g.Filter(done, closed);
      && (r.number in done ==> Reply(r, Failed(ContextDone)) in f.answers && r !in f.loop.Active())
      && (r.number !in done ==> r in f.loop.Active())
  {
    hide Gather.FinishFlush, Chosen;
    ChosenExactly(g.batch, done, true, r);
    ChosenExactly(g.batch, done, false, r);
    var dropped := Chosen(g.batch, done, true);
    var h := g.FailAll(dropped, ContextDone).(batch := []);
    FinishAnswers(h, g.loop.why, None, false, closed);
    FinishIsIdle(h, g.loop.why, None, false, closed);
    if r in dropped {
      var i :| 0 <= i < |dropped| && dropped[i] == r;
      assert h.answers[|g.answers| + i] == Reply(r, Failed(ContextDone));
    }
  }

  lemma FinishIsIdle(g: Gather, why: Why, error: Option<Error>, expired: bool, closed: bool)
    ensures g.FinishFlush(why, error, expired, closed).loop.Active() == []
  {
  }

  // ----- pipelines

  /** At most one pipeline executes, even after a flush has stopped waiting for it. */
  lemma OnePipeline(size: nat, maxSize: nat, actions: seq<Action>)
    requires maxSize > 0
    ensures var p := Run(Initial(size, maxSize), actions).pipelines;
      |p.workers| <= 1 && forall i, j :: i in p.workers && j in p.workers ==> i == j
  {
    hide Run, Requests, Sum, Slots, Increasing;
    Reachable(size, maxSize, actions);
    var p := Run(Initial(size, maxSize), actions).pipelines;
    assert |p.workers| == |p.workers.Keys|;
    forall i, j | i in p.workers.Keys && j in p.workers.Keys ensures i == j { SmallSet(p.workers.Keys, i, j); }
  }

  lemma SmallSet(s: set<nat>, i: nat, j: nat)
    requires |s| <= 1 && i in s && j in s
    ensures i == j
  {
    var rest := s - {i};
    assert |rest| == 0;
    assert j !in rest;
  }

  /** Pipelines are given accepted commands, each at most once, in the order of acceptance. */
  lemma ExecutedInOrder(size: nat, maxSize: nat, actions: seq<Action>)
    requires maxSize > 0
    ensures var s := Run(Initial(size, maxSize), actions);
      && Increasing(s.pipelines.executed)
      && forall i :: 0 <= i < |s.pipelines.executed| ==>
        var r := s.pipelines.executed[i];
        !r.isFlush && r.number < |s.admission.order| && s.admission.order[r.number] == r
  {
    hide Run, Inv;
    Reachable(size, maxSize, actions);
    ExecutedAreAccepted(Run(Initial(size, maxSize), actions));
  }

  lemma ExecutedAreAccepted(s: Batcher)
    requires Inv(s)
    ensures var executed, order := s.pipelines.executed, s.admission.order;
      && Increasing(executed)
      && forall i :: 0 <= i < |executed| ==>
        !executed[i].isFlush && executed[i].number < |order| && order[executed[i].number] == executed[i]
  {
    hide Requests, Sum, Slots, TokensConserved, SlotConserved, Locking, Batching, DrainsLate, Accounted, Kinds, Barrier,
      InOrder, Unsent;
    var executed, all := s.pipelines.executed, s.pipelines.executed + Unsent(s.gather);
    forall i | 0 <= i < |executed|
      ensures executed[i] == all[i] && !executed[i].isFlush
      ensures executed[i].number < |s.admission.order| && s.admission.order[executed[i].number] == executed[i]
    {
      assert executed[i] == all[i] && executed[i] in all;
      HandledBefore(s.admission, s.gather, executed[i]);
      HandledWithin(s.admission, s.gather);
    }
  }

  lemma HandledWithin(a: Admission, g: Gather)
    requires InOrder(a, g)
    ensures |g.handled| <= |a.order|
  {
  }

  // ----- the loop

  /** Waiting at its head, the loop has a running timer exactly when it has a batch, which is not full. */
  lemma HeadIsTimed(size: nat, maxSize: nat, actions: seq<Action>)
    requires maxSize > 0
    ensures var g := Run(Initial(size, maxSize), actions).gather;
      g.loop.Head? ==> (g.timer <==> g.batch != []) && |g.batch| < g.maxSize
  {
    hide Run, Requests, Sum, Slots, Increasing;
    Reachable(size, maxSize, actions);
  }

  // ----- channels

  /** Whoever is about to send to a channel finds room in it. */
  lemma SendsNeverBlock(size: nat, maxSize: nat, actions: seq<Action>)
    requires maxSize > 0
    ensures var s := Run(Initial(size, maxSize), actions);
      && (forall c :: s.admission.Is(c, Sending) ==> |s.admission.queue| < s.admission.size)
      && (forall c :: s.admission.Is(c, Returning) ==> s.admission.free < s.admission.size)
      && (s.gather.loop.Took? ==> s.admission.free < s.admission.size)
      && (s.pipelines.workers != map[] ==> !s.pipelines.slotFree)
  {
    hide Run, Requests, Sum, Slots, Increasing;
    Reachable(size, maxSize, actions);
    var s := Run(Initial(size, maxSize), actions);
    forall c | c in s.admission.callers && s.admission.callers[c].stage.HasSlot()
      ensures Sum(Slots(s.admission.callers)) >= 1
    {
      SlotCounts(s.admission.callers, c);
    }
    if s.pipelines.workers != map[] {
      var j :| j in s.pipelines.workers;
      assert |s.pipelines.workers| == |s.pipelines.workers.Keys| && j in s.pipelines.workers.Keys;
    }
  }

  lemma SlotCounts(callers: map<nat, Caller>, c: nat)
    requires c in callers && callers[c].stage.HasSlot()
    ensures Sum(Slots(callers)) >= 1
  {
    hide Sum;
    SumAtLeast(Slots(callers), c);
  }

  // ----- shutdown

  lemma ClosedStep(s: Batcher, a: Action)
    requires Inv(s) && s.Closed()
    ensures Step(s, a).Closed() && Step(s, a).admission.order == s.admission.order
  {
    hide TokensConserved, SlotConserved, Batching, DrainsLate, InOrder, Accounted, ExecutesInOrder, Kinds, Barrier,
      Gather.Dispatch, Gather.DrainEmpty, Gather.Filter, Gather.GiveUp, Gather.Deliver, Gather.StartFlush;
    if IsAdmission(a) {
      AdmitLocking(s.admission, a);
      AdmitIsStep(s, a);
    }
  }

  /** Once the batcher is closed nothing more is accepted, whatever happens. */
  lemma {:induction false} NothingAcceptedAfterClose(s: Batcher, actions: seq<Action>)
    requires Inv(s) && s.Closed()
    ensures Run(s, actions).admission.order == s.admission.order
    decreases |actions|
  {
    hide Inv, Step, Batcher.Closed;
    if actions != [] {
      ClosedStep(s, actions[0]);
      StepKeeps(s, actions[0]);
      NothingAcceptedAfterClose(Step(s, actions[0]), actions[1..]);
    }
  }

  lemma LastFlushIsClosed(s: Batcher)
    requires Inv(s) && InLastFlush(s.gather.loop)
    ensures s.Closed() && s.admission.queue == []
  {
    hide Requests, Sum, Slots, Increasing;
  }

  /** Once the drain has found nothing queued, nothing is ever queued again. */
  lemma {:induction false} DrainIsFinal(s: Batcher, actions: seq<Action>)
    requires Inv(s) && InLastFlush(s.gather.loop)
    ensures var t := Run(s, actions);
      t.admission.order == s.admission.order && t.admission.queue == [] && InLastFlush(t.gather.loop)
    decreases |actions|
  {
    hide Inv, Step, Batcher.Closed, InLastFlush;
    LastFlushIsClosed(s);
    if actions != [] {
      ClosedStep(s, actions[0]);
      StepKeeps(s, actions[0]);
      StaysLast(s, actions[0]);
      DrainIsFinal(Step(s, actions[0]), actions[1..]);
    }
  }

  lemma StaysLast(s: Batcher, a: Action)
    requires Inv(s) && InLastFlush(s.gather.loop)
    ensures InLastFlush(Step(s, a).gather.loop)
  {
    hide Requests, Sum, Slots, Increasing, TokensConserved, SlotConserved, Batching, InOrder, Accounted, ExecutesInOrder, Kinds, Barrier, Locking;
  }

  ghost function Stage(loop: Loop): nat {
    if loop.Took? then 7 else if loop.Have? then 6 else if loop.Filtering? then 5 else if loop.Acquiring? then 4
    else if loop.Starting? then 3 else if loop.Awaiting? then 2 else 1
  }

  /** How much of the drain is left. */
  ghost function Remaining(s: Batcher): nat {
    var loop := s.gather.loop;
    if loop.Stopped? then 0
    else if InLastFlush(loop) then Stage(loop)
    else 10 + 8 * |s.admission.queue| + Stage(loop)
  }

  /** What the loop can do next by itself, given that its contexts expire. */
  ghost function NextOfDrain(s: Batcher): Action {
    match s.gather.loop
    case Took(_, _) => ReturnLoopSlot
    case Have(_, _) => Dispatch
    case Filtering(_) => Filter({})
    case Acquiring(_, _) => GiveUp(true)
    case Starting(_, _) => Spawn
    case Awaiting(_, _, _) => GiveUp(true)
    case Quiescing => StopWaiting
    case _ => if s.admission.queue == [] then DrainEmpty else Receive
  }

  /** No action sets the drain back. */
  lemma DrainNeverGrows(s: Batcher, a: Action)
    requires Inv(s) && InDrain(s.gather.loop)
    ensures InDrain(Step(s, a).gather.loop) && Remaining(Step(s, a)) <= Remaining(s)
    ensures Step(s, a).gather.loop != s.gather.loop ==> Remaining(Step(s, a)) < Remaining(s)
  {
    hide Inv, Step, Locking;
    DrainIsClosed(s);
    ClosedQueue(s, a);
    LoopFalls(s, a);
  }

  /** A draining loop takes a request from the queue, or comes closer to its next look at it, or to its end. */
  lemma LoopFalls(s: Batcher, a: Action)
    requires InDrain(s.gather.loop)
    ensures var before, after := s.gather.loop, Step(s, a).gather.loop;
      && InDrain(after) && (InLastFlush(before) ==> InLastFlush(after))
      && (after != before ==>
        || Falls(before, after)
        || (before.DrainHead? && after.Took? && a.Receive? && |Step(s, a).admission.queue| == |s.admission.queue| - 1))
      && (a.Receive? ==> |Step(s, a).admission.queue| <= |s.admission.queue|)
  {
    hide Gather.Dispatch, Gather.DrainEmpty, Gather.Filter, Gather.GiveUp, Gather.Deliver, Gather.StartFlush,
      Gather.FinishFlush, Admission.Reserve, Admission.Abandon, Admission.ReadLock, Admission.Check, Admission.Send,
      Admission.ReadUnlock, Admission.ReturnSlot, Admission.CloseStep, Pipelines.Spawn, Pipelines.Report, Pipelines.ReturnSlot;
    var done, expired := if a.Filter? then a.done else {}, if a.GiveUp? || a.TakeResult? then a.expired else false;
    var outcome := if a.TakeResult? && s.gather.loop.Awaiting? && s.gather.loop.job in s.pipelines.results
      then s.pipelines.results[s.gather.loop.job] else Broke(WrongCount);
    GatherFalls(s.gather, done, outcome, expired, s.Closed());
  }

  ghost predicate Falls(before: Loop, after: Loop) {
    !before.Stopped? && (after.Stopped? || (!InLastFlush(before) && InLastFlush(after)) || Stage(after) < Stage(before))
  }

  lemma FinishFalls(g: Gather, why: Why, error: Option<Error>, expired: bool, closed: bool)
    requires !why.Regular?
    ensures var after := g.FinishFlush(why, error, expired, closed).loop;
      InDrain(after) && Stage(after) == 1 && (why.Final? ==> InLastFlush(after))
  {
  }

  lemma StartFalls(g: Gather, why: Why, closed: bool)
    requires !why.Regular?
    ensures var after := g.StartFlush(why, closed).loop;
      InDrain(after) && Stage(after) <= 5 && (why.Final? ==> InLastFlush(after))
  {
    hide Gather.FinishFlush;
    FinishFalls(g, why, None, false, closed);
  }

  lemma GatherFalls(g: Gather, done: set<nat>, outcome: Outcome, expired: bool, closed: bool)
    requires InDrain(g.loop)
    ensures g.loop.Have? ==> Drains(g.loop, g.Dispatch(closed).loop)
    ensures g.loop.DrainHead? ==> Drains(g.loop, g.DrainEmpty(closed).loop)
    ensures g.loop.Filtering? ==> Drains(g.loop, g.Filter(done, closed).loop)
    ensures g.loop.Acquiring? || g.loop.Awaiting? ==> Drains(g.loop, g.GiveUp(expired, closed).loop)
    ensures g.loop.Awaiting? ==> Drains(g.loop, g.Deliver(outcome, expired, closed).loop)
  {
    hide Gather.FinishFlush, Gather.StartFlush, Chosen;
    forall h: Gather, why: Why, error, x | !why.Regular?
      ensures var after := h.FinishFlush(why, error, x, closed).loop;
        InDrain(after) && Stage(after) == 1 && (why.Final? ==> InLastFlush(after))
    {
      FinishFalls(h, why, error, x, closed);
    }
    forall h: Gather, why: Why | !why.Regular?
      ensures var after := h.StartFlush(why, closed).loop;
        InDrain(after) && Stage(after) <= 5 && (why.Final? ==> InLastFlush(after))
    {
      StartFalls(h, why, closed);
    }
  }

  ghost predicate Drains(before: Loop, after: Loop) {
    InDrain(after) && (InLastFlush(before) ==> InLastFlush(after)) && Falls(before, after)
  }

  lemma DrainIsClosed(s: Batcher)
    requires Inv(s) && InDrain(s.gather.loop)
    ensures s.Closed() && Locking(s.admission)
  {
    hide Requests, Sum, Slots, Increasing;
  }

  lemma ClosedQueue(s: Batcher, a: Action)
    requires Locking(s.admission) && s.Closed()
    ensures !a.Receive? ==> Step(s, a).admission.queue == s.admission.queue
  {
    hide Gather.Dispatch, Gather.DrainEmpty, Gather.Filter, Gather.GiveUp, Gather.Deliver, Gather.StartFlush;
    if IsAdmission(a) {
      AdmitLocking(s.admission, a);
      AdmitIsStep(s, a);
    }
  }

  /** Until it has stopped, a draining loop can go on by itself once its context has expired. */
  lemma DrainAdvances(s: Batcher)
    requires Inv(s) && InDrain(s.gather.loop) && !s.gather.loop.Stopped?
    ensures Remaining(Step(s, NextOfDrain(s))) < Remaining(s)
  {
    hide Requests, Sum, Slots, Increasing, InOrder, Accounted, ExecutesInOrder, Kinds, Barrier;
    DrainNeverGrows(s, NextOfDrain(s));
  }

  /** Shutdown cannot deadlock: from every state of the drain the loop can reach its end. */
  lemma {:induction false} DrainCanFinish(s: Batcher) returns (actions: seq<Action>)
    requires Inv(s) && InDrain(s.gather.loop)
    ensures |actions| <= Remaining(s) && Run(s, actions).gather.loop.Stopped?
    decreases Remaining(s)
  {
    hide Inv, Step, InDrain, Remaining, NextOfDrain;
    if s.gather.loop.Stopped? {
      actions := [];
    } else {
      var next := NextOfDrain(s);
      StepKeeps(s, next);
      DrainAdvances(s);
      DrainNeverGrows(s, next);
      var rest := DrainCanFinish(Step(s, next));
      actions := [next] + rest;
      assert actions[1..] == rest;
    }
  }

  // ----- what Close returns

  lemma FinishCloseError(g: Gather, why: Why, error: Option<Error>, expired: bool, closed: bool)
    ensures g.closeError.Some? ==> g.FinishFlush(why, error, expired, closed).closeError == g.closeError
    ensures g.closeError.Some? ==> g.StartFlush(why, closed).closeError == g.closeError
    ensures !g.FinishFlush(why, error, expired, closed).loop.Stopped? && !g.StartFlush(why, closed).loop.Stopped?
  {
  }

  lemma GatherCloseError(g: Gather, done: set<nat>, outcome: Outcome, expired: bool, closed: bool)
    requires g.closeError.Some?
    ensures g.loop.Have? ==> g.Dispatch(closed).closeError == g.closeError
    ensures g.DrainEmpty(closed).closeError == g.closeError
    ensures g.loop.Filtering? ==> g.Filter(done, closed).closeError == g.closeError
    ensures g.loop.Acquiring? || g.loop.Awaiting? ==> g.GiveUp(expired, closed).closeError == g.closeError
    ensures g.loop.Awaiting? ==> g.Deliver(outcome, expired, closed).closeError == g.closeError
  {
    hide Gather.FinishFlush, Gather.StartFlush, Chosen;
    forall h: Gather, why, error, x | h.closeError == g.closeError
      ensures h.FinishFlush(why, error, x, closed).closeError == g.closeError
    {
      FinishCloseError(h, why, error, x, closed);
    }
    forall h: Gather, why | h.closeError == g.closeError ensures h.StartFlush(why, closed).closeError == g.closeError {
      FinishCloseError(h, why, None, false, closed);
    }
  }

  predicate MayFinish(a: Action) {
    a.Dispatch? || a.TimerFires? || a.DrainEmpty? || a.Filter? || a.GiveUp? || a.TakeResult?
  }

  lemma OthersKeepCloseError(s: Batcher, a: Action)
    requires s.gather.closeError.Some? && !MayFinish(a)
    ensures Step(s, a).gather.closeError == s.gather.closeError
  {
  }

  /** The first error that Close will return is the one it returns. */
  lemma FirstCloseErrorStands(s: Batcher, a: Action)
    requires s.gather.closeError.Some?
    ensures Step(s, a).gather.closeError == s.gather.closeError
  {
    hide Gather.Dispatch, Gather.DrainEmpty, Gather.Filter, Gather.GiveUp, Gather.Deliver, Gather.StartFlush, Gather.FinishFlush;
    var g, closed := s.gather, s.Closed();
    if !MayFinish(a) {
      OthersKeepCloseError(s, a);
    } else {
      FinishCloseError(g.(timer := false), Regular(None), None, false, closed);
      var done, expired := if a.Filter? then a.done else {}, if a.GiveUp? || a.TakeResult? then a.expired else false;
      var outcome :=
        if g.loop.Awaiting? && g.loop.job in s.pipelines.results then s.pipelines.results[g.loop.job] else Broke(WrongCount);
      GatherCloseError(g, done, outcome, expired, closed);
    }
  }

  ghost predicate StoppedCleanly(s: Batcher) {
    s.gather.loop.Stopped? ==> s.gather.closeError.Some? || s.pipelines.workers == map[]
  }

  lemma StopsCleanly(s: Batcher, a: Action)
    requires Inv(s) && StoppedCleanly(s)
    ensures StoppedCleanly(Step(s, a))
  {
    hide Requests, Sum, Slots, Increasing, TokensConserved, Locking, Batching, InOrder, Accounted, ExecutesInOrder, Kinds,
      Barrier, DrainsLate, Gather.Dispatch, Gather.DrainEmpty, Gather.Filter, Gather.GiveUp, Gather.Deliver, Gather.StartFlush;
    if s.gather.loop.Stopped? {
      assert s.pipelines.workers == map[] ==> Step(s, a).pipelines.workers == map[];
      if s.gather.closeError.Some? { FirstCloseErrorStands(s, a); }
    } else if !a.Quiesce? && !a.StopWaiting? {
      OnlyTheseStop(s, a);
    }
  }

  lemma OnlyTheseStop(s: Batcher, a: Action)
    requires !s.gather.loop.Stopped? && !a.Quiesce? && !a.StopWaiting?
    ensures !Step(s, a).gather.loop.Stopped?
  {
    hide Gather.FinishFlush, Gather.StartFlush, Chosen;
    var closed := s.Closed();
    forall h: Gather, why, error, x ensures !h.FinishFlush(why, error, x, closed).loop.Stopped? {
      FinishCloseError(h, why, error, x, closed);
    }
    forall h: Gather, why ensures !h.StartFlush(why, closed).loop.Stopped? {
      FinishCloseError(h, why, None, false, closed);
    }
  }

  lemma {:induction false} StopsCleanlyRun(s: Batcher, actions: seq<Action>)
    requires Inv(s) && StoppedCleanly(s)
    ensures StoppedCleanly(Run(s, actions))
    decreases |actions|
  {
    hide Inv, Step, StoppedCleanly;
    if actions != [] {
      StopsCleanly(s, actions[0]);
      StepKeeps(s, actions[0]);
      StopsCleanlyRun(Step(s, actions[0]), actions[1..]);
    }
  }

  /** When Close reports no error, no pipeline is executing any more. */
  lemma CleanClose(size: nat, maxSize: nat, actions: seq<Action>)
    requires maxSize > 0
    ensures var s := Run(Initial(size, maxSize), actions);
      s.gather.loop.Stopped? && s.gather.closeError.None? ==> s.pipelines.workers == map[]
  {
    hide Inv, Run;
    InitialInv(size, maxSize);
    StopsCleanlyRun(Initial(size, maxSize), actions);
  }
}
