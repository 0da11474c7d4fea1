/**
  The batcher gets somewhere: while it is open and has room a request can be
  accepted, and from every state of every run Close can complete.
*/
module AutoBatchProgress {
  import opened MapSums
  import opened Results
  import opened AutoBatchSystem
  import opened AutoBatchInvariants
  import opened AutoBatchGuarantees

  // ----- acceptance

  function Submission(c: nat, isFlush: bool): seq<Action> {
    [Reserve(isFlush), ReadLock(c), Check(c), Send(c), ReadUnlock(c)]
  }

  lemma RunFive(s: Batcher, a: Action, b: Action, c: Action, d: Action, e: Action)
    ensures Run(s, [a, b, c, d, e]) == Step(Step(Step(Step(Step(s, a), b), c), d), e)
  {
    hide Step, Run;
    var s1 := Step(s, a);
    var s2 := Step(s1, b);
    var s3 := Step(s2, c);
    RunFirst(s, a, [b, c, d, e]);
    RunFirst(s1, b, [c, d, e]);
    RunFirst(s2, c, [d, e]);
    RunFirst(s3, d, [e]);
    RunOne(Step(s3, d), e);
    assert [a] + [b, c, d, e] == [a, b, c, d, e] && [b] + [c, d, e] == [b, c, d, e];
    assert [c] + [d, e] == [c, d, e] && [d] + [e] == [d, e];
  }

  lemma RunFirst(s: Batcher, a: Action, rest: seq<Action>)
    ensures Run(s, [a] + rest) == Run(Step(s, a), rest)
  {
    hide Step;
    assert ([a] + rest)[1..] == rest;
  }

  /** An open batcher with a free slot accepts a request, as the next one in order, whatever else goes on. */
  lemma SubmissionSucceeds(s: Batcher, isFlush: bool)
    requires Inv(s) && s.admission.closer.Idle? && s.admission.free > 0
    ensures var t, request := Run(s, Submission(s.admission.nextCaller, isFlush)), Request(|s.admission.order|, isFlush);
      && t.admission.order == s.admission.order + [request] && t.admission.queue == s.admission.queue + [request]
      && t.admission.free == s.admission.free - 1 && t.gather == s.gather && t.pipelines == s.pipelines
  {
    hide Run, Inv;
    var c := s.admission.nextCaller;
    RoomInQueue(s);
    RunFive(s, Reserve(isFlush), ReadLock(c), Check(c), Send(c), ReadUnlock(c));
    var s1 := Step(s, Reserve(isFlush));
    assert s1.admission.Is(c, Reserved);
    var s2 := Step(s1, ReadLock(c));
    assert s2.admission.Is(c, Checking);
    var s3 := Step(s2, Check(c));
    assert s3.admission.Is(c, Sending) && s3.admission.callers[c].isFlush == isFlush;
    var s4 := Step(s3, Send(c));
    assert s4.admission.Is(c, Unlocking);
  }

  lemma RoomInQueue(s: Batcher)
    requires Inv(s) && s.admission.free > 0
    ensures |s.admission.queue| < s.admission.size
  {
    hide Locking, SlotConserved, Batching, DrainsLate, InOrder, Accounted, ExecutesInOrder, Kinds, Barrier;
  }

  // ----- runs one after the other

  lemma {:induction false} RunJoin(s: Batcher, a: seq<Action>, b: seq<Action>)
    ensures Run(s, a + b) == Run(Run(s, a), b)
    decreases |a|
  {
    hide Step;
    if a == [] {
      assert a + b == b;
    } else {
      RunJoin(Step(s, a[0]), a[1..], b);
      assert (a + b)[1..] == a[1..] + b && (a + b)[0] == a[0];
    }
  }

  lemma {:induction false} RunKeepsInv(s: Batcher, actions: seq<Action>)
    requires Inv(s)
    ensures Inv(Run(s, actions))
    decreases |actions|
  {
    hide Inv, Step;
    if actions != [] {
      StepKeeps(s, actions[0]);
      RunKeepsInv(Step(s, actions[0]), actions[1..]);
    }
  }

  // ----- a command is served

  /** The loop is at rest: nothing is queued or gathered, and no pipeline runs. */
  ghost predicate AtRest(s: Batcher) {
    s.gather.loop.Head? && s.admission.queue == [] && s.gather.batch == [] && s.pipelines.slotFree
  }

  /** One command is in the batch, about to be filtered. */
  ghost predicate Gathered(s: Batcher, t: Batcher, r: Request) {
    && t.gather.loop == Filtering(Regular(None)) && t.gather.batch == [r] && t.gather.answers == s.gather.answers
    && t.pipelines == s.pipelines
  }

  lemma LoneIsGathered(s: Batcher, r: Request) returns (actions: seq<Action>)
    requires Inv(s) && s.gather.loop.Head? && s.admission.queue == [r] && s.gather.batch == [] && !r.isFlush
    requires s.admission.free < s.admission.size
    ensures Gathered(s, Run(s, actions), r)
  {
    hide Run, Inv;
    BatchRule(s);
    var taken := Step(s, Receive);
    var have := Step(taken, ReturnLoopSlot);
    assert have.gather.loop == Have(r, false) && have.gather.batch == [] && have.gather.terminal.None?;
    var dispatched := Step(have, Dispatch);
    assert dispatched.gather.batch == [r];
    RunFirst(s, Receive, [ReturnLoopSlot] + [Dispatch]);
    RunFirst(taken, ReturnLoopSlot, [Dispatch]);
    RunOne(have, Dispatch);
    actions := [Receive] + ([ReturnLoopSlot] + [Dispatch]);
    if s.gather.maxSize > 1 {
      assert dispatched.gather.loop.Head? && dispatched.gather.timer;
      RunJoin(s, actions, [TimerFires]);
      RunOne(dispatched, TimerFires);
      actions := actions + [TimerFires];
    }
  }

  lemma BatchRule(s: Batcher)
    requires Inv(s) && s.gather.loop.Head?
    ensures s.gather.terminal.None? && s.gather.maxSize > 0 && (s.gather.timer <==> s.gather.batch != [])
  {
    hide TokensConserved, Locking, SlotConserved, DrainsLate, InOrder, Accounted, ExecutesInOrder, Kinds, Barrier;
  }

  lemma Filtered(s: Batcher, r: Request)
    requires s.gather.loop == Filtering(Regular(None)) && s.gather.batch == [r]
    ensures var t := Step(s, Filter({}));
      t.gather.loop == Acquiring([r], Regular(None)) && t.gather.answers == s.gather.answers && t.pipelines == s.pipelines
  {
    OneChosen(r);
  }

  lemma Started(s: Batcher, r: Request)
    requires s.gather.loop == Acquiring([r], Regular(None)) && s.pipelines.slotFree
    ensures var t := Step(Step(s, AcquireSlot), Spawn);
      && t.gather == s.gather.(loop := Awaiting([r], s.pipelines.nextJob, Regular(None)))
      && s.pipelines.nextJob in t.pipelines.workers && t.pipelines.workers[s.pipelines.nextJob].Running?
  {
  }

  lemma Finished(s: Batcher, r: Request, job: nat, value: Answer)
    requires s.gather.loop == Awaiting([r], job, Regular(None)) && job in s.pipelines.workers && s.pipelines.workers[job].Running?
    ensures var t := Step(s, Report(job, Succeeded([value])));
      t.gather == s.gather && job in t.pipelines.results && t.pipelines.results[job] == Succeeded([value])
  {
  }

  lemma GatheredIsServed(s: Batcher, r: Request, value: Answer) returns (actions: seq<Action>)
    requires s.gather.loop == Filtering(Regular(None)) && s.gather.batch == [r] && s.pipelines.slotFree
    ensures Run(s, actions).gather.answers == s.gather.answers + [Reply(r, value)]
    ensures Run(s, actions).gather.loop.Head?
  {
    hide Run, Step;
    var job := s.pipelines.nextJob;
    Filtered(s, r);
    var filtered := Step(s, Filter({}));
    Started(filtered, r);
    var spawned := Step(Step(filtered, AcquireSlot), Spawn);
    Finished(spawned, r, job, value);
    RunFive(s, Filter({}), AcquireSlot, Spawn, Report(job, Succeeded([value])), TakeResult(false));
    actions := [Filter({}), AcquireSlot, Spawn, Report(job, Succeeded([value])), TakeResult(false)];
    Delivered(Step(spawned, Report(job, Succeeded([value]))), r, value);
  }

  lemma OneChosen(r: Request)
    ensures Chosen([r], {}, true) == [] && Chosen([r], {}, false) == [r]
  {
    assert [r][1..] == [] && Chosen([], {}, true) == [] && Chosen([], {}, false) == [];
  }

  lemma Delivered(s: Batcher, r: Request, value: Answer)
    requires s.gather.loop.Awaiting? && s.gather.loop.active == [r] && s.gather.loop.why == Regular(None)
    requires s.gather.loop.job in s.pipelines.results && s.pipelines.results[s.gather.loop.job] == Succeeded([value])
    ensures var t := Step(s, TakeResult(false));
      t.gather.answers == s.gather.answers + [Reply(r, value)] && t.gather.loop.Head?
  {
  }

  /** A command that comes to a batcher at rest can be accepted, sent and answered with what its pipeline returned. */
  lemma CommandIsServed(s: Batcher, value: Answer) returns (actions: seq<Action>)
    requires Inv(s) && AtRest(s) && s.admission.closer.Idle? && s.admission.free > 0
    ensures Run(s, actions).gather.answers == s.gather.answers + [Reply(Request(|s.admission.order|, false), value)]
  {
    hide Run, Inv, Gathered;
    var submission := Submission(s.admission.nextCaller, false);
    var r := Request(|s.admission.order|, false);
    SubmissionSucceeds(s, false);
    RunKeepsInv(s, submission);
    var accepted := Run(s, submission);
    FreeWithin(s);
    SizeStays(s, submission);
    var gathering := LoneIsGathered(accepted, r);
    var gathered := Run(accepted, gathering);
    GatheredMeans(accepted, gathered, r);
    var serving := GatheredIsServed(gathered, r, value);
    RunJoin(s, submission, gathering);
    RunJoin(s, submission + gathering, serving);
    actions := submission + gathering + serving;
  }

  lemma GatheredMeans(s: Batcher, t: Batcher, r: Request)
    requires Gathered(s, t, r)
    ensures t.gather.loop == Filtering(Regular(None)) && t.gather.batch == [r] && t.gather.answers == s.gather.answers
    ensures t.pipelines == s.pipelines
  {
  }

  lemma FreeWithin(s: Batcher)
    requires Inv(s)
    ensures s.admission.free <= s.admission.size
  {
    hide Locking, SlotConserved, Batching, DrainsLate, InOrder, Accounted, ExecutesInOrder, Kinds, Barrier;
  }

  lemma {:induction false} SizeStays(s: Batcher, actions: seq<Action>)
    ensures Run(s, actions).admission.size == s.admission.size
    decreases |actions|
  {
    hide Step;
    if actions != [] {
      SizeStaysOnce(s, actions[0]);
      SizeStays(Step(s, actions[0]), actions[1..]);
    }
  }

  lemma SizeStaysOnce(s: Batcher, a: Action)
    ensures Step(s, a).admission.size == s.admission.size
  {
  }

  // ----- the loop comes back to its head

  /** What the loop can do next by itself, given that its contexts expire. */
  ghost function NextOfLoop(loop: Loop): Action {
    match loop
    case Took(_, _) => ReturnLoopSlot
    case Have(_, _) => Dispatch
    case Filtering(_) => Filter({})
    case Starting(_, _) => Spawn
    case _ => GiveUp(true)
  }

  lemma FinishReturns(g: Gather, why: Why, error: Option<Error>, expired: bool, closed: bool)
    requires why.Regular?
    ensures g.FinishFlush(why, error, expired, closed).loop == Head
  {
  }

  lemma StartReturns(g: Gather, why: Why, closed: bool)
    requires why.Regular?
    ensures g.StartFlush(why, closed).loop in {Head, Filtering(why)}
  {
    hide Gather.FinishFlush;
    if g.batch == [] { FinishReturns(g, why, None, false, closed); }
  }

  lemma GatherReturns(g: Gather, closed: bool)
    requires !InDrain(g.loop)
    ensures g.loop.Have? ==> var after := g.Dispatch(closed).loop; !InDrain(after) && Phase(after) < Phase(g.loop)
    ensures g.loop.Filtering? ==> var after := g.Filter({}, closed).loop; !InDrain(after) && Phase(after) < Phase(g.loop)
    ensures g.loop.Acquiring? || g.loop.Awaiting? ==> g.GiveUp(true, closed).loop == Head
  {
    hide Gather.FinishFlush, Gather.StartFlush, Chosen;
    forall h: Gather, why: Why, error, x | why.Regular? ensures h.FinishFlush(why, error, x, closed).loop == Head {
      FinishReturns(h, why, error, x, closed);
    }
    forall h: Gather, why: Why | why.Regular? ensures h.StartFlush(why, closed).loop in {Head, Filtering(why)} {
      StartReturns(h, why, closed);
    }
  }

  ghost function Phase(loop: Loop): nat {
    if loop.Took? then 6 else if loop.Have? then 5 else if loop.Filtering? then 4 else if loop.Acquiring? then 3
    else if loop.Starting? then 2 else if loop.Awaiting? then 1 else 0
  }

  lemma LoopAdvances(s: Batcher)
    requires Inv(s) && !InDrain(s.gather.loop) && !s.gather.loop.Head?
    ensures var t := Step(s, NextOfLoop(s.gather.loop)); !InDrain(t.gather.loop) && Phase(t.gather.loop) < Phase(s.gather.loop)
  {
    hide Inv, Gather.Dispatch, Gather.Filter, Gather.GiveUp;
    GatherReturns(s.gather, s.Closed());
    if s.gather.loop.Took? { SlotMissing(s); }
  }

  lemma SlotMissing(s: Batcher)
    requires Inv(s) && s.gather.loop.Took?
    ensures s.admission.free < s.admission.size
  {
    hide Locking, SlotConserved, Batching, DrainsLate, InOrder, Accounted, ExecutesInOrder, Kinds, Barrier;
  }

  lemma {:induction false} LoopComesBack(s: Batcher) returns (actions: seq<Action>)
    requires Inv(s) && !InDrain(s.gather.loop)
    ensures Run(s, actions).gather.loop == Head
    decreases Phase(s.gather.loop)
  {
    hide Inv, Step, InDrain, Phase, NextOfLoop;
    actions := [];
    if !s.gather.loop.Head? {
      var next := NextOfLoop(s.gather.loop);
      LoopAdvances(s);
      StepKeeps(s, next);
      var rest := LoopComesBack(Step(s, next));
      actions := [next] + rest;
      assert actions[1..] == rest;
    }
  }

  // ----- callers let go of the lock

  function Weight(stage: Stage): nat {
    if stage.Checking? then 3 else if stage.Sending? then 2 else if stage.Unlocking? then 1 else 0
  }

  ghost function Weights(callers: map<nat, Caller>): map<nat, nat> {
    map c | c in callers :: Weight(callers[c].stage)
  }

  lemma WeightSet(callers: map<nat, Caller>, c: nat, caller: Caller)
    requires c in callers
    ensures Sum(Weights(callers[c := caller])) == Sum(Weights(callers)) - Weight(callers[c].stage) + Weight(caller.stage)
    ensures Sum(Weights(callers - {c})) == Sum(Weights(callers)) - Weight(callers[c].stage)
  {
    hide Sum;
    SumUpdate(Weights(callers), c, Weight(caller.stage));
    SumWithout(Weights(callers), c);
    assert Weights(callers[c := caller]) == Weights(callers)[c := Weight(caller.stage)];
    assert Weights(callers - {c}) == Weights(callers) - {c};
  }

  ghost function NextOfCaller(a: Admission, c: nat): Action
    requires c in a.callers
  {
    match a.callers[c].stage
    case Checking => Check(c)
    case Sending => Send(c)
    case _ => ReadUnlock(c)
  }

  lemma CallerAdvances(s: Batcher, c: nat)
    requires Inv(s) && c in s.admission.callers && s.admission.callers[c].stage.HasLock()
    ensures var t := Step(s, NextOfCaller(s.admission, c));
      && t.gather == s.gather && t.admission.closer == s.admission.closer
      && Sum(Weights(t.admission.callers)) < Sum(Weights(s.admission.callers))
  {
    hide Sum, Inv;
    var a := s.admission;
    if a.callers[c].stage.Sending? { RoomToSend(s, c); }
    WeightSet(a.callers, c, a.callers[c].(stage := Sending));
    WeightSet(a.callers, c, a.callers[c].(stage := Returning));
    WeightSet(a.callers, c, a.callers[c].(stage := Unlocking));
  }

  lemma RoomToSend(s: Batcher, c: nat)
    requires Inv(s) && s.admission.Is(c, Sending)
    ensures |s.admission.queue| < s.admission.size
  {
    hide Locking, SlotConserved, Batching, DrainsLate, InOrder, Accounted, ExecutesInOrder, Kinds, Barrier, Sum, Slots;
    SlotCounts(s.admission.callers, c);
  }

  ghost function CloserRank(closer: Closer): nat {
    match closer
    case Idle => 3
    case Locked => 2
    case Flagged => 1
    case _ => 0
  }

  lemma CloserAdvances(s: Batcher)
    requires Inv(s) && s.admission.NoReaders() && !s.admission.closer.HasSignalled()
    ensures var t := Step(s, CloseStep);
      && t.gather == s.gather && t.admission.callers == s.admission.callers
      && CloserRank(t.admission.closer) < CloserRank(s.admission.closer)
  {
    hide Inv;
  }

  /** The lock becomes free and Close signals, while the loop waits at its head. */
  lemma {:induction false} CloseSignals(s: Batcher) returns (actions: seq<Action>)
    requires Inv(s)
    ensures Run(s, actions).gather == s.gather && Run(s, actions).admission.closer.HasSignalled()
    decreases CloserRank(s.admission.closer), Sum(Weights(s.admission.callers))
  {
    hide Inv, Step, Sum, CloserRank, NextOfCaller, Weights;
    actions := [];
    if !s.admission.closer.HasSignalled() {
      var next: Action;
      if c :| c in s.admission.callers && s.admission.callers[c].stage.HasLock() {
        next := NextOfCaller(s.admission, c);
        CallerAdvances(s, c);
      } else {
        next := CloseStep;
        CloserAdvances(s);
      }
      StepKeeps(s, next);
      var rest := CloseSignals(Step(s, next));
      actions := [next] + rest;
      assert actions[1..] == rest;
    }
  }

  // ----- shutdown

  lemma SeesClosed(s: Batcher)
    requires s.gather.loop.Head? && s.admission.closer.HasSignalled()
    ensures InDrain(Step(s, SeeClosed).gather.loop)
  {
  }

  lemma EnterDrain(s: Batcher) returns (actions: seq<Action>)
    requires Inv(s)
    ensures InDrain(Run(s, actions).gather.loop)
  {
    hide Inv, Step, Run, InDrain;
    if InDrain(s.gather.loop) {
      actions := [];
      RunNothing(s);
    } else {
      var back := LoopComesBack(s);
      RunKeepsInv(s, back);
      var signal := CloseSignals(Run(s, back));
      RunJoin(s, back, signal);
      RunJoin(s, back + signal, [SeeClosed]);
      RunOne(Run(s, back + signal), SeeClosed);
      SeesClosed(Run(s, back + signal));
      actions := back + signal + [SeeClosed];
    }
  }

  lemma RunNothing(s: Batcher)
    ensures Run(s, []) == s
  {
  }

  lemma RunOne(s: Batcher, a: Action)
    ensures Run(s, [a]) == Step(s, a)
  {
    hide Step;
    assert [a][1..] == [];
  }

  /** From every state of every run the batcher can be closed and its loop can end: nothing is ever stuck. */
  lemma CloseCanComplete(size: nat, maxSize: nat, actions: seq<Action>) returns (more: seq<Action>)
    requires maxSize > 0
    ensures Run(Initial(size, maxSize), actions + more).gather.loop.Stopped?
  {
    hide Inv, Step, Run, InDrain;
    Reachable(size, maxSize, actions);
    var s := Run(Initial(size, maxSize), actions);
    var enter := EnterDrain(s);
    RunKeepsInv(s, enter);
    var finish := DrainCanFinish(Run(s, enter));
    RunJoin(s, enter, finish);
    more := enter + finish;
    RunJoin(Initial(size, maxSize), actions, more);
  }
}
