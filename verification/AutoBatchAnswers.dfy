/**
  What every answer of the automatic batcher says, and why: a flush request hears
  the outcome of its own flush, a command the result or the failure of its own
  pipeline, and Close the first error of a flush after closing.
*/
module AutoBatchAnswers {
  import opened Results
  import opened AutoBatchSystem
  import opened AutoBatchInvariants

  // ----- how a flush ends

  /** The loop stops waiting for the pipeline slot or for the pipeline. */
  ghost predicate GivesUp(s: Batcher, a: Action) {
    && a.GiveUp? && (s.gather.loop.Acquiring? || s.gather.loop.Awaiting?)
    && (a.expired || s.admission.closer.HasSignalled())
  }

  ghost predicate TakesResult(s: Batcher, a: Action) {
    a.TakeResult? && s.gather.loop.Awaiting? && s.gather.loop.job in s.pipelines.results
  }

  /** The error that this action ends a flush with. */
  ghost function FlushError(s: Batcher, a: Action): Option<Error> {
    if GivesUp(s, a) then Some(DeadlineExceeded)
    else if !TakesResult(s, a) then None
    else
      match s.pipelines.results[s.gather.loop.job]
      case Broke(error) => Some(error)
      case Succeeded(values) => if |values| == |s.gather.loop.active| then None else Some(WrongCount)
  }

  /** The values that the pipeline returned, one for each request that was sent to it. */
  ghost function Values(s: Batcher, a: Action): seq<Answer> {
    if TakesResult(s, a) && FlushError(s, a).None? then s.pipelines.results[s.gather.loop.job].values else []
  }

  // ----- what an action tells

  function Failures(requests: seq<Request>, error: Error): seq<Reply> {
    seq(|requests|, i requires 0 <= i < |requests| => Reply(requests[i], Failed(error)))
  }

  /** Whoever asked for the flush hears how it ended. */
  function AskerReplies(why: Why, error: Option<Error>): seq<Reply> {
    match why
    case Final => []
    case Regular(None) => []
    case Draining(None) => []
    case Regular(Some(r)) => [Reply(r, match error case None => Flushed case Some(e) => Failed(e))]
    case Draining(Some(r)) => [Reply(r, match error case None => Flushed case Some(e) => Failed(e))]
  }

  /** The gathering goes on from `g` to `h` with these replies, this terminal error and this error for Close. */
  ghost predicate GoesOn(g: Gather, h: Gather, replies: seq<Reply>, terminal: Option<Error>, closeError: Option<Error>) {
    h.answers == g.answers + replies && h.terminal == terminal && h.closeError == closeError
  }

  /** Closing reports the first error of a flush that ends after it. */
  ghost function Noted(was: Option<Error>, closed: bool, error: Option<Error>): Option<Error> {
    if was.Some? || !closed then was else error
  }

  /** A flush of the drain that fails when the drain's time is up leaves nothing but this error to tell. */
  ghost function TerminalAfter(was: Option<Error>, why: Why, error: Option<Error>, expired: bool): Option<Error> {
    if why.Draining? && error.Some? && expired then Some(DeadlineExceeded) else was
  }

  lemma FinishTells(g: Gather, why: Why, error: Option<Error>, expired: bool, closed: bool)
    ensures GoesOn(g, g.FinishFlush(why, error, expired, closed), AskerReplies(why, error),
      TerminalAfter(g.terminal, why, error, expired), Noted(g.closeError, closed, error))
  {
  }

  lemma StartTells(g: Gather, why: Why, closed: bool)
    ensures GoesOn(g, g.StartFlush(why, closed), if g.batch == [] then AskerReplies(why, None) else [], g.terminal, g.closeError)
  {
    hide Gather.FinishFlush, AskerReplies;
    if g.batch == [] { FinishTells(g, why, None, false, closed); }
  }

  lemma FailTells(g: Gather, requests: seq<Request>, error: Error)
    ensures g.FailAll(requests, error).answers == g.answers + Failures(requests, error)
    ensures g.FailAll(requests, error) == g.(answers := g.FailAll(requests, error).answers)
  {
  }

  lemma GiveUpTells(g: Gather, expired: bool, closed: bool)
    requires g.loop.Acquiring? || g.loop.Awaiting?
    ensures GoesOn(g, g.GiveUp(expired, closed),
      Failures(g.loop.active, DeadlineExceeded) + AskerReplies(g.loop.why, Some(DeadlineExceeded)),
      TerminalAfter(g.terminal, g.loop.why, Some(DeadlineExceeded), expired), Noted(g.closeError, closed, Some(DeadlineExceeded)))
  {
    hide Gather.FinishFlush, Gather.FailAll, AskerReplies, Failures;
    FailTells(g, g.loop.active, DeadlineExceeded);
    FinishTells(g.FailAll(g.loop.active, DeadlineExceeded), g.loop.why, Some(DeadlineExceeded), expired, closed);
  }

  function Paired(requests: seq<Request>, values: seq<Answer>): seq<Reply>
    requires |values| == |requests|
  {
    seq(|requests|, i requires 0 <= i < |requests| => Reply(requests[i], values[i]))
  }

  lemma DeliverTells(g: Gather, outcome: Outcome, expired: bool, closed: bool)
    requires g.loop.Awaiting?
    ensures var error := match outcome
        case Broke(e) => Some(e)
        case Succeeded(values) => if |values| == |g.loop.active| then None else Some(WrongCount);
      GoesOn(g, g.Deliver(outcome, expired, closed),
        (if error.Some? then Failures(g.loop.active, error.value) else Paired(g.loop.active, outcome.values))
        + AskerReplies(g.loop.why, error),
        TerminalAfter(g.terminal, g.loop.why, error, expired), Noted(g.closeError, closed, error))
  {
    hide Gather.FinishFlush, Gather.FailAll, AskerReplies, Failures;
    var active, why := g.loop.active, g.loop.why;
    if outcome.Succeeded? && |outcome.values| == |active| {
      var h := g.AnswerAll(active, outcome.values);
      assert h.answers == g.answers + Paired(active, outcome.values);
      FinishTells(h, why, None, expired, closed);
    } else {
      var error := if outcome.Broke? then outcome.error else WrongCount;
      FailTells(g, active, error);
      FinishTells(g.FailAll(active, error), why, Some(error), expired, closed);
    }
  }

  lemma FilterTells(g: Gather, done: set<nat>, closed: bool)
    requires g.loop.Filtering?
    ensures GoesOn(g, g.Filter(done, closed),
      Failures(Chosen(g.batch, done, true), ContextDone)
      + (if Chosen(g.batch, done, false) == [] then AskerReplies(g.loop.why, None) else []),
      g.terminal, g.closeError)
  {
    hide Gather.FinishFlush, Gather.FailAll, AskerReplies, Failures, Chosen;
    var gone := Chosen(g.batch, done, true);
    FailTells(g, gone, ContextDone);
    var h := g.FailAll(gone, ContextDone).(batch := []);
    FinishTells(h, g.loop.why, None, false, closed);
    assert g.answers + Failures(gone, ContextDone) + [] == g.answers + Failures(gone, ContextDone);
  }

  /** What dispatching says: a terminal error to whatever comes, and success to a flush with nothing to flush. */
  ghost function DispatchReplies(g: Gather): seq<Reply>
    requires g.loop.Have?
  {
    var r := g.loop.request;
    if g.loop.draining && g.terminal.Some? then [Reply(r, Failed(g.terminal.value))]
    else if r.isFlush && g.batch == [] then [Reply(r, Flushed)]
    else []
  }

  lemma DispatchTells(g: Gather, closed: bool)
    requires g.loop.Have?
    ensures GoesOn(g, g.Dispatch(closed), DispatchReplies(g), g.terminal, g.closeError)
  {
    hide Gather.StartFlush;
    var r, draining := g.loop.request, g.loop.draining;
    var h := g.(handled := g.handled + [r]);
    var asked := if draining then Draining(Some(r)) else Regular(Some(r));
    StartTells(h, asked, closed);
    var t := h.(batch := h.batch + [r], timer := h.timer || (!draining && h.batch == []));
    StartTells(t, if draining then Draining(None) else Regular(None), closed);
  }

  lemma DrainTells(g: Gather, closed: bool)
    ensures GoesOn(g, g.DrainEmpty(closed), if g.terminal.Some? then Failures(g.batch, g.terminal.value) else [], g.terminal, g.closeError)
  {
    hide Gather.StartFlush, Gather.FailAll, Failures;
    StartTells(g, Final, closed);
    if g.terminal.Some? { FailTells(g, g.batch, g.terminal.value); }
  }

  // ----- one action

  /** All that an action tells. */
  ghost function News(s: Batcher, a: Action): seq<Reply> {
    var g := s.gather;
    if GivesUp(s, a) then Failures(g.loop.active, DeadlineExceeded) + AskerReplies(g.loop.why, Some(DeadlineExceeded))
    else if TakesResult(s, a) then
      (if FlushError(s, a).Some? then Failures(g.loop.active, FlushError(s, a).value) else Paired(g.loop.active, Values(s, a)))
      + AskerReplies(g.loop.why, FlushError(s, a))
    else if a.Filter? && g.loop.Filtering? then
      Failures(Chosen(g.batch, a.done, true), ContextDone)
      + (if Chosen(g.batch, a.done, false) == [] then AskerReplies(g.loop.why, None) else [])
    else if a.Dispatch? && g.loop.Have? then DispatchReplies(g)
    else if a.DrainEmpty? && g.loop.DrainHead? && s.admission.queue == [] && g.terminal.Some? then Failures(g.batch, g.terminal.value)
    else []
  }

  predicate Flushes(a: Action) {
    a.Dispatch? || a.TimerFires? || a.DrainEmpty? || a.Filter? || a.GiveUp? || a.TakeResult?
  }

  lemma OthersTellNothing(s: Batcher, a: Action)
    requires !Flushes(a)
    ensures Step(s, a).gather.answers == s.gather.answers + News(s, a) && FlushError(s, a).None?
    ensures Step(s, a).gather.terminal == s.gather.terminal
    ensures Step(s, a).gather.closeError ==
      if a.StopWaiting? && s.gather.loop.Quiescing? then Noted(s.gather.closeError, true, Some(DeadlineExceeded))
      else s.gather.closeError
  {
    hide Admission.Reserve, Admission.Abandon, Admission.ReadLock, Admission.Check, Admission.Send,
      Admission.ReadUnlock, Admission.ReturnSlot, Admission.CloseStep, Pipelines.Spawn, Pipelines.Report, Pipelines.ReturnSlot,
      Failures, AskerReplies, Chosen, DispatchReplies;
    assert s.gather.answers + [] == s.gather.answers;
  }

  /** What an action does to the answers, the terminal error and the error for Close. */
  ghost predicate Tells(s: Batcher, a: Action) {
    var g, h, error := s.gather, Step(s, a).gather, FlushError(s, a);
    && h.answers == g.answers + News(s, a)
    && h.terminal == (if error.Some? then TerminalAfter(g.terminal, g.loop.why, error, a.expired) else g.terminal)
    && h.closeError == if a.StopWaiting? && g.loop.Quiescing? then Noted(g.closeError, true, Some(DeadlineExceeded))
                       else Noted(g.closeError, s.Closed(), error)
  }

  lemma ResultTells(s: Batcher, a: Action)
    requires a.TakeResult?
    ensures Tells(s, a)
  {
    hide Gather.Deliver, Gather.FinishFlush, Failures, AskerReplies, Chosen, DispatchReplies, Paired;
    if TakesResult(s, a) {
      var g := s.gather;
      DeliverTells(g, s.pipelines.results[g.loop.job], a.expired, s.Closed());
      assert Step(s, a).gather == g.Deliver(s.pipelines.results[g.loop.job], a.expired, s.Closed());
      if FlushError(s, a).None? {
        assert Values(s, a) == s.pipelines.results[g.loop.job].values;
      }
    } else {
      assert s.gather.answers + [] == s.gather.answers;
    }
  }

  lemma SurrenderTells(s: Batcher, a: Action)
    requires a.GiveUp?
    ensures Tells(s, a)
  {
    hide Gather.GiveUp, Gather.FinishFlush, Failures, AskerReplies, Chosen, DispatchReplies, TerminalAfter, Paired;
    if GivesUp(s, a) {
      GiveUpTells(s.gather, a.expired, s.Closed());
    } else {
      assert s.gather.answers + [] == s.gather.answers;
    }
  }

  lemma StepTells(s: Batcher, a: Action)
    requires Inv(s)
    ensures Tells(s, a)
  {
    hide Inv, Gather.Dispatch, Gather.DrainEmpty, Gather.Filter, Gather.GiveUp, Gather.Deliver, Gather.StartFlush,
      Gather.FinishFlush, Failures, AskerReplies, Chosen, DispatchReplies, Values, TerminalAfter;
    var g, closed := s.gather, s.Closed();
    assert g.answers + [] == g.answers;
    match a
    case GiveUp(_) => SurrenderTells(s, a);
    case TakeResult(_) => ResultTells(s, a);
    case Dispatch => if g.loop.Have? { DispatchTells(g, closed); }
    case TimerFires => if g.loop.Head? && g.timer { TimerTells(s); }
    case DrainEmpty => DrainTells(g, closed);
    case Filter(done) => if g.loop.Filtering? { FilterTells(g, done, closed); }
    case _ => OthersTellNothing(s, a);
  }

  /** When the timer fires there is a batch, so nobody is told anything yet. */
  lemma TimerTells(s: Batcher)
    requires Inv(s) && s.gather.loop.Head? && s.gather.timer
    ensures var g := s.gather;
      GoesOn(g, g.(timer := false).StartFlush(Regular(None), s.Closed()), [], g.terminal, g.closeError)
  {
    hide TokensConserved, SlotConserved, InOrder, Accounted, ExecutesInOrder, Kinds, Barrier, Locking, DrainsLate, Gather.StartFlush;
    StartTells(s.gather.(timer := false), Regular(None), s.Closed());
  }

  // ----- what each answer means

  /** The reply is what the pipeline returned at the position of its request. */
  ghost predicate IsValue(s: Batcher, a: Action, reply: Reply) {
    && TakesResult(s, a) && FlushError(s, a).None? && |Values(s, a)| == |s.gather.loop.active|
    && exists i :: 0 <= i < |Values(s, a)| && reply == Reply(s.gather.loop.active[i], Values(s, a)[i])
  }

  /**
    A flush request hears the terminal error of the drain, or the error that this
    action ended its flush with, or else that everything was flushed.
  */
  ghost predicate FlushHears(s: Batcher, a: Action, answer: Answer) {
    answer ==
      if s.gather.terminal.Some? then Failed(s.gather.terminal.value)
      else if FlushError(s, a).Some? then Failed(FlushError(s, a).value)
      else Flushed
  }

  /**
    A command hears what its pipeline returned for it, or the error that its flush
    ended with, or that its context was done before it was sent, or the terminal
    error of the drain, and never that it was flushed.
  */
  ghost predicate CommandHears(s: Batcher, a: Action, reply: Reply) {
    var g, r := s.gather, reply.request;
    || IsValue(s, a, reply)
    || (reply.answer.Failed? && FlushError(s, a) == Some(reply.answer.error) && r in g.loop.Active())
    || (reply.answer == Failed(ContextDone) && a.Filter? && g.loop.Filtering? && r in g.batch && r.number in a.done)
    || (g.terminal.Some? && InDrain(g.loop) && reply.answer == Failed(g.terminal.value))
  }

  lemma {:induction false} ChosenAre(batch: seq<Request>, done: set<nat>)
    ensures forall r :: r in Chosen(batch, done, true) ==> r in batch && r.number in done
  {
    if batch != [] { ChosenAre(batch[1..], done); }
  }

  lemma FailuresAre(requests: seq<Request>, error: Error, reply: Reply)
    ensures reply in Failures(requests, error) <==> reply.request in requests && reply.answer == Failed(error)
  {
    if reply.request in requests && reply.answer == Failed(error) {
      var i :| 0 <= i < |requests| && requests[i] == reply.request;
      assert Failures(requests, error)[i] == reply;
    }
  }

  lemma AskerRepliesAre(why: Why, error: Option<Error>, reply: Reply)
    ensures reply in AskerReplies(why, error)
      <==> reply.request in why.Asker() && reply.answer == (match error case None => Flushed case Some(e) => Failed(e))
  {
  }

  lemma KindsOf(s: Batcher)
    requires Inv(s)
    ensures forall r :: r in s.gather.loop.Asker() ==> r.isFlush
    ensures forall r :: r in s.gather.batch ==> !r.isFlush
    ensures forall r :: r in s.gather.loop.Active() ==> !r.isFlush
    ensures s.gather.terminal.Some? ==> s.gather.batch == [] && !Busy(s.gather.loop) && InDrain(s.gather.loop)
  {
    hide TokensConserved, SlotConserved, InOrder, Accounted, ExecutesInOrder, Barrier, Locking, DrainsLate;
  }

  /** Everything that an action tells, it tells for one of these reasons. */
  lemma EveryAnswerHasAReason(s: Batcher, a: Action, reply: Reply)
    requires Inv(s) && reply in News(s, a)
    ensures if reply.request.isFlush then FlushHears(s, a, reply.answer) else CommandHears(s, a, reply)
  {
    hide Inv, Failures, AskerReplies, Chosen, IsValue, FlushError, Values;
    KindsOf(s);
    var g := s.gather;
    if GivesUp(s, a) || TakesResult(s, a) {
      FlushEnds(s, a, reply);
    } else if a.Filter? && g.loop.Filtering? {
      ChosenAre(g.batch, a.done);
      FailuresAre(Chosen(g.batch, a.done, true), ContextDone, reply);
      AskerRepliesAre(g.loop.why, None, reply);
      NoFlushEnds(s, a);
    } else {
      NoFlushEnds(s, a);
      if g.terminal.Some? { FailuresAre(g.batch, g.terminal.value, reply); }
    }
  }

  lemma NoFlushEnds(s: Batcher, a: Action)
    requires !GivesUp(s, a) && !TakesResult(s, a)
    ensures FlushError(s, a).None?
  {
  }

  lemma PairedAre(requests: seq<Request>, values: seq<Answer>, reply: Reply)
    requires |values| == |requests|
    ensures reply in Paired(requests, values) <==> exists i :: 0 <= i < |requests| && reply == Reply(requests[i], values[i])
  {
    if i :| 0 <= i < |requests| && reply == Reply(requests[i], values[i]) { assert Paired(requests, values)[i] == reply; }
  }

  lemma FlushEnds(s: Batcher, a: Action, reply: Reply)
    requires (GivesUp(s, a) || TakesResult(s, a)) && reply in News(s, a)
    requires forall r :: r in s.gather.loop.Asker() ==> r.isFlush
    requires forall r :: r in s.gather.loop.Active() ==> !r.isFlush
    requires s.gather.terminal.None?
    ensures if reply.request.isFlush then FlushHears(s, a, reply.answer) else CommandHears(s, a, reply)
  {
    hide Failures, AskerReplies, Chosen, Paired;
    var g, error := s.gather, FlushError(s, a);
    AskerRepliesAre(g.loop.why, error, reply);
    if error.Some? {
      FailuresAre(g.loop.active, error.value, reply);
    } else {
      FlushSucceeds(s, a, reply);
    }
  }

  lemma FlushSucceeds(s: Batcher, a: Action, reply: Reply)
    requires TakesResult(s, a) && FlushError(s, a).None? && reply in News(s, a)
    requires forall r :: r in s.gather.loop.Asker() ==> r.isFlush
    requires forall r :: r in s.gather.loop.Active() ==> !r.isFlush
    requires s.gather.terminal.None?
    ensures if reply.request.isFlush then FlushHears(s, a, reply.answer) else IsValue(s, a, reply)
  {
    hide Failures, AskerReplies, Chosen, Paired;
    var g := s.gather;
    AskerRepliesAre(g.loop.why, None, reply);
    PairedAre(g.loop.active, Values(s, a), reply);
    if reply in Paired(g.loop.active, Values(s, a)) {
      var i :| 0 <= i < |g.loop.active| && reply == Reply(g.loop.active[i], Values(s, a)[i]);
      assert g.loop.active[i] in g.loop.Active() && IsValue(s, a, reply);
    }
  }

  /** A flush that ends with an error fails all that was sent to its pipeline, and whoever asked for it. */
  lemma FailedFlushIsTold(s: Batcher, a: Action, r: Request)
    requires FlushError(s, a).Some? && (r in s.gather.loop.Active() || r in s.gather.loop.Asker())
    ensures Reply(r, Failed(FlushError(s, a).value)) in News(s, a)
  {
    hide Failures, AskerReplies, Chosen, Paired;
    var g, error := s.gather, FlushError(s, a);
    FailuresAre(g.loop.active, error.value, Reply(r, Failed(error.value)));
    AskerRepliesAre(g.loop.why, error, Reply(r, Failed(error.value)));
  }

  /** Nobody is told that a flush succeeded by an action that fails a command, except one whose own context was done. */
  lemma FlushedMeansFlushed(s: Batcher, a: Action, flush: Request, reply: Reply)
    requires Inv(s) && Reply(flush, Flushed) in News(s, a) && flush.isFlush && reply in News(s, a) && !reply.request.isFlush
    ensures IsValue(s, a, reply) || (reply.answer == Failed(ContextDone) && a.Filter? && reply.request.number in a.done)
  {
    hide Inv, News, FlushError, IsValue;
    EveryAnswerHasAReason(s, a, Reply(flush, Flushed));
    EveryAnswerHasAReason(s, a, reply);
  }

  /** A flush request is told an error exactly when its flush ended with that error, or when the drain's terminal error is that. */
  lemma FlushFailsExactlyWhen(s: Batcher, a: Action, flush: Request, e: Error)
    requires Inv(s) && flush.isFlush
    ensures Reply(flush, Failed(e)) in News(s, a)
      <==> || (FlushError(s, a) == Some(e) && flush in s.gather.loop.Asker())
           || (s.gather.terminal == Some(e) && a.Dispatch? && s.gather.loop.Have? && s.gather.loop.request == flush)
  {
    hide Inv, AskerReplies, Failures, Chosen, Paired, FlushError, Values;
    KindsOf(s);
    var g, reply := s.gather, Reply(flush, Failed(e));
    if GivesUp(s, a) || TakesResult(s, a) {
      FlushFailsAtEnd(s, a, flush, e);
    } else {
      NoFlushEnds(s, a);
      if a.Filter? && g.loop.Filtering? {
        ChosenAre(g.batch, a.done);
        FailuresAre(Chosen(g.batch, a.done, true), ContextDone, reply);
        AskerRepliesAre(g.loop.why, None, reply);
      } else if a.Dispatch? && g.loop.Have? {
        DispatchFails(s, a, flush, e);
      } else if g.terminal.Some? {
        FailuresAre(g.batch, g.terminal.value, reply);
      }
    }
  }

  lemma FlushFailsAtEnd(s: Batcher, a: Action, flush: Request, e: Error)
    requires (GivesUp(s, a) || TakesResult(s, a)) && flush.isFlush && s.gather.terminal.None?
    requires forall r :: r in s.gather.loop.Active() ==> !r.isFlush
    ensures Reply(flush, Failed(e)) in News(s, a) <==> FlushError(s, a) == Some(e) && flush in s.gather.loop.Asker()
  {
    hide Failures, AskerReplies, Chosen, Paired;
    var g, error, reply := s.gather, FlushError(s, a), Reply(flush, Failed(e));
    AskerRepliesAre(g.loop.why, error, reply);
    if error.Some? {
      FailuresAre(g.loop.active, error.value, reply);
    } else {
      PairedAre(g.loop.active, Values(s, a), reply);
    }
  }

  lemma DispatchFails(s: Batcher, a: Action, flush: Request, e: Error)
    requires a.Dispatch? && s.gather.loop.Have? && (s.gather.terminal.Some? ==> InDrain(s.gather.loop))
    ensures Reply(flush, Failed(e)) in News(s, a) <==> s.gather.terminal == Some(e) && s.gather.loop.request == flush
  {
  }

  // ----- whole runs

  /** The reply was given by the `i`-th action. */
  ghost predicate GivenBy(start: Batcher, actions: seq<Action>, i: nat, reply: Reply)
    requires i < |actions|
  {
    reply in News(Run(start, actions[..i]), actions[i])
  }

  /** Every reply of a run was given by one of its actions, for one of the reasons above. */
  lemma {:induction false} RunAnswers(start: Batcher, actions: seq<Action>, reply: Reply)
    requires Inv(start) && reply in Run(start, actions).gather.answers && reply !in start.gather.answers
    ensures exists i :: 0 <= i < |actions| && GivenBy(start, actions, i, reply)
    decreases |actions|
  {
    hide Inv, Step, News;
    if actions != [] {
      var next, rest := Step(start, actions[0]), actions[1..];
      StepTells(start, actions[0]);
      StepKeeps(start, actions[0]);
      if reply in News(start, actions[0]) {
        assert actions[..0] == [];
        assert GivenBy(start, actions, 0, reply);
      } else {
        RunAnswers(next, rest, reply);
        var i :| 0 <= i < |rest| && GivenBy(next, rest, i, reply);
        assert actions[..i + 1][0] == actions[0] && actions[..i + 1][1..] == rest[..i];
        assert GivenBy(start, actions, i + 1, reply);
      }
    }
  }

  /** In every run, each answer was given by an action for the reason that it names. */
  lemma AnswersAreExplained(size: nat, maxSize: nat, actions: seq<Action>, reply: Reply)
    requires maxSize > 0 && reply in Run(Initial(size, maxSize), actions).gather.answers
    ensures exists i :: 0 <= i < |actions| && Explained(Run(Initial(size, maxSize), actions[..i]), actions[i], reply)
  {
    hide Inv, Run, News, Explained;
    var start := Initial(size, maxSize);
    InitialInv(size, maxSize);
    RunAnswers(start, actions, reply);
    var i :| 0 <= i < |actions| && GivenBy(start, actions, i, reply);
    Reachable(size, maxSize, actions[..i]);
    NewsExplained(Run(start, actions[..i]), actions[i], reply);
  }

  ghost predicate Explained(s: Batcher, a: Action, reply: Reply) {
    if reply.request.isFlush then FlushHears(s, a, reply.answer) else CommandHears(s, a, reply)
  }

  lemma NewsExplained(s: Batcher, a: Action, reply: Reply)
    requires Inv(s) && reply in News(s, a)
    ensures Explained(s, a, reply)
  {
    hide Inv, News, FlushHears, CommandHears;
    EveryAnswerHasAReason(s, a, reply);
  }

  // ----- what Close returns

  /** The error of the first flush that failed after closing, or of waiting for the last pipeline. */
  ghost function CloseErrorOf(s: Batcher, actions: seq<Action>): Option<Error>
    decreases |actions|
  {
    if actions == [] then None
    else if s.gather.loop.Quiescing? && actions[0].StopWaiting? then Some(DeadlineExceeded)
    else if s.Closed() && FlushError(s, actions[0]).Some? then FlushError(s, actions[0])
    else CloseErrorOf(Step(s, actions[0]), actions[1..])
  }

  /** Close returns nothing but that error. */
  lemma {:induction false} CloseReturns(s: Batcher, actions: seq<Action>)
    requires Inv(s)
    ensures Run(s, actions).gather.closeError ==
      if s.gather.closeError.Some? then s.gather.closeError else CloseErrorOf(s, actions)
    decreases |actions|
  {
    hide Inv, Step, FlushError;
    if actions != [] {
      StepTells(s, actions[0]);
      StepKeeps(s, actions[0]);
      CloseReturns(Step(s, actions[0]), actions[1..]);
      OnlyOneEnds(s, actions[0]);
    }
  }

  lemma OnlyOneEnds(s: Batcher, a: Action)
    ensures a.StopWaiting? ==> FlushError(s, a).None?
  {
  }
}
