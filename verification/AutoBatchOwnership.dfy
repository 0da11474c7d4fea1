/**
  Every value that a caller gets is the result of its own command, in the
  pipeline that the command was sent in: results of a pipeline that was given up
  never reach a later batch.
*/
module AutoBatchOwnership {
  import opened Results
  import opened AutoBatchSystem

  /** The reply is what the pipeline returned at the position of the request. */
  ghost predicate From(p: Pipelines, reply: Reply, job: nat, i: nat) {
    && job in p.jobs && job in p.results && p.results[job].Succeeded?
    && i < |p.jobs[job]| == |p.results[job].values|
    && reply == Reply(p.jobs[job][i], p.results[job].values[i])
  }

  ghost predicate Owned(p: Pipelines, answers: seq<Reply>) {
    forall k :: 0 <= k < |answers| && answers[k].answer.Answered? ==> exists job, i :: From(p, answers[k], job, i)
  }

  /** A pipeline reports once, and the loop waits for the one it started. */
  ghost predicate Tracked(p: Pipelines, loop: Loop) {
    && (forall j :: j in p.workers || j in p.results || j in p.jobs ==> j < p.nextJob)
    && (forall j :: j in p.workers && p.workers[j].Running? ==> j !in p.results)
    && (loop.Awaiting? ==> loop.job in p.jobs && p.jobs[loop.job] == loop.active)
  }

  ghost predicate Ownership(s: Batcher) {
    Owned(s.pipelines, s.gather.answers) && Tracked(s.pipelines, s.gather.loop)
  }

  // ----- pipelines only add to their history

  ghost predicate Extends(p: Pipelines, q: Pipelines) {
    && (forall j :: j in p.jobs ==> j in q.jobs && q.jobs[j] == p.jobs[j])
    && (forall j :: j in p.results ==> j in q.results && q.results[j] == p.results[j])
  }

  lemma OwnedExtends(p: Pipelines, q: Pipelines, answers: seq<Reply>)
    requires Owned(p, answers) && Extends(p, q)
    ensures Owned(q, answers)
  {
    forall k | 0 <= k < |answers| && answers[k].answer.Answered? ensures exists job, i :: From(q, answers[k], job, i) {
      var job, i :| From(p, answers[k], job, i);
      assert From(q, answers[k], job, i);
    }
  }

  /** The answers after `answers` are failures and flushes. */
  ghost predicate NoValues(answers: seq<Reply>, after: seq<Reply>) {
    && answers <= after
    && forall k :: |answers| <= k < |after| ==> !after[k].answer.Answered?
  }

  lemma OwnedWithout(p: Pipelines, answers: seq<Reply>, after: seq<Reply>)
    requires Owned(p, answers) && NoValues(answers, after)
    ensures Owned(p, after)
  {
    forall k | 0 <= k < |after| && after[k].answer.Answered? ensures exists job, i :: From(p, after[k], job, i) {
      assert after[k] == answers[k];
    }
  }

  lemma FinishNoValues(g: Gather, why: Why, error: Option<Error>, expired: bool, closed: bool)
    ensures NoValues(g.answers, g.FinishFlush(why, error, expired, closed).answers)
    ensures !g.FinishFlush(why, error, expired, closed).loop.Awaiting?
  {
  }

  lemma StartNoValues(g: Gather, why: Why, closed: bool)
    ensures NoValues(g.answers, g.StartFlush(why, closed).answers)
    ensures !g.StartFlush(why, closed).loop.Awaiting?
  {
    hide Gather.FinishFlush;
    if g.batch == [] { FinishNoValues(g, why, None, false, closed); }
  }

  lemma NoValuesThen(a: seq<Reply>, b: seq<Reply>, c: seq<Reply>)
    requires NoValues(a, b) && NoValues(b, c)
    ensures NoValues(a, c)
  {
  }

  lemma FailNoValues(g: Gather, requests: seq<Request>, error: Error)
    ensures NoValues(g.answers, g.FailAll(requests, error).answers)
  {
  }

  predicate GivesNoValues(a: Action) {
    a.Dispatch? || a.TimerFires? || a.DrainEmpty? || a.Filter? || a.GiveUp?
  }

  lemma FailThenFinish(g: Gather, requests: seq<Request>, failure: Error, why: Why, error: Option<Error>, expired: bool, closed: bool)
    ensures var f := g.FailAll(requests, failure).FinishFlush(why, error, expired, closed);
      NoValues(g.answers, f.answers) && !f.loop.Awaiting?
    ensures var f := g.FailAll(requests, failure).(batch := []).FinishFlush(why, error, expired, closed);
      NoValues(g.answers, f.answers) && !f.loop.Awaiting?
  {
    hide Gather.FinishFlush, Gather.FailAll;
    var h := g.FailAll(requests, failure);
    FailNoValues(g, requests, failure);
    FinishNoValues(h, why, error, expired, closed);
    FinishNoValues(h.(batch := []), why, error, expired, closed);
    NoValuesThen(g.answers, h.answers, h.FinishFlush(why, error, expired, closed).answers);
    NoValuesThen(g.answers, h.answers, h.(batch := []).FinishFlush(why, error, expired, closed).answers);
  }

  lemma DispatchNoValues(g: Gather, closed: bool)
    requires g.loop.Have?
    ensures NoValues(g.answers, g.Dispatch(closed).answers) && !g.Dispatch(closed).loop.Awaiting?
  {
    hide Gather.StartFlush;
    var r, draining := g.loop.request, g.loop.draining;
    forall h: Gather, why ensures NoValues(h.answers, h.StartFlush(why, closed).answers) && !h.StartFlush(why, closed).loop.Awaiting? {
      StartNoValues(h, why, closed);
    }
  }

  lemma GatherNoValues(s: Batcher, a: Action)
    requires GivesNoValues(a) && Step(s, a) != s
    ensures var f := Step(s, a);
      f == s.(gather := f.gather) && NoValues(s.gather.answers, f.gather.answers) && !f.gather.loop.Awaiting?
  {
    hide Gather.Dispatch, Gather.FinishFlush, Gather.FailAll, Gather.StartFlush, NoValues, Chosen;
    var g, closed := s.gather, s.Closed();
    match a
    case Dispatch => DispatchNoValues(g, closed);
    case TimerFires => StartNoValues(g.(timer := false), Regular(None), closed);
    case DrainEmpty =>
      StartNoValues(g, Final, closed);
      if g.terminal.Some? { FailNoValues(g, g.batch, g.terminal.value); }
    case Filter(done) =>
      FailThenFinish(g, Chosen(g.batch, done, true), ContextDone, g.loop.why, None, false, closed);
      FailNoValues(g, Chosen(g.batch, done, true), ContextDone);
    case GiveUp(expired) =>
      FailThenFinish(g, g.loop.active, DeadlineExceeded, g.loop.why, Some(DeadlineExceeded), expired, closed);
  }

  // ----- the one action that hands out values

  lemma DeliverOwns(p: Pipelines, g: Gather, expired: bool, closed: bool)
    requires g.loop.Awaiting? && g.loop.job in p.results && Owned(p, g.answers) && Tracked(p, g.loop)
    ensures Owned(p, g.Deliver(p.results[g.loop.job], expired, closed).answers)
    ensures !g.Deliver(p.results[g.loop.job], expired, closed).loop.Awaiting?
  {
    hide Gather.FinishFlush, Gather.FailAll, Gather.AnswerAll;
    var outcome, active, why := p.results[g.loop.job], g.loop.active, g.loop.why;
    var f := g.Deliver(outcome, expired, closed);
    if outcome.Succeeded? && |outcome.values| == |active| {
      var h := g.AnswerAll(active, outcome.values);
      AnswerAllOwns(p, g);
      FinishNoValues(h, why, None, expired, closed);
      OwnedWithout(p, h.answers, f.answers);
    } else {
      var error := if outcome.Broke? then outcome.error else WrongCount;
      FailThenFinish(g, active, error, why, Some(error), expired, closed);
      OwnedWithout(p, g.answers, f.answers);
    }
  }

  lemma AnswerAllOwns(p: Pipelines, g: Gather)
    requires g.loop.Awaiting? && g.loop.job in p.results && Owned(p, g.answers) && Tracked(p, g.loop)
    requires p.results[g.loop.job].Succeeded? && |p.results[g.loop.job].values| == |g.loop.active|
    ensures Owned(p, g.AnswerAll(g.loop.active, p.results[g.loop.job].values).answers)
  {
    var job, after := g.loop.job, g.AnswerAll(g.loop.active, p.results[g.loop.job].values).answers;
    forall k | 0 <= k < |after| && after[k].answer.Answered? ensures exists j, i :: From(p, after[k], j, i) {
      if k < |g.answers| {
        assert after[k] == g.answers[k];
      } else {
        assert From(p, after[k], job, k - |g.answers|);
      }
    }
  }

  lemma PipelinesStep(s: Batcher, a: Action)
    requires Ownership(s) && (a.Spawn? || a.Report?)
    ensures Ownership(Step(s, a))
  {
    hide Owned;
    var t := Step(s, a);
    OwnedExtends(s.pipelines, t.pipelines, s.gather.answers);
  }

  lemma OwnershipStep(s: Batcher, a: Action)
    requires Ownership(s)
    ensures Ownership(Step(s, a))
  {
    hide Owned, Gather.Dispatch, Gather.DrainEmpty, Gather.Filter, Gather.GiveUp, Gather.Deliver, Gather.StartFlush, From;
    if a.Spawn? || a.Report? {
      PipelinesStep(s, a);
    } else if GivesNoValues(a) {
      if Step(s, a) != s {
        GatherNoValues(s, a);
        OwnedWithout(s.pipelines, s.gather.answers, Step(s, a).gather.answers);
      }
    } else if a.TakeResult? {
      if s.gather.loop.Awaiting? && s.gather.loop.job in s.pipelines.results {
        DeliverOwns(s.pipelines, s.gather, a.expired, s.Closed());
      }
    } else {
      QuietStep(s, a);
      OwnedExtends(s.pipelines, Step(s, a).pipelines, s.gather.answers);
    }
  }

  lemma QuietStep(s: Batcher, a: Action)
    requires Tracked(s.pipelines, s.gather.loop) && !a.Spawn? && !a.Report? && !GivesNoValues(a) && !a.TakeResult?
    ensures var t := Step(s, a);
      && Tracked(t.pipelines, t.gather.loop) && t.gather.answers == s.gather.answers && Extends(s.pipelines, t.pipelines)
  {
  }

  lemma {:induction false} OwnershipRun(s: Batcher, actions: seq<Action>)
    requires Ownership(s)
    ensures Ownership(Run(s, actions))
    decreases |actions|
  {
    hide Ownership, Step;
    if actions != [] {
      OwnershipStep(s, actions[0]);
      OwnershipRun(Step(s, actions[0]), actions[1..]);
    }
  }

  /** In every run, each value was returned by a pipeline for the request that got it. */
  lemma OwnResults(size: nat, maxSize: nat, actions: seq<Action>, k: nat)
    requires var s := Run(Initial(size, maxSize), actions); k < |s.gather.answers| && s.gather.answers[k].answer.Answered?
    ensures var s := Run(Initial(size, maxSize), actions);
      exists job, i :: From(s.pipelines, s.gather.answers[k], job, i)
  {
    hide Run;
    OwnershipRun(Initial(size, maxSize), actions);
  }
}
