/** Every action of the automatic batcher keeps the batcher's invariants. */
module AutoBatchInvariants {
  import opened MapSums
  import opened Results
  import opened AutoBatchSystem

  // ----- admission

  lemma SlotsUpdate(callers: map<nat, Caller>, c: nat, caller: Caller)
    ensures Sum(Slots(callers[c := caller]))
      == Sum(Slots(callers)) - (if c in callers && callers[c].stage.HasSlot() then 1 else 0)
         + (if caller.stage.HasSlot() then 1 else 0)
  {
    hide Sum;
    var v := if caller.stage.HasSlot() then 1 else 0;
    SumUpdate(Slots(callers), c, v);
    assert Slots(callers[c := caller]) == Slots(callers)[c := v];
  }

  lemma SlotsWithout(callers: map<nat, Caller>, c: nat)
    ensures Sum(Slots(callers - {c}))
      == Sum(Slots(callers)) - (if c in callers && callers[c].stage.HasSlot() then 1 else 0)
  {
    hide Sum;
    SumWithout(Slots(callers), c);
    assert Slots(callers - {c}) == Slots(callers) - {c};
  }

  predicate IsAdmission(action: Action) {
    || action.Reserve? || action.Abandon? || action.ReadLock? || action.Check? || action.Send? || action.ReadUnlock?
    || action.ReturnSlot? || action.CloseStep?
  }

  ghost function Admit(a: Admission, action: Action): Admission
    requires IsAdmission(action)
  {
    match action
    case Reserve(isFlush) => a.Reserve(isFlush)
    case Abandon(c) => a.Abandon(c)
    case ReadLock(c) => a.ReadLock(c)
    case Check(c) => a.Check(c)
    case Send(c) => a.Send(c)
    case ReadUnlock(c) => a.ReadUnlock(c)
    case ReturnSlot(c) => a.ReturnSlot(c)
    case CloseStep => a.CloseStep()
  }

  lemma AdmitTokens(a: Admission, loop: Loop, action: Action)
    requires IsAdmission(action) && TokensConserved(a, loop)
    ensures TokensConserved(Admit(a, action), loop)
  {
    hide Sum, Slots;
    if action.Reserve? {
      SlotsUpdate(a.callers, a.nextCaller, Caller(Reserved, action.isFlush));
    } else if !action.CloseStep? && action.caller in a.callers {
      var c := action.caller;
      SlotsWithout(a.callers, c);
      forall stage ensures Sum(Slots(a.Move(c, stage).callers))
        == Sum(Slots(a.callers)) - (if a.callers[c].stage.HasSlot() then 1 else 0) + (if stage.HasSlot() then 1 else 0)
      {
        SlotsUpdate(a.callers, c, a.callers[c].(stage := stage));
      }
    }
  }

  lemma AdmitLocking(a: Admission, action: Action)
    requires IsAdmission(action) && Locking(a)
    ensures Locking(Admit(a, action))
    ensures a.closer.IsClosed() ==> Admit(a, action).queue == a.queue && Admit(a, action).order == a.order
    ensures a.closer.IsClosed() ==> Admit(a, action).closer.IsClosed()
    ensures a.closer.HasSignalled() ==> Admit(a, action).closer.HasSignalled()
  {
  }

  lemma AdmitInOrder(a: Admission, g: Gather, action: Action)
    requires IsAdmission(action) && InOrder(a, g)
    ensures InOrder(Admit(a, action), g)
  {
    if action.Send? && Admit(a, action) != a && a.Is(action.caller, Sending) {
      var r := Request(|a.order|, a.callers[action.caller].isFlush);
      assert g.handled + g.loop.Hand() + (a.queue + [r]) == a.order + [r];
    }
  }

  lemma AdmitKeeps(s: Batcher, action: Action)
    requires IsAdmission(action) && Inv(s)
    ensures Inv(Step(s, action))
  {
    hide TokensConserved, Locking, SlotConserved, Batching, InOrder, Accounted, ExecutesInOrder, Kinds, Barrier, DrainsLate;
    AdmitTokens(s.admission, s.gather.loop, action);
    AdmitLocking(s.admission, action);
    AdmitInOrder(s.admission, s.gather, action);
    AdmitIsStep(s, action);
    AdmittedLate(s.gather.loop, s.admission, action);
  }

  lemma AdmitIsStep(s: Batcher, action: Action)
    requires IsAdmission(action)
    ensures Step(s, action) == s.(admission := Admit(s.admission, action))
  {
  }

  lemma AdmittedLate(loop: Loop, a: Admission, action: Action)
    requires IsAdmission(action) && Locking(a) && DrainsLate(loop, a)
    ensures DrainsLate(loop, Admit(a, action))
  {
    hide Locking, InDrain, InLastFlush;
    AdmitLocking(a, action);
    LastIsDrain(loop);
  }

  lemma LastIsDrain(loop: Loop)
    ensures InLastFlush(loop) ==> InDrain(loop)
  {
  }

  // ----- answers

  lemma AnswerToRequests(g: Gather, request: Request, answer: Answer)
    ensures Requests(g.AnswerTo(request, answer).answers) == Requests(g.answers) + [request]
  {
  }

  lemma FailAllRequests(g: Gather, requests: seq<Request>, error: Error)
    ensures Requests(g.FailAll(requests, error).answers) == Requests(g.answers) + requests
  {
  }

  lemma AnswerAllRequests(g: Gather, requests: seq<Request>, values: seq<Answer>)
    requires |values| == |requests|
    ensures Requests(g.AnswerAll(requests, values).answers) == Requests(g.answers) + requests
  {
  }

  lemma {:induction false} ChosenSplits(batch: seq<Request>, done: set<nat>)
    ensures multiset(batch) == multiset(Chosen(batch, done, true)) + multiset(Chosen(batch, done, false))
  {
    if batch != [] {
      ChosenSplits(batch[1..], done);
      assert batch == [batch[0]] + batch[1..];
    }
  }

  /** Leaving requests out of the batch keeps what is sent to pipelines in order. */
  lemma {:induction false} ChosenIncreasing(before: seq<Request>, batch: seq<Request>, done: set<nat>, which: bool)
    requires Increasing(before + batch)
    ensures Increasing(before + Chosen(batch, done, which))
    decreases |batch|
  {
    var rest := Chosen(batch, done, which);
    if batch != [] {
      assert batch == [batch[0]] + batch[1..];
      assert before + batch == before + [batch[0]] + batch[1..];
      if (batch[0].number in done) == which {
        ChosenIncreasing(before + [batch[0]], batch[1..], done, which);
        assert before + rest == before + [batch[0]] + Chosen(batch[1..], done, which);
      } else {
        DropMiddle(before, batch);
        ChosenIncreasing(before, batch[1..], done, which);
        assert rest == Chosen(batch[1..], done, which);
      }
    }
  }

  lemma DropMiddle(before: seq<Request>, batch: seq<Request>)
    requires batch != [] && Increasing(before + batch)
    ensures Increasing(before + batch[1..])
  {
    var all, less := before + batch, before + batch[1..];
    forall i, j | 0 <= i < j < |less| ensures less[i].number < less[j].number {
      assert less[i] == all[if i < |before| then i else i + 1] && less[j] == all[if j < |before| then j else j + 1];
    }
  }

  // ----- flushing, seen from the gathering loop

  /** What holds when a flush starts or ends: nothing is in hand, and nothing has gone wrong for good. */
  ghost predicate Flushable(g: Gather, why: Why) {
    && g.maxSize > 0 && g.terminal.None? && (g.timer ==> g.batch != []) && |g.batch| <= g.maxSize
    && (forall r :: r in why.Asker() ==> r.isFlush)
    && (forall r :: r in g.batch ==> !r.isFlush)
    && multiset(g.handled) == multiset(g.batch) + multiset(why.Asker()) + multiset(Requests(g.answers))
  }

  /** Numbers are positions, so what is before a handled request is handled. */
  ghost predicate GatherInv(g: Gather) {
    Batching(g) && Accounted(g) && Barrier(g)
  }

  lemma Landed(g: Gather, why: Why, error: Option<Error>, expired: bool, closed: bool)
    ensures var f := g.FinishFlush(why, error, expired, closed);
      && f.loop == (match why case Regular(_) => Head case Draining(_) => DrainHead case Final => Quiescing)
      && f.batch == [] && f.handled == g.handled && f.timer == g.timer && f.maxSize == g.maxSize
      && Requests(f.answers) == Requests(g.answers) + why.Asker()
      && (why.Regular? || why.Final? ==> f.terminal == g.terminal)
  {
  }

  lemma FinishKeeps(g: Gather, why: Why, error: Option<Error>, expired: bool, closed: bool)
    requires Flushable(g, why) && g.batch == []
    requires Barrier(g)
    ensures GatherInv(g.FinishFlush(why, error, expired, closed))
  {
    hide Requests, Gather.FinishFlush;
    Landed(g, why, error, expired, closed);
    var f := g.FinishFlush(why, error, expired, closed);
    forall q | q in g.handled ensures q in Requests(f.answers) {
      assert q in multiset(g.handled);
    }
  }

  lemma StartKeeps(g: Gather, why: Why, closed: bool)
    requires Flushable(g, why) && Barrier(g)
    ensures GatherInv(g.StartFlush(why, closed))
  {
    hide Requests, Gather.FinishFlush;
    if g.batch == [] { FinishKeeps(g, why, None, false, closed); }
  }

  /** Answering commands, or noting a close error, leaves the barrier as it was. */
  lemma BarrierStays(g: Gather, h: Gather, answered: seq<Request>)
    requires Barrier(g) && h.handled == g.handled && Requests(h.answers) == Requests(g.answers) + answered
    requires forall r :: r in answered ==> !r.isFlush
    ensures Barrier(h)
  {
    hide Requests;
  }

  lemma FilterKeeps(g: Gather, done: set<nat>, closed: bool)
    requires g.loop.Filtering? && GatherInv(g) && Kinds(g)
    ensures GatherInv(g.Filter(done, closed))
  {
    hide Requests, Gather.FinishFlush, Gather.FailAll, Barrier, Batching, Accounted, Chosen, Flushable;
    var dropped, active := Chosen(g.batch, done, true), Chosen(g.batch, done, false);
    var h := g.FailAll(dropped, ContextDone).(batch := []);
    FailAllRequests(g, dropped, ContextDone);
    FailAllOnly(g, dropped, ContextDone);
    ChosenSplits(g.batch, done);
    ChosenMembers(g.batch, done, true);
    BarrierStays(g, h, dropped);
    FilteredAccounts(g, h, dropped, active);
    if active == [] {
      FinishKeeps(h, g.loop.why, None, false, closed);
    } else {
      BarrierStays(h, h.(loop := Acquiring(active, g.loop.why)), []);
    }
  }

  lemma {:induction false} ChosenMembers(batch: seq<Request>, done: set<nat>, which: bool)
    ensures forall r :: r in Chosen(batch, done, which) ==> r in batch
  {
    if batch != [] { ChosenMembers(batch[1..], done, which); }
  }

  lemma FilteredAccounts(g: Gather, h: Gather, dropped: seq<Request>, active: seq<Request>)
    requires g.loop.Filtering? && Batching(g) && Accounted(g) && Kinds(g)
    requires multiset(g.batch) == multiset(dropped) + multiset(active)
    requires h == g.(batch := [], answers := h.answers) && Requests(h.answers) == Requests(g.answers) + dropped
    ensures active == [] ==> Flushable(h, g.loop.why)
    ensures Accounted(h.(loop := Acquiring(active, g.loop.why))) && Batching(h.(loop := Acquiring(active, g.loop.why)))
  {
    hide Requests;
  }

  lemma FailAllOnly(g: Gather, requests: seq<Request>, error: Error)
    ensures g.FailAll(requests, error) == g.(answers := g.FailAll(requests, error).answers)
  {
  }

  lemma AnswerAllOnly(g: Gather, requests: seq<Request>, values: seq<Answer>)
    requires |values| == |requests|
    ensures g.AnswerAll(requests, values) == g.(answers := g.AnswerAll(requests, values).answers)
  {
  }

  /** All of a pipeline's requests get their answers. */
  lemma SettleKeeps(g: Gather, h: Gather, error: Option<Error>, expired: bool, closed: bool)
    requires (g.loop.Acquiring? || g.loop.Awaiting?) && GatherInv(g) && Kinds(g)
    requires h == g.(answers := h.answers) && Requests(h.answers) == Requests(g.answers) + g.loop.active
    ensures GatherInv(h.FinishFlush(g.loop.why, error, expired, closed))
  {
    hide Requests, Gather.FinishFlush, Barrier;
    BarrierStays(g, h, g.loop.active);
    FinishKeeps(h, g.loop.why, error, expired, closed);
  }

  lemma GiveUpKeeps(g: Gather, expired: bool, closed: bool)
    requires (g.loop.Acquiring? || g.loop.Awaiting?) && GatherInv(g) && Kinds(g)
    ensures GatherInv(g.GiveUp(expired, closed))
  {
    hide Requests, Gather.FinishFlush, GatherInv, Kinds, Gather.FailAll;
    FailAllRequests(g, g.loop.active, DeadlineExceeded);
    FailAllOnly(g, g.loop.active, DeadlineExceeded);
    SettleKeeps(g, g.FailAll(g.loop.active, DeadlineExceeded), Some(DeadlineExceeded), expired, closed);
  }

  lemma DeliverKeeps(g: Gather, outcome: Outcome, expired: bool, closed: bool)
    requires g.loop.Awaiting? && GatherInv(g) && Kinds(g)
    ensures GatherInv(g.Deliver(outcome, expired, closed))
  {
    hide Requests, Gather.FinishFlush, GatherInv, Kinds, Gather.FailAll, Gather.AnswerAll;
    var active := g.loop.active;
    if outcome.Succeeded? && |outcome.values| == |active| {
      AnswerAllRequests(g, active, outcome.values);
      AnswerAllOnly(g, active, outcome.values);
      SettleKeeps(g, g.AnswerAll(active, outcome.values), None, expired, closed);
    } else {
      var error := if outcome.Broke? then outcome.error else WrongCount;
      FailAllRequests(g, active, error);
      FailAllOnly(g, active, error);
      SettleKeeps(g, g.FailAll(active, error), Some(error), expired, closed);
    }
  }

  ghost predicate Numbered(requests: seq<Request>) {
    forall i :: 0 <= i < |requests| ==> requests[i].number == i
  }

  /** A request that is handled after others is not one that an answered flush waited for. */
  lemma BarrierGrows(g: Gather, r: Request)
    requires Accounted(g) && Barrier(g) && Numbered(g.handled + [r])
    ensures Barrier(g.(handled := g.handled + [r]))
  {
    hide Requests;
    forall f | f in Requests(g.answers) ensures f.number < |g.handled| {
      assert f in multiset(Requests(g.answers));
      assert f in multiset(g.handled);
      var i :| 0 <= i < |g.handled| && g.handled[i] == f;
      assert (g.handled + [r])[i] == f;
    }
    assert (g.handled + [r])[|g.handled|] == r;
  }

  /** The batch with one more command, its timer running unless the loop is draining. */
  ghost function WithCommand(g: Gather): Gather
    requires g.loop.Have?
  {
    var r := g.loop.request;
    g.(handled := g.handled + [r], batch := g.batch + [r], timer := g.timer || (!g.loop.draining && g.batch == []))
  }

  lemma DispatchFull(g: Gather, closed: bool)
    requires g.loop.Have? && GatherInv(g) && Kinds(g) && !(g.loop.draining && g.terminal.Some?) && !g.loop.request.isFlush
    requires Barrier(WithCommand(g)) && |g.batch| + 1 >= g.maxSize
    ensures GatherInv(WithCommand(g).StartFlush(if g.loop.draining then Draining(None) else Regular(None), closed))
  {
    hide Requests, Gather.StartFlush, Barrier, Batching, Accounted, Kinds, Flushable, GatherInv;
    var why := if g.loop.draining then Draining(None) else Regular(None);
    FullIsFlushable(g, why);
    StartKeeps(WithCommand(g), why, closed);
  }

  lemma FullIsFlushable(g: Gather, why: Why)
    requires g.loop.Have? && GatherInv(g) && Kinds(g) && !(g.loop.draining && g.terminal.Some?) && !g.loop.request.isFlush
    requires why.Asker() == []
    ensures Flushable(WithCommand(g), why)
  {
    hide Requests, Barrier;
  }

  lemma DispatchRoom(g: Gather)
    requires g.loop.Have? && GatherInv(g) && Kinds(g) && !(g.loop.draining && g.terminal.Some?)
    requires Barrier(WithCommand(g)) && |g.batch| + 1 < g.maxSize
    ensures GatherInv(WithCommand(g).(loop := if g.loop.draining then DrainHead else Head))
  {
    hide Requests, Barrier;
    BarrierStays(WithCommand(g), WithCommand(g).(loop := if g.loop.draining then DrainHead else Head), []);
  }

  lemma DispatchFlush(g: Gather, h: Gather, closed: bool)
    requires g.loop.Have? && GatherInv(g) && Kinds(g) && !(g.loop.draining && g.terminal.Some?) && g.loop.request.isFlush
    requires h == g.(handled := g.handled + [g.loop.request]) && Barrier(h)
    ensures GatherInv(h.StartFlush(if g.loop.draining then Draining(Some(g.loop.request)) else Regular(Some(g.loop.request)), closed))
  {
    hide Requests, Gather.FinishFlush, Gather.StartFlush, Barrier;
    StartKeeps(h, if g.loop.draining then Draining(Some(g.loop.request)) else Regular(Some(g.loop.request)), closed);
  }

  lemma DispatchLate(g: Gather, h: Gather)
    requires g.loop.Have? && GatherInv(g) && g.loop.draining && g.terminal.Some?
    requires h == g.(handled := g.handled + [g.loop.request])
    ensures GatherInv(h.AnswerTo(g.loop.request, Failed(g.terminal.value)).(loop := DrainHead))
  {
    hide Requests, Barrier;
    AnswerToRequests(h, g.loop.request, Failed(g.terminal.value));
    AllAnswered(h.AnswerTo(g.loop.request, Failed(g.terminal.value)).(loop := DrainHead));
  }

  lemma DispatchKeeps(g: Gather, closed: bool)
    requires g.loop.Have? && GatherInv(g) && Kinds(g) && Numbered(g.handled + [g.loop.request])
    ensures GatherInv(g.Dispatch(closed))
  {
    hide Requests, Gather.StartFlush, GatherInv, Kinds, Numbered, Gather.AnswerTo, Batching, Accounted, Barrier;
    var h := g.(handled := g.handled + [g.loop.request]);
    Parts(g);
    BarrierGrows(g, g.loop.request);
    if g.loop.draining && g.terminal.Some? {
      DispatchLate(g, h);
    } else if g.loop.request.isFlush {
      DispatchFlush(g, h, closed);
    } else {
      BarrierStays(h, WithCommand(g), []);
      if |g.batch| + 1 >= g.maxSize { DispatchFull(g, closed); } else { DispatchRoom(g); }
    }
  }

  lemma Parts(g: Gather)
    requires GatherInv(g)
    ensures Batching(g) && Accounted(g) && Barrier(g)
  {
  }

  lemma AllAnswered(g: Gather)
    requires multiset(g.handled) == multiset(Requests(g.answers))
    ensures Barrier(g)
  {
    hide Requests;
    forall q | q in g.handled ensures q in Requests(g.answers) { assert q in multiset(g.handled); }
  }

  lemma DrainEmptyKeeps(g: Gather, closed: bool)
    requires g.loop.DrainHead? && GatherInv(g) && Kinds(g)
    ensures GatherInv(g.DrainEmpty(closed))
  {
    hide Requests, Gather.StartFlush, Gather.FailAll, Barrier;
    if g.terminal.Some? {
      FailAllRequests(g, g.batch, g.terminal.value);
      FailAllOnly(g, g.batch, g.terminal.value);
      BarrierStays(g, g.FailAll(g.batch, g.terminal.value).(batch := [], loop := Quiescing), g.batch);
    } else {
      StartKeeps(g, Final, closed);
    }
  }

  lemma TimerKeeps(g: Gather, closed: bool)
    requires g.loop.Head? && g.timer && GatherInv(g) && Kinds(g)
    ensures GatherInv(g.(timer := false).StartFlush(Regular(None), closed))
  {
    hide Requests, Gather.StartFlush, Barrier;
    BarrierStays(g, g.(timer := false), []);
    StartKeeps(g.(timer := false), Regular(None), closed);
  }

  // ----- what a gathering action leaves for the pipelines

  /** Whatever `t` follows, it keeps the order that `s` kept there. */
  ghost predicate Thinned(s: seq<Request>, t: seq<Request>) {
    && (forall before: seq<Request> :: Increasing(before + s) ==> Increasing(before + t))
    && forall r :: r in t ==> r in s
  }

  lemma ThinnedPrefix(s: seq<Request>, k: nat)
    requires k <= |s|
    ensures Thinned(s, s[..k])
  {
    forall before: seq<Request> | Increasing(before + s) ensures Increasing(before + s[..k]) {
      assert before + s[..k] == (before + s)[..|before| + k];
    }
  }

  lemma ThinnedChosen(batch: seq<Request>, done: set<nat>)
    ensures Thinned(batch, Chosen(batch, done, false))
  {
    hide Increasing;
    ChosenMembers(batch, done, false);
    forall before: seq<Request> | Increasing(before + batch) ensures Increasing(before + Chosen(batch, done, false)) {
      ChosenIncreasing(before, batch, done, false);
    }
  }

  /** After a gathering action the loop is between pipelines, and drains if it drained before. */
  ghost predicate Gathers(g: Gather, f: Gather, more: seq<Request>) {
    && f.handled == g.handled + more
    && (f.loop.Head? || f.loop.DrainHead? || f.loop.Quiescing? || f.loop.Filtering? || f.loop.Acquiring?)
    && (InDrain(f.loop) <==> InDrain(g.loop))
    && (InLastFlush(f.loop) ==> InLastFlush(g.loop) || g.loop.DrainHead?)
    && Thinned(Unsent(g) + more, Unsent(f))
    && Kinds(f)
  }

  lemma FinishGathers(g: Gather, h: Gather, why: Why, error: Option<Error>, expired: bool, closed: bool, more: seq<Request>)
    requires h.handled == g.handled + more
    requires InDrain(g.loop) <==> !why.Regular?
    requires why.Final? ==> InLastFlush(g.loop) || g.loop.DrainHead?
    ensures Gathers(g, h.FinishFlush(why, error, expired, closed), more)
  {
    hide Requests, Gather.FinishFlush, Thinned;
    Landed(h, why, error, expired, closed);
    ThinnedPrefix(Unsent(g) + more, 0);
    assert (Unsent(g) + more)[..0] == Unsent(h.FinishFlush(why, error, expired, closed));
  }

  lemma StartGathers(g: Gather, h: Gather, why: Why, closed: bool, more: seq<Request>)
    requires h.handled == g.handled + more
    requires InDrain(g.loop) <==> !why.Regular?
    requires why.Final? ==> InLastFlush(g.loop) || g.loop.DrainHead?
    requires Thinned(Unsent(g) + more, h.batch)
    requires (forall r :: r in why.Asker() ==> r.isFlush) && forall r :: r in h.batch ==> !r.isFlush
    ensures Gathers(g, h.StartFlush(why, closed), more)
  {
    hide Gather.FinishFlush, Thinned;
    if h.batch == [] {
      FinishGathers(g, h, why, None, false, closed, more);
    } else {
      assert Unsent(h.StartFlush(why, closed)) == h.batch;
    }
  }

  lemma DispatchGathers(g: Gather, closed: bool)
    requires g.loop.Have? && Kinds(g)
    ensures Gathers(g, g.Dispatch(closed), [g.loop.request])
  {
    hide Thinned, Gather.StartFlush, Gather.FinishFlush, Requests;
    var r, draining := g.loop.request, g.loop.draining;
    var h := g.(handled := g.handled + [r]);
    var all := g.batch + [r];
    assert Unsent(g) + [r] == all;
    ThinnedPrefix(all, |g.batch|);
    ThinnedPrefix(all, |all|);
    assert all[..|g.batch|] == g.batch && all[..|all|] == all;
    if draining && g.terminal.Some? {
      assert Unsent(g.Dispatch(closed)) == g.batch;
    } else if r.isFlush {
      StartGathers(g, h, if draining then Draining(Some(r)) else Regular(Some(r)), closed, [r]);
    } else if |all| >= g.maxSize {
      StartGathers(g, WithCommand(g), if draining then Draining(None) else Regular(None), closed, [r]);
    } else {
      assert Unsent(g.Dispatch(closed)) == all;
    }
  }

  lemma FilterGathers(g: Gather, done: set<nat>, closed: bool)
    requires g.loop.Filtering? && Kinds(g)
    ensures Gathers(g, g.Filter(done, closed), [])
  {
    hide Thinned, Gather.FinishFlush, Requests, Chosen;
    var active := Chosen(g.batch, done, false);
    var h := g.FailAll(Chosen(g.batch, done, true), ContextDone).(batch := []);
    assert Unsent(g) + [] == g.batch;
    if active == [] {
      FinishGathers(g, h, g.loop.why, None, false, closed, []);
    } else {
      ThinnedChosen(g.batch, done);
      ChosenMembers(g.batch, done, false);
      assert active + [] == active;
    }
  }

  lemma GiveUpGathers(g: Gather, expired: bool, closed: bool)
    requires g.loop.Acquiring? || g.loop.Awaiting?
    ensures Gathers(g, g.GiveUp(expired, closed), [])
  {
    hide Thinned, Gather.FinishFlush, Requests;
    FinishGathers(g, g.FailAll(g.loop.active, DeadlineExceeded), g.loop.why, Some(DeadlineExceeded), expired, closed, []);
  }

  lemma DeliverGathers(g: Gather, outcome: Outcome, expired: bool, closed: bool)
    requires g.loop.Awaiting?
    ensures Gathers(g, g.Deliver(outcome, expired, closed), [])
  {
    hide Thinned, Gather.FinishFlush, Requests, Gathers;
    var active, why := g.loop.active, g.loop.why;
    if outcome.Succeeded? && |outcome.values| == |active| {
      FinishGathers(g, g.AnswerAll(active, outcome.values), why, None, expired, closed, []);
    } else {
      var error := if outcome.Broke? then outcome.error else WrongCount;
      FinishGathers(g, g.FailAll(active, error), why, Some(error), expired, closed, []);
    }
  }

  lemma DrainEmptyGathers(g: Gather, closed: bool)
    requires g.loop.DrainHead? && Kinds(g)
    ensures Gathers(g, g.DrainEmpty(closed), [])
  {
    hide Thinned, Gather.StartFlush, Requests;
    assert Unsent(g) + [] == g.batch;
    ThinnedPrefix(g.batch, |g.batch|);
    ThinnedPrefix(g.batch, 0);
    assert g.batch[..|g.batch|] == g.batch && g.batch[..0] == [];
    if g.terminal.None? { StartGathers(g, g, Final, closed, []); }
  }

  lemma TimerGathers(g: Gather, closed: bool)
    requires g.loop.Head? && Kinds(g)
    ensures Gathers(g, g.(timer := false).StartFlush(Regular(None), closed), [])
  {
    hide Thinned, Gather.StartFlush, Requests;
    assert Unsent(g) + [] == g.batch;
    ThinnedPrefix(g.batch, |g.batch|);
    assert g.batch[..|g.batch|] == g.batch;
    StartGathers(g, g.(timer := false), Regular(None), closed, []);
  }

  /** A gathering action that leaves the batch in order keeps everything else too. */
  lemma GatheringKeeps(s: Batcher, f: Gather)
    requires Inv(s) && Gathers(s.gather, f, if s.gather.loop.Have? then [s.gather.loop.request] else []) && GatherInv(f)
    requires !s.gather.loop.Took? && !s.gather.loop.Starting?
    requires s.gather.loop.DrainHead? && InLastFlush(f.loop) ==> s.admission.queue == []
    ensures Inv(s.(gather := f))
  {
    hide Requests, Sum, Slots, Locking, Batching, Accounted, Barrier, Kinds, Thinned, Increasing, Unsent;
    GatheredInOrder(s.admission, s.gather, f);
    GatheredExecutes(s.pipelines.executed, s.admission, s.gather, f);
  }

  lemma GatheredInOrder(a: Admission, g: Gather, f: Gather)
    requires InOrder(a, g) && Gathers(g, f, g.loop.Hand())
    ensures InOrder(a, f)
  {
    hide Thinned, Kinds, Unsent;
    assert f.handled + f.loop.Hand() + a.queue == a.order;
  }

  /** Requests are numbered by their places, so those handled come before the one in hand. */
  lemma HandledBefore(a: Admission, g: Gather, r: Request)
    requires InOrder(a, g) && r in g.handled
    ensures r.number < |g.handled| && a.order[r.number] == r
    ensures g.loop.Hand() != [] ==> r.number < g.loop.Hand()[0].number
  {
    var i :| 0 <= i < |g.handled| && g.handled[i] == r;
    assert a.order[i] == r;
    if g.loop.Hand() != [] { assert a.order[|g.handled|] == g.loop.Hand()[0]; }
  }

  lemma GatheredExecutes(executed: seq<Request>, a: Admission, g: Gather, f: Gather)
    requires ExecutesInOrder(executed, g) && InOrder(a, g) && Gathers(g, f, g.loop.Hand())
    ensures ExecutesInOrder(executed, f)
  {
    hide Kinds, Unsent, InOrder, Increasing;
    var unsent, more := Unsent(g), g.loop.Hand();
    forall r | r in executed + unsent ensures more != [] ==> r.number < more[0].number {
      HandledBefore(a, g, r);
    }
    IncreasingMore(executed + unsent, more);
    assert executed + (unsent + more) == executed + unsent + more;
    UnsentAreCommands(f);
    forall r | r in executed + Unsent(f) ensures r in f.handled && !r.isFlush {
      if r in executed {
        assert r in executed + unsent;
      } else {
        assert r in unsent + more;
        assert r in unsent ==> r in executed + unsent;
      }
    }
  }

  lemma IncreasingMore(s: seq<Request>, more: seq<Request>)
    requires Increasing(s) && |more| <= 1 && forall r :: r in s ==> more != [] ==> r.number < more[0].number
    ensures Increasing(s + more)
  {
    forall i | 0 <= i < |s| ensures s[i] in s { }
  }

  lemma UnsentAreCommands(f: Gather)
    requires Kinds(f)
    ensures forall r :: r in Unsent(f) ==> !r.isFlush
  {
  }

  lemma HaveIsNumbered(a: Admission, g: Gather)
    requires InOrder(a, g) && g.loop.Have?
    ensures Numbered(g.handled + [g.loop.request])
  {
    forall i | 0 <= i <= |g.handled| ensures (g.handled + [g.loop.request])[i].number == i {
      assert a.order[i] == (g.handled + [g.loop.request])[i];
    }
  }

  predicate IsGathering(a: Action) {
    a.Dispatch? || a.TimerFires? || a.DrainEmpty? || a.Filter? || a.GiveUp? || a.TakeResult?
  }

  lemma GatheringStep(s: Batcher, a: Action)
    requires IsGathering(a) && Inv(s)
    ensures Inv(Step(s, a))
  {
    hide Requests, Sum, Slots, TokensConserved, Locking, SlotConserved, Batching, InOrder, Accounted, Barrier, Kinds,
      ExecutesInOrder, Thinned, Gather.Dispatch, Gather.StartFlush, Gather.DrainEmpty, Gather.Filter, Gather.GiveUp,
      Gather.Deliver, Gathers;
    if Step(s, a) != s {
      GatheringResult(s, a);
      LastFlushes(s.gather, Step(s, a).gather, if s.gather.loop.Have? then [s.gather.loop.request] else []);
      GatheringKeeps(s, Step(s, a).gather);
    }
  }

  lemma LastFlushes(g: Gather, f: Gather, more: seq<Request>)
    requires Gathers(g, f, more)
    ensures InLastFlush(f.loop) ==> InLastFlush(g.loop) || g.loop.DrainHead?
  {
    hide Thinned, Kinds;
  }

  lemma GatheringResult(s: Batcher, a: Action)
    requires IsGathering(a) && Inv(s) && Step(s, a) != s
    ensures var g, f := s.gather, Step(s, a).gather;
      && Step(s, a) == s.(gather := f)
      && GatherInv(f)
      && Gathers(g, f, if g.loop.Have? then [g.loop.request] else [])
      && !g.loop.Took? && !g.loop.Starting? && (g.loop.DrainHead? ==> s.admission.queue == [])
  {
    hide Requests, Sum, Slots, TokensConserved, Locking, SlotConserved, Batching, InOrder, Accounted, Barrier, Kinds,
      ExecutesInOrder, Thinned, Gather.Dispatch, Gather.StartFlush, Gather.DrainEmpty, Gather.Filter, Gather.GiveUp,
      Gather.Deliver, Gathers, DrainsLate;
    var g, closed := s.gather, s.Closed();
    match a
    case Dispatch =>
      HaveIsNumbered(s.admission, g);
      DispatchKeeps(g, closed);
      DispatchGathers(g, closed);
    case TimerFires =>
      TimerKeeps(g, closed);
      TimerGathers(g, closed);
    case DrainEmpty =>
      DrainEmptyKeeps(g, closed);
      DrainEmptyGathers(g, closed);
    case Filter(done) =>
      FilterKeeps(g, done, closed);
      FilterGathers(g, done, closed);
    case GiveUp(expired) =>
      GiveUpKeeps(g, expired, closed);
      GiveUpGathers(g, expired, closed);
    case TakeResult(expired) =>
      DeliverKeeps(g, s.pipelines.results[g.loop.job], expired, closed);
      DeliverGathers(g, s.pipelines.results[g.loop.job], expired, closed);
  }

  // ----- the loop's other actions

  lemma ReceiveKeeps(s: Batcher)
    requires Inv(s)
    ensures Inv(s.Receive())
  {
    hide Requests, Sum, Slots, Increasing, InOrder, Batching, DrainsLate, TokensConserved;
    var t := s.Receive();
    if t != s {
      ReceiveInOrder(s);
      ReceiveTokens(s);
      ReceiveBatching(s);
      assert Unsent(t.gather) == Unsent(s.gather);
    }
  }

  lemma ReceiveInOrder(s: Batcher)
    requires InOrder(s.admission, s.gather)
    ensures InOrder(s.Receive().admission, s.Receive().gather)
  {
    var a, g, t := s.admission, s.gather, s.Receive();
    if t != s {
      assert a.queue == [a.queue[0]] + a.queue[1..];
      assert t.gather.handled + t.gather.loop.Hand() + t.admission.queue == g.handled + g.loop.Hand() + a.queue;
    }
  }

  lemma ReceiveTokens(s: Batcher)
    requires TokensConserved(s.admission, s.gather.loop)
    ensures TokensConserved(s.Receive().admission, s.Receive().gather.loop)
  {
    hide Sum, Slots;
  }

  lemma ReceiveBatching(s: Batcher)
    requires Batching(s.gather) && DrainsLate(s.gather.loop, s.admission)
    ensures Batching(s.Receive().gather) && DrainsLate(s.Receive().gather.loop, s.Receive().admission)
  {
  }

  lemma ReturnLoopSlotKeeps(s: Batcher)
    requires Inv(s)
    ensures Inv(s.ReturnLoopSlot())
  {
    hide Requests, Sum, Slots, Increasing;
    assert s.gather.loop.Took? && s.admission.free < s.admission.size
      ==> Unsent(s.ReturnLoopSlot().gather) == Unsent(s.gather);
  }

  lemma SeeClosedKeeps(s: Batcher)
    requires Inv(s)
    ensures Inv(s.SeeClosed())
  {
    hide Requests, Sum, Slots, Increasing;
    assert Unsent(s.SeeClosed().gather) == Unsent(s.gather);
  }

  lemma AcquireSlotKeeps(s: Batcher)
    requires Inv(s)
    ensures Inv(s.AcquireSlot())
  {
    hide Requests, Sum, Slots, Increasing;
    assert Unsent(s.AcquireSlot().gather) == Unsent(s.gather);
  }

  lemma SpawnKeeps(s: Batcher)
    requires Inv(s)
    ensures Inv(s.Spawn())
  {
    hide Requests, Sum, Slots, Increasing, Locking, TokensConserved, SlotConserved, Barrier, Accounted;
    var g, t := s.gather, s.Spawn();
    if g.loop.Starting? {
      SpawnSlot(s);
      SpawnAnswers(s);
      assert Unsent(g) == g.loop.active && Unsent(t.gather) == [];
      assert s.pipelines.executed + Unsent(g) == t.pipelines.executed + Unsent(t.gather);
    }
  }

  lemma SpawnSlot(s: Batcher)
    requires s.gather.loop.Starting? && SlotConserved(s.pipelines, s.gather.loop) && TokensConserved(s.admission, s.gather.loop)
    ensures SlotConserved(s.Spawn().pipelines, s.Spawn().gather.loop) && TokensConserved(s.Spawn().admission, s.Spawn().gather.loop)
  {
    hide Sum, Slots;
    var p := s.pipelines;
    assert |p.workers| == 0;
    assert p.workers.Keys == {} && p.workers[p.nextJob := Running].Keys == {p.nextJob};
    assert |p.workers[p.nextJob := Running]| == |p.workers[p.nextJob := Running].Keys|;
  }

  lemma SpawnAnswers(s: Batcher)
    requires s.gather.loop.Starting? && Accounted(s.gather) && Barrier(s.gather)
    ensures Accounted(s.Spawn().gather) && Barrier(s.Spawn().gather)
  {
    hide Requests;
  }

  lemma StopKeeps(s: Batcher)
    requires Inv(s)
    ensures Inv(s.Quiesce()) && Inv(s.StopWaiting())
  {
    hide Requests, Sum, Slots, Increasing, Batcher.Quiesce, Batcher.StopWaiting, TokensConserved, SlotConserved, Locking,
      Batching, InOrder, Accounted, ExecutesInOrder, Kinds, Barrier, DrainsLate;
    Stopping(s, s.gather.(loop := Stopped));
    Stopping(s, s.gather.NoteCloseError(Some(DeadlineExceeded)).(loop := Stopped));
    StopForms(s);
  }

  lemma StopForms(s: Batcher)
    ensures s.Quiesce() == s || (s.gather.loop.Quiescing? && s.Quiesce() == s.(gather := s.gather.(loop := Stopped)))
    ensures s.StopWaiting() == s
      || (s.gather.loop.Quiescing?
          && s.StopWaiting() == s.(gather := s.gather.NoteCloseError(Some(DeadlineExceeded)).(loop := Stopped)))
  {
  }

  lemma Stopping(s: Batcher, f: Gather)
    requires Inv(s)
    requires f == s.gather.(loop := Stopped, closeError := f.closeError)
    ensures s.gather.loop.Quiescing? ==> Inv(s.(gather := f))
  {
    hide Requests, Sum, Slots, Increasing, Locking;
    if s.gather.loop.Quiescing? { assert Unsent(f) == Unsent(s.gather); }
  }

  lemma WorkerKeeps(s: Batcher, job: nat, outcome: Outcome)
    requires Inv(s)
    ensures Inv(s.(pipelines := s.pipelines.Report(job, outcome)))
    ensures Inv(s.(pipelines := s.pipelines.ReturnSlot(job)))
  {
    hide Requests, Sum, Slots, Increasing, TokensConserved, Locking, Batching, InOrder, Accounted, Barrier, Kinds, DrainsLate;
    var workers := s.pipelines.workers;
    if job in workers {
      assert (workers - {job}).Keys == workers.Keys - {job};
      assert workers[job := Reported].Keys == workers.Keys;
      assert |workers[job := Reported]| == |workers[job := Reported].Keys| == |workers.Keys|;
      assert |workers - {job}| == |(workers - {job}).Keys| == |workers.Keys| - 1;
    }
  }

  /** Whatever runs next, the invariants hold afterwards. */
  lemma StepKeeps(s: Batcher, a: Action)
    requires Inv(s)
    ensures Inv(Step(s, a))
  {
    hide Inv, Batcher.Receive, Batcher.ReturnLoopSlot, Batcher.SeeClosed, Batcher.AcquireSlot, Batcher.Spawn, Batcher.Quiesce, Batcher.StopWaiting;
    if IsAdmission(a) {
      AdmitKeeps(s, a);
    } else if IsGathering(a) {
      GatheringStep(s, a);
    } else {
      match a
      case Receive => ReceiveKeeps(s);
      case ReturnLoopSlot => ReturnLoopSlotKeeps(s);
      case SeeClosed => SeeClosedKeeps(s);
      case AcquireSlot => AcquireSlotKeeps(s);
      case Spawn => SpawnKeeps(s);
      case Report(job, outcome) => WorkerKeeps(s, job, outcome);
      case ReturnPipelineSlot(job) => WorkerKeeps(s, job, Broke(WrongCount));
      case Quiesce => StopKeeps(s);
      case StopWaiting => StopKeeps(s);
    }
  }

  lemma InitialInv(size: nat, maxSize: nat)
    requires maxSize > 0
    ensures Inv(Initial(size, maxSize))
  {
    assert Slots(map[]) == map[];
  }

  lemma {:induction false} RunKeeps(s: Batcher, actions: seq<Action>)
    requires Inv(s)
    ensures Inv(Run(s, actions))
    decreases |actions|
  {
    hide Inv, Step;
    if actions != [] {
      StepKeeps(s, actions[0]);
      RunKeeps(Step(s, actions[0]), actions[1..]);
    }
  }

  /** Every run of a new batcher. */
  lemma Reachable(size: nat, maxSize: nat, actions: seq<Action>)
    requires maxSize > 0
    ensures Inv(Run(Initial(size, maxSize), actions))
  {
    hide Inv;
    InitialInv(size, maxSize);
    RunKeeps(Initial(size, maxSize), actions);
  }
}
