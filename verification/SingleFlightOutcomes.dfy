/** Who gets a connection, who is refused and why, and which attempts succeed. */
module SingleFlightOutcomes {
  import opened Results
  import opened SingleFlight

  ghost predicate In(s: Connector, c: nat, phase: Phase) {
    c in s.callers && s.callers[c].phase == phase
  }

  // ----- callers

  /** The caller looks at a connection that is there to stay, in time. */
  ghost predicate FindsConnection(s: Connector, action: Action, c: nat) {
    action == Check(c) && In(s, c, AtHead) && !s.callers[c].expired && s.conn.Some? && !s.goAway
  }

  /** Its context is done, or there is no connection and there will be none, or the attempt that it waited for failed. */
  ghost predicate HasNoHope(s: Connector, action: Action, c: nat) {
    || (action == Check(c) && In(s, c, AtHead)
        && (s.callers[c].expired || (s.conn.None? && (s.closed || s.retiring))))
    || (action == Release(c) && c in s.callers && s.callers[c].phase.Leaving?
        && (s.callers[c].expired
            || (s.callers[c].phase.completed && s.callers[c].phase.attempt in s.attempts
                && s.attempts[s.callers[c].phase.attempt].progress == Finished(true))))
  }

  /** An action connects a caller exactly when the caller finds a connection, which stays. */
  lemma ConnectedExactlyWhen(s: Connector, action: Action, c: nat)
    requires Inv(s) && !In(s, c, Connected)
    ensures In(Step(s, action), c, Connected) <==> FindsConnection(s, action, c)
    ensures In(Step(s, action), c, Connected) ==> Step(s, action).conn == s.conn
  {
    hide Inv, Connector.Open, Connector.Complete, Connector.Drop, Connector.CancelCurrent;
    OthersLeaveCallers(s, action);
  }

  /** An action refuses a caller exactly when the caller has no hope left. */
  lemma RefusedExactlyWhen(s: Connector, action: Action, c: nat)
    requires Inv(s) && !In(s, c, Refused)
    ensures In(Step(s, action), c, Refused) <==> HasNoHope(s, action, c)
  {
    hide Inv, Connector.Open, Connector.Complete, Connector.Drop, Connector.CancelCurrent;
    OthersLeaveCallers(s, action);
    if c in s.callers && s.callers[c].phase.Leaving? { CountedAttempt(s, c); }
  }

  lemma OthersLeaveCallers(s: Connector, action: Action)
    ensures !(action.Arrive? || action.Expire? || action.Check? || action.Wake? || action.Release?)
      ==> Step(s, action).callers == s.callers
  {
  }

  lemma CountedAttempt(s: Connector, c: nat)
    requires Inv(s) && c in s.callers && (s.callers[c].phase.Leaving? || s.callers[c].phase.WaitingOn?)
    ensures s.callers[c].phase.attempt in s.attempts
  {
    hide InOrder;
    assert s.callers[c].phase.CountedBy(s.callers[c].phase.attempt);
  }

  ghost predicate Became(s: Connector, actions: seq<Action>, i: nat, c: nat, phase: Phase)
    requires i < |actions|
  {
    var before := Run(s, actions[..i]);
    Inv(before) && !In(before, c, phase) && In(Step(before, actions[i]), c, phase)
  }

  lemma {:induction false} BecameAtSomePoint(s: Connector, actions: seq<Action>, c: nat, phase: Phase)
    requires Inv(s) && !In(s, c, phase) && In(Run(s, actions), c, phase)
    ensures exists i :: 0 <= i < |actions| && Became(s, actions, i, c, phase)
    decreases |actions|
  {
    hide Inv, Step, In;
    var next, rest := Step(s, actions[0]), actions[1..];
    if In(next, c, phase) {
      assert actions[..0] == [];
      assert Became(s, actions, 0, c, phase);
    } else {
      StepKeeps(s, actions[0]);
      BecameAtSomePoint(next, rest, c, phase);
      var i :| 0 <= i < |rest| && Became(next, rest, i, c, phase);
      assert actions[..i + 1][0] == actions[0] && actions[..i + 1][1..] == rest[..i];
      assert Became(s, actions, i + 1, c, phase);
    }
  }

  /** In every run, whoever is connected has found a connection, and whoever is refused had no hope left. */
  lemma SettledForAReason(actions: seq<Action>, c: nat)
    requires var s := Run(Start, actions); In(s, c, Connected) || In(s, c, Refused)
    ensures In(Run(Start, actions), c, Connected)
      ==> exists i :: 0 <= i < |actions| && FindsConnection(Run(Start, actions[..i]), actions[i], c)
    ensures In(Run(Start, actions), c, Refused)
      ==> exists i :: 0 <= i < |actions| && HasNoHope(Run(Start, actions[..i]), actions[i], c)
  {
    hide Inv, Step, Run, FindsConnection, HasNoHope;
    Reachable([]);
    StartIs();
    if In(Run(Start, actions), c, Connected) {
      BecameAtSomePoint(Start, actions, c, Connected);
      var i :| 0 <= i < |actions| && Became(Start, actions, i, c, Connected);
      ConnectedExactlyWhen(Run(Start, actions[..i]), actions[i], c);
    } else {
      BecameAtSomePoint(Start, actions, c, Refused);
      var i :| 0 <= i < |actions| && Became(Start, actions, i, c, Refused);
      RefusedExactlyWhen(Run(Start, actions[..i]), actions[i], c);
    }
  }

  lemma StartIs()
    ensures Run(Start, []) == Start && Start.callers == map[]
  {
  }

  // ----- attempts

  ghost predicate Decided(s: Connector, a: nat) {
    a in s.attempts && (s.attempts[a].progress.Opened? || s.attempts[a].progress.OpenFailed?)
  }

  /** An attempt goes on only by its own opening and completion. */
  lemma ProgressKept(s: Connector, action: Action, a: nat)
    requires Inv(s) && a in s.attempts && action !in {Open(a, true), Open(a, false), Complete(a)}
    ensures a in Step(s, action).attempts && Step(s, action).attempts[a].progress == s.attempts[a].progress
  {
    hide Inv;
    BelowNext(s, a);
    match action
    case Check(_) => CheckKeepsProgress(s, action.caller, a);
    case Release(_) => ReleaseKeepsProgress(s, action.caller, a);
    case _ => OthersKeepProgress(s, action, a);
  }

  lemma BelowNext(s: Connector, a: nat)
    requires Inv(s) && a in s.attempts
    ensures a < s.nextAttempt
  {
    hide CountsWaiters, NobodyStranded, TransportsAccounted, AbandonedStays;
  }

  lemma CheckKeepsProgress(s: Connector, c: nat, a: nat)
    requires a in s.attempts && a < s.nextAttempt
    ensures a in s.Check(c).attempts && s.Check(c).attempts[a].progress == s.attempts[a].progress
  {
  }

  lemma ReleaseKeepsProgress(s: Connector, c: nat, a: nat)
    requires a in s.attempts
    ensures a in s.Release(c).attempts && s.Release(c).attempts[a].progress == s.attempts[a].progress
  {
  }

  lemma OthersKeepProgress(s: Connector, action: Action, a: nat)
    requires a in s.attempts && !action.Check? && !action.Release? && action !in {Open(a, true), Open(a, false), Complete(a)}
    ensures a in Step(s, action).attempts && Step(s, action).attempts[a].progress == s.attempts[a].progress
  {
  }

  /** Opening gives an attempt its transport, or tells that there is none. */
  lemma OpenedExactly(s: Connector, a: nat, success: bool)
    requires a in s.attempts && s.attempts[a].progress.Opening?
    ensures var t := s.Open(a, success);
      && a in t.attempts && t.attempts[a].progress == (if success then Opened else OpenFailed)
      && (a in t.established <==> success || a in s.established)
  {
  }

  /**
    An attempt that ends has failed exactly when nothing was opened, or it is no
    longer the current one, or the executor is closed or retiring. One that has not
    failed is the connection; one that has failed changes no connection, and a
    transport that it opened is to be closed.
  */
  lemma CompletedExactly(s: Connector, a: nat)
    requires Decided(s, a)
    ensures var t := s.Complete(a);
      && a in t.attempts && t.attempts[a].progress.Finished?
      && (t.attempts[a].progress.failed
          <==> s.attempts[a].progress.OpenFailed? || s.inFlight != Some(a) || s.closed || s.retiring)
      && (if t.attempts[a].progress.failed then t.conn == s.conn else t.conn == Some(a))
      && (t.attempts[a].progress.failed && s.attempts[a].progress.Opened? ==> a in t.orphans)
      && t.inFlight != Some(a)
  {
  }

  /** The attempt's result is told, and `failed` is as it has to be. */
  ghost predicate EndsRightly(s: Connector, action: Action, a: nat, failed: bool) {
    && action == Complete(a) && Decided(s, a)
    && (failed <==> s.attempts[a].progress.OpenFailed? || s.inFlight != Some(a) || s.closed || s.retiring)
  }

  ghost predicate EndedBy(s: Connector, actions: seq<Action>, i: nat, a: nat, failed: bool)
    requires i < |actions|
  {
    EndsRightly(Run(s, actions[..i]), actions[i], a, failed)
  }

  lemma EndsNow(s: Connector, action: Action, a: nat)
    requires Inv(s) && !(a in s.attempts && s.attempts[a].progress.Finished?)
    requires a in Step(s, action).attempts && Step(s, action).attempts[a].progress.Finished?
    ensures EndsRightly(s, action, a, Step(s, action).attempts[a].progress.failed)
  {
    hide Inv, Connector.Release, Connector.Wake, Connector.Drop, Connector.CancelCurrent;
    if a !in s.attempts {
      NewIsOpening(s, action, a);
    } else if action == Complete(a) {
      if Decided(s, a) { CompletedExactly(s, a); }
    } else if action == Open(a, true) || action == Open(a, false) {
      OpenIsNotTheEnd(s, a, action.success);
    } else {
      ProgressKept(s, action, a);
    }
  }

  lemma OpenIsNotTheEnd(s: Connector, a: nat, success: bool)
    requires a in s.attempts && !s.attempts[a].progress.Finished?
    ensures a in s.Open(a, success).attempts && !s.Open(a, success).attempts[a].progress.Finished?
  {
  }

  lemma NewIsOpening(s: Connector, action: Action, a: nat)
    requires a !in s.attempts && a in Step(s, action).attempts
    ensures Step(s, action).attempts[a].progress.Opening?
  {
  }

  lemma {:induction false} EndedAtSomePoint(s: Connector, actions: seq<Action>, a: nat)
    requires Inv(s) && !(a in s.attempts && s.attempts[a].progress.Finished?)
    requires a in Run(s, actions).attempts && Run(s, actions).attempts[a].progress.Finished?
    ensures exists i :: 0 <= i < |actions| && EndedBy(s, actions, i, a, Run(s, actions).attempts[a].progress.failed)
    decreases |actions|
  {
    hide Inv, Step, EndsRightly;
    var next, rest := Step(s, actions[0]), actions[1..];
    StepKeeps(s, actions[0]);
    if a in next.attempts && next.attempts[a].progress.Finished? {
      EndsNow(s, actions[0], a);
      StaysFinished(next, rest, a);
      assert actions[..0] == [];
      assert EndedBy(s, actions, 0, a, next.attempts[a].progress.failed);
    } else {
      EndedAtSomePoint(next, rest, a);
      var failed := Run(s, actions).attempts[a].progress.failed;
      var i :| 0 <= i < |rest| && EndedBy(next, rest, i, a, failed);
      assert actions[..i + 1][0] == actions[0] && actions[..i + 1][1..] == rest[..i];
      assert EndedBy(s, actions, i + 1, a, failed);
    }
  }

  lemma {:induction false} StaysFinished(s: Connector, actions: seq<Action>, a: nat)
    requires Inv(s) && a in s.attempts && s.attempts[a].progress.Finished?
    ensures a in Run(s, actions).attempts && Run(s, actions).attempts[a].progress == s.attempts[a].progress
    decreases |actions|
  {
    hide Inv, Step;
    if actions != [] {
      StepKeeps(s, actions[0]);
      FinishedStays(s, actions[0], a);
      StaysFinished(Step(s, actions[0]), actions[1..], a);
    }
  }

  lemma FinishedStays(s: Connector, action: Action, a: nat)
    requires Inv(s) && a in s.attempts && s.attempts[a].progress.Finished?
    ensures a in Step(s, action).attempts && Step(s, action).attempts[a].progress == s.attempts[a].progress
  {
    hide Inv, Connector.Check, Connector.Release, Connector.Wake, Connector.Drop, Connector.CancelCurrent;
    if action !in {Open(a, true), Open(a, false), Complete(a)} { ProgressKept(s, action, a); }
  }

  /** In every run, each attempt that has ended was told rightly whether it failed. */
  lemma EndedForAReason(actions: seq<Action>, a: nat)
    requires a in Run(Start, actions).attempts && Run(Start, actions).attempts[a].progress.Finished?
    ensures exists i :: 0 <= i < |actions| && EndedBy(Start, actions, i, a, Run(Start, actions).attempts[a].progress.failed)
  {
    hide Inv, Step, Run, EndedBy;
    Reachable([]);
    StartIs();
    EndedAtSomePoint(Start, actions, a);
  }

  /** Whoever waits for the current attempt is connected by its success. */
  lemma WaiterIsConnected(s: Connector, c: nat, a: nat)
    requires Inv(s) && In(s, c, WaitingOn(a)) && !s.callers[c].expired
    requires s.inFlight == Some(a) && !s.closed && !s.retiring
    requires a in s.attempts && s.attempts[a].progress.Opened?
    ensures In(s.Complete(a).Wake(c, true).Release(c).Check(c), c, Connected)
    ensures s.Complete(a).Wake(c, true).Release(c).Check(c).conn == Some(a)
  {
    hide CountsWaiters, NobodyStranded, TransportsAccounted, AbandonedStays;
    CompletedExactly(s, a);
    var done := s.Complete(a);
    var left := done.Wake(c, true);
    assert In(left, c, Leaving(a, true));
    var free := left.Release(c);
    assert In(free, c, AtHead) && free.conn == Some(a) && !free.goAway;
  }

  // ----- the executor's state

  /** Shutting down takes effect and lasts, a connection is lost by nothing but its end, and a context once done stays done. */
  lemma FlagsExactlyWhen(s: Connector, action: Action)
    requires Inv(s)
    ensures var t := Step(s, action);
      && (t.closed <==> s.closed || action.Close?) && (t.retiring <==> s.retiring || action.Retire?)
      && (action.Close? ==> t.conn.None?)
      && (s.conn.Some? && t.conn != s.conn ==> t.conn.None? && (action.Drop? || action.Close?) && s.conn.value in t.shut)
      && (s.conn.Some? ==> (t.goAway <==> t.conn.Some? && (s.goAway || action.GoAway?)))
      && ((action.Close? || action.Retire?) && s.inFlight.Some? ==>
           s.inFlight.value in t.attempts && t.attempts[s.inFlight.value].cancelled)
  {
    hide CountsWaiters, NobodyStranded, TransportsAccounted, AbandonedStays;
  }

  lemma ExpiredExactlyWhen(s: Connector, action: Action, c: nat)
    requires Inv(s) && c in s.callers
    ensures c in Step(s, action).callers
    ensures Step(s, action).callers[c].expired <==> s.callers[c].expired || action == Expire(c)
  {
    hide Inv, Connector.Open, Connector.Complete, Connector.Drop, Connector.CancelCurrent;
    OthersLeaveCallers(s, action);
  }
}
