/**
  Connecting on demand: callers that need a connection share one attempt to open
  it, and the last of them to give up abandons it.

  Each action is a section under the executor's lock, or an event outside it. An
  attempt's transport has the attempt's number.
*/
module SingleFlight {
  import opened MapSums
  import opened Results

  /**
    `Leaving` no longer waits for its attempt but is still counted by it; `completed`
    says whether it saw the attempt finish.
  */
  datatype Phase =
    | AtHead
    | WaitingOn(attempt: nat)
    | Leaving(attempt: nat, completed: bool)
    | Connected
    | Refused
  {
    predicate CountedBy(a: nat) {
      (WaitingOn? || Leaving?) && attempt == a
    }
  }

  datatype Caller = Caller(phase: Phase, expired: bool)

  /** `Finished` has told its waiters; `failed` is what it told them. */
  datatype Progress = Opening | Opened | OpenFailed | Finished(failed: bool)

  datatype Attempt = Attempt(waiters: nat, cancelled: bool, progress: Progress)

  /** Transports are unclaimed, installed, about to be closed, or closed. */
  datatype Connector = Connector(
    conn: Option<nat>,
    goAway: bool,
    inFlight: Option<nat>,
    closed: bool,
    retiring: bool,
    callers: map<nat, Caller>,
    attempts: map<nat, Attempt>,
    nextAttempt: nat,
    // history
    established: set<nat>,
    installed: set<nat>,
    orphans: set<nat>,
    shut: set<nat>,
    abandoned: set<nat>)
  {
    function To(c: nat, phase: Phase): Connector
      requires c in callers
    {
      this.(callers := callers[c := callers[c].(phase := phase)])
    }

    function Arrive(c: nat): Connector {
      if c in callers then this else this.(callers := callers[c := Caller(AtHead, false)])
    }

    function Expire(c: nat): Connector {
      if c in callers then this.(callers := callers[c := callers[c].(expired := true)]) else this
    }

    /** One turn of the loop up to the wait. While the server is going away there is nothing to do but wait. */
    function Check(c: nat): Connector {
      if c !in callers || !callers[c].phase.AtHead? then this
      else if callers[c].expired then To(c, Refused)
      else if conn.Some? && goAway then this
      else if conn.Some? then To(c, Connected)
      else if closed || retiring then To(c, Refused)
      else if inFlight.None? then Launch(c)
      else if inFlight.value in attempts then Join(c, inFlight.value)
      else this
    }

    function Launch(c: nat): Connector
      requires c in callers
    {
      To(c, WaitingOn(nextAttempt)).(
        attempts := attempts[nextAttempt := Attempt(1, false, Opening)],
        inFlight := Some(nextAttempt),
        nextAttempt := nextAttempt + 1)
    }

    function Join(c: nat, a: nat): Connector
      requires c in callers && a in attempts
    {
      To(c, WaitingOn(a)).(attempts := attempts[a := attempts[a].(waiters := attempts[a].waiters + 1)])
    }

    /** The wait ends because the attempt finished or because the caller's context did. */
    function Wake(c: nat, completed: bool): Connector {
      if c !in callers || !callers[c].phase.WaitingOn? || callers[c].phase.attempt !in attempts then this
      else
        var a := callers[c].phase.attempt;
        if (if completed then attempts[a].progress.Finished? else callers[c].expired) then To(c, Leaving(a, completed))
        else this
    }

    /** The caller is no longer counted; the last one abandons an attempt that is still current. */
    function Release(c: nat): Connector {
      if c !in callers || !callers[c].phase.Leaving? || callers[c].phase.attempt !in attempts then this
      else
        var a, completed := callers[c].phase.attempt, callers[c].phase.completed;
        var left := if attempts[a].waiters > 0 then attempts[a].waiters - 1 else 0;
        var abandons := left == 0 && inFlight == Some(a) && conn.None?;
        var next :=
          if callers[c].expired then Refused
          else if completed && attempts[a].progress.Finished? && attempts[a].progress.failed then Refused
          else AtHead;
        To(c, next).(
          attempts := attempts[a := attempts[a].(waiters := left, cancelled := attempts[a].cancelled || abandons)],
          inFlight := if abandons then None else inFlight,
          abandoned := if abandons then abandoned + {a} else abandoned)
    }

    /** Opening may succeed even after the attempt was cancelled. */
    function Open(a: nat, success: bool): Connector {
      if a !in attempts || !attempts[a].progress.Opening? then this
      else
        this.(attempts := attempts[a := attempts[a].(progress := if success then Opened else OpenFailed)],
              established := if success then established + {a} else established)
    }

    /** The attempt's result: install the transport, unless nobody wants it any more. */
    function Complete(a: nat): Connector {
      if a !in attempts || !(attempts[a].progress.Opened? || attempts[a].progress.OpenFailed?) then this
      else
        var success := attempts[a].progress.Opened?;
        var wanted := success && !closed && !retiring && inFlight == Some(a);
        this.(
          conn := if wanted then Some(a) else conn,
          installed := if wanted then installed + {a} else installed,
          orphans := if success && !wanted then orphans + {a} else orphans,
          inFlight := if inFlight == Some(a) then None else inFlight,
          attempts := attempts[a := attempts[a].(progress := Finished(!wanted), cancelled := true)])
    }

    function CloseOrphan(a: nat): Connector {
      if a in orphans then this.(orphans := orphans - {a}, shut := shut + {a}) else this
    }

    /** The connection is lost, drained or closed. */
    function Drop(): Connector {
      if conn.None? then this else this.(conn := None, goAway := false, shut := shut + {conn.value})
    }

    function GoAway(): Connector {
      if conn.Some? then this.(goAway := true) else this
    }

    function CancelCurrent(): Connector {
      if inFlight.Some? && inFlight.value in attempts then
        this.(attempts := attempts[inFlight.value := attempts[inFlight.value].(cancelled := true)])
      else this
    }

    function Retire(): Connector {
      CancelCurrent().(retiring := true)
    }

    function Close(): Connector {
      CancelCurrent().Drop().(closed := true)
    }
  }

  datatype Action =
    | Arrive(caller: nat)
    | Expire(caller: nat)
    | Check(caller: nat)
    | Wake(caller: nat, completed: bool)
    | Release(caller: nat)
    | Open(attempt: nat, success: bool)
    | Complete(attempt: nat)
    | CloseOrphan(attempt: nat)
    | Drop
    | GoAway
    | Retire
    | Close

  function Step(s: Connector, a: Action): Connector {
    match a
    case Arrive(c) => s.Arrive(c)
    case Expire(c) => s.Expire(c)
    case Check(c) => s.Check(c)
    case Wake(c, completed) => s.Wake(c, completed)
    case Release(c) => s.Release(c)
    case Open(t, success) => s.Open(t, success)
    case Complete(t) => s.Complete(t)
    case CloseOrphan(t) => s.CloseOrphan(t)
    case Drop => s.Drop()
    case GoAway => s.GoAway()
    case Retire => s.Retire()
    case Close => s.Close()
  }

  function Run(s: Connector, actions: seq<Action>): Connector
    decreases |actions|
  {
    if actions == [] then s else Run(Step(s, actions[0]), actions[1..])
  }

  const Start := Connector(None, false, None, false, false, map[], map[], 0, {}, {}, {}, {}, {})

  // ----- what every reachable state satisfies

  ghost function Counted(callers: map<nat, Caller>, a: nat): map<nat, nat> {
    map c | c in callers :: if callers[c].phase.CountedBy(a) then 1 else 0
  }

  /** Each attempt counts exactly the callers that wait for it or are leaving it. */
  ghost predicate CountsWaiters(s: Connector) {
    && (forall a :: a in s.attempts ==> s.attempts[a].waiters == Sum(Counted(s.callers, a)))
    && (forall c, a :: c in s.callers && s.callers[c].phase.CountedBy(a) ==> a in s.attempts)
  }

  /** There is one current attempt at most, and none while there is a connection. */
  ghost predicate SingleAttempt(s: Connector) {
    && (s.conn.Some? ==> s.inFlight.None?)
    && (s.inFlight.Some?
        ==> && s.inFlight.value in s.attempts && !s.attempts[s.inFlight.value].progress.Finished?
            && s.attempts[s.inFlight.value].waiters > 0)
    && (forall a :: a in s.attempts ==> a < s.nextAttempt)
    && (s.goAway ==> s.conn.Some?)
    && (s.closed ==> s.conn.None?)
  }

  /** Whoever still waits will hear: its attempt is the current one, or has finished. */
  ghost predicate NobodyStranded(s: Connector) {
    forall a :: a in s.attempts && s.attempts[a].waiters > 0 ==> s.inFlight == Some(a) || s.attempts[a].progress.Finished?
  }

  /** A transport that was opened is unclaimed, installed, about to be closed or closed, and only one of these. */
  ghost predicate TransportsAccounted(s: Connector) {
    && (forall a :: a in s.established <==> (a in s.attempts && s.attempts[a].progress.Opened?) || s.conn == Some(a) || a in s.orphans || a in s.shut)
    && (forall a :: a in s.established ==> a in s.attempts && !s.attempts[a].progress.Opening?)
    && (forall a :: a in s.established && (s.conn == Some(a) || a in s.orphans || a in s.shut) ==> s.attempts[a].progress.Finished?)
    && (forall a :: a in s.orphans ==> s.conn != Some(a))
    && (forall a :: a in s.shut ==> a !in s.orphans && s.conn != Some(a))
  }

  /** An abandoned attempt is never installed. */
  ghost predicate AbandonedStays(s: Connector) {
    && (forall a :: a in s.abandoned ==> a in s.attempts && s.inFlight != Some(a) && a !in s.installed && s.conn != Some(a))
    && (forall a :: a in s.installed ==> a in s.attempts && s.attempts[a].progress.Finished?)
    && (s.conn.Some? ==> s.conn.value in s.installed)
  }

  ghost predicate Inv(s: Connector) {
    CountsWaiters(s) && InOrder(s)
  }

  ghost predicate InOrder(s: Connector) {
    SingleAttempt(s) && NobodyStranded(s) && TransportsAccounted(s) && AbandonedStays(s)
  }

  // ----- counting

  lemma CountedUpdate(callers: map<nat, Caller>, c: nat, caller: Caller, a: nat)
    ensures Sum(Counted(callers[c := caller], a))
      == Sum(Counted(callers, a)) - (if c in callers && callers[c].phase.CountedBy(a) then 1 else 0)
         + (if caller.phase.CountedBy(a) then 1 else 0)
  {
    hide Sum;
    var v := if caller.phase.CountedBy(a) then 1 else 0;
    SumUpdate(Counted(callers, a), c, v);
    assert Counted(callers[c := caller], a) == Counted(callers, a)[c := v];
  }

  lemma CountedPositive(callers: map<nat, Caller>, c: nat, a: nat)
    requires c in callers && callers[c].phase.CountedBy(a)
    ensures Sum(Counted(callers, a)) > 0
  {
    hide Sum;
    SumAtLeast(Counted(callers, a), c);
  }

  lemma {:induction false} NobodyCounted(callers: map<nat, Caller>, a: nat)
    requires forall c :: c in callers ==> !callers[c].phase.CountedBy(a)
    ensures Sum(Counted(callers, a)) == 0
    decreases |callers|
  {
    hide Sum;
    if callers == map[] {
      assert Counted(callers, a) == map[];
      EmptySum(Counted(callers, a));
    } else {
      var c :| c in callers;
      assert |callers - {c}| < |callers| by { assert (callers - {c}).Keys == callers.Keys - {c}; }
      NobodyCounted(callers - {c}, a);
      SumWithout(Counted(callers, a), c);
      assert Counted(callers - {c}, a) == Counted(callers, a) - {c};
    }
  }

  lemma EmptySum(none: map<nat, nat>)
    requires none == map[]
    ensures Sum(none) == 0
  {
  }

  /** A caller changes phase, and the attempts' counts with it. */
  lemma PhaseChange(s: Connector, t: Connector, c: nat, caller: Caller)
    requires CountsWaiters(s) && t.callers == s.callers[c := caller]
    requires forall a :: a in t.attempts ==>
      t.attempts[a].waiters
      == (if a in s.attempts then s.attempts[a].waiters else 0)
         - (if c in s.callers && s.callers[c].phase.CountedBy(a) then 1 else 0) + (if caller.phase.CountedBy(a) then 1 else 0)
    requires forall a :: a in s.attempts || caller.phase.CountedBy(a) ==> a in t.attempts
    ensures CountsWaiters(t)
  {
    hide Sum, Counted, Phase.CountedBy;
    forall a | a in t.attempts ensures t.attempts[a].waiters == Sum(Counted(t.callers, a)) {
      CountedUpdate(s.callers, c, caller, a);
      if a !in s.attempts { NobodyCounted(s.callers, a); }
    }
  }

  lemma OnlyProgress(s: Connector, t: Connector)
    requires CountsWaiters(s) && t.callers == s.callers && t.attempts.Keys == s.attempts.Keys
    requires forall a :: a in s.attempts ==> t.attempts[a].waiters == s.attempts[a].waiters
    ensures CountsWaiters(t)
  {
    hide Sum, Counted;
  }

  // ----- callers

  lemma OnlyCallers(s: Connector, t: Connector)
    requires InOrder(s) && t == s.(callers := t.callers)
    ensures InOrder(t)
  {
    hide CountsWaiters;
  }

  lemma LaunchKeeps(s: Connector, c: nat)
    requires Inv(s) && c in s.callers && s.callers[c].phase.AtHead? && s.conn.None? && s.inFlight.None?
    ensures Inv(s.Launch(c))
  {
    hide Sum, Counted, TransportsAccounted, AbandonedStays;
    var t := s.Launch(c);
    LaunchCounts(s, c);
    NewAttemptAccounted(s, t);
  }

  lemma LaunchCounts(s: Connector, c: nat)
    requires CountsWaiters(s) && SingleAttempt(s) && c in s.callers && s.callers[c].phase.AtHead?
    ensures CountsWaiters(s.Launch(c))
  {
    hide Sum, Counted, CountsWaiters;
    PhaseChange(s, s.Launch(c), c, s.Launch(c).callers[c]);
  }

  lemma NewAttemptAccounted(s: Connector, t: Connector)
    requires SingleAttempt(s) && TransportsAccounted(s) && AbandonedStays(s)
    requires t == s.(
      callers := t.callers, attempts := s.attempts[s.nextAttempt := Attempt(1, false, Opening)],
      inFlight := Some(s.nextAttempt), nextAttempt := s.nextAttempt + 1)
    ensures TransportsAccounted(t) && AbandonedStays(t)
  {
  }

  lemma JoinKeeps(s: Connector, c: nat, a: nat)
    requires Inv(s) && c in s.callers && s.callers[c].phase.AtHead? && s.inFlight == Some(a) && a in s.attempts
    ensures Inv(s.Join(c, a))
  {
    hide Sum, Counted, CountsWaiters, TransportsAccounted, AbandonedStays;
    var t := s.Join(c, a);
    PhaseChange(s, t, c, t.callers[c]);
    SameProgress(s, t);
  }

  /** Counting callers and cancelling attempts moves no transport. */
  lemma SameProgress(s: Connector, t: Connector)
    requires TransportsAccounted(s) && AbandonedStays(s) && t.attempts.Keys == s.attempts.Keys
    requires forall a :: a in s.attempts ==> t.attempts[a].progress == s.attempts[a].progress
    requires t == s.(
      callers := t.callers, attempts := t.attempts, inFlight := t.inFlight, abandoned := t.abandoned, retiring := t.retiring, closed := t.closed)
    ensures TransportsAccounted(t)
    ensures t.inFlight == s.inFlight && t.abandoned == s.abandoned ==> AbandonedStays(t)
  {
  }

  lemma CheckKeeps(s: Connector, c: nat)
    requires Inv(s)
    ensures Inv(s.Check(c))
  {
    hide Sum, Counted, InOrder, CountsWaiters, Connector.Launch, Connector.Join;
    var t := s.Check(c);
    if c in s.callers && s.callers[c].phase.AtHead? && t != s {
      if s.callers[c].expired || s.conn.Some? || s.closed || s.retiring {
        OnlyCallers(s, t);
        PhaseChange(s, t, c, t.callers[c]);
      } else if s.inFlight.None? {
        LaunchKeeps(s, c);
      } else {
        JoinKeeps(s, c, s.inFlight.value);
      }
    }
  }

  lemma WakeKeeps(s: Connector, c: nat, completed: bool)
    requires Inv(s)
    ensures Inv(s.Wake(c, completed))
  {
    hide Sum, Counted, InOrder, CountsWaiters;
    var t := s.Wake(c, completed);
    if t != s {
      PhaseChange(s, t, c, t.callers[c]);
      OnlyCallers(s, t);
    }
  }

  lemma CallerKeeps(s: Connector, c: nat)
    requires Inv(s)
    ensures Inv(s.Arrive(c)) && Inv(s.Expire(c))
  {
    hide Sum, Counted, InOrder;
    if c in s.callers {
      PhaseChange(s, s.Expire(c), c, s.callers[c].(expired := true));
      OnlyCallers(s, s.Expire(c));
    } else {
      PhaseChange(s, s.Arrive(c), c, Caller(AtHead, false));
      OnlyCallers(s, s.Arrive(c));
    }
  }

  lemma ReleaseCounts(s: Connector, c: nat)
    requires Inv(s)
    ensures CountsWaiters(s.Release(c))
  {
    hide Sum, Counted, InOrder;
    var t := s.Release(c);
    if t != s {
      CountedPositive(s.callers, c, s.callers[c].phase.attempt);
      PhaseChange(s, t, c, t.callers[c]);
    }
  }

  lemma ReleaseKeeps(s: Connector, c: nat)
    requires Inv(s)
    ensures Inv(s.Release(c))
  {
    hide Sum, Counted, CountsWaiters, TransportsAccounted, SingleAttempt, NobodyStranded, AbandonedStays;
    ReleaseCounts(s, c);
    ReleaseTransports(s, c);
    ReleaseWaiters(s, c);
  }

  lemma ReleaseTransports(s: Connector, c: nat)
    requires SingleAttempt(s) && TransportsAccounted(s) && AbandonedStays(s)
    ensures TransportsAccounted(s.Release(c)) && AbandonedStays(s.Release(c))
  {
    hide Sum, Counted, TransportsAccounted;
    SameProgress(s, s.Release(c));
  }

  lemma ReleaseWaiters(s: Connector, c: nat)
    requires SingleAttempt(s) && NobodyStranded(s)
    ensures SingleAttempt(s.Release(c)) && NobodyStranded(s.Release(c))
  {
    hide Sum, Counted;
  }

  // ----- attempts and connections

  lemma OpenKeeps(s: Connector, a: nat, success: bool)
    requires Inv(s)
    ensures Inv(s.Open(a, success))
  {
    hide Sum, Counted, CountsWaiters, TransportsAccounted, SingleAttempt, NobodyStranded, AbandonedStays;
    OpenCounts(s, a, success);
    OpenTransports(s, a, success);
    OpenAttempts(s, a, success);
  }

  lemma OpenCounts(s: Connector, a: nat, success: bool)
    requires CountsWaiters(s)
    ensures CountsWaiters(s.Open(a, success))
  {
    hide Sum, Counted, CountsWaiters;
    OnlyProgress(s, s.Open(a, success));
  }

  lemma OpenAttempts(s: Connector, a: nat, success: bool)
    requires SingleAttempt(s) && NobodyStranded(s) && AbandonedStays(s)
    ensures SingleAttempt(s.Open(a, success)) && NobodyStranded(s.Open(a, success)) && AbandonedStays(s.Open(a, success))
  {
  }

  lemma OpenTransports(s: Connector, a: nat, success: bool)
    requires TransportsAccounted(s) && AbandonedStays(s)
    ensures TransportsAccounted(s.Open(a, success))
  {
  }

  lemma CompleteTransports(s: Connector, a: nat)
    requires SingleAttempt(s) && TransportsAccounted(s)
    ensures TransportsAccounted(s.Complete(a))
  {
  }

  lemma CompleteKeeps(s: Connector, a: nat)
    requires Inv(s)
    ensures Inv(s.Complete(a))
  {
    hide Sum, Counted, CountsWaiters, TransportsAccounted, AbandonedStays, SingleAttempt, NobodyStranded;
    CompleteCounts(s, a);
    CompleteTransports(s, a);
    CompleteAttempts(s, a);
    CompleteAbandons(s, a);
  }

  lemma CompleteCounts(s: Connector, a: nat)
    requires CountsWaiters(s)
    ensures CountsWaiters(s.Complete(a))
  {
    hide Sum, Counted, CountsWaiters;
    OnlyProgress(s, s.Complete(a));
  }

  lemma CompleteAttempts(s: Connector, a: nat)
    requires SingleAttempt(s) && NobodyStranded(s)
    ensures SingleAttempt(s.Complete(a)) && NobodyStranded(s.Complete(a))
  {
  }

  lemma CompleteAbandons(s: Connector, a: nat)
    requires SingleAttempt(s) && AbandonedStays(s)
    ensures AbandonedStays(s.Complete(a))
  {
  }

  lemma OrphanKeeps(s: Connector, a: nat)
    requires Inv(s)
    ensures Inv(s.CloseOrphan(a))
  {
    hide Sum, Counted, CountsWaiters;
    OnlyProgress(s, s.CloseOrphan(a));
  }

  lemma DropKeeps(s: Connector)
    requires Inv(s)
    ensures Inv(s.Drop())
  {
    hide Sum, Counted, CountsWaiters, TransportsAccounted;
    OnlyProgress(s, s.Drop());
    DropTransports(s);
  }

  lemma DropTransports(s: Connector)
    requires TransportsAccounted(s) && AbandonedStays(s)
    ensures TransportsAccounted(s.Drop())
  {
  }

  lemma GoAwayKeeps(s: Connector)
    requires Inv(s)
    ensures Inv(s.GoAway())
  {
    hide Sum, Counted, CountsWaiters;
    OnlyProgress(s, s.GoAway());
  }

  lemma CancelKeeps(s: Connector)
    requires Inv(s)
    ensures Inv(s.CancelCurrent())
  {
    hide Sum, Counted, CountsWaiters, TransportsAccounted, AbandonedStays;
    OnlyProgress(s, s.CancelCurrent());
    SameProgress(s, s.CancelCurrent());
  }

  lemma MarkKeeps(s: Connector)
    requires Inv(s)
    ensures Inv(s.(retiring := true)) && (s.conn.None? ==> Inv(s.(closed := true)))
  {
    hide Sum, Counted, CountsWaiters;
    OnlyProgress(s, s.(retiring := true));
    OnlyProgress(s, s.(closed := true));
  }

  lemma StepKeeps(s: Connector, action: Action)
    requires Inv(s)
    ensures Inv(Step(s, action))
  {
    hide Inv, Connector.Check, Connector.Wake, Connector.Release, Connector.Open, Connector.Complete, Connector.Drop, Connector.CancelCurrent;
    match action
    case Arrive(c) => CallerKeeps(s, c);
    case Expire(c) => CallerKeeps(s, c);
    case Check(c) => CheckKeeps(s, c);
    case Wake(c, completed) => WakeKeeps(s, c, completed);
    case Release(c) => ReleaseKeeps(s, c);
    case Open(a, success) => OpenKeeps(s, a, success);
    case Complete(a) => CompleteKeeps(s, a);
    case CloseOrphan(a) => OrphanKeeps(s, a);
    case Drop => DropKeeps(s);
    case GoAway => GoAwayKeeps(s);
    case Retire =>
      CancelKeeps(s);
      MarkKeeps(s.CancelCurrent());
    case Close =>
      CancelKeeps(s);
      DropKeeps(s.CancelCurrent());
      Dropped(s.CancelCurrent());
      MarkKeeps(s.CancelCurrent().Drop());
  }

  lemma Dropped(s: Connector)
    ensures s.Drop().conn.None?
  {
  }

  lemma {:induction false} RunKeeps(s: Connector, actions: seq<Action>)
    requires Inv(s)
    ensures Inv(Run(s, actions))
    decreases |actions|
  {
    hide Inv, Step;
    if actions != [] {
      StepKeeps(s, actions[0]);
      RunKeeps(Step(s, actions[0]), actions[1..]);
    }
  }

  /** The protocol's promises, in every run. */
  lemma Reachable(actions: seq<Action>)
    ensures Inv(Run(Start, actions))
  {
    RunKeeps(Start, actions);
  }

  /** Once the executor is closed or retiring, no attempt is started and no transport installed. */
  lemma NothingNewAfterShutdown(s: Connector, action: Action)
    requires s.closed || s.retiring
    ensures var t := Step(s, action);
      && (t.closed || t.retiring) && t.installed == s.installed && t.attempts.Keys == s.attempts.Keys
      && (t.conn == s.conn || t.conn.None?)
  {
    hide Connector.Check, Connector.Wake, Connector.Release, Connector.Open, Connector.Complete, Connector.CancelCurrent;
    match action
    case Check(c) => QuietCaller(s, c, false);
    case Wake(c, completed) => QuietCaller(s, c, completed);
    case Release(c) => QuietCaller(s, c, false);
    case Open(a, success) => QuietAttempt(s, a, success);
    case Complete(a) => QuietAttempt(s, a, false);
    case Retire => QuietAttempt(s, 0, false);
    case Close => QuietAttempt(s, 0, false);
    case _ =>
  }

  /** The history of installations, the set of attempts and the connection are as they were. */
  ghost predicate NothingNew(s: Connector, t: Connector) {
    t.closed == s.closed && t.retiring == s.retiring && t.installed == s.installed && t.attempts.Keys == s.attempts.Keys && t.conn == s.conn
  }

  lemma QuietCaller(s: Connector, c: nat, completed: bool)
    requires s.closed || s.retiring
    ensures NothingNew(s, s.Check(c)) && NothingNew(s, s.Wake(c, completed)) && NothingNew(s, s.Release(c))
  {
  }

  lemma QuietAttempt(s: Connector, a: nat, success: bool)
    requires s.closed || s.retiring
    ensures NothingNew(s, s.Open(a, success)) && NothingNew(s, s.Complete(a)) && NothingNew(s, s.CancelCurrent())
  {
  }

  /** In particular a closed executor never has a connection again. */
  lemma {:induction false} ClosedStaysDisconnected(s: Connector, actions: seq<Action>)
    requires Inv(s) && s.closed
    ensures Run(s, actions).conn.None? && Run(s, actions).installed == s.installed
    decreases |actions|
  {
    hide Inv, Step;
    ClosedHasNone(s);
    if actions != [] {
      NothingNewAfterShutdown(s, actions[0]);
      StaysClosed(s, actions[0]);
      StepKeeps(s, actions[0]);
      ClosedStaysDisconnected(Step(s, actions[0]), actions[1..]);
    }
  }

  lemma ClosedHasNone(s: Connector)
    requires Inv(s) && s.closed
    ensures s.conn.None?
  {
    hide Sum, Counted, CountsWaiters;
  }

  lemma StaysClosed(s: Connector, action: Action)
    requires s.closed
    ensures Step(s, action).closed
  {
  }

  /** When everything has settled, each opened transport is the connection or has been closed. */
  lemma NoLeak(actions: seq<Action>, a: nat)
    requires var s := Run(Start, actions);
      && a in s.established && s.orphans == {}
      && forall t :: t in s.attempts ==> s.attempts[t].progress.Finished?
    ensures var s := Run(Start, actions); (s.conn == Some(a)) != (a in s.shut)
  {
    hide Run, Sum, Counted;
    Reachable(actions);
  }

  /** With no attempt current, no connection and nobody shutting down, a caller starts one and waits for it. */
  lemma CallersShareOneAttempt(actions: seq<Action>, c: nat, d: nat)
    requires var s := Run(Start, actions);
      && s.conn.None? && !s.closed && !s.retiring && c != d
      && c in s.callers && d in s.callers && s.callers[c] == s.callers[d] == Caller(AtHead, false)
    ensures var t := Run(Start, actions).Check(c).Check(d);
      t.inFlight.Some? && t.callers[c].phase == t.callers[d].phase == WaitingOn(t.inFlight.value)
  {
    hide Run, Sum, Counted;
    Reachable(actions);
  }
}
