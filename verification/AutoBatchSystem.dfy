/**
  The automatic batcher as a step system: callers that reserve a place and submit,
  the loop that gathers a batch and flushes it, the goroutine that executes a
  pipeline, and shutdown.

  Each action is what one goroutine does between two points where another may
  run; an action that is not enabled does nothing. A channel send is enabled only
  while the channel has room, so that "no send blocks" is something to prove.
*/
module AutoBatchSystem {
  import opened MapSums
  import opened Results

  /** Requests are numbered as they enter the request channel. */
  datatype Request = Request(number: nat, isFlush: bool)

  datatype Error = ContextDone | DeadlineExceeded | PipelineFailed(code: int) | WrongCount

  type Value = int

  datatype Answer = Answered(value: Value) | Failed(error: Error) | Flushed

  datatype Reply = Reply(request: Request, answer: Answer)

  // ----- callers

  /**
    `Reserved` has a queue slot; `Checking` has the close lock for reading as well;
    `Sending` saw the batcher open under it; `Unlocking` has sent and given its slot
    away; `Returning` gives up and still has its slot.
  */
  datatype Stage = Reserved | Checking | Sending | Unlocking | Returning {
    predicate HasSlot() {
      !Unlocking?
    }

    predicate HasLock() {
      Checking? || Sending? || Unlocking?
    }
  }

  datatype Caller = Caller(stage: Stage, isFlush: bool)

  /** The one call of Close that does the work: it holds the lock from `Locked` to `Signalled`. */
  datatype Closer = Idle | Locked | Flagged | Signalled | Finished {
    predicate HasLock() {
      Locked? || Flagged? || Signalled?
    }

    /** The flag is set. */
    predicate IsClosed() {
      Flagged? || Signalled? || Finished?
    }

    /** The channel is closed. */
    predicate HasSignalled() {
      Signalled? || Finished?
    }
  }

  // ----- the loop

  /** What a flush is for: a regular one, one of the drain, or the drain's last; with the request that asked for it. */
  datatype Why = Regular(request: Option<Request>) | Draining(request: Option<Request>) | Final {
    function Asker(): seq<Request> {
      if !Final? && request.Some? then [request.value] else []
    }
  }

  datatype Loop =
    | Head
    | Took(request: Request, draining: bool)
    | Have(request: Request, draining: bool)
    | Filtering(why: Why)
    | Acquiring(active: seq<Request>, why: Why)
    | Starting(active: seq<Request>, why: Why)
    | Awaiting(active: seq<Request>, job: nat, why: Why)
    | DrainHead
    | Quiescing
    | Stopped
  {
    function Hand(): seq<Request> {
      if Took? || Have? then [request] else []
    }

    function Active(): seq<Request> {
      if Acquiring? || Starting? || Awaiting? then active else []
    }

    function Asker(): seq<Request> {
      if Filtering? || Acquiring? || Starting? || Awaiting? then why.Asker() else []
    }
  }

  datatype Outcome = Succeeded(values: seq<Answer>) | Broke(error: Error)

  /** A pipeline's goroutine; `Reported` has sent its results and still has the pipeline slot. */
  datatype Worker = Running | Reported

  // ----- admission: the callers, the close lock and the request channel

  datatype Admission = Admission(
    size: nat,
    free: nat,
    callers: map<nat, Caller>,
    nextCaller: nat,
    closer: Closer,
    queue: seq<Request>,
    order: seq<Request>)
  {
    predicate Is(c: nat, stage: Stage) {
      c in callers && callers[c].stage == stage
    }

    function Move(c: nat, stage: Stage): Admission
      requires c in callers
    {
      this.(callers := callers[c := callers[c].(stage := stage)])
    }

    function Reserve(isFlush: bool): Admission {
      if free == 0 then this
      else this.(free := free - 1, callers := callers[nextCaller := Caller(Reserved, isFlush)], nextCaller := nextCaller + 1)
    }

    /** The context is done, the batcher was seen closed, or the request cannot be prepared. */
    function Abandon(c: nat): Admission {
      if Is(c, Reserved) then Move(c, Returning) else this
    }

    function ReadLock(c: nat): Admission {
      if Is(c, Reserved) && !closer.HasLock() then Move(c, Checking) else this
    }

    function Check(c: nat): Admission {
      if !Is(c, Checking) then this
      else if closer.IsClosed() then Move(c, Returning)
      else Move(c, Sending)
    }

    function Send(c: nat): Admission {
      if !Is(c, Sending) || |queue| >= size then this
      else
        var request := Request(|order|, callers[c].isFlush);
        Move(c, Unlocking).(queue := queue + [request], order := order + [request])
    }

    function ReadUnlock(c: nat): Admission {
      if Is(c, Unlocking) then this.(callers := callers - {c}) else this
    }

    function ReturnSlot(c: nat): Admission {
      if Is(c, Returning) && free < size then this.(free := free + 1, callers := callers - {c}) else this
    }

    ghost predicate NoReaders() {
      forall c :: c in callers ==> !callers[c].stage.HasLock()
    }

    ghost function CloseStep(): Admission {
      match closer
      case Idle => if NoReaders() then this.(closer := Locked) else this
      case Locked => this.(closer := Flagged)
      case Flagged => this.(closer := Signalled)
      case Signalled => this.(closer := Finished)
      case Finished => this
    }

    // ----- what the loop does to it

    function Taken(): Admission
      requires queue != []
    {
      this.(queue := queue[1..])
    }

    function SlotBack(): Admission {
      this.(free := free + 1)
    }
  }

  // ----- pipelines

  datatype Pipelines = Pipelines(
    slotFree: bool,
    workers: map<nat, Worker>,
    nextJob: nat,
    results: map<nat, Outcome>,
    jobs: map<nat, seq<Request>>,
    executed: seq<Request>)
  {
    function Spawn(active: seq<Request>): Pipelines {
      this.(workers := workers[nextJob := Running],
            nextJob := nextJob + 1,
            jobs := jobs[nextJob := active],
            executed := executed + active)
    }

    function Report(job: nat, outcome: Outcome): Pipelines {
      if job in workers && workers[job].Running? then
        this.(workers := workers[job := Reported], results := results[job := outcome])
      else this
    }

    function ReturnSlot(job: nat): Pipelines {
      if job in workers && workers[job].Reported? && !slotFree then
        this.(workers := workers - {job}, slotFree := true)
      else this
    }
  }

  // ----- the gathering of a batch and its answers

  datatype Gather = Gather(
    maxSize: nat,
    loop: Loop,
    batch: seq<Request>,
    timer: bool,
    terminal: Option<Error>,
    closeError: Option<Error>,
    handled: seq<Request>,
    answers: seq<Reply>)
  {
    function AnswerTo(request: Request, answer: Answer): Gather {
      this.(answers := answers + [Reply(request, answer)])
    }

    function FailAll(requests: seq<Request>, error: Error): Gather {
      this.(answers := answers + seq(|requests|, i requires 0 <= i < |requests| => Reply(requests[i], Failed(error))))
    }

    function AnswerAll(requests: seq<Request>, values: seq<Answer>): Gather
      requires |values| == |requests|
    {
      this.(answers := answers + seq(|requests|, i requires 0 <= i < |requests| => Reply(requests[i], values[i])))
    }

    function NoteCloseError(error: Option<Error>): Gather {
      if error.Some? && closeError.None? then this.(closeError := error) else this
    }

    /** The request in hand is dispatched. */
    function Dispatch(closed: bool): Gather
      requires loop.Have?
    {
      var r, draining := loop.request, loop.draining;
      var g := this.(handled := handled + [r]);
      if draining && terminal.Some? then g.AnswerTo(r, Failed(terminal.value)).(loop := DrainHead)
      else if r.isFlush then
        g.StartFlush(if draining then Draining(Some(r)) else Regular(Some(r)), closed)
      else
        var t := g.(batch := batch + [r], timer := timer || (!draining && batch == []));
        if |t.batch| >= maxSize then t.StartFlush(if draining then Draining(None) else Regular(None), closed)
        else t.(loop := if draining then DrainHead else Head)
    }

    function DrainEmpty(closed: bool): Gather {
      if terminal.Some? then FailAll(batch, terminal.value).(batch := [], loop := Quiescing)
      else StartFlush(Final, closed)
    }

    function StartFlush(why: Why, closed: bool): Gather {
      if batch == [] then FinishFlush(why, None, false, closed)
      else this.(timer := false, loop := Filtering(why))
    }

    /** Requests whose context is done are answered and left out. */
    function Filter(done: set<nat>, closed: bool): Gather
      requires loop.Filtering?
    {
      var g := FailAll(Chosen(batch, done, true), ContextDone).(batch := []);
      var active := Chosen(batch, done, false);
      if active == [] then g.FinishFlush(loop.why, None, false, closed)
      else g.(loop := Acquiring(active, loop.why))
    }

    function GiveUp(expired: bool, closed: bool): Gather
      requires loop.Acquiring? || loop.Awaiting?
    {
      FailAll(loop.active, DeadlineExceeded).FinishFlush(loop.why, Some(DeadlineExceeded), expired, closed)
    }

    function Deliver(outcome: Outcome, expired: bool, closed: bool): Gather
      requires loop.Awaiting?
    {
      var active, why := loop.active, loop.why;
      match outcome
      case Broke(error) => FailAll(active, error).FinishFlush(why, Some(error), expired, closed)
      case Succeeded(values) =>
        if |values| != |active| then FailAll(active, WrongCount).FinishFlush(why, Some(WrongCount), expired, closed)
        else AnswerAll(active, values).FinishFlush(why, None, expired, closed)
    }

    /** The flush returns to its caller; `expired` says whether the drain's context has expired. */
    function FinishFlush(why: Why, error: Option<Error>, expired: bool, closed: bool): Gather {
      var g := (if closed then NoteCloseError(error) else this).(batch := []);
      match why
      case Regular(request) => g.AnswerAsker(request, error).(loop := Head)
      case Draining(request) =>
        g.AnswerAsker(request, error).(
          loop := DrainHead,
          terminal := if error.Some? && expired then Some(DeadlineExceeded) else terminal)
      case Final => g.(loop := Quiescing)
    }

    function AnswerAsker(request: Option<Request>, error: Option<Error>): Gather {
      if request.None? then this
      else AnswerTo(request.value, if error.Some? then Failed(error.value) else Flushed)
    }
  }

  datatype Batcher = Batcher(admission: Admission, gather: Gather, pipelines: Pipelines) {
    function Closed(): bool {
      admission.closer.IsClosed()
    }

    function Receive(): Batcher {
      if admission.queue == [] || !(gather.loop.Head? || gather.loop.DrainHead?) then this
      else
        this.(admission := admission.Taken(),
              gather := gather.(loop := Took(admission.queue[0], gather.loop.DrainHead?)))
    }

    function ReturnLoopSlot(): Batcher {
      if gather.loop.Took? && admission.free < admission.size then
        this.(admission := admission.SlotBack(),
              gather := gather.(loop := Have(gather.loop.request, gather.loop.draining)))
      else this
    }

    function Dispatch(): Batcher {
      if gather.loop.Have? then this.(gather := gather.Dispatch(Closed())) else this
    }

    function TimerFires(): Batcher {
      if gather.loop.Head? && gather.timer then
        this.(gather := gather.(timer := false).StartFlush(Regular(None), Closed()))
      else this
    }

    function SeeClosed(): Batcher {
      if gather.loop.Head? && admission.closer.HasSignalled() then this.(gather := gather.(loop := DrainHead)) else this
    }

    function DrainEmpty(): Batcher {
      if gather.loop.DrainHead? && admission.queue == [] then this.(gather := gather.DrainEmpty(Closed())) else this
    }

    function Filter(done: set<nat>): Batcher {
      if gather.loop.Filtering? then this.(gather := gather.Filter(done, Closed())) else this
    }

    function AcquireSlot(): Batcher {
      if gather.loop.Acquiring? && pipelines.slotFree then
        this.(pipelines := pipelines.(slotFree := false),
              gather := gather.(loop := Starting(gather.loop.active, gather.loop.why)))
      else this
    }

    /** Waiting ends because the context expired or, once closed, because the shutdown timer did. */
    function GiveUp(expired: bool): Batcher {
      if (gather.loop.Acquiring? || gather.loop.Awaiting?) && (expired || admission.closer.HasSignalled()) then
        this.(gather := gather.GiveUp(expired, Closed()))
      else this
    }

    function Spawn(): Batcher {
      if gather.loop.Starting? then
        this.(pipelines := pipelines.Spawn(gather.loop.active),
              gather := gather.(loop := Awaiting(gather.loop.active, pipelines.nextJob, gather.loop.why)))
      else this
    }

    function TakeResult(expired: bool): Batcher {
      if gather.loop.Awaiting? && gather.loop.job in pipelines.results then
        this.(gather := gather.Deliver(pipelines.results[gather.loop.job], expired, Closed()))
      else this
    }

    /** The loop waits for a pipeline that outlived its flush, but not for ever. */
    function Quiesce(): Batcher {
      if gather.loop.Quiescing? && pipelines.slotFree then this.(gather := gather.(loop := Stopped)) else this
    }

    function StopWaiting(): Batcher {
      if gather.loop.Quiescing? then
        this.(gather := gather.NoteCloseError(Some(DeadlineExceeded)).(loop := Stopped))
      else this
    }
  }

  /** The requests of the batch that are, or are not, among those done, in order. */
  function Chosen(batch: seq<Request>, done: set<nat>, which: bool): seq<Request> {
    if batch == [] then []
    else (if (batch[0].number in done) == which then [batch[0]] else []) + Chosen(batch[1..], done, which)
  }

  datatype Action =
    | Reserve(isFlush: bool)
    | Abandon(caller: nat)
    | ReadLock(caller: nat)
    | Check(caller: nat)
    | Send(caller: nat)
    | ReadUnlock(caller: nat)
    | ReturnSlot(caller: nat)
    | CloseStep
    | Receive
    | ReturnLoopSlot
    | Dispatch
    | TimerFires
    | SeeClosed
    | DrainEmpty
    | Filter(done: set<nat>)
    | AcquireSlot
    | GiveUp(expired: bool)
    | Spawn
    | Report(job: nat, outcome: Outcome)
    | ReturnPipelineSlot(job: nat)
    | TakeResult(expired: bool)
    | Quiesce
    | StopWaiting

  ghost function Step(s: Batcher, a: Action): Batcher {
    match a
    case Reserve(isFlush) => s.(admission := s.admission.Reserve(isFlush))
    case Abandon(c) => s.(admission := s.admission.Abandon(c))
    case ReadLock(c) => s.(admission := s.admission.ReadLock(c))
    case Check(c) => s.(admission := s.admission.Check(c))
    case Send(c) => s.(admission := s.admission.Send(c))
    case ReadUnlock(c) => s.(admission := s.admission.ReadUnlock(c))
    case ReturnSlot(c) => s.(admission := s.admission.ReturnSlot(c))
    case CloseStep => s.(admission := s.admission.CloseStep())
    case Receive => s.Receive()
    case ReturnLoopSlot => s.ReturnLoopSlot()
    case Dispatch => s.Dispatch()
    case TimerFires => s.TimerFires()
    case SeeClosed => s.SeeClosed()
    case DrainEmpty => s.DrainEmpty()
    case Filter(done) => s.Filter(done)
    case AcquireSlot => s.AcquireSlot()
    case GiveUp(expired) => s.GiveUp(expired)
    case Spawn => s.Spawn()
    case Report(job, outcome) => s.(pipelines := s.pipelines.Report(job, outcome))
    case ReturnPipelineSlot(job) => s.(pipelines := s.pipelines.ReturnSlot(job))
    case TakeResult(expired) => s.TakeResult(expired)
    case Quiesce => s.Quiesce()
    case StopWaiting => s.StopWaiting()
  }

  ghost function Run(s: Batcher, actions: seq<Action>): Batcher
    decreases |actions|
  {
    if actions == [] then s else Run(Step(s, actions[0]), actions[1..])
  }

  function Initial(size: nat, maxSize: nat): Batcher {
    Batcher(
      Admission(size, size, map[], 0, Idle, [], []),
      Gather(maxSize, Head, [], false, None, None, [], []),
      Pipelines(true, map[], 0, map[], map[], []))
  }

  // ----- what every reachable state satisfies

  ghost function Slots(callers: map<nat, Caller>): map<nat, nat> {
    map c | c in callers :: if callers[c].stage.HasSlot() then 1 else 0
  }

  /** Queue slots are free, with a caller, in the queue, or about to be returned by the loop. */
  ghost predicate TokensConserved(a: Admission, loop: Loop) {
    && a.free + Sum(Slots(a.callers)) + |a.queue| + (if loop.Took? then 1 else 0) == a.size
    && forall c :: c in a.callers ==> c < a.nextCaller
  }

  /** Readers and the closer exclude each other; nobody sends once the flag is up. */
  ghost predicate Locking(a: Admission) {
    && (a.closer.HasLock() ==> a.NoReaders())
    && (a.closer.IsClosed() ==> forall c :: c in a.callers ==> !a.callers[c].stage.Sending?)
  }

  /** The pipeline slot is free, with the loop, or with the one goroutine that executes. */
  ghost predicate SlotConserved(p: Pipelines, loop: Loop) {
    && (if p.slotFree then 1 else 0) + (if loop.Starting? then 1 else 0) + |p.workers| == 1
    && (forall j :: j in p.workers ==> j < p.nextJob)
    && (loop.Awaiting?
        ==> && loop.job < p.nextJob
            && (loop.job in p.results || (loop.job in p.workers && p.workers[loop.job].Running?)))
  }

  predicate Busy(loop: Loop) {
    loop.Filtering? || loop.Acquiring? || loop.Starting? || loop.Awaiting?
  }

  predicate Holds(loop: Loop) {
    loop.Took? || loop.Have?
  }

  predicate InDrain(loop: Loop) {
    || loop.DrainHead? || loop.Quiescing? || loop.Stopped?
    || (Holds(loop) && loop.draining)
    || (Busy(loop) && !loop.why.Regular?)
  }

  predicate InLastFlush(loop: Loop) {
    loop.Quiescing? || loop.Stopped? || (Busy(loop) && loop.why.Final?)
  }

  /** The timer runs exactly while a batch waits for it, and a waiting batch is never full. */
  ghost predicate Batching(g: Gather) {
    && g.maxSize > 0
    && (!InDrain(g.loop) ==> g.terminal.None?)
    && (g.timer ==> g.batch != [])
    && (g.loop.Head? || Holds(g.loop) || g.loop.DrainHead? ==> |g.batch| < g.maxSize)
    && (g.loop.Head? || (Holds(g.loop) && !g.loop.draining) ==> (g.timer <==> g.batch != []))
    && (g.loop.Filtering? ==> g.batch != [] && !g.timer && |g.batch| <= g.maxSize)
    && ((Busy(g.loop) && !g.loop.Filtering?) || g.loop.Quiescing? || g.loop.Stopped? ==> g.batch == [])
    && (g.terminal.Some? ==> g.batch == [] && !Busy(g.loop))
  }

  /** The drain begins after the batcher is closed, and its last flush when nothing is queued. */
  ghost predicate DrainsLate(loop: Loop, a: Admission) {
    && (InDrain(loop) ==> a.closer.HasSignalled())
    && (InLastFlush(loop) ==> a.queue == [])
  }

  ghost function Requests(answers: seq<Reply>): seq<Request> {
    seq(|answers|, i requires 0 <= i < |answers| => answers[i].request)
  }

  /** What was accepted is handled, in hand or queued, in that order. */
  ghost predicate InOrder(a: Admission, g: Gather) {
    && a.order == g.handled + g.loop.Hand() + a.queue
    && forall i :: 0 <= i < |a.order| ==> a.order[i].number == i
  }

  /** What was handled is owed an answer by the loop or has got it, once. */
  ghost predicate Accounted(g: Gather) {
    multiset(g.handled)
    == multiset(g.batch) + multiset(g.loop.Active()) + multiset(g.loop.Asker()) + multiset(Requests(g.answers))
  }

  ghost predicate Increasing(requests: seq<Request>) {
    forall i, j :: 0 <= i < j < |requests| ==> requests[i].number < requests[j].number
  }

  /** What waits to be sent to a pipeline. */
  ghost function Unsent(g: Gather): seq<Request> {
    (if g.loop.Acquiring? || g.loop.Starting? then g.loop.active else []) + g.batch
  }

  /** Pipelines get each command at most once, in the order in which it was accepted. */
  ghost predicate ExecutesInOrder(executed: seq<Request>, g: Gather) {
    && Increasing(executed + Unsent(g))
    && forall r :: r in executed + Unsent(g) ==> r in g.handled && !r.isFlush
  }

  /** A flush is asked for by a flush request; batches and pipelines hold commands. */
  ghost predicate Kinds(g: Gather) {
    && (forall r :: r in g.loop.Asker() ==> r.isFlush)
    && (forall r :: r in g.batch ==> !r.isFlush)
    && (forall r :: r in g.loop.Active() ==> !r.isFlush)
  }

  /** Whatever was handled before an answered flush request has been answered too. */
  ghost predicate Barrier(g: Gather) {
    forall r, q :: r in Requests(g.answers) && r.isFlush && q in g.handled && q.number < r.number
      ==> q in Requests(g.answers)
  }

  ghost predicate Inv(s: Batcher) {
    && TokensConserved(s.admission, s.gather.loop)
    && Locking(s.admission)
    && SlotConserved(s.pipelines, s.gather.loop)
    && Batching(s.gather)
    && DrainsLate(s.gather.loop, s.admission)
    && InOrder(s.admission, s.gather)
    && Accounted(s.gather)
    && ExecutesInOrder(s.pipelines.executed, s.gather)
    && Kinds(s.gather)
    && Barrier(s.gather)
  }
}
