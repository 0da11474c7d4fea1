/**
  Executing a batch that mixes single commands and explicit pipelines as one
  pipeline: the commands are laid end to end, the queue policies are placed by
  flat index, and the flat results are handed back request by request.
*/
module AutoBatchScatter {
  import opened Results

  datatype Request<+C> = Single(command: C, queueAllowed: bool) | Explicit(commands: seq<C>) {
    function Commands(): seq<C> {
      if Explicit? then commands else [command]
    }
  }

  datatype Answer<+R> = One(result: R) | Grouped(results: seq<R>)

  datatype ScatterError<+E> = Pipeline(error: E) | WrongCount(got: nat, want: nat)

  // ----- the flat layout

  function Flat<C>(requests: seq<Request<C>>): seq<C> {
    if requests == [] then [] else Flat(requests[..|requests| - 1]) + requests[|requests| - 1].Commands()
  }

  /** The flat index of the request's first command. */
  function Start<C>(requests: seq<Request<C>>, i: nat): nat
    requires i <= |requests|
  {
    |Flat(requests[..i])|
  }

  function End<C>(requests: seq<Request<C>>, i: nat): nat
    requires i < |requests|
  {
    Start(requests, i) + |requests[i].Commands()|
  }

  lemma NextStart<C>(requests: seq<Request<C>>, i: nat)
    requires i < |requests|
    ensures Start(requests, i + 1) == End(requests, i)
    ensures Flat(requests[..i + 1]) == Flat(requests[..i]) + requests[i].Commands()
  {
    assert requests[..i + 1][..i] == requests[..i];
  }

  lemma {:induction false} FlatPrefix<C>(requests: seq<Request<C>>, i: nat)
    requires i <= |requests|
    ensures Start(requests, i) <= |Flat(requests)| && Flat(requests)[..Start(requests, i)] == Flat(requests[..i])
    decreases |requests| - i
  {
    if i == |requests| {
      assert requests[..i] == requests;
    } else {
      NextStart(requests, i);
      FlatPrefix(requests, i + 1);
      var own := Flat(requests[..i]);
      assert Flat(requests)[..Start(requests, i + 1)][..|own|] == own;
    }
  }

  /** The request's commands are at its own range of the flat pipeline, and the ranges are laid end to end. */
  lemma OwnRange<C>(requests: seq<Request<C>>, i: nat)
    requires i < |requests|
    ensures End(requests, i) <= |Flat(requests)|
    ensures Flat(requests)[Start(requests, i)..End(requests, i)] == requests[i].Commands()
    ensures i + 1 < |requests| ==> Start(requests, i + 1) == End(requests, i)
  {
    NextStart(requests, i);
    FlatPrefix(requests, i + 1);
    FlatPrefix(requests, i);
    var all := Flat(requests);
    assert all[..End(requests, i)] == Flat(requests[..i]) + requests[i].Commands();
    assert all[Start(requests, i)..End(requests, i)] == all[..End(requests, i)][Start(requests, i)..];
  }

  // ----- queue policies

  predicate MayQueue<C>(requests: seq<Request<C>>, i: nat)
    requires i < |requests|
  {
    requests[i].Single? ==> requests[i].queueAllowed
  }

  /** Absent when every request may be queued; else one flag for each flat command, its own request's. */
  ghost predicate PolicyOk<C>(requests: seq<Request<C>>, policy: Option<seq<bool>>) {
    match policy
    case None => forall i :: 0 <= i < |requests| ==> MayQueue(requests, i)
    case Some(flags) =>
      && |flags| == |Flat(requests)|
      && (exists i :: 0 <= i < |requests| && !MayQueue(requests, i))
      && forall i, k ::
        0 <= i < |requests| && Start(requests, i) <= k < End(requests, i) && k < |flags| ==> flags[k] == MayQueue(requests, i)
  }

  // ----- laying out

  method Count<C>(requests: seq<Request<C>>) returns (total: int, hasExplicit: bool)
    ensures total == |Flat(requests)|
    ensures hasExplicit <==> exists i :: 0 <= i < |requests| && requests[i].Explicit?
  {
    hasExplicit := false;
    total := |requests|;
    var i := 0;
    while i < |requests|
      invariant i <= |requests|
      invariant total == Start(requests, i) + |requests| - i
      invariant hasExplicit <==> exists j :: 0 <= j < i && requests[j].Explicit?
    {
      NextStart(requests, i);
      if requests[i].Explicit? {
        hasExplicit := true;
        total := total + |requests[i].commands| - 1;
      }
      i := i + 1;
    }
    assert requests[..i] == requests;
  }

  /** The flags written so far, for the first `n` requests. */
  ghost predicate FlagsOk<C>(requests: seq<Request<C>>, n: nat, flags: seq<bool>)
    requires n <= |requests|
  {
    && (forall i, k ::
      0 <= i < n && Start(requests, i) <= k < End(requests, i) && k < |flags| ==> flags[k] == MayQueue(requests, i))
    && forall k :: Start(requests, n) <= k < |flags| ==> flags[k]
  }

  lemma FlagsStart<C>(requests: seq<Request<C>>, n: nat, flags: seq<bool>)
    requires n <= |requests| && (forall k :: 0 <= k < |flags| ==> flags[k])
    requires forall i :: 0 <= i < n ==> MayQueue(requests, i)
    ensures FlagsOk(requests, n, flags)
  {
  }

  lemma FlagsNext<C>(requests: seq<Request<C>>, n: nat, flags: seq<bool>)
    requires n < |requests| && FlagsOk(requests, n, flags)
    requires requests[n].Single? ==> Start(requests, n) < |flags|
    ensures MayQueue(requests, n) ==> FlagsOk(requests, n + 1, flags)
    ensures !MayQueue(requests, n) ==> FlagsOk(requests, n + 1, flags[Start(requests, n) := false])
  {
    NextStart(requests, n);
    var after := if MayQueue(requests, n) then flags else flags[Start(requests, n) := false];
    forall i, k | 0 <= i < n && Start(requests, i) <= k < End(requests, i) && k < |after|
      ensures after[k] == MayQueue(requests, i)
    {
      StartsGrow(requests, i, n);
    }
  }

  lemma {:induction false} StartsGrow<C>(requests: seq<Request<C>>, i: nat, n: nat)
    requires i < n <= |requests|
    ensures End(requests, i) <= Start(requests, n)
    decreases n
  {
    NextStart(requests, n - 1);
    if i < n - 1 { StartsGrow(requests, i, n - 1); }
  }

  method Layout<C>(requests: seq<Request<C>>) returns (commands: seq<C>, policy: Option<seq<bool>>)
    ensures commands == Flat(requests) && PolicyOk(requests, policy)
  {
    hide FlagsOk, PolicyOk, End, Flat;
    var total, hasExplicit := Count(requests);
    NothingLaid(requests);
    commands := [];
    var flags: array?<bool> := null;
    var i := 0;
    while i < |requests|
      invariant i <= |requests| && commands == Flat(requests[..i])
      invariant flags == null <==> forall j :: 0 <= j < i ==> MayQueue(requests, j)
      invariant flags != null ==> fresh(flags) && flags.Length == total && FlagsOk(requests, i, flags[..])
    {
      NextStart(requests, i);
      OwnRange(requests, i);
      ghost var before := if flags == null then seq(total, _ => true) else flags[..];
      if flags == null { FlagsStart(requests, i, before); }
      FlagsNext(requests, i, before);
      if requests[i].Single? && !requests[i].queueAllowed {
        if flags == null {
          flags := new bool[total](_ => true);
        }
        assert flags[..] == before;
        flags[|commands|] := false;
        assert flags[..] == before[Start(requests, i) := false];
      }
      commands := commands + requests[i].Commands();
      i := i + 1;
    }
    assert requests[..i] == requests;
    policy := if flags == null then None else Some(flags[..]);
    FlagsArePolicy(requests, policy);
  }

  lemma NothingLaid<C>(requests: seq<Request<C>>)
    ensures Flat(requests[..0]) == []
  {
  }

  lemma FlagsArePolicy<C>(requests: seq<Request<C>>, policy: Option<seq<bool>>)
    requires policy.None? <==> forall i :: 0 <= i < |requests| ==> MayQueue(requests, i)
    requires policy.Some? ==> |policy.value| == |Flat(requests)| && FlagsOk(requests, |requests|, policy.value)
    ensures PolicyOk(requests, policy)
  {
  }

  // ----- handing back

  /** The request's share of the flat results. */
  function Share<C, R>(requests: seq<Request<C>>, flat: seq<R>, i: nat): Answer<R>
    requires i < |requests| && |flat| == |Flat(requests)|
  {
    OwnRange(requests, i);
    if requests[i].Explicit? then Grouped(flat[Start(requests, i)..End(requests, i)])
    else One(flat[Start(requests, i)])
  }

  method Scatter<C, R(0)>(requests: seq<Request<C>>, flat: seq<R>) returns (answers: seq<Answer<R>>)
    requires |flat| == |Flat(requests)|
    ensures |answers| == |requests| && forall i :: 0 <= i < |requests| ==> answers[i] == Share(requests, flat, i)
  {
    hide Flat, Start, End, Share;
    NothingShared(requests);
    var results := new Answer<R>[|requests|](_ => Grouped([]));
    var offset, i := 0, 0;
    while i < |requests|
      invariant i <= |requests| && offset == Start(requests, i)
      invariant forall j :: 0 <= j < i ==> results[j] == Share(requests, flat, j)
    {
      ShareAt(requests, flat, i);
      if requests[i].Explicit? {
        var count := |requests[i].commands|;
        results[i] := Grouped(flat[offset..offset + count]);
        offset := offset + count;
      } else {
        results[i] := One(flat[offset]);
        offset := offset + 1;
      }
      i := i + 1;
    }
    answers := results[..];
  }

  lemma NothingShared<C>(requests: seq<Request<C>>)
    ensures Start(requests, 0) == 0
  {
  }

  lemma ShareAt<C, R>(requests: seq<Request<C>>, flat: seq<R>, i: nat)
    requires i < |requests| && |flat| == |Flat(requests)|
    ensures var start, count := Start(requests, i), |requests[i].Commands()|;
      && start + count == Start(requests, i + 1) <= |flat|
      && Share(requests, flat, i) == if requests[i].Explicit? then Grouped(flat[start..start + count]) else One(flat[start])
  {
    hide Flat;
    NextStart(requests, i);
    OwnRange(requests, i);
  }

  /** A batch of one single command, where the executor has a typed method for it, does without a pipeline. */
  function Direct<C, R>(requests: seq<Request<C>>, typed: (C, bool) -> Option<R>): Option<R> {
    if |requests| == 1 && requests[0].Single? then typed(requests[0].command, requests[0].queueAllowed) else None
  }

  /** What a batch comes to: the typed result on its own, or what one pipeline of all its commands returned. */
  ghost predicate Batched<C, R, E>(
    requests: seq<Request<C>>, typed: (C, bool) -> Option<R>,
    pipeline: (seq<C>, Option<seq<bool>>) -> Result<seq<R>, E>,
    result: Result<seq<Answer<R>>, ScatterError<E>>)
  {
    match Direct(requests, typed)
    case Some(value) => result == Ok([One(value)])
    case None =>
      exists policy :: PolicyOk(requests, policy) && Executed(requests, pipeline(Flat(requests), policy), result)
  }

  /** The whole batch as one pipeline. A batch of single commands is passed on without counting the results. */
  method Execute<C, R(0), E>(
    requests: seq<Request<C>>, typed: (C, bool) -> Option<R>,
    pipeline: (seq<C>, Option<seq<bool>>) -> Result<seq<R>, E>)
    returns (result: Result<seq<Answer<R>>, ScatterError<E>>)
    ensures Batched(requests, typed, pipeline, result)
  {
    if |requests| == 1 && requests[0].Single? {
      var direct := typed(requests[0].command, requests[0].queueAllowed);
      if direct.Some? {
        return Ok([One(direct.value)]);
      }
    }
    var total, hasExplicit := Count(requests);
    var commands, policy := Layout(requests);
    var outcome := pipeline(commands, policy);
    if outcome.Err? {
      result := Err(Pipeline(outcome.error));
    } else if !hasExplicit {
      result := Ok(seq(|outcome.value|, i requires 0 <= i < |outcome.value| => One(outcome.value[i])));
    } else if |outcome.value| != total {
      result := Err(WrongCount(|outcome.value|, total));
    } else {
      var answers := Scatter(requests, outcome.value);
      result := Ok(answers);
    }
    assert PolicyOk(requests, policy) && Executed(requests, pipeline(Flat(requests), policy), result);
  }

  /** What a batch returns for what its pipeline returned. */
  ghost predicate Executed<C, R, E>(requests: seq<Request<C>>, outcome: Result<seq<R>, E>, result: Result<seq<Answer<R>>, ScatterError<E>>) {
    match outcome
    case Err(e) => result == Err(Pipeline(e))
    case Ok(flat) =>
      if forall i :: 0 <= i < |requests| ==> requests[i].Single? then
        result.Ok? && |result.value| == |flat| && forall i :: 0 <= i < |flat| ==> result.value[i] == One(flat[i])
      else if |flat| != |Flat(requests)| then result == Err(WrongCount(|flat|, |Flat(requests)|))
      else
        result.Ok? && |result.value| == |requests| && forall i :: 0 <= i < |requests| ==> result.value[i] == Share(requests, flat, i)
  }

  /**
    An executor that answers every command for itself, typed or in a pipeline,
    answers every request from its own commands: mixing requests in one batch
    is not observable.
  */
  lemma MixingIsInvisible<C, R, E>(
    requests: seq<Request<C>>, typed: (C, bool) -> Option<R>,
    pipeline: (seq<C>, Option<seq<bool>>) -> Result<seq<R>, E>,
    result: Result<seq<Answer<R>>, ScatterError<E>>, answer: C -> R, i: nat)
    requires forall commands, policy :: pipeline(commands, policy) == Ok(Answers(commands, answer))
    requires forall command, queue :: typed(command, queue) in {None, Some(answer(command))}
    requires Batched(requests, typed, pipeline, result) && i < |requests|
    ensures result.Ok? && |result.value| == |requests|
    ensures match requests[i]
      case Single(command, _) => result.value[i] == One(answer(command))
      case Explicit(commands) => result.value[i] == Grouped(Answers(commands, answer))
  {
    hide Executed, PolicyOk, Flat;
    if Direct(requests, typed).None? {
      var policy :| PolicyOk(requests, policy) && Executed(requests, pipeline(Flat(requests), policy), result);
      PipelineMixes(requests, Answers(Flat(requests), answer), result, answer, i);
    }
  }

  function Answers<C, R>(commands: seq<C>, answer: C -> R): seq<R> {
    seq(|commands|, k requires 0 <= k < |commands| => answer(commands[k]))
  }

  lemma PipelineMixes<C, R, E>(
    requests: seq<Request<C>>, flat: seq<R>, result: Result<seq<Answer<R>>, ScatterError<E>>, answer: C -> R, i: nat)
    requires flat == Answers(Flat(requests), answer)
    requires Executed(requests, Ok(flat), result) && i < |requests|
    ensures result.Ok? && |result.value| == |requests|
    ensures match requests[i]
      case Single(command, _) => result.value[i] == One(answer(command))
      case Explicit(commands) => result.value[i] == Grouped(Answers(commands, answer))
  {
    hide Flat;
    var single := forall j :: 0 <= j < |requests| ==> requests[j].Single?;
    if single {
      SinglesAreFlat(requests, |requests|);
      SinglesAreFlat(requests, i);
      assert requests[..|requests|] == requests;
    }
    assert result.value[i] == Share(requests, flat, i);
    ShareIsOwn(requests, flat, answer, i);
  }

  lemma ShareIsOwn<C, R>(requests: seq<Request<C>>, flat: seq<R>, answer: C -> R, i: nat)
    requires |flat| == |Flat(requests)| && forall k :: 0 <= k < |flat| ==> flat[k] == answer(Flat(requests)[k])
    requires i < |requests|
    ensures match requests[i]
      case Single(command, _) => Share(requests, flat, i) == One(answer(command))
      case Explicit(commands) => Share(requests, flat, i) == Grouped(Answers(commands, answer))
  {
    hide Flat;
    OwnRange(requests, i);
    var own := Flat(requests)[Start(requests, i)..End(requests, i)];
    assert forall k :: 0 <= k < |own| ==> own[k] == Flat(requests)[Start(requests, i) + k];
  }

  lemma {:induction false} SinglesAreFlat<C>(requests: seq<Request<C>>, n: nat)
    requires n <= |requests| && forall j :: 0 <= j < |requests| ==> requests[j].Single?
    ensures Start(requests, n) == n
  {
    if n > 0 {
      NextStart(requests, n - 1);
      SinglesAreFlat(requests, n - 1);
    }
  }
}
