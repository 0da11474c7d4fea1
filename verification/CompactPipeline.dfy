/**
  The compact PIPELINE decoder: an iterative depth-first search over the
  ambiguous item grammar, with a decision stack, a memo of failed states, an
  aggregate item budget and a cap on attempts.
*/
module CompactPipeline {
  import opened Bytes
  import opened NativeValue
  import opened CompactReaders
  import opened CompactPipelineItems
  import opened PipelineSearch
  import opened PipelineBacktrack
  import opened PipelineWork
  import opened Results

  const PIPELINE_RESPONSE: byte := 0x95

  datatype PipelineError =
    | TruncatedResponse
    | TooManyAnnounced
    | TrailingBytes
    | AggregateItems
    | Ambiguous
    | InvalidResponse
    | InvalidItem(cause: CompactError)

  function MaxAttempts(count: nat): nat {
    8 * (count + 1) + 64
  }

  /** The search problem of a response body that announces `count` items. */
  function PipelineProblem(data: bytes, count: nat): Problem<Value, CompactError> {
    Problem((offset: nat) => ItemCandidates(data, offset), |data|, count)
  }

  function Start(count: nat): State {
    State(0, 5, MAX_ITEMS - count)
  }

  predicate HasHeader(data: bytes) {
    |data| >= 5 && data[0] == PIPELINE_RESPONSE
  }

  function Announced(data: bytes): nat
    requires HasHeader(data)
  {
    GetU32(data[1..])
  }

  /** `path` reads the whole body, item by item, within the aggregate item limit. */
  ghost predicate IsResponse(data: bytes, path: seq<nat>) {
    && HasHeader(data)
    && PipelineProblem(data, Announced(data)).IsParse(Start(Announced(data)), path)
  }

  /** `items` are the values of the parse that comes first in candidate order. */
  ghost predicate IsFirstResponse(data: bytes, items: seq<Value>) {
    HasHeader(data) &&
    var p := PipelineProblem(data, Announced(data));
    exists path ::
      p.IsFirstParse(Start(Announced(data)), path) && p.ValuesOf(Start(Announced(data)).offset, path) == items
  }

  // ----- the announced count

  lemma {:induction false} ItemsTakeTwoBytes(data: bytes, count: nat, offset: nat, path: seq<nat>)
    requires PipelineProblem(data, count).Chain(offset, path)
    ensures PipelineProblem(data, count).EndOf(offset, path) >= offset + 2 * |path|
    decreases |path|
  {
    hide ItemCandidates;
    if path != [] {
      ItemCandidatesEnd(data, offset);
      var c := ItemCandidates(data, offset).value[path[0]];
      ItemsTakeTwoBytes(data, count, c.next, path[1..]);
    }
  }

  /** The pre-check of the announced count rejects only bodies that have no parse. */
  lemma ImplausibleCount(data: bytes, path: seq<nat>)
    requires HasHeader(data) && !CountInBounds(Announced(data), |data| - 5, 2)
    ensures !IsResponse(data, path)
  {
    hide ItemCandidates;
    var count := Announced(data);
    var p := PipelineProblem(data, count);
    if p.Chain(5, path) {
      ItemsTakeTwoBytes(data, count, 5, path);
    }
  }

  // ----- one step of the driver

  /** A state with no affordable candidate, no parse or trailing bytes fails. */
  lemma FailedState<V, E>(p: Problem<V, E>, decisions: seq<Decision<V>>, items: seq<V>, s: State)
    requires p.Stacked(decisions) && |items| == p.count && s.item <= p.count && p.Supported(decisions, s)
    requires p.Dead(s)
    ensures Spent(p, decisions) && p.Answer(decisions, items, s) == p.Resume(decisions, items)
  {
  }

  lemma Unparsable<V, E>(p: Problem<V, E>, s: State)
    requires s.item <= p.count
    requires if s.item == p.count then s.offset != p.end else p.parse(s.offset).Err?
    ensures p.Dead(s)
  {
  }

  lemma Unaffordable<V, E>(p: Problem<V, E>, s: State, candidates: seq<Candidate<V>>)
    requires s.item < p.count && p.parse(s.offset) == Ok(candidates)
    requires forall k :: 0 <= k < |candidates| ==> candidates[k].cost > s.remaining
    ensures p.Dead(s)
  {
    SkipDead(p, s, candidates, 0, |candidates|);
  }

  /** Taking the first affordable candidate, and remembering the rest when there is a rest. */
  lemma TakeFirst<V, E>(
    p: Problem<V, E>, decisions: seq<Decision<V>>, items: seq<V>, s: State, candidates: seq<Candidate<V>>, next: nat)
    requires p.Stacked(decisions) && |items| == p.count && s.item < p.count && p.Supported(decisions, s)
    requires p.parse(s.offset) == Ok(candidates) && 0 < next <= |candidates|
    requires candidates[next - 1].cost <= s.remaining
    requires forall k :: 0 <= k < next - 1 ==> candidates[k].cost > s.remaining
    ensures var entered := if next < |candidates|
        then decisions + [Decision(s.item, s.offset, candidates, next, s.remaining)] else decisions;
      var after := After(s, candidates[next - 1]);
      var written := items[s.item := candidates[next - 1].value];
      && p.Stacked(entered) && p.Supported(entered, after)
      && p.Answer(entered, written, after) == p.Answer(decisions, items, s)
  {
    hide Problem.Solve, Problem.SolveFrom, Problem.Resume, Problem.Supported, Problem.Tried;
    var written := items[s.item := candidates[next - 1].value];
    var d := Decision(s.item, s.offset, candidates, next, s.remaining);
    SkipDead(p, s, candidates, 0, next - 1);
    SolveHere(p, s, candidates);
    TakeFirstAnswer(p, s, candidates, next, items);
    SameBelow(p, decisions, items, written, s);
    if next < |candidates| {
      PushDecision(p, decisions, d, written, s);
    } else {
      LastCandidate(p, decisions, s, candidates);
    }
  }

  lemma SolveHere<V, E>(p: Problem<V, E>, s: State, candidates: seq<Candidate<V>>)
    requires s.item < p.count && p.parse(s.offset) == Ok(candidates)
    ensures p.Solve(s) == p.SolveFrom(s, candidates, 0)
  {
  }

  /** Writing the item of a state does not touch what the stack below it stands for. */
  lemma SameBelow<V, E>(p: Problem<V, E>, decisions: seq<Decision<V>>, items: seq<V>, written: seq<V>, s: State)
    requires p.Stacked(decisions) && |items| == |written| == p.count && s.item < p.count && p.Supported(decisions, s)
    requires items[..s.item] == written[..s.item]
    ensures p.Resume(decisions, written) == p.Resume(decisions, items)
  {
    hide Problem.Solve, Problem.SolveFrom, Problem.Resume;
    if decisions != [] {
      var e := decisions[|decisions| - 1];
      assert written[..e.item] == written[..s.item][..e.item] == items[..s.item][..e.item] == items[..e.item];
    }
    ResumeFrame(p, decisions, items, written);
  }

  lemma PushDecision<V, E>(p: Problem<V, E>, decisions: seq<Decision<V>>, d: Decision<V>, items: seq<V>, s: State)
    requires p.Stacked(decisions) && p.Supported(decisions, s) && p.Open(d) && d.Start() == s && |items| == p.count
    requires 0 < d.next && d.candidates[d.next - 1].cost <= s.remaining
    requires forall k :: 0 <= k < d.next - 1 ==> d.candidates[k].cost > s.remaining
    ensures p.Stacked(decisions + [d]) && p.Supported(decisions + [d], After(s, d.candidates[d.next - 1]))
    ensures p.Resume(decisions + [d], items) ==
      match p.SolveFrom(s, d.candidates, d.next)
      case Some(rest) => Some(items[..d.item] + rest)
      case None => p.Resume(decisions, items)
  {
    hide Problem.Solve, Problem.SolveFrom, Problem.Resume, Problem.Supported, Problem.Stacked;
    var entered := decisions + [d];
    assert entered[..|entered| - 1] == decisions && entered[|entered| - 1] == d;
    StackedMore(p, decisions, d, s);
    TriedOnlyLast(p, d);
    SupportedBy(p, entered, After(s, d.candidates[d.next - 1]));
    ResumeOf(p, entered, items);
  }

  lemma StackedMore<V, E>(p: Problem<V, E>, decisions: seq<Decision<V>>, d: Decision<V>, s: State)
    requires p.Stacked(decisions) && p.Supported(decisions, s) && p.Open(d) && d.Start() == s
    ensures p.Stacked(decisions + [d])
  {
    hide Problem.Open, Problem.Dead, Problem.Tried;
  }

  lemma TriedOnlyLast<V, E>(p: Problem<V, E>, d: Decision<V>)
    requires p.Open(d) && 0 < d.next && forall k :: 0 <= k < d.next - 1 ==> d.candidates[k].cost > d.remaining
    ensures p.Dead(After(d.Start(), d.candidates[d.next - 1])) ==> p.Tried(d, d.next)
  {
    hide Problem.Solve;
  }

  /** The last candidate is entered without a decision: if it fails, so does the state. */
  lemma LastCandidate<V, E>(p: Problem<V, E>, decisions: seq<Decision<V>>, s: State, candidates: seq<Candidate<V>>)
    requires p.Stacked(decisions) && s.item < p.count && p.Supported(decisions, s)
    requires p.parse(s.offset) == Ok(candidates) && candidates != [] && candidates[|candidates| - 1].cost <= s.remaining
    requires forall k :: 0 <= k < |candidates| - 1 ==> candidates[k].cost > s.remaining
    ensures p.Supported(decisions, After(s, candidates[|candidates| - 1]))
  {
    hide Problem.SolveFrom, Problem.Tried;
    if p.Dead(After(s, candidates[|candidates| - 1])) {
      SkipDead(p, s, candidates, 0, |candidates|);
      NothingBeyond(p, s, candidates);
    }
  }

  lemma NothingBeyond<V, E>(p: Problem<V, E>, s: State, candidates: seq<Candidate<V>>)
    requires s.item < p.count
    ensures p.SolveFrom(s, candidates, |candidates|).None?
  {
  }

  lemma TakeFirstAnswer<V, E>(p: Problem<V, E>, s: State, candidates: seq<Candidate<V>>, next: nat, items: seq<V>)
    requires s.item < p.count && |items| == p.count
    requires p.parse(s.offset) == Ok(candidates) && 0 < next <= |candidates|
    requires candidates[next - 1].cost <= s.remaining
    requires p.Solve(s) == p.SolveFrom(s, candidates, next - 1)
    ensures var after := After(s, candidates[next - 1]);
      var written := items[s.item := candidates[next - 1].value];
      match p.Solve(after)
      case Some(rest) => p.Solve(s).Some? && items[..s.item] + p.Solve(s).value == written[..after.item] + rest
      case None =>
        && p.Solve(s) == p.SolveFrom(s, candidates, next)
        && (next == |candidates| ==> p.Solve(s).None?)
  {
    var after := After(s, candidates[next - 1]);
    var rest := p.Solve(after);
    if rest.Some? {
      var written := items[s.item := candidates[next - 1].value];
      assert written[..after.item] + rest.value == items[..s.item] + ([candidates[next - 1].value] + rest.value);
    }
  }

  lemma ProblemFields(data: bytes, count: nat)
    ensures var p := PipelineProblem(data, count);
      && p.count == count && p.end == |data|
      && forall offset: nat :: p.parse(offset) == ItemCandidates(data, offset)
  {
    hide ItemCandidates;
  }

  /**
    Read one item: take its first affordable candidate and put the others on the
    stack, or find that the state fails.
  */
  method ReadItem(
    ghost p: Problem<Value, CompactError>, data: bytes, s: State, decisions: seq<Decision<Value>>, items: array<Value>)
    returns (read: Result<State, PipelineError>, stack: seq<Decision<Value>>)
    requires p.parse(s.offset) == ItemCandidates(data, s.offset) && items.Length == p.count && s.item < p.count && s.remaining >= 0
    requires p.Stacked(decisions) && p.Supported(decisions, s)
    requires forall k :: 0 <= k < |decisions| ==> decisions[k].remaining >= 0
    modifies items
    ensures read.Err?
      ==> && p.Dead(s) && items[..] == old(items[..])
          && read.error != InvalidResponse && read.error != Ambiguous
    ensures read.Ok?
      ==> && read.value.item == s.item + 1 && read.value.remaining >= 0
          && p.Stacked(stack) && p.Supported(stack, read.value)
          && (forall k :: 0 <= k < |stack| ==> stack[k].remaining >= 0)
          && p.Answer(stack, items[..], read.value) == p.Answer(decisions, old(items[..]), s)
          && 1 + Work(p, read.value.offset, p.count - read.value.item) + Pending(p, stack)
             <= Work(p, s.offset, p.count - s.item) + Pending(p, decisions)
  {
    hide ItemCandidates, Problem.Solve, Problem.SolveFrom, Problem.Resume, Problem.Answer, Problem.Supported, Work,
      WorkFrom, Pending;
    stack := decisions;
    var candidates := DecodeItem(data, s.offset);
    if candidates.Err? {
      Unparsable(p, s);
      return Err(InvalidItem(candidates.error)), stack;
    }
    var next, affordable := NextCandidate(candidates.value, 0, s.remaining);
    if !affordable {
      Unaffordable(p, s, candidates.value);
      return Err(AggregateItems), stack;
    }
    var candidate := candidates.value[next - 1];
    TakeFirst(p, decisions, items[..], s, candidates.value, next);
    FirstPays(p, decisions, s, candidates.value, next);
    items[s.item] := candidate.value;
    if next < |candidates.value| {
      stack := stack + [Decision(s.item, s.offset, candidates.value, next, s.remaining)];
    }
    return Ok(After(s, candidate)), stack;
  }

  /**
    The search of the decoder. Its answer is the recursive search's answer, and it
    gives up only after `MaxAttempts(count)` attempts, of which there can be no more
    than the search tree has work for.
  */
  method SearchItems(data: bytes, count: nat) returns (r: Result<seq<Value>, PipelineError>, attempts: nat)
    requires count <= MAX_ITEMS
    ensures attempts <= MaxAttempts(count)
    ensures attempts <= Work(PipelineProblem(data, count), 5, count)
    ensures r == Err(Ambiguous) ==> attempts == MaxAttempts(count) < Work(PipelineProblem(data, count), 5, count)
    ensures r != Err(Ambiguous)
      ==> PipelineProblem(data, count).Solve(Start(count)) == (if r.Ok? then Some(r.value) else None)
    ensures r != Err(InvalidResponse)
  {
    hide ItemCandidates, PipelineProblem, Problem.Solve, Problem.SolveFrom, Problem.Resume, Problem.Answer,
      Problem.Supported, Spent, Work, WorkFrom, Pending;
    ghost var p := PipelineProblem(data, count);
    ProblemFields(data, count);
    var items := new Value[count];
    var decisions: seq<Decision<Value>> := [];
    var failed: set<State> := {};
    var item: nat, offset: nat := 0, 5;
    var remaining := MAX_ITEMS - count;
    attempts := 0;
    var maxAttempts := MaxAttempts(count);
    var parseErr: Option<PipelineError> := None;
    AtStart(p, items[..], Start(count));
    while true
      invariant item <= count && remaining >= 0 && attempts <= maxAttempts
      invariant p.Stacked(decisions) && p.AllDead(failed) && p.Supported(decisions, State(item, offset, remaining))
      invariant forall k :: 0 <= k < |decisions| ==> decisions[k].remaining >= 0
      invariant p.Answer(decisions, items[..], State(item, offset, remaining)) == p.Solve(Start(count))
      invariant attempts + Work(p, offset, count - item) + Pending(p, decisions) <= Work(p, 5, count)
      invariant failed != {} ==> parseErr.Some?
      invariant parseErr != Some(InvalidResponse) && parseErr != Some(Ambiguous)
      decreases maxAttempts - attempts
    {
      ghost var before := attempts;
      var state := State(item, offset, remaining);
      if item == count {
        if offset == |data| {
          AllRead(p, decisions, items[..], state);
          return Ok(items[..]), attempts;
        }
        parseErr := Some(TrailingBytes);
        Unparsable(p, state);
        failed := failed + {state};
      } else if state !in failed {
        WorkIsPositive(p, offset, count - item);
        if attempts + 1 > maxAttempts {
          return Err(Ambiguous), attempts;
        }
        attempts := attempts + 1;
        var read, stack := ReadItem(p, data, state, decisions, items);
        if read.Ok? {
          decisions := stack;
          item, offset, remaining := read.value.item, read.value.offset, read.value.remaining;
          continue;
        }
        parseErr := Some(read.error);
        failed := failed + {state};
      }
      FailedState(p, decisions, items[..], state);
      var outcome, open, known := Backtrack(p, decisions, failed, items, attempts, maxAttempts, Work(p, 5, count));
      decisions, failed := open, known;
      match outcome {
        case OverBudget => return Err(Ambiguous), attempts;
        case Exhausted => return Err(if parseErr.Some? then parseErr.value else InvalidResponse), attempts;
        case Resumed(resumed) =>
          attempts := attempts + 1;
          item, offset, remaining := resumed.item, resumed.offset, resumed.remaining;
      }
    }
  }

  lemma AtStart<V, E>(p: Problem<V, E>, items: seq<V>, s: State)
    requires |items| == p.count && s.item == 0
    ensures p.Stacked([]) && p.Supported([], s) && p.Answer([], items, s) == p.Solve(s) && Pending(p, []) == 0
  {
    if p.Solve(s).Some? { assert items[..0] + p.Solve(s).value == p.Solve(s).value; }
  }

  lemma AllRead<V, E>(p: Problem<V, E>, decisions: seq<Decision<V>>, items: seq<V>, s: State)
    requires p.Stacked(decisions) && |items| == p.count && s.item == p.count && s.offset == p.end
    ensures p.Answer(decisions, items, s) == Some(items)
  {
    assert items[..p.count] + [] == items;
  }

  /** Reading an item pays for itself and for what can follow. */
  lemma FirstPays<V, E>(p: Problem<V, E>, decisions: seq<Decision<V>>, s: State, candidates: seq<Candidate<V>>, next: nat)
    requires p.Stacked(decisions) && p.Supported(decisions, s) && s.item < p.count
    requires p.parse(s.offset) == Ok(candidates) && 0 < next <= |candidates|
    ensures var d := Decision(s.item, s.offset, candidates, next, s.remaining);
      var entered := if next < |candidates| then decisions + [d] else decisions;
      && p.Stacked(entered)
      && 1 + Work(p, candidates[next - 1].next, p.count - s.item - 1) + Pending(p, entered)
         <= Work(p, s.offset, p.count - s.item) + Pending(p, decisions)
  {
    hide Problem.Supported, Pending, WorkFrom, Problem.Stacked;
    var d := Decision(s.item, s.offset, candidates, next, s.remaining);
    EnteringPays(p, candidates, 0, next, p.count - s.item);
    if next < |candidates| {
      OnTop(p, decisions, d, s);
      PendingOf(p, decisions, d);
    }
  }

  lemma OnTop<V, E>(p: Problem<V, E>, decisions: seq<Decision<V>>, d: Decision<V>, s: State)
    requires p.Stacked(decisions) && p.Supported(decisions, s) && p.Open(d) && d.Start() == s
    ensures p.Stacked(decisions + [d])
  {
    StackedMore(p, decisions, d, s);
  }

  // ----- the decoder

  /** The path starts at the first item and is no longer than the announced count. */
  ghost predicate IsChain(data: bytes, path: seq<nat>) {
    HasHeader(data) && |path| <= Announced(data) && PipelineProblem(data, Announced(data)).Chain(5, path)
  }

  /** The claimed jobs that a chain of items reads. */
  ghost function Claims(data: bytes, count: nat, offset: nat, path: seq<nat>): nat
    requires PipelineProblem(data, count).Chain(offset, path)
    decreases |path|
  {
    if path == [] then 0
    else
      (if offset + 1 < |data| && data[offset] == 0 && data[offset + 1] == 4 then 1 else 0)
      + Claims(data, count, ItemCandidates(data, offset).value[path[0]].next, path[1..])
  }

  lemma {:induction false} ForksAreClaims(data: bytes, count: nat, offset: nat, path: seq<nat>)
    requires PipelineProblem(data, count).Chain(offset, path)
    ensures Forks(PipelineProblem(data, count), offset, path) <= Claims(data, count, offset, path)
    decreases |path|
  {
    hide ItemCandidates;
    if path != [] {
      OnlyClaimsAreAmbiguous(data, offset);
      ForksAreClaims(data, count, ItemCandidates(data, offset).value[path[0]].next, path[1..]);
    }
  }

  lemma FourWays(data: bytes, count: nat)
    ensures AtMostFourWays(PipelineProblem(data, count))
  {
    hide ItemCandidates;
    ProblemFields(data, count);
    forall offset: nat | ItemCandidates(data, offset).Ok? ensures |ItemCandidates(data, offset).value| <= 4 {
      OnlyClaimsAreAmbiguous(data, offset);
    }
  }

  /**
    The attempts cannot run out for three items or fewer, nor as long as every chain
    of items from the start meets at most one claimed job.
  */
  lemma OneClaimIsDecided(data: bytes)
    requires HasHeader(data)
    requires Announced(data) <= 3 || forall path :: IsChain(data, path) ==> Claims(data, Announced(data), 5, path) <= 1
    ensures Work(PipelineProblem(data, Announced(data)), 5, Announced(data)) <= MaxAttempts(Announced(data))
  {
    hide ItemCandidates, Work, GetU32, PipelineProblem, AtMostFourWays;
    var count := Announced(data);
    var p := PipelineProblem(data, count);
    FourWays(data, count);
    if count <= 3 {
      WorkIsBushy(p, 5, count);
    } else {
      forall path | p.Chain(5, path) && |path| <= count ensures Forks(p, 5, path) <= 1 {
        assert IsChain(data, path);
        ForksAreClaims(data, count, 5, path);
      }
      WorkBound(p, 5, count, 1);
    }
  }

  lemma AmbiguityTakesClaims(data: bytes)
    requires HasHeader(data)
    requires Work(PipelineProblem(data, Announced(data)), 5, Announced(data)) > MaxAttempts(Announced(data))
    ensures Announced(data) >= 4 && exists path :: IsChain(data, path) && Claims(data, Announced(data), 5, path) >= 2
  {
    hide ItemCandidates, Work, GetU32, Claims;
    if Announced(data) <= 3 || forall path :: IsChain(data, path) ==> Claims(data, Announced(data), 5, path) <= 1 {
      OneClaimIsDecided(data);
    }
  }

  /**
    The decoder, over the candidates of its offsets. A body that decodes yields its first parse; a body
    that is rejected for any other reason than ambiguity has no parse at all; and
    rejecting for ambiguity takes four items and a chain from the first item that
    reads two claimed jobs.
  */
  method DecodeBody(data: bytes) returns (r: Result<seq<Value>, PipelineError>, attempts: nat)
    ensures r.Ok? ==> IsFirstResponse(data, r.value)
    ensures r.Err? && r.error != Ambiguous ==> forall path :: !IsResponse(data, path)
    ensures HasHeader(data) ==> attempts <= MaxAttempts(Announced(data))
    ensures r == Err(Ambiguous)
      ==> && HasHeader(data) && Announced(data) >= 4
          && exists path :: IsChain(data, path) && Claims(data, Announced(data), 5, path) >= 2
  {
    hide ItemCandidates, PipelineProblem, Problem.IsParse, Problem.IsFirstParse, Problem.ValuesOf, GetU32, Work, Claims, IsChain;
    attempts := 0;
    if |data| < 5 || data[0] != PIPELINE_RESPONSE {
      return Err(TruncatedResponse), 0;
    }
    var count := GetU32(data[1..5]);
    assert data[1..5] == data[1..][..4];
    SameCount(data);
    if !CountInBounds(count, |data| - 5, 2) {
      forall path ensures !IsResponse(data, path) { ImplausibleCount(data, path); }
      return Err(TooManyAnnounced), 0;
    }
    r, attempts := SearchItems(data, count);
    ghost var p := PipelineProblem(data, count);
    ProblemFields(data, count);
    if r.Ok? {
      ghost var path := SomeMeansFirstParse(p, Start(count));
    } else if r.error != Ambiguous {
      forall path ensures !IsResponse(data, path) { NoneMeansNoParse(p, Start(count), path); }
    } else {
      AmbiguityTakesClaims(data);
    }
  }

  lemma SameCount(data: bytes)
    requires |data| >= 5
    ensures GetU32(data[1..5]) == GetU32(data[1..])
  {
  }
}
