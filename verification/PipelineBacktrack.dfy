/**
  The driver's backtracking step: leave the branch that failed, drop exhausted
  decisions and enter the next candidate that is affordable and not known to fail.
*/
module PipelineBacktrack {
  import opened PipelineSearch
  import opened PipelineWork
  import opened Results

  method NextCandidate<V>(candidates: seq<Candidate<V>>, start: nat, remaining: int) returns (next: nat, affordable: bool)
    requires start <= |candidates|
    ensures affordable ==> start < next <= |candidates| && candidates[next - 1].cost <= remaining
    ensures affordable ==> forall k :: start <= k < next - 1 ==> candidates[k].cost > remaining
    ensures !affordable ==> next == |candidates| && forall k :: start <= k < |candidates| ==> candidates[k].cost > remaining
  {
    for index := start to |candidates|
      invariant forall k :: start <= k < index ==> candidates[k].cost > remaining
    {
      if candidates[index].cost <= remaining {
        return index + 1, true;
      }
    }
    return |candidates|, false;
  }

  /** Candidates that cannot be paid for, or lead nowhere, do not change the search's answer. */
  lemma {:induction false} SkipDead<V, E>(p: Problem<V, E>, s: State, candidates: seq<Candidate<V>>, i: nat, j: nat)
    requires s.item < p.count && i <= j <= |candidates|
    requires forall k :: i <= k < j ==> candidates[k].cost > s.remaining || p.Dead(After(s, candidates[k]))
    ensures p.SolveFrom(s, candidates, i) == p.SolveFrom(s, candidates, j)
    decreases j - i
  {
    if i < j {
      SkipDead(p, s, candidates, i + 1, j);
    }
  }

  /** The inner loop: advance `d` to its next candidate that may still succeed. */
  method Advance<V, E>(ghost p: Problem<V, E>, d: Decision<V>, failed: set<State>) returns (next: nat, found: bool)
    requires p.Open(d) && p.AllDead(failed) && p.Tried(d, d.next)
    ensures d.next <= next <= |d.candidates|
    ensures found ==> next > d.next && d.candidates[next - 1].cost <= d.remaining && p.Tried(d, next - 1)
    ensures found
      ==> p.SolveFrom(d.Start(), d.candidates, d.next) == p.SolveFrom(d.Start(), d.candidates, next - 1)
    ensures !found ==> next == |d.candidates| && p.Tried(d, next)
  {
    next := d.next;
    while true
      invariant d.next <= next <= |d.candidates|
      invariant p.Tried(d, next)
      decreases |d.candidates| - next
    {
      ghost var from := next;
      next, found := NextCandidate(d.candidates, next, d.remaining);
      if !found {
        return;
      }
      var nextState := After(d.Start(), d.candidates[next - 1]);
      if nextState in failed {
        continue;
      }
      SkipDead(p, d.Start(), d.candidates, d.next, next - 1);
      return;
    }
  }

  /** A decision all of whose candidates failed is a failed state. */
  lemma ExhaustedIsDead<V, E>(p: Problem<V, E>, d: Decision<V>)
    requires p.Open(d) && p.Tried(d, |d.candidates|)
    ensures p.SolveFrom(d.Start(), d.candidates, d.next).None? && p.Dead(d.Start())
  {
    SkipDead(p, d.Start(), d.candidates, 0, |d.candidates|);
    SkipDead(p, d.Start(), d.candidates, d.next, |d.candidates|);
  }

  /** The stack's answer depends only on the items below its deepest decision. */
  lemma {:induction false} ResumeFrame<V, E>(p: Problem<V, E>, decisions: seq<Decision<V>>, a: seq<V>, b: seq<V>)
    requires p.Stacked(decisions) && |a| == |b| == p.count
    requires decisions != [] ==> a[..decisions[|decisions| - 1].item] == b[..decisions[|decisions| - 1].item]
    ensures p.Resume(decisions, a) == p.Resume(decisions, b)
  {
    if decisions != [] {
      var d, below := decisions[|decisions| - 1], decisions[..|decisions| - 1];
      if below != [] {
        var e := below[|below| - 1];
        assert a[..e.item] == a[..d.item][..e.item] == b[..d.item][..e.item] == b[..e.item];
      }
      ResumeFrame(p, below, a, b);
    }
  }

  datatype Outcome = Resumed(state: State) | Exhausted | OverBudget

  /** The current branch has failed, so everything tried for the deepest decision has failed. */
  ghost predicate Spent<V, E>(p: Problem<V, E>, decisions: seq<Decision<V>>)
    requires p.Stacked(decisions)
  {
    decisions != [] ==>
      var d := decisions[|decisions| - 1];
      p.Tried(d, d.next) && p.Supported(decisions[..|decisions| - 1], d.Start())
  }

  /**
    Entering `candidates[next - 1]` of the deepest decision: what the stack stood
    for is what the new configuration stands for.
  */
  lemma EnterCandidate<V, E>(p: Problem<V, E>, decisions: seq<Decision<V>>, next: nat, items: seq<V>)
    requires p.Stacked(decisions) && Spent(p, decisions) && |items| == p.count && decisions != []
    requires var d := decisions[|decisions| - 1];
      && d.next < next <= |d.candidates| && d.candidates[next - 1].cost <= d.remaining && p.Tried(d, next - 1)
      && p.SolveFrom(d.Start(), d.candidates, d.next) == p.SolveFrom(d.Start(), d.candidates, next - 1)
    ensures var d := decisions[|decisions| - 1];
      var entered := decisions[..|decisions| - 1] + [d.(next := next)];
      var s := After(d.Start(), d.candidates[next - 1]);
      var written := items[d.item := d.candidates[next - 1].value];
      && p.Stacked(entered) && p.Supported(entered, s)
      && p.Answer(entered, written, s) == p.Resume(decisions, items)
  {
    hide Problem.Solve, Problem.SolveFrom, Problem.Resume, Problem.Supported, Problem.Tried, Problem.Answer, Problem.Dead;
    EnteredIsSupported(p, decisions, next);
    EnteredResumes(p, decisions, next, items, items[decisions[|decisions| - 1].item := decisions[|decisions| - 1].candidates[next - 1].value]);
    EnteredAnswers(p, decisions, next, items);
  }

  lemma EnteredIsSupported<V, E>(p: Problem<V, E>, decisions: seq<Decision<V>>, next: nat)
    requires p.Stacked(decisions) && Spent(p, decisions) && decisions != []
    requires var d := decisions[|decisions| - 1]; d.next < next <= |d.candidates| && p.Tried(d, next - 1)
    ensures var d := decisions[|decisions| - 1];
      var entered := decisions[..|decisions| - 1] + [d.(next := next)];
      p.Stacked(entered) && p.Supported(entered, After(d.Start(), d.candidates[next - 1]))
  {
    hide Problem.Solve, Problem.SolveFrom, Problem.Supported, Problem.Tried, Problem.Dead;
    var d, below := decisions[|decisions| - 1], decisions[..|decisions| - 1];
    var entered := below + [d.(next := next)];
    assert entered[..|entered| - 1] == below && entered[|entered| - 1] == d.(next := next);
    StackedMoved(p, decisions, next);
    MovedIsTried(p, d, next);
    SupportedBy(p, entered, After(d.Start(), d.candidates[next - 1]));
  }

  /** What the stack answers after the candidate, should the candidate fail. */
  lemma EnteredResumes<V, E>(p: Problem<V, E>, decisions: seq<Decision<V>>, next: nat, items: seq<V>, written: seq<V>)
    requires p.Stacked(decisions) && |items| == |written| == p.count && decisions != []
    requires next <= |decisions[|decisions| - 1].candidates|
    requires written[..decisions[|decisions| - 1].item] == items[..decisions[|decisions| - 1].item]
    ensures p.Stacked(decisions[..|decisions| - 1] + [decisions[|decisions| - 1].(next := next)])
    ensures var d, below := decisions[|decisions| - 1], decisions[..|decisions| - 1];
      p.Resume(below + [d.(next := next)], written) ==
      match p.SolveFrom(d.Start(), d.candidates, next)
      case Some(rest) => Some(items[..d.item] + rest)
      case None => p.Resume(below, items)
  {
    hide Problem.Solve, Problem.SolveFrom, Problem.Resume;
    var d, below := decisions[|decisions| - 1], decisions[..|decisions| - 1];
    var entered := below + [d.(next := next)];
    assert entered[..|entered| - 1] == below && entered[|entered| - 1] == d.(next := next);
    StackedMoved(p, decisions, next);
    ResumeOf(p, entered, written);
    if below != [] {
      var e := below[|below| - 1];
      assert written[..e.item] == written[..d.item][..e.item] == items[..d.item][..e.item] == items[..e.item];
    }
    ResumeFrame(p, below, items, written);
  }

  lemma EnteredAnswers<V, E>(p: Problem<V, E>, decisions: seq<Decision<V>>, next: nat, items: seq<V>)
    requires p.Stacked(decisions) && |items| == p.count && decisions != []
    requires var d := decisions[|decisions| - 1];
      && d.next < next <= |d.candidates| && d.candidates[next - 1].cost <= d.remaining
      && p.SolveFrom(d.Start(), d.candidates, d.next) == p.SolveFrom(d.Start(), d.candidates, next - 1)
    requires p.Stacked(decisions[..|decisions| - 1] + [decisions[|decisions| - 1].(next := next)])
    ensures var d := decisions[|decisions| - 1];
      var entered := decisions[..|decisions| - 1] + [d.(next := next)];
      var written := items[d.item := d.candidates[next - 1].value];
      p.Answer(entered, written, After(d.Start(), d.candidates[next - 1])) == p.Resume(decisions, items)
  {
    hide Problem.Solve, Problem.SolveFrom, Problem.Resume, Problem.Stacked;
    var d, below := decisions[|decisions| - 1], decisions[..|decisions| - 1];
    var s, value := After(d.Start(), d.candidates[next - 1]), d.candidates[next - 1].value;
    DeepestIsOpen(p, decisions);
    var written := items[d.item := value];
    assert written[..d.item] == items[..d.item];
    ResumeOf(p, decisions, items);
    EnteredResumes(p, decisions, next, items, written);
    SolveOne(p, d.Start(), d.candidates, next);
    var rest := p.Solve(s);
    if rest.Some? {
      assert written[..s.item] + rest.value == items[..d.item] + ([value] + rest.value);
    }
  }

  lemma DeepestIsOpen<V, E>(p: Problem<V, E>, decisions: seq<Decision<V>>)
    requires p.Stacked(decisions) && decisions != []
    ensures p.Open(decisions[|decisions| - 1])
  {
  }

  lemma StackedMoved<V, E>(p: Problem<V, E>, decisions: seq<Decision<V>>, next: nat)
    requires p.Stacked(decisions) && decisions != [] && next <= |decisions[|decisions| - 1].candidates|
    ensures p.Stacked(decisions[..|decisions| - 1] + [decisions[|decisions| - 1].(next := next)])
  {
  }

  lemma MovedIsTried<V, E>(p: Problem<V, E>, d: Decision<V>, next: nat)
    requires d.item < p.count && 0 < next <= |d.candidates| && p.Tried(d, next - 1)
    ensures p.Dead(After(d.Start(), d.candidates[next - 1])) ==> p.Tried(d.(next := next), next)
  {
    hide Problem.Solve;
    assert d.(next := next).Start() == d.Start();
  }

  /** One level of what supports a state. */
  lemma SupportedBy<V, E>(p: Problem<V, E>, decisions: seq<Decision<V>>, s: State)
    requires p.Stacked(decisions) && decisions != []
    requires var d := decisions[|decisions| - 1];
      d.item < s.item && (p.Dead(s) ==> p.Tried(d, d.next)) && p.Supported(decisions[..|decisions| - 1], d.Start())
    ensures p.Supported(decisions, s)
  {
    hide Problem.Tried, Problem.Dead;
  }

  lemma ResumeOf<V, E>(p: Problem<V, E>, decisions: seq<Decision<V>>, items: seq<V>)
    requires p.Stacked(decisions) && |items| == p.count && decisions != []
    ensures var d := decisions[|decisions| - 1];
      p.Resume(decisions, items) ==
      match p.SolveFrom(d.Start(), d.candidates, d.next)
      case Some(rest) => Some(items[..d.item] + rest)
      case None => p.Resume(decisions[..|decisions| - 1], items)
  {
    hide Problem.SolveFrom;
  }

  lemma SolveOne<V, E>(p: Problem<V, E>, s: State, candidates: seq<Candidate<V>>, next: nat)
    requires s.item < p.count && 0 < next <= |candidates| && candidates[next - 1].cost <= s.remaining
    ensures p.SolveFrom(s, candidates, next - 1) ==
      match p.Solve(After(s, candidates[next - 1]))
      case Some(rest) => Some([candidates[next - 1].value] + rest)
      case None => p.SolveFrom(s, candidates, next)
  {
    hide Problem.Solve;
  }

  /** Dropping an exhausted decision. */
  lemma DropDecision<V, E>(p: Problem<V, E>, decisions: seq<Decision<V>>, items: seq<V>)
    requires p.Stacked(decisions) && Spent(p, decisions) && |items| == p.count && decisions != []
    requires var d := decisions[|decisions| - 1]; p.Tried(d, |d.candidates|)
    ensures var below := decisions[..|decisions| - 1];
      && p.Stacked(below) && Spent(p, below) && p.Resume(below, items) == p.Resume(decisions, items)
      && p.Dead(decisions[|decisions| - 1].Start())
  {
    ExhaustedIsDead(p, decisions[|decisions| - 1]);
  }

  /**
    Resume from the stack: the configuration entered stands for the same answer,
    an exhausted stack has none, and each resumption is one counted attempt.
  */
  method Backtrack<V, E>(
    ghost p: Problem<V, E>, decisions: seq<Decision<V>>, failed: set<State>, items: array<V>,
    attempts: nat, maxAttempts: nat, ghost budget: nat)
    returns (outcome: Outcome, open: seq<Decision<V>>, known: set<State>)
    requires p.Stacked(decisions) && Spent(p, decisions) && p.AllDead(failed) && items.Length == p.count
    requires forall k :: 0 <= k < |decisions| ==> decisions[k].remaining >= 0
    requires attempts + Pending(p, decisions) <= budget
    modifies items
    ensures p.Stacked(open) && p.AllDead(known) && failed <= known && |open| <= |decisions|
    ensures forall k :: 0 <= k < |open| ==> open[k].remaining >= 0
    ensures outcome.OverBudget? ==> attempts >= maxAttempts && decisions != [] && attempts < budget
    ensures outcome.Exhausted? ==> p.Resume(decisions, old(items[..])).None?
    ensures outcome.Resumed?
      ==> && attempts < maxAttempts && decisions != []
          && outcome.state.item <= p.count && outcome.state.remaining >= 0
          && p.Supported(open, outcome.state)
          && attempts + 1 + Work(p, outcome.state.offset, p.count - outcome.state.item) + Pending(p, open) <= budget
          && p.Answer(open, items[..], outcome.state) == p.Resume(decisions, old(items[..]))
  {
    hide Problem.Tried, Problem.Resume, Problem.Solve, Problem.SolveFrom, Problem.Supported, Work, WorkFrom, Pending;
    open, known := decisions, failed;
    ghost var answer := p.Resume(decisions, items[..]);
    while |open| > 0
      invariant |open| <= |decisions|
      invariant p.Stacked(open) && Spent(p, open) && p.AllDead(known) && failed <= known
      invariant forall k :: 0 <= k < |open| ==> open[k].remaining >= 0
      invariant items[..] == old(items[..]) && p.Resume(open, items[..]) == answer
      invariant attempts + Pending(p, open) <= budget
    {
      var last := open[|open| - 1];
      var next, found := Advance(p, last, known);
      PendingTop(p, open);
      if found {
        PendingMoved(p, open, next);
        if attempts + 1 > maxAttempts {
          return OverBudget, open, known;
        }
        EnterCandidate(p, open, next, items[..]);
        items[last.item] := last.candidates[next - 1].value;
        open := open[..|open| - 1] + [last.(next := next)];
        return Resumed(After(last.Start(), last.candidates[next - 1])), open, known;
      }
      DropDecision(p, open, items[..]);
      known := known + {last.Start()};
      open := open[..|open| - 1];
    }
    EmptyStack(p, items[..]);
    return Exhausted, open, known;
  }

  lemma PendingTop<V, E>(p: Problem<V, E>, decisions: seq<Decision<V>>)
    requires p.Stacked(decisions) && decisions != []
    ensures var d := decisions[|decisions| - 1];
      Pending(p, decisions) == WorkFrom(p, d.candidates, d.next, p.count - d.item) + Pending(p, decisions[..|decisions| - 1])
  {
    hide WorkFrom;
  }

  /** Entering the candidate before `next` pays for itself and for what can follow. */
  lemma PendingMoved<V, E>(p: Problem<V, E>, decisions: seq<Decision<V>>, next: nat)
    requires p.Stacked(decisions) && decisions != []
    requires decisions[|decisions| - 1].next < next <= |decisions[|decisions| - 1].candidates|
    ensures var d := decisions[|decisions| - 1];
      var entered := decisions[..|decisions| - 1] + [d.(next := next)];
      && p.Stacked(entered)
      && 1 + Work(p, d.candidates[next - 1].next, p.count - d.item - 1) + Pending(p, entered) <= Pending(p, decisions)
  {
    hide Work, WorkFrom, Pending;
    var d, below := decisions[|decisions| - 1], decisions[..|decisions| - 1];
    StackedMoved(p, decisions, next);
    PendingOf(p, below, d.(next := next));
    PendingTop(p, decisions);
    EnteringPays(p, d.candidates, d.next, next, p.count - d.item);
  }

  lemma EmptyStack<V, E>(p: Problem<V, E>, items: seq<V>)
    requires |items| == p.count
    ensures p.Resume([], items).None?
  {
  }
}
