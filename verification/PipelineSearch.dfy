/**
  The backtracking search behind the compact PIPELINE decoder, over an
  arbitrary table of candidate parses.

  `Problem.Solve` is the plain recursive search: try the candidates at an offset
  in order, skip those that the remaining item budget cannot pay for, and take
  the first that leads to the end of the data. The iterative driver keeps a stack
  of open decisions and a set of states known to fail; `Answer` says what such a
  configuration still stands for, and every step of the driver preserves it.
*/
module PipelineSearch {
  import opened Results

  /** One way to read an item: its value, the offset after it and its item cost. */
  datatype Candidate<+V> = Candidate(value: V, next: nat, cost: nat)

  /** `item` items read, `offset` bytes consumed, `remaining` item budget. */
  datatype State = State(item: nat, offset: nat, remaining: int)

  /** An item with untried candidates: `candidates[next..]`. */
  datatype Decision<+V> = Decision(item: nat, offset: nat, candidates: seq<Candidate<V>>, next: nat, remaining: int) {
    /** The state in which the item is to be read. */
    function Start(): State {
      State(item, offset, remaining)
    }
  }

  /** The state after reading candidate `c` in state `s`. */
  function After<V>(s: State, c: Candidate<V>): State {
    State(s.item + 1, c.next, s.remaining - c.cost)
  }

  /** Read `count` items so that the last one ends at `end`. */
  datatype Problem<V, E> = Problem(parse: nat -> Result<seq<Candidate<V>>, E>, end: nat, count: nat) {

    // ----- the recursive search

    ghost function Solve(s: State): Option<seq<V>>
      requires s.item <= count
      decreases count - s.item, 0, 0
    {
      if s.item == count then
        if s.offset == end then Some([]) else None
      else
        match parse(s.offset)
        case Ok(candidates) => SolveFrom(s, candidates, 0)
        case Err(_) => None
    }

    ghost function SolveFrom(s: State, candidates: seq<Candidate<V>>, i: nat): Option<seq<V>>
      requires s.item < count && i <= |candidates|
      decreases count - s.item - 1, 1, |candidates| - i
    {
      if i == |candidates| then None
      else if candidates[i].cost > s.remaining then SolveFrom(s, candidates, i + 1)
      else
        match Solve(After(s, candidates[i]))
        case Some(rest) => Some([candidates[i].value] + rest)
        case None => SolveFrom(s, candidates, i + 1)
    }

    ghost predicate Dead(s: State) {
      s.item <= count && Solve(s).None?
    }

    ghost predicate AllDead(failed: set<State>) {
      forall s :: s in failed ==> Dead(s)
    }

    // ----- parses as paths of candidate choices

    ghost predicate Chain(offset: nat, path: seq<nat>)
      decreases |path|
    {
      path != [] ==>
        && parse(offset).Ok?
        && path[0] < |parse(offset).value|
        && Chain(parse(offset).value[path[0]].next, path[1..])
    }

    ghost function EndOf(offset: nat, path: seq<nat>): nat
      requires Chain(offset, path)
      decreases |path|
    {
      if path == [] then offset else EndOf(parse(offset).value[path[0]].next, path[1..])
    }

    ghost function CostOf(offset: nat, path: seq<nat>): nat
      requires Chain(offset, path)
      decreases |path|
    {
      if path == [] then 0
      else parse(offset).value[path[0]].cost + CostOf(parse(offset).value[path[0]].next, path[1..])
    }

    ghost function ValuesOf(offset: nat, path: seq<nat>): seq<V>
      requires Chain(offset, path)
      decreases |path|
    {
      if path == [] then []
      else [parse(offset).value[path[0]].value] + ValuesOf(parse(offset).value[path[0]].next, path[1..])
    }

    /** `path` reads all items left in state `s`, ends at the end, and is paid for by the budget. */
    ghost predicate IsParse(s: State, path: seq<nat>)
      requires s.item <= count
    {
      && |path| == count - s.item
      && Chain(s.offset, path)
      && EndOf(s.offset, path) == end
      && CostOf(s.offset, path) <= s.remaining
    }

    /** `path` is the parse that comes first in the order of candidate choices. */
    ghost predicate IsFirstParse(s: State, path: seq<nat>)
      requires s.item <= count
    {
      IsParse(s, path) && forall other :: IsParse(s, other) ==> other == path || Precedes(path, other)
    }

    // ----- what a configuration of the driver stands for

    ghost predicate Open(d: Decision<V>) {
      && d.item < count && d.next <= |d.candidates|
      && parse(d.offset) == Ok(d.candidates)
    }

    ghost predicate Stacked(decisions: seq<Decision<V>>) {
      && (forall k :: 0 <= k < |decisions| ==> Open(decisions[k]))
      && (forall j, k :: 0 <= j < k < |decisions| ==> decisions[j].item < decisions[k].item)
    }

    /** The answer once the current branch has failed: the deepest decision that still succeeds. */
    ghost function Resume(decisions: seq<Decision<V>>, items: seq<V>): Option<seq<V>>
      requires Stacked(decisions) && |items| == count
    {
      if decisions == [] then None
      else
        var d := decisions[|decisions| - 1];
        match SolveFrom(d.Start(), d.candidates, d.next)
        case Some(rest) => Some(items[..d.item] + rest)
        case None => Resume(decisions[..|decisions| - 1], items)
    }

    ghost function Answer(decisions: seq<Decision<V>>, items: seq<V>, s: State): Option<seq<V>>
      requires Stacked(decisions) && |items| == count && s.item <= count
    {
      match Solve(s)
      case Some(rest) => Some(items[..s.item] + rest)
      case None => Resume(decisions, items)
    }

    /** Everything tried for `d` before `candidates[i]` has failed. */
    ghost predicate Tried(d: Decision<V>, i: nat)
      requires d.item < count
    {
      i <= |d.candidates| &&
      forall j :: 0 <= j < i && d.candidates[j].cost <= d.remaining ==> Dead(After(d.Start(), d.candidates[j]))
    }

    /** If `s` fails then so does every branch being explored by the stack below it. */
    ghost predicate Supported(decisions: seq<Decision<V>>, s: State)
      requires Stacked(decisions)
      decreases |decisions|
    {
      decisions != [] ==>
        var d := decisions[|decisions| - 1];
        && d.item < s.item
        && (Dead(s) ==> Tried(d, d.next))
        && Supported(decisions[..|decisions| - 1], d.Start())
    }
  }

  /** The order in which a depth-first search meets two choice paths. */
  ghost predicate Precedes(a: seq<nat>, b: seq<nat>) {
    a != [] && b != [] && (a[0] < b[0] || (a[0] == b[0] && Precedes(a[1..], b[1..])))
  }

  // ----- the recursive search finds exactly the first parse

  lemma {:induction false} NoneMeansNoParse<V, E>(p: Problem<V, E>, s: State, path: seq<nat>)
    requires s.item <= p.count && p.Solve(s).None?
    ensures !p.IsParse(s, path)
    decreases p.count - s.item, 0, 0
  {
    if p.IsParse(s, path) && path != [] {
      var candidates := p.parse(s.offset).value;
      NoneMeansNoParseFrom(p, s, candidates, 0, path);
    }
  }

  lemma {:induction false} NoneMeansNoParseFrom<V, E>(
    p: Problem<V, E>, s: State, candidates: seq<Candidate<V>>, i: nat, path: seq<nat>)
    requires s.item < p.count && i <= |candidates| && p.parse(s.offset) == Ok(candidates)
    requires p.SolveFrom(s, candidates, i).None? && |path| > 0 && i <= path[0]
    ensures !p.IsParse(s, path)
    decreases p.count - s.item - 1, 1, |candidates| - i
  {
    if p.IsParse(s, path) {
      if i == path[0] {
        NoneMeansNoParse(p, After(s, candidates[i]), path[1..]);
      } else {
        NoneMeansNoParseFrom(p, s, candidates, i + 1, path);
      }
    }
  }

  lemma {:induction false} SomeMeansFirstParse<V, E>(p: Problem<V, E>, s: State) returns (path: seq<nat>)
    requires s.item <= p.count && p.Solve(s).Some? && s.remaining >= 0
    ensures p.IsFirstParse(s, path) && p.ValuesOf(s.offset, path) == p.Solve(s).value
    decreases p.count - s.item, 0, 0
  {
    if s.item == p.count {
      path := [];
    } else {
      path := SomeMeansFirstParseFrom(p, s, p.parse(s.offset).value, 0);
    }
  }

  lemma {:induction false} SomeMeansFirstParseFrom<V, E>(
    p: Problem<V, E>, s: State, candidates: seq<Candidate<V>>, i: nat) returns (path: seq<nat>)
    requires s.item < p.count && i <= |candidates| && p.parse(s.offset) == Ok(candidates)
    requires p.SolveFrom(s, candidates, i).Some? && s.remaining >= 0
    ensures p.IsParse(s, path) && path[0] >= i
    ensures p.ValuesOf(s.offset, path) == p.SolveFrom(s, candidates, i).value
    ensures forall other :: p.IsParse(s, other) && other[0] >= i ==> other == path || Precedes(path, other)
    decreases p.count - s.item - 1, 1, |candidates| - i
  {
    var next := After(s, candidates[i]);
    if candidates[i].cost <= s.remaining && p.Solve(next).Some? {
      var rest := SomeMeansFirstParse(p, next);
      path := [i] + rest;
      assert path[1..] == rest;
      forall other | p.IsParse(s, other) && other[0] >= i ensures other == path || Precedes(path, other) {
        if other[0] == i {
          assert p.IsParse(next, other[1..]);
          assert other == [i] + other[1..];
        }
      }
    } else {
      path := SomeMeansFirstParseFrom(p, s, candidates, i + 1);
      forall other | p.IsParse(s, other) && other[0] >= i ensures other == path || Precedes(path, other) {
        if other[0] == i {
          assert p.IsParse(next, other[1..]);
          NoneMeansNoParse(p, next, other[1..]);
        }
      }
    }
  }
}
