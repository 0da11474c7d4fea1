/**
  How many attempts the search can make: a budget that every attempt pays from,
  and what it comes to when few offsets on a chain parse in more than one way.
*/
module PipelineWork {
  import opened PipelineSearch
  import opened Results

  /** The attempts that reading `k` items from `offset` can cost, were nothing known to fail. */
  ghost function Work<V, E>(p: Problem<V, E>, offset: nat, k: nat): nat
    decreases k, 1, 0
  {
    if k == 0 then 0
    else if p.parse(offset).Err? || p.parse(offset).value == [] then 1
    else WorkFrom(p, p.parse(offset).value, 0, k)
  }

  /** The attempts that the candidates from `i` on can cost: entering each, and going on from it. */
  ghost function WorkFrom<V, E>(p: Problem<V, E>, candidates: seq<Candidate<V>>, i: nat, k: nat): nat
    requires k > 0 && i <= |candidates|
    decreases k, 0, |candidates| - i
  {
    if i == |candidates| then 0
    else 1 + Work(p, candidates[i].next, k - 1) + WorkFrom(p, candidates, i + 1, k)
  }

  /** The attempts that the open decisions can still cost. */
  ghost function Pending<V, E>(p: Problem<V, E>, decisions: seq<Decision<V>>): nat
    requires p.Stacked(decisions)
    decreases |decisions|
  {
    if decisions == [] then 0
    else
      var d := decisions[|decisions| - 1];
      WorkFrom(p, d.candidates, d.next, p.count - d.item) + Pending(p, decisions[..|decisions| - 1])
  }

  lemma WorkIsPositive<V, E>(p: Problem<V, E>, offset: nat, k: nat)
    requires k > 0
    ensures Work(p, offset, k) >= 1
  {
  }

  /** Skipped candidates cost nothing. */
  lemma {:induction false} WorkSkips<V, E>(p: Problem<V, E>, candidates: seq<Candidate<V>>, i: nat, j: nat, k: nat)
    requires k > 0 && i <= j <= |candidates|
    ensures WorkFrom(p, candidates, j, k) <= WorkFrom(p, candidates, i, k)
    decreases j - i
  {
    if i < j { WorkSkips(p, candidates, i + 1, j, k); }
  }

  /** An attempt that enters `candidates[next - 1]` is paid for by what the candidates from `i` on can cost. */
  lemma EnteringPays<V, E>(p: Problem<V, E>, candidates: seq<Candidate<V>>, i: nat, next: nat, k: nat)
    requires k > 0 && i < next <= |candidates|
    ensures 1 + Work(p, candidates[next - 1].next, k - 1) + WorkFrom(p, candidates, next, k) <= WorkFrom(p, candidates, i, k)
  {
    WorkSkips(p, candidates, i, next - 1, k);
  }

  lemma PendingOf<V, E>(p: Problem<V, E>, decisions: seq<Decision<V>>, d: Decision<V>)
    requires p.Stacked(decisions) && p.Stacked(decisions + [d]) && p.Open(d)
    ensures Pending(p, decisions + [d]) == WorkFrom(p, d.candidates, d.next, p.count - d.item) + Pending(p, decisions)
  {
    assert (decisions + [d])[..|decisions|] == decisions;
  }

  // ----- chains with few forks

  /** The offsets of a chain that parse in more than one way. */
  ghost function Forks<V, E>(p: Problem<V, E>, offset: nat, path: seq<nat>): nat
    requires p.Chain(offset, path)
    decreases |path|
  {
    if path == [] then 0
    else
      var candidates := p.parse(offset).value;
      (if |candidates| > 1 then 1 else 0) + Forks(p, candidates[path[0]].next, path[1..])
  }

  ghost predicate FewForks<V, E>(p: Problem<V, E>, offset: nat, k: nat, forks: nat) {
    forall path :: p.Chain(offset, path) && |path| <= k ==> Forks(p, offset, path) <= forks
  }

  ghost predicate AtMostFourWays<V, E>(p: Problem<V, E>) {
    forall offset :: p.parse(offset).Ok? ==> |p.parse(offset).value| <= 4
  }

  function FourTo(n: nat): nat
    ensures FourTo(n) >= 1
  {
    if n == 0 then 1 else 4 * FourTo(n - 1)
  }

  /** Behind a fork there is one fork less. */
  lemma ForksBehind<V, E>(p: Problem<V, E>, offset: nat, k: nat, forks: nat, i: nat)
    requires k > 0 && FewForks(p, offset, k, forks) && p.parse(offset).Ok? && i < |p.parse(offset).value|
    ensures |p.parse(offset).value| > 1 ==> forks > 0 && FewForks(p, p.parse(offset).value[i].next, k - 1, forks - 1)
    ensures FewForks(p, p.parse(offset).value[i].next, k - 1, forks)
  {
    var next := p.parse(offset).value[i].next;
    var one := [i];
    assert one[1..] == [] && p.Chain(offset, one);
    assert Forks(p, offset, one) <= forks;
    forall path | p.Chain(next, path) && |path| <= k - 1
      ensures Forks(p, next, path) + (if |p.parse(offset).value| > 1 then 1 else 0) <= forks
    {
      var longer := [i] + path;
      assert longer[1..] == path;
      assert p.Chain(offset, longer);
      assert Forks(p, offset, longer) <= forks;
    }
  }

  /** The attempts grow with the items, and by four for each fork that a chain can meet. */
  lemma {:induction false} WorkBound<V, E>(p: Problem<V, E>, offset: nat, k: nat, forks: nat)
    requires AtMostFourWays(p) && FewForks(p, offset, k, forks)
    ensures Work(p, offset, k) <= FourTo(forks) * k
    decreases k, 1, 0
  {
    hide FewForks;
    if k > 0 {
      var parsed := p.parse(offset);
      if parsed.Err? || parsed.value == [] {
        Grows(FourTo(forks), k);
      } else {
        ForksBehind(p, offset, k, forks, 0);
        if |parsed.value| == 1 {
          WorkBound(p, parsed.value[0].next, k - 1, forks);
          OneWay(p, parsed.value, k);
          OneMore(FourTo(forks), k);
        } else {
          forall i | 0 <= i < |parsed.value| ensures Work(p, parsed.value[i].next, k - 1) <= FourTo(forks - 1) * (k - 1) {
            ForksBehind(p, offset, k, forks, i);
            WorkBound(p, parsed.value[i].next, k - 1, forks - 1);
          }
          EachWay(p, parsed.value, 0, k, FourTo(forks - 1) * (k - 1));
          FourMore(FourTo(forks - 1), k, |parsed.value|);
        }
      }
    }
  }

  lemma {:induction false} EachWay<V, E>(p: Problem<V, E>, candidates: seq<Candidate<V>>, i: nat, k: nat, most: nat)
    requires k > 0 && i <= |candidates|
    requires forall j :: i <= j < |candidates| ==> Work(p, candidates[j].next, k - 1) <= most
    ensures WorkFrom(p, candidates, i, k) <= (|candidates| - i) * (1 + most)
    decreases |candidates| - i
  {
    hide Work;
    if i < |candidates| {
      EachWay(p, candidates, i + 1, k, most);
      assert (|candidates| - i) * (1 + most) == (1 + most) + (|candidates| - (i + 1)) * (1 + most);
    }
  }

  lemma OneWay<V, E>(p: Problem<V, E>, candidates: seq<Candidate<V>>, k: nat)
    requires k > 0 && |candidates| == 1
    ensures WorkFrom(p, candidates, 0, k) == 1 + Work(p, candidates[0].next, k - 1)
  {
    assert WorkFrom(p, candidates, 1, k) == 0;
  }

  lemma Grows(a: nat, k: nat)
    requires a >= 1 && k >= 1
    ensures 1 <= a * k
  {
  }

  lemma OneMore(a: nat, k: nat)
    requires a >= 1 && k >= 1
    ensures 1 + a * (k - 1) <= a * k
  {
    assert a * k == a * (k - 1) + a;
  }

  lemma FourMore(a: nat, k: nat, ways: nat)
    requires a >= 1 && k >= 1 && ways <= 4
    ensures ways * (1 + a * (k - 1)) <= 4 * a * k
  {
    assert a * k == a * (k - 1) + a;
    assert ways * (1 + a * (k - 1)) <= 4 * (1 + a * (k - 1));
  }

  /** The attempts for a few items, each of which parses in four ways. */
  function Bushy(k: nat): nat {
    if k == 0 then 0 else 4 * (1 + Bushy(k - 1))
  }

  lemma {:induction false} WorkIsBushy<V, E>(p: Problem<V, E>, offset: nat, k: nat)
    requires AtMostFourWays(p)
    ensures Work(p, offset, k) <= Bushy(k)
    decreases k
  {
    if k > 0 && p.parse(offset).Ok? && p.parse(offset).value != [] {
      var candidates := p.parse(offset).value;
      forall i | 0 <= i < |candidates| ensures Work(p, candidates[i].next, k - 1) <= Bushy(k - 1) {
        WorkIsBushy(p, candidates[i].next, k - 1);
      }
      EachWay(p, candidates, 0, k, Bushy(k - 1));
      assert |candidates| * (1 + Bushy(k - 1)) <= 4 * (1 + Bushy(k - 1));
    }
  }
}
