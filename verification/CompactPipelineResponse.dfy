/**
  Whole PIPELINE responses: a header, and items end to end. The decoder answers
  with the first way in which the body can have been written.
*/
module CompactPipelineResponse {
  import opened Bytes
  import opened NativeValue
  import opened CompactReaders
  import opened CompactPipelineItems
  import opened CompactPipelineWire
  import opened CompactWire
  import opened CompactPipeline
  import opened PipelineSearch
  import opened PipelineBacktrack
  import opened PipelineWork
  import opened Results

  // ----- bodies

  ghost predicate AllFit(items: seq<Item>) {
    forall i :: 0 <= i < |items| ==> Fits(items[i])
  }

  function WireAll(items: seq<Item>): bytes {
    if items == [] then [] else Wire(items[0]) + WireAll(items[1..])
  }

  ghost function CostAll(items: seq<Item>): nat
    requires AllFit(items)
  {
    if items == [] then 0 else Cost(items[0]) + CostAll(items[1..])
  }

  ghost function Answers(items: seq<Item>): seq<Value>
    requires AllFit(items)
  {
    seq(|items|, i requires 0 <= i < |items| => Answer(items[i]))
  }

  /** The body announces these items and holds nothing else, and their answers are within the item limit. */
  ghost predicate IsBody(data: bytes, items: seq<Item>) {
    && AllFit(items) && |items| + CostAll(items) <= MAX_ITEMS
    && data == [0x95] + PutU32(|items|) + WireAll(items)
  }

  predicate ClaimFree(items: seq<Item>) {
    forall i :: 0 <= i < |items| ==> !items[i].Claim?
  }

  /** The first claimed job that two readings take in different forms has the earlier form in the first of them. */
  ghost predicate Earlier(a: seq<Item>, b: seq<Item>) {
    && a != [] && b != []
    && (Rank(a[0]) < Rank(b[0]) || (Rank(a[0]) == Rank(b[0]) && Earlier(a[1..], b[1..])))
  }

  // ----- items along a chain of candidates

  ghost predicate Follows(data: bytes, offset: nat, path: seq<nat>, items: seq<Item>)
    decreases |path|
  {
    && |path| == |items|
    && (path != [] ==>
      && Matches(items[0], data, offset) && ItemCandidates(data, offset).Ok?
      && path[0] < |ItemCandidates(data, offset).value|
      && ItemCandidates(data, offset).value[path[0]] == CandidateOf(items[0], offset)
      && Follows(data, offset + |Wire(items[0])|, path[1..], items[1..]))
  }

  lemma {:induction false} ItemsOfPath(data: bytes, count: nat, offset: nat, path: seq<nat>) returns (items: seq<Item>)
    requires PipelineProblem(data, count).Chain(offset, path)
    ensures Follows(data, offset, path, items)
    decreases |path|
  {
    hide ItemCandidates, Matches, Wire;
    items := [];
    if path != [] {
      ProblemFields(data, count);
      var here := CandidatesAreItems(data, offset);
      var c := ItemCandidates(data, offset).value[path[0]];
      var item := here[path[0]];
      var rest := ItemsOfPath(data, count, c.next, path[1..]);
      items := [item] + rest;
      assert items[1..] == rest;
      MatchFits(item, data, offset);
      NextOf(item, offset);
    }
  }

  lemma MatchFits(item: Item, data: bytes, offset: nat)
    requires Matches(item, data, offset)
    ensures Fits(item) && offset + |Wire(item)| <= |data| && At(data, offset, Wire(item))
  {
    hide Fits, Wire;
  }

  lemma NextOf(item: Item, offset: nat)
    requires Fits(item)
    ensures CandidateOf(item, offset).next == offset + |Wire(item)|
    ensures CandidateOf(item, offset).cost == Cost(item) && CandidateOf(item, offset).value == Answer(item)
  {
    hide Fits, Wire, Cost, Answer;
  }

  lemma {:induction false} PathOfItems(data: bytes, offset: nat, items: seq<Item>) returns (path: seq<nat>)
    requires AllFit(items) && At(data, offset, WireAll(items))
    ensures Follows(data, offset, path, items)
    decreases |items|
  {
    hide ItemCandidates, Fits, At, Wire;
    path := [];
    if items != [] {
      AtJoin(data, offset, Wire(items[0]), WireAll(items[1..]));
      ItemIsCandidate(data, offset, items[0]);
      var candidates := ItemCandidates(data, offset).value;
      var i :| 0 <= i < |candidates| && candidates[i] == CandidateOf(items[0], offset);
      var rest := PathOfItems(data, offset + |Wire(items[0])|, items[1..]);
      path := [i] + rest;
      assert path[1..] == rest;
    }
  }

  /** What a chain reads is what its items say. */
  lemma {:induction false} FollowsMeans(data: bytes, count: nat, offset: nat, path: seq<nat>, items: seq<Item>)
    requires Follows(data, offset, path, items) && offset <= |data|
    ensures AllFit(items) && At(data, offset, WireAll(items))
    ensures var p := PipelineProblem(data, count);
      && p.Chain(offset, path) && p.EndOf(offset, path) == offset + |WireAll(items)|
      && p.CostOf(offset, path) == CostAll(items) && p.ValuesOf(offset, path) == Answers(items)
    decreases |path|
  {
    hide ItemCandidates, Fits, At, Wire, CandidateOf, Cost, Answer, Answers, AllFit;
    ProblemFields(data, count);
    if path == [] {
      NoItems(data, offset);
    } else {
      MatchFits(items[0], data, offset);
      NextOf(items[0], offset);
      FollowsMeans(data, count, offset + |Wire(items[0])|, path[1..], items[1..]);
      AtJoin(data, offset, Wire(items[0]), WireAll(items[1..]));
      AnswersStep(items);
    }
  }

  lemma NoItems(data: bytes, offset: nat)
    requires offset <= |data|
    ensures AllFit([]) && At(data, offset, WireAll([])) && Answers([]) == []
  {
  }

  lemma AnswersStep(items: seq<Item>)
    requires items != [] && Fits(items[0]) && AllFit(items[1..])
    ensures AllFit(items) && Answers(items) == [Answer(items[0])] + Answers(items[1..])
  {
    hide Fits, Answer;
    forall i | 0 <= i < |items| ensures Fits(items[i]) { if i > 0 { assert items[i] == items[1..][i - 1]; } }
  }

  // ----- bodies and parses

  lemma HeaderAt(data: bytes, n: nat, rest: bytes)
    requires n < U32_SPAN
    ensures data == [0x95] + PutU32(n) + rest
      <==> HasHeader(data) && Announced(data) == n && At(data, 5, rest) && |data| == 5 + |rest|
  {
    hide At, PutU32, GetU32;
    CountAt(data, 0, 0x95, n, rest);
    WholeAt(data, [0x95] + PutU32(n) + rest);
  }

  lemma WholeAt(data: bytes, whole: bytes)
    ensures data == whole <==> At(data, 0, whole) && |data| == |whole|
  {
    if |data| == |whole| { assert data[0..|data|] == data; }
  }

  lemma BodyOfParse(data: bytes, path: seq<nat>) returns (items: seq<Item>)
    requires IsResponse(data, path)
    ensures IsBody(data, items) && Follows(data, 5, path, items)
    ensures PipelineProblem(data, Announced(data)).ValuesOf(5, path) == Answers(items)
  {
    hide At, PutU32, GetU32, PipelineProblem, Follows, AllFit, WireAll, CostAll, Answers;
    var count := Announced(data);
    ProblemFields(data, count);
    ChainOf(data, path);
    items := ItemsOfPath(data, count, 5, path);
    FollowsMeans(data, count, 5, path, items);
    SameLength(data, 5, path, items);
    HeaderAt(data, |items|, WireAll(items));
  }

  lemma ChainOf(data: bytes, path: seq<nat>)
    requires IsResponse(data, path)
    ensures var p := PipelineProblem(data, Announced(data));
      && p.Chain(5, path) && |path| == Announced(data) && p.EndOf(5, path) == |data|
      && p.CostOf(5, path) <= MAX_ITEMS - Announced(data)
  {
    hide GetU32, ItemCandidates;
  }

  lemma SameLength(data: bytes, offset: nat, path: seq<nat>, items: seq<Item>)
    requires Follows(data, offset, path, items)
    ensures |path| == |items|
  {
  }

  lemma ParseOfBody(data: bytes, items: seq<Item>) returns (path: seq<nat>)
    requires IsBody(data, items)
    ensures IsResponse(data, path) && Follows(data, 5, path, items)
    ensures PipelineProblem(data, Announced(data)).ValuesOf(5, path) == Answers(items)
  {
    hide At, PutU32, GetU32, PipelineProblem, Follows, AllFit, WireAll, CostAll, Answers;
    HeaderAt(data, |items|, WireAll(items));
    path := PathOfItems(data, 5, items);
    SameLength(data, 5, path, items);
    FollowsMeans(data, |items|, 5, path, items);
    ProblemFields(data, |items|);
  }

  // ----- the order of the readings

  /** Two items that stand at the same place and answer alike are of the same form. */
  lemma AnswerTellsRank(data: bytes, offset: nat, x: Item, y: Item)
    requires Matches(x, data, offset) && Matches(y, data, offset) && Answer(x) == Answer(y)
    ensures Rank(x) == Rank(y)
  {
    hide At, Wire, Ascii, RecordOf, RecordsOf, BinariesOf, PairsOf, IsNative, NativeIn, NodesIn;
    SameKind(data, offset, x, y);
    if x.Claim? {
      ContentsAlike(x, y);
      ClaimTellsRank(x, y);
    }
  }

  lemma ContentsAlike(x: Item, y: Item)
    requires Fits(x) && Fits(y) && x.Claim? && y.Claim? && Answer(x) == Answer(y)
    ensures Content(x) == Content(y)
  {
    hide Fits, Content, Ascii;
    var a, b := Answer(x).items, Answer(y).items;
    assert a[1] == b[1];
  }

  lemma ClaimTellsRank(x: Item, y: Item)
    requires Fits(x) && Fits(y) && x.Claim? && y.Claim? && Content(x) == Content(y)
    ensures Rank(x) == Rank(y)
  {
    hide IsNative, NativeIn;
    var a, b := Content(x).items, Content(y).items;
    assert |a| == |b|;
    if |a| == 5 { assert a[4] == b[4]; }
  }

  lemma SameKind(data: bytes, offset: nat, x: Item, y: Item)
    requires Matches(x, data, offset) && Matches(y, data, offset)
    ensures x.Claim? <==> y.Claim?
  {
    hide Fits, At, Body;
    StatusAt(data, offset, x);
    StatusAt(data, offset, y);
  }

  lemma StatusAt(data: bytes, offset: nat, item: Item)
    requires At(data, offset, Wire(item))
    ensures item.Claim? <==> offset + 1 < |data| && data[offset] == 0 && data[offset + 1] == 4
  {
    hide At, Body, Sized;
    if item.Busy? || item.Failed? {
      if item.Busy? {
        AtJoin(data, offset, [1], Sized(item.reason));
        AtByte(data, offset, 1);
      } else {
        AtJoin(data, offset, [2], Sized(item.reason));
        AtByte(data, offset, 2);
      }
    } else {
      WireParts(data, offset, item);
    }
  }

  lemma IndexTellsRank(data: bytes, offset: nat, i: nat, j: nat, x: Item, y: Item)
    requires Matches(x, data, offset) && Matches(y, data, offset) && ItemCandidates(data, offset).Ok?
    requires i <= j < |ItemCandidates(data, offset).value|
    requires ItemCandidates(data, offset).value[i] == CandidateOf(x, offset)
    requires ItemCandidates(data, offset).value[j] == CandidateOf(y, offset)
    ensures if i == j then Rank(x) == Rank(y) else Rank(x) < Rank(y)
  {
    hide ItemCandidates, Fits, At, Wire, Answer, Cost, Rank;
    var here := CandidatesAreItems(data, offset);
    AnswerTellsRank(data, offset, x, here[i]);
    AnswerTellsRank(data, offset, y, here[j]);
  }

  lemma {:induction false} PrecedesIsEarlier(data: bytes, offset: nat, a: seq<nat>, x: seq<Item>, b: seq<nat>, y: seq<Item>)
    requires Follows(data, offset, a, x) && Follows(data, offset, b, y) && Precedes(a, b)
    ensures Earlier(x, y)
    decreases |a|
  {
    hide ItemCandidates, Matches, Fits, Wire, Rank;
    MatchFits(x[0], data, offset);
    MatchFits(y[0], data, offset);
    IndexTellsRank(data, offset, a[0], b[0], x[0], y[0]);
    if a[0] == b[0] {
      NextOf(x[0], offset);
      NextOf(y[0], offset);
      PrecedesIsEarlier(data, offset + |Wire(x[0])|, a[1..], x[1..], b[1..], y[1..]);
    }
  }

  // ----- bodies without claimed jobs

  lemma {:induction false} NoClaimsRead(data: bytes, count: nat, offset: nat, items: seq<Item>, path: seq<nat>)
    requires AllFit(items) && ClaimFree(items) && At(data, offset, WireAll(items))
    requires PipelineProblem(data, count).Chain(offset, path) && |path| <= |items|
    ensures Claims(data, count, offset, path) == 0
    decreases |path|
  {
    hide ItemCandidates, Fits, At, Wire;
    if path != [] {
      AtJoin(data, offset, Wire(items[0]), WireAll(items[1..]));
      ItemIsCandidate(data, offset, items[0]);
      StatusAt(data, offset, items[0]);
      NextOf(items[0], offset);
      NoClaimsRead(data, count, offset + |Wire(items[0])|, items[1..], path[1..]);
    }
  }

  // ----- the decoder

  /** `items` are one way in which the body can have been written, and no other way comes first. */
  ghost predicate IsFirstBody(data: bytes, items: seq<Item>) {
    && IsBody(data, items)
    && forall other :: IsBody(data, other) ==> Answers(other) == Answers(items) || Earlier(items, other)
  }

  lemma FirstBody(data: bytes, values: seq<Value>) returns (items: seq<Item>)
    requires IsFirstResponse(data, values)
    ensures IsFirstBody(data, items) && Answers(items) == values
  {
    hide GetU32, PutU32, PipelineProblem, Follows, AllFit, WireAll, CostAll, Answers, Earlier, Precedes,
      Problem.IsParse, Problem.ValuesOf, IsFirstResponse;
    var path := FirstIsResponse(data, values);
    items := BodyOfParse(data, path);
    forall other | IsBody(data, other) ensures Answers(other) == Answers(items) || Earlier(items, other) {
      var second := ParseOfBody(data, other);
      if second != path { PrecedesIsEarlier(data, 5, path, items, second, other); }
    }
  }

  lemma NoBody(data: bytes)
    requires forall path :: !IsResponse(data, path)
    ensures forall items :: !IsBody(data, items)
  {
    hide IsBody, IsResponse, Follows;
    forall items ensures !IsBody(data, items) {
      if IsBody(data, items) { var path := ParseOfBody(data, items); }
    }
  }

  lemma ClaimFreeHasNoClaims(data: bytes, items: seq<Item>, path: seq<nat>)
    requires IsBody(data, items) && ClaimFree(items) && IsChain(data, path)
    ensures Claims(data, Announced(data), 5, path) == 0
  {
    hide At, PutU32, GetU32, PipelineProblem, AllFit, WireAll, CostAll, Claims;
    HeaderAt(data, |items|, WireAll(items));
    NoClaimsRead(data, |items|, 5, items, path);
  }

  /** There is one way to read a body of items that are no claimed jobs. */
  lemma ClaimFreeIsOnly(data: bytes, items: seq<Item>, path: seq<nat>)
    requires IsBody(data, items) && ClaimFree(items) && IsResponse(data, path)
    ensures PipelineProblem(data, Announced(data)).ValuesOf(5, path) == Answers(items)
  {
    hide At, PutU32, GetU32, PipelineProblem, AllFit, WireAll, CostAll, Follows, Answers, IsResponse;
    var other := BodyOfParse(data, path);
    var own := ParseOfBody(data, items);
    SameCountOf(data, path, own);
    HeaderAt(data, |items|, WireAll(items));
    OnlyPath(data, 5, items, own, other, path);
  }

  lemma SameCountOf(data: bytes, a: seq<nat>, b: seq<nat>)
    requires IsResponse(data, a) && IsResponse(data, b)
    ensures |a| == |b|
  {
  }

  lemma {:induction false} OnlyPath(data: bytes, offset: nat, items: seq<Item>, own: seq<nat>, other: seq<Item>, path: seq<nat>)
    requires AllFit(items) && ClaimFree(items) && |own| == |path|
    requires Follows(data, offset, own, items) && Follows(data, offset, path, other)
    ensures AllFit(other) && Answers(other) == Answers(items)
    decreases |path|
  {
    hide ItemCandidates, Fits, At, Wire, CandidateOf, Answer, Answers;
    if path == [] {
      NoItems([], 0);
    } else {
      ItemIsCandidate(data, offset, items[0]);
      MatchFits(other[0], data, offset);
      NextOf(items[0], offset);
      NextOf(other[0], offset);
      OnlyPath(data, offset + |Wire(items[0])|, items[1..], own[1..], other[1..], path[1..]);
      AnswersStep(items);
      AnswersStep(other);
    }
  }

  /**
    The decoder's contract. A body that decodes yields its first parse, the answers
    of the first way in which it can have been written; a body that is rejected for
    any other reason than ambiguity cannot have been written at all; rejecting for
    ambiguity takes four items and a chain from the first item that reads two
    claimed jobs. A body without claimed jobs yields its answers in their order.
  */
  method DecodePipelineResponse(data: bytes) returns (r: Result<seq<Value>, PipelineError>, attempts: nat)
    ensures r.Ok? ==> IsFirstResponse(data, r.value)
    ensures r.Ok? ==> exists items :: IsFirstBody(data, items) && r.value == Answers(items)
    ensures r.Err? && r.error != Ambiguous ==> forall path :: !IsResponse(data, path)
    ensures r.Err? && r.error != Ambiguous ==> forall items :: !IsBody(data, items)
    ensures HasHeader(data) ==> attempts <= MaxAttempts(Announced(data))
    ensures r == Err(Ambiguous)
      ==> && HasHeader(data) && Announced(data) >= 4
          && exists path :: IsChain(data, path) && Claims(data, Announced(data), 5, path) >= 2
    ensures forall items :: IsBody(data, items) && ClaimFree(items) ==> r == Ok(Answers(items))
  {
    hide ItemCandidates, PipelineProblem, Problem.IsParse, Problem.IsFirstParse, Problem.ValuesOf, GetU32, Work, Claims, IsChain,
      AllFit, WireAll, IsFirstBody, Answers, ClaimFree, IsFirstResponse;
    r, attempts := DecodeBody(data);
    if r.Ok? {
      ghost var items := FirstBody(data, r.value);
    } else if r.error != Ambiguous {
      NoBody(data);
    }
    forall items | IsBody(data, items) && ClaimFree(items) ensures r == Ok(Answers(items)) {
      ClaimFreeDecides(data, items, r);
    }
  }

  lemma ClaimFreeDecides(data: bytes, items: seq<Item>, r: Result<seq<Value>, PipelineError>)
    requires IsBody(data, items) && ClaimFree(items)
    requires r.Ok? ==> IsFirstResponse(data, r.value)
    requires r.Err? && r.error != Ambiguous ==> forall path :: !IsResponse(data, path)
    requires r == Err(Ambiguous) ==> exists path :: IsChain(data, path) && Claims(data, Announced(data), 5, path) >= 2
    ensures r == Ok(Answers(items))
  {
    hide IsBody, ClaimFree, Answers, Claims, PipelineProblem, Problem.IsParse, Problem.ValuesOf, GetU32, IsResponse, Follows;
    var own := ParseOfBody(data, items);
    if r.Ok? {
      var path := FirstIsResponse(data, r.value);
      ClaimFreeIsOnly(data, items, path);
    } else if r.error == Ambiguous {
      var path :| IsChain(data, path) && Claims(data, Announced(data), 5, path) >= 2;
      ClaimFreeHasNoClaims(data, items, path);
    }
  }

  lemma FirstIsResponse(data: bytes, values: seq<Value>) returns (path: seq<nat>)
    requires IsFirstResponse(data, values)
    ensures IsResponse(data, path) && PipelineProblem(data, Announced(data)).ValuesOf(5, path) == values
    ensures PipelineProblem(data, Announced(data)).IsFirstParse(Start(Announced(data)), path)
  {
    hide GetU32, PipelineProblem, Problem.ValuesOf;
    var p, start := PipelineProblem(data, Announced(data)), Start(Announced(data));
    path :| p.IsFirstParse(start, path) && p.ValuesOf(start.offset, path) == values;
  }
}
