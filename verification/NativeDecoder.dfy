/**
  The native decoder: recursion over the unread bytes with one item budget that
  every nested value decrements in place.
*/
module NativeDecoder {
  import opened Bytes
  import opened NativeValue
  import opened Results
  import NativeSpelling

  class DecodeBudget {
    const maxDepth: nat
    var remaining: int

    constructor (maxDepth: nat, remaining: nat)
      ensures this.maxDepth == maxDepth && this.remaining == remaining
    {
      this.maxDepth := maxDepth;
      this.remaining := remaining;
    }
  }

  datatype Unread<+T> = Unread(value: T, rest: bytes)

  /** A method's outcome and the budget it left agree with the decoding function. */
  ghost predicate Agrees<T>(r: Result<Unread<T>, DecodeError>, remaining: int, spec: Result<Decoded<T>, DecodeError>) {
    match spec
    case Ok(d) => r == Ok(Unread(d.value, d.rest)) && remaining == d.remaining
    case Err(e) => r == Err(e)
  }

  method DecodeValue(data: bytes, budget: DecodeBudget, depth: nat) returns (r: Result<Unread<Value>, DecodeError>)
    requires budget.remaining >= 0
    modifies budget
    ensures Agrees(r, budget.remaining, Decode(data, budget.maxDepth, old(budget.remaining), depth))
    decreases |data|, 1
  {
    hide GetU32, GetU64, DecodeItems, DecodeEntries;
    if data == [] {
      return Err(Empty);
    }
    if depth > budget.maxDepth {
      return Err(TooDeep);
    }
    budget.remaining := budget.remaining - 1;
    if budget.remaining < 0 {
      return Err(TooManyItems);
    }
    var rest := data[1..];
    match data[0] as int
    case 0 => return Ok(Unread(Nil, rest));
    case 1 => return Ok(Unread(Bool(true), rest));
    case 2 => return Ok(Unread(Bool(false), rest));
    case 3 =>
      if |rest| < 8 { return Err(Truncated); }
      return Ok(Unread(Int(ToInt64(GetU64(rest))), rest[8..]));
    case 4 =>
      if |rest| < 4 { return Err(Truncated); }
      var size := GetU32(rest);
      if |rest| - 4 < size { return Err(Truncated); }
      return Ok(Unread(Binary(rest[4..4 + size]), rest[4 + size..]));
    case 5 =>
      if |rest| < 4 { return Err(Truncated); }
      var count := GetU32(rest);
      if !CountInBounds(count, |rest| - 4, 1) { return Err(CountOutOfBounds); }
      if count > budget.remaining { return Err(TooManyItems); }
      var items := DecodeArray(rest[4..], count, budget, depth + 1);
      if items.Err? { return Err(items.error); }
      return Ok(Unread(List(items.value.value), items.value.rest));
    case 6 =>
      if |rest| < 4 { return Err(Truncated); }
      var count := GetU32(rest);
      if !CountInBounds(count, |rest| - 4, 5) { return Err(CountOutOfBounds); }
      if count > budget.remaining { return Err(TooManyItems); }
      var entries := DecodeMap(rest[4..], count, budget, depth + 1);
      if entries.Err? { return Err(entries.error); }
      return Ok(Unread(Map(entries.value.value), entries.value.rest));
    case 7 =>
      if |rest| < 8 { return Err(Truncated); }
      return Ok(Unread(Float(GetU64(rest)), rest[8..]));
    case 8 =>
      if |rest| < 8 { return Err(Truncated); }
      return Ok(Unread(UInt(GetU64(rest)), rest[8..]));
    case _ => return Err(UnknownTag(data[0]));
  }

  ghost function Prefixed(items: seq<Value>, r: Result<Decoded<seq<Value>>, DecodeError>): Result<Decoded<seq<Value>>, DecodeError> {
    match r
    case Ok(d) => Ok(Decoded(items + d.value, d.rest, d.remaining))
    case Err(e) => Err(e)
  }

  lemma ItemsStep(items: seq<Value>, data: bytes, count: nat, maxDepth: nat, remaining: nat, depth: nat)
    requires count > 0
    ensures Prefixed(items, DecodeItems(data, count, maxDepth, remaining, depth))
      == match Decode(data, maxDepth, remaining, depth)
         case Ok(d) => Prefixed(items + [d.value], DecodeItems(d.rest, count - 1, maxDepth, d.remaining, depth))
         case Err(e) => Err(e)
  {
    hide Decode;
    var head := Decode(data, maxDepth, remaining, depth);
    if head.Ok? {
      var tail := DecodeItems(head.value.rest, count - 1, maxDepth, head.value.remaining, depth);
      if tail.Ok? {
        assert items + ([head.value.value] + tail.value.value) == items + [head.value.value] + tail.value.value;
      }
    }
  }

  method DecodeArray(data: bytes, count: nat, budget: DecodeBudget, depth: nat)
    returns (r: Result<Unread<seq<Value>>, DecodeError>)
    requires budget.remaining >= 0
    modifies budget
    ensures Agrees(r, budget.remaining, DecodeItems(data, count, budget.maxDepth, old(budget.remaining), depth))
    decreases |data|, 2
  {
    hide Decode, DecodeItems;
    ghost var spec := DecodeItems(data, count, budget.maxDepth, budget.remaining, depth);
    var items := new Value[count];
    var rest := data;
    assert items[..0] == [];
    PrefixedByNothing(spec);
    for i := 0 to count
      invariant budget.remaining >= 0 && |rest| <= |data|
      invariant Prefixed(items[..i], DecodeItems(rest, count - i, budget.maxDepth, budget.remaining, depth)) == spec
    {
      ItemsStep(items[..i], rest, count - i, budget.maxDepth, budget.remaining, depth);
      var next := DecodeValue(rest, budget, depth);
      if next.Err? { return Err(next.error); }
      ghost var before := items[..i];
      items[i] := next.value.value;
      assert items[..i + 1] == before + [next.value.value];
      rest := next.value.rest;
    }
    assert items[..count] == items[..];
    EndOfItems(items[..], rest, budget.maxDepth, budget.remaining, depth);
    return Ok(Unread(items[..], rest));
  }

  lemma EndOfItems(items: seq<Value>, rest: bytes, maxDepth: nat, remaining: nat, depth: nat)
    ensures Prefixed(items, DecodeItems(rest, 0, maxDepth, remaining, depth)) == Ok(Decoded(items, rest, remaining))
  {
    assert items + [] == items;
  }

  lemma PrefixedByNothing(r: Result<Decoded<seq<Value>>, DecodeError>)
    ensures Prefixed([], r) == r
  {
    if r.Ok? { assert [] + r.value.value == r.value.value; }
  }

  method DecodeMap(data: bytes, count: nat, budget: DecodeBudget, depth: nat)
    returns (r: Result<Unread<map<bytes, Value>>, DecodeError>)
    requires budget.remaining >= 0
    modifies budget
    ensures Agrees(r, budget.remaining, DecodeEntries(data, count, map[], budget.maxDepth, old(budget.remaining), depth))
    decreases |data|, 2
  {
    hide Decode, GetU32;
    ghost var spec := DecodeEntries(data, count, map[], budget.maxDepth, budget.remaining, depth);
    var mapping: map<bytes, Value> := map[];
    var rest := data;
    for i := 0 to count
      invariant budget.remaining >= 0 && |rest| <= |data|
      invariant DecodeEntries(rest, count - i, mapping, budget.maxDepth, budget.remaining, depth) == spec
    {
      if |rest| < 4 { return Err(Truncated); }
      var keySize := GetU32(rest);
      if |rest| - 4 < keySize { return Err(Truncated); }
      var key := rest[4..4 + keySize];
      if key in mapping { return Err(DuplicateKey); }
      var next := DecodeValue(rest[4 + keySize..], budget, depth);
      if next.Err? { return Err(next.error); }
      mapping := mapping[key := next.value.value];
      rest := next.value.rest;
    }
    return Ok(Unread(mapping, rest));
  }

  /** Decoding from a fresh budget, as the response decoder calls it. */
  method DecodeNativeValue(data: bytes) returns (r: Result<Unread<Value>, DecodeError>)
    ensures r == match Decode(data, MAX_DEPTH, MAX_ITEMS, 0)
                 case Ok(d) => Ok(Unread(d.value, d.rest))
                 case Err(e) => Err(e)
    ensures r.Ok? ==> |r.value.rest| <= |data| && data[|data| - |r.value.rest|..] == r.value.rest
    ensures r.Ok? ==> NativeSpelling.Spells(data[..|data| - |r.value.rest|], r.value.value)
  {
    hide Decode, NativeSpelling.Spells;
    var budget := new DecodeBudget(MAX_DEPTH, MAX_ITEMS);
    r := DecodeValue(data, budget, 0);
    if r.Ok? { NativeSpelling.DecodedIsSpelled(data, MAX_DEPTH, MAX_ITEMS, 0); }
  }
}
