/**
  The hand-specialised MGET and MSET payload writers against the generic map
  writer, and what every specialised writer shares.

  Each writer below stands after `Enter` has admitted the payload itself at
  `depth`, as in the value switch that calls it; hence the `+ 1` on the budget.
*/
module NativePayloads {
  import opened Bytes
  import opened ByteOrder
  import opened NativeValue
  import opened NativeEncoder
  import opened Results
  import NativeRoundTrip

  // ----- maps written in a fixed key order

  /** The generic map's limits and bytes do not depend on which writer enumerates the keys. */
  lemma WrittenInOrder(v: Value, keys: seq<bytes>, depth: nat, remaining: int, room: int)
    requires v.Map? && depth <= MAX_DEPTH && remaining < U32_SPAN
    requires Ascending(keys) && forall k :: k in keys <==> k in v.entries
    ensures Encode(v) == Header(6, |keys|) + EncodeEntries(v, keys)
    ensures Nodes(v) == 1 + NodesOfEntries(v, keys)
    ensures Accepts(v, depth, remaining + 1, room)
      <==> |keys| <= remaining && 5 <= room && AcceptsEntries(v, keys, depth + 1, remaining, room - 5)
  {
    hide Accepts, AcceptsEntries, EncodeEntries, NodesOfEntries, Header;
    AscendingIsUnique(keys, SortedKeys(v.entries.Keys));
    AcceptsMap(v, depth, remaining, room);
  }

  function Single(name: bytes, value: Value): Value {
    Map(map[name := value])
  }

  lemma SingleEntry(name: bytes, value: Value, depth: nat, remaining: int, room: int)
    ensures var v := Single(name, value);
      && EncodeEntries(v, [name]) == EncodeKey(name) + Encode(value)
      && NodesOfEntries(v, [name]) == Nodes(value)
      && (AcceptsEntries(v, [name], depth, remaining, room)
          <==> |name| < U32_SPAN && 4 + |name| <= room && Accepts(value, depth, remaining, room - 4 - |name|))
  {
    hide Encode, Nodes, Admissible;
    var v := Single(name, value);
    assert [name][1..] == [];
    assert EncodeEntries(v, []) == [] && NodesOfEntries(v, []) == 0;
    assert [name][0] == name;
  }

  lemma AcceptsList(items: seq<Value>, depth: nat, remaining: int, room: int)
    requires remaining <= U32_SPAN
    ensures Encode(List(items)) == Header(5, |items|) + EncodeItems(items)
    ensures Nodes(List(items)) == 1 + NodesOfItems(items)
    ensures Accepts(List(items), depth, remaining, room)
      <==> (&& depth <= MAX_DEPTH && 1 + |items| <= remaining && 5 <= room
            && AcceptsItems(items, depth + 1, remaining - 1, room - 5))
  {
    hide EncodeItems, NodesOfItems;
    NativeRoundTrip.EncodedItemsSize(items);
  }

  // ----- lists written in place

  /** The list field shared by MGET and the key commands. */
  method WriteListField(buf: EncodeBuffer, items: seq<Value>, state: EncodeState, depth: nat) returns (err: Option<EncodeError>)
    requires buf.Valid() && 0 <= state.remaining < U32_SPAN
    modifies buf, state
    ensures buf.Valid()
    ensures err.None? <==> Accepts(List(items), depth, old(state.remaining), old(buf.Room()))
    ensures err.None? ==> buf.data == old(buf.data) + Encode(List(items))
    ensures err.None? ==> state.remaining == old(state.remaining) - Nodes(List(items))
  {
    hide Encode, Nodes, Accepts, AcceptsItems, Header;
    AcceptsList(items, depth, state.remaining, buf.Room());
    err := state.Enter(depth);
    if err.Some? { return; }
    if |items| > state.remaining {
      return Some(EncodeError.TooManyItems);
    }
    err := buf.WriteHeader(5, |items|);
    if err.Some? { return; }
    err := WriteItems(buf, items, state, depth + 1);
    assert old(buf.data) + Header(5, |items|) + EncodeItems(items) == old(buf.data) + (Header(5, |items|) + EncodeItems(items));
  }

  function PairItems(keys: seq<Value>, values: seq<Value>): seq<Value>
    requires |keys| == |values|
  {
    seq(|keys|, i requires 0 <= i < |keys| => List([keys[i], values[i]]))
  }

  lemma AcceptsPair(key: Value, value: Value, depth: nat, remaining: int, room: int)
    requires remaining <= U32_SPAN
    ensures EncodeItems([key, value]) == Encode(key) + Encode(value)
    ensures NodesOfItems([key, value]) == Nodes(key) + Nodes(value)
    ensures AcceptsItems([key, value], depth, remaining, room)
      <==> (&& Accepts(key, depth, remaining, room)
            && Accepts(value, depth, remaining - Nodes(key), room - |Encode(key)|))
    ensures Accepts(key, depth, remaining, room) ==> Nodes(key) <= remaining
  {
    hide Encode, Nodes, Admissible;
    assert [key, value][1..] == [value] && [value][1..] == [];
    assert EncodeItems([]) == [] && NodesOfItems([]) == 0;
    assert EncodeItems([value]) == Encode(value) && NodesOfItems([value]) == Nodes(value);
  }

  /** One MSET pair: its own entry in the budget, then key and value one level deeper. */
  method WritePair(buf: EncodeBuffer, key: Value, value: Value, state: EncodeState, depth: nat) returns (err: Option<EncodeError>)
    requires buf.Valid() && 0 <= state.remaining < U32_SPAN
    modifies buf, state
    ensures buf.Valid()
    ensures err.None? <==> Accepts(List([key, value]), depth, old(state.remaining), old(buf.Room()))
    ensures err.None? ==> buf.data == old(buf.data) + Encode(List([key, value]))
    ensures err.None? ==> state.remaining == old(state.remaining) - Nodes(List([key, value]))
  {
    hide Encode, Nodes, Accepts, AcceptsItems, Header, EncodeItems, NodesOfItems;
    AcceptsList([key, value], depth, state.remaining, buf.Room());
    AcceptsPair(key, value, depth + 1, state.remaining - 1, buf.Room() - 5);
    err := state.Enter(depth);
    if err.Some? { return; }
    if 2 > state.remaining {
      return Some(EncodeError.TooManyItems);
    }
    err := buf.WriteHeader(5, 2);
    if err.Some? { return; }
    err := WriteValue(buf, key, state, depth + 1);
    if err.Some? { return; }
    err := WriteValue(buf, value, state, depth + 1);
    assert old(buf.data) + Header(5, 2) + Encode(key) + Encode(value)
      == old(buf.data) + (Header(5, 2) + (Encode(key) + Encode(value)));
  }

  /** The pairs of MSET. */
  method WritePairs(buf: EncodeBuffer, keys: seq<Value>, values: seq<Value>, state: EncodeState, depth: nat)
    returns (err: Option<EncodeError>)
    requires |keys| == |values|
    requires buf.Valid() && 0 <= state.remaining < U32_SPAN
    modifies buf, state
    ensures buf.Valid()
    ensures err.None? <==> AcceptsItems(PairItems(keys, values), depth, old(state.remaining), old(buf.Room()))
    ensures err.None? ==> buf.data == old(buf.data) + EncodeItems(PairItems(keys, values))
    ensures err.None? ==> state.remaining == old(state.remaining) - NodesOfItems(PairItems(keys, values))
  {
    hide Accepts, AcceptsItems, Encode, Nodes;
    ghost var was, budget, room := buf.data, state.remaining, buf.Room();
    ghost var items := PairItems(keys, values);
    AcceptsNoItems(depth);
    for i := 0 to |keys|
      invariant buf.Valid() && 0 <= state.remaining < U32_SPAN
      invariant buf.data + EncodeItems(items[i..]) == was + EncodeItems(items)
      invariant state.remaining - NodesOfItems(items[i..]) == budget - NodesOfItems(items)
      invariant AcceptsItems(items, depth, budget, room)
        <==> AcceptsItems(items[i..], depth, state.remaining, buf.Room())
    {
      AcceptsItemsStep(items[i..], depth, state.remaining, buf.Room());
      assert items[i..][0] == List([keys[i], values[i]]) && items[i..][1..] == items[i + 1..];
      err := WritePair(buf, keys[i], values[i], state, depth);
      if err.Some? { return; }
    }
    return None;
  }

  // ----- MGET and MSET

  /** MGET: the one-field map `keys`, identical in bytes, budget and limits to the generic writer's. */
  method WriteMGet(buf: EncodeBuffer, keys: seq<Value>, state: EncodeState, depth: nat) returns (err: Option<EncodeError>)
    requires buf.Valid() && 0 <= state.remaining < U32_SPAN && depth <= MAX_DEPTH
    modifies buf, state
    ensures buf.Valid()
    ensures var v := Single(Ascii("keys"), List(keys));
      && (err.None? <==> Accepts(v, depth, old(state.remaining) + 1, old(buf.Room())))
      && (err.None? ==> buf.data == old(buf.data) + Encode(v))
      && (err.None? ==> state.remaining == old(state.remaining) + 1 - Nodes(v))
  {
    hide Encode, Nodes, Accepts, AcceptsEntries, EncodeEntries, NodesOfEntries, Header;
    var name := Ascii("keys");
    ghost var v := Single(name, List(keys));
    WrittenInOrder(v, [name], depth, state.remaining, buf.Room());
    SingleEntry(name, List(keys), depth + 1, state.remaining, buf.Room() - 5);
    if 1 > state.remaining {
      return Some(EncodeError.TooManyItems);
    }
    err := buf.WriteHeader(6, 1);
    if err.Some? { return; }
    err := buf.WriteMapKey(name);
    if err.Some? { return; }
    err := WriteListField(buf, keys, state, depth + 1);
    assert old(buf.data) + Header(6, 1) + EncodeKey(name) + Encode(List(keys))
      == old(buf.data) + (Header(6, 1) + (EncodeKey(name) + Encode(List(keys))));
  }

  /** MSET arguments: typed keys and values, or one flat argument list. */
  datatype MSetPayload = Typed(keys: seq<bytes>, values: seq<Value>) | Untyped(args: seq<Value>) {
    predicate WellFormed() {
      match this
      case Typed(keys, values) => |keys| == |values|
      case Untyped(args) => |args| % 2 == 0
    }

    function Count(): nat {
      if Typed? then |keys| else |args| / 2
    }

    function Keys(): seq<Value>
      requires WellFormed()
    {
      if Typed? then seq(|keys|, i requires 0 <= i < |keys| => Text(keys[i]))
      else seq(|args| / 2, i requires 0 <= i < |args| / 2 => args[2 * i])
    }

    function Values(): seq<Value>
      requires WellFormed()
    {
      if Typed? then values
      else seq(|args| / 2, i requires 0 <= i < |args| / 2 => args[2 * i + 1])
    }

    /** The generic map that the payload stands for. */
    function Generic(): Value
      requires WellFormed()
    {
      Single(Ascii("pairs"), List(PairItems(Keys(), Values())))
    }
  }

  method WriteMSet(buf: EncodeBuffer, payload: MSetPayload, state: EncodeState, depth: nat) returns (err: Option<EncodeError>)
    requires buf.Valid() && 0 <= state.remaining < U32_SPAN && depth <= MAX_DEPTH
    modifies buf, state
    ensures buf.Valid()
    ensures err.None?
      <==> payload.WellFormed() && Accepts(payload.Generic(), depth, old(state.remaining) + 1, old(buf.Room()))
    ensures err.None? ==> buf.data == old(buf.data) + Encode(payload.Generic())
    ensures err.None? ==> state.remaining == old(state.remaining) + 1 - Nodes(payload.Generic())
  {
    hide Encode, Nodes, Accepts, AcceptsItems, AcceptsEntries, EncodeEntries, NodesOfEntries, Header, EncodeItems, NodesOfItems;
    var name := Ascii("pairs");
    if payload.WellFormed() {
      ghost var list := List(PairItems(payload.Keys(), payload.Values()));
      WrittenInOrder(payload.Generic(), [name], depth, state.remaining, buf.Room());
      SingleEntry(name, list, depth + 1, state.remaining, buf.Room() - 5);
      AcceptsList(list.items, depth + 1, state.remaining, buf.Room() - 9 - |name|);
    }
    if 1 > state.remaining {
      return Some(EncodeError.TooManyItems);
    }
    err := buf.WriteHeader(6, 1);
    if err.Some? { return; }
    err := buf.WriteMapKey(name);
    if err.Some? { return; }
    if !payload.WellFormed() {
      return Some(Mismatched);
    }
    var count := payload.Count();
    err := state.Enter(depth + 1);
    if err.Some? { return; }
    if count > state.remaining {
      return Some(EncodeError.TooManyItems);
    }
    err := buf.WriteHeader(5, count);
    if err.Some? { return; }
    err := WritePairs(buf, payload.Keys(), payload.Values(), state, depth + 2);
    ghost var items := EncodeItems(PairItems(payload.Keys(), payload.Values()));
    assert old(buf.data) + Header(6, 1) + EncodeKey(name) + Header(5, count) + items
      == old(buf.data) + (Header(6, 1) + (EncodeKey(name) + (Header(5, count) + items)));
  }
}
