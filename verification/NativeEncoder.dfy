/**
  The native encoder: a size-limited buffer, an item budget shared by the whole
  request, and the recursive writer.

  The contract of every writer is an equivalence. A value is written exactly
  when its depth and lengths are admissible, its node count fits the budget and
  its wire form fits the buffer; the container checks made on the way reject
  nothing more. When it is written, the buffer has grown by `Encode(v)`.
*/
module NativeEncoder {
  import opened Bytes
  import opened ByteOrder
  import opened NativeValue
  import opened Results
  import opened NativeSpelling
  import NativeRoundTrip

  datatype EncodeError =
    | LimitExceeded
    | TooDeep
    | TooManyItems
    | TooLarge
    | Mismatched
    | LimitNotPositive

  class EncodeBuffer {
    const limit: int
    var data: bytes

    ghost predicate Valid()
      reads this
    {
      |data| <= limit
    }

    function Room(): int
      reads this
    {
      limit - |data|
    }

    constructor (limit: nat)
      ensures Valid() && this.limit == limit && data == []
    {
      this.limit := limit;
      data := [];
    }

    method Write(value: bytes) returns (err: Option<EncodeError>)
      requires Valid()
      modifies this
      ensures Valid()
      ensures err.None? <==> |value| <= old(Room())
      ensures data == if err.None? then old(data) + value else old(data)
    {
      if |value| > limit - |data| {
        return Some(LimitExceeded);
      }
      data := data + value;
      return None;
    }

    method WriteHeader(tag: byte, count: nat) returns (err: Option<EncodeError>)
      requires Valid()
      modifies this
      ensures Valid()
      ensures err.None? <==> 5 <= old(Room())
      ensures err.None? ==> data == old(data) + Header(tag, count)
    {
      err := Write([tag]);
      if err.None? {
        err := Write(PutU32(count));
        assert old(data) + [tag] + PutU32(count) == old(data) + Header(tag, count);
      }
    }

    method WriteTagged(tag: byte, payload: bytes) returns (err: Option<EncodeError>)
      requires Valid()
      modifies this
      ensures Valid()
      ensures err.None? <==> 1 + |payload| <= old(Room())
      ensures err.None? ==> data == old(data) + ([tag] + payload)
    {
      err := Write([tag]);
      if err.None? {
        err := Write(payload);
        assert old(data) + [tag] + payload == old(data) + ([tag] + payload);
      }
    }

    method WriteBinary(value: bytes) returns (err: Option<EncodeError>)
      requires Valid()
      modifies this
      ensures Valid()
      ensures err.None? <==> |value| < U32_SPAN && 5 + |value| <= old(Room())
      ensures err.None? ==> data == old(data) + (Header(4, |value|) + value)
    {
      if |value| >= U32_SPAN {
        return Some(TooLarge);
      }
      err := WriteHeader(4, |value|);
      if err.None? {
        err := Write(value);
        assert old(data) + Header(4, |value|) + value == old(data) + (Header(4, |value|) + value);
      }
    }

    method WriteMapKey(key: bytes) returns (err: Option<EncodeError>)
      requires Valid()
      modifies this
      ensures Valid()
      ensures err.None? <==> |key| < U32_SPAN && 4 + |key| <= old(Room())
      ensures err.None? ==> data == old(data) + EncodeKey(key)
    {
      if |key| >= U32_SPAN {
        return Some(TooLarge);
      }
      err := Write(PutU32(|key|));
      if err.None? {
        err := Write(key);
        assert old(data) + PutU32(|key|) + key == old(data) + EncodeKey(key);
      }
    }
  }

  class EncodeState {
    var remaining: int

    constructor (remaining: nat)
      ensures this.remaining == remaining
    {
      this.remaining := remaining;
    }

    method Enter(depth: nat) returns (err: Option<EncodeError>)
      requires remaining >= 0
      modifies this
      ensures err.None? <==> depth <= MAX_DEPTH && old(remaining) > 0
      ensures err.None? ==> remaining == old(remaining) - 1
    {
      if depth > MAX_DEPTH {
        return Some(EncodeError.TooDeep);
      }
      remaining := remaining - 1;
      if remaining < 0 {
        return Some(EncodeError.TooManyItems);
      }
      return None;
    }
  }

  /** The limits under which a value is written at `depth` with this budget and room. */
  predicate Accepts(v: Value, depth: nat, remaining: int, room: int) {
    Admissible(v, depth) && Nodes(v) <= remaining && |Encode(v)| <= room
  }

  predicate AcceptsItems(items: seq<Value>, depth: nat, remaining: int, room: int) {
    && (forall i :: 0 <= i < |items| ==> Admissible(items[i], depth))
    && NodesOfItems(items) <= remaining
    && |EncodeItems(items)| <= room
  }

  ghost predicate AcceptsEntries(v: Value, keys: seq<bytes>, depth: nat, remaining: int, room: int)
    requires v.Map? && forall k :: k in keys ==> k in v.entries
  {
    && (forall i :: 0 <= i < |keys| ==> |keys[i]| < U32_SPAN && Admissible(v.entries[keys[i]], depth))
    && NodesOfEntries(v, keys) <= remaining
    && |EncodeEntries(v, keys)| <= room
  }

  method WriteValue(buf: EncodeBuffer, v: Value, state: EncodeState, depth: nat) returns (err: Option<EncodeError>)
    requires buf.Valid() && state.remaining >= 0
    modifies buf, state
    ensures buf.Valid()
    ensures err.None? <==> Accepts(v, depth, old(state.remaining), old(buf.Room()))
    ensures err.None? ==> buf.data == old(buf.data) + Encode(v)
    ensures err.None? ==> state.remaining == old(state.remaining) - Nodes(v)
    decreases v, 1, 0
  {
    NativeRoundTrip.EncodedSize(v);
    err := state.Enter(depth);
    if err.Some? { return; }
    match v
    case List(items) => err := WriteArray(buf, v, state, depth);
    case Map(_) => err := WriteMap(buf, v, state, depth);
    case _ => err := WriteScalar(buf, v);
  }

  method WriteScalar(buf: EncodeBuffer, v: Value) returns (err: Option<EncodeError>)
    requires buf.Valid() && !v.List? && !v.Map?
    modifies buf
    ensures buf.Valid()
    ensures err.None? <==> Admissible(v, 0) && |Encode(v)| <= old(buf.Room())
    ensures err.None? ==> buf.data == old(buf.data) + Encode(v)
  {
    match v
    case Nil => err := buf.Write([0]);
    case Bool(b) => err := buf.Write(if b then [1] else [2]);
    case Int(i) => err := buf.WriteTagged(3, PutU64(ToU64(i)));
    case UInt(u) => err := buf.WriteTagged(if u < INT64_SPAN then 3 else 8, PutU64(u));
    case Float(bits) => err := buf.WriteTagged(7, PutU64(bits));
    case Text(text) => err := buf.WriteBinary(text);
    case Binary(data) => err := buf.WriteBinary(data);
    case NilBinary =>
      err := buf.WriteBinary([]);
      assert Header(4, 0) + [] == Header(4, 0);
  }

  method WriteArray(buf: EncodeBuffer, v: Value, state: EncodeState, depth: nat) returns (err: Option<EncodeError>)
    requires v.List? && buf.Valid() && state.remaining >= 0 && depth <= MAX_DEPTH
    modifies buf, state
    ensures buf.Valid()
    ensures err.None? <==> Accepts(v, depth, old(state.remaining) + 1, old(buf.Room()))
    ensures err.None? ==> buf.data == old(buf.data) + Encode(v)
    ensures err.None? ==> state.remaining == old(state.remaining) + 1 - Nodes(v)
    decreases v, 0, 0
  {
    hide Accepts, AcceptsItems, EncodeItems, NodesOfItems, Encode, Nodes, Header;
    ListInParts(v);
    AcceptsArray(v, depth, state.remaining, buf.Room());
    if |v.items| >= U32_SPAN {
      return Some(TooLarge);
    }
    if |v.items| > state.remaining {
      return Some(EncodeError.TooManyItems);
    }
    err := buf.WriteHeader(5, |v.items|);
    if err.None? {
      err := WriteItems(buf, v.items, state, depth + 1);
    }
  }

  lemma ListInParts(v: Value)
    requires v.List?
    ensures Encode(v) == Header(5, |v.items|) + EncodeItems(v.items) && Nodes(v) == 1 + NodesOfItems(v.items)
  {
    hide Header, EncodeItems, NodesOfItems;
  }

  lemma AcceptsArray(v: Value, depth: nat, remaining: int, room: int)
    requires v.List? && depth <= MAX_DEPTH
    ensures Accepts(v, depth, remaining + 1, room)
      <==> (&& |v.items| < U32_SPAN && |v.items| <= remaining && 5 <= room
            && AcceptsItems(v.items, depth + 1, remaining, room - 5))
  {
    hide Header, EncodeItems, NodesOfItems;
    NativeRoundTrip.EncodedItemsSize(v.items);
    AdmissibleItems(v, depth);
  }

  lemma AdmissibleItems(v: Value, depth: nat)
    requires v.List? && depth <= MAX_DEPTH
    ensures Admissible(v, depth)
      <==> |v.items| < U32_SPAN && forall i :: 0 <= i < |v.items| ==> Admissible(v.items[i], depth + 1)
  {
  }

  lemma AcceptsItemsStep(items: seq<Value>, depth: nat, remaining: int, room: int)
    requires items != []
    ensures AcceptsItems(items, depth, remaining, room)
      <==> (&& Accepts(items[0], depth, remaining, room)
            && AcceptsItems(items[1..], depth, remaining - Nodes(items[0]), room - |Encode(items[0])|))
    ensures Accepts(items[0], depth, remaining, room) ==> Nodes(items[0]) <= remaining
  {
    hide Admissible, Nodes, Encode;
    assert items == [items[0]] + items[1..];
  }

  lemma AcceptsNoItems(depth: nat)
    ensures forall remaining: nat, room: nat :: AcceptsItems([], depth, remaining, room)
  {
  }

  method WriteItems(buf: EncodeBuffer, items: seq<Value>, state: EncodeState, depth: nat) returns (err: Option<EncodeError>)
    requires buf.Valid() && state.remaining >= 0
    modifies buf, state
    ensures buf.Valid()
    ensures err.None? <==> AcceptsItems(items, depth, old(state.remaining), old(buf.Room()))
    ensures err.None? ==> buf.data == old(buf.data) + EncodeItems(items)
    ensures err.None? ==> state.remaining == old(state.remaining) - NodesOfItems(items)
    decreases items
  {
    hide Accepts, AcceptsItems, Encode, Nodes;
    ghost var was, budget, room := buf.data, state.remaining, buf.Room();
    AcceptsNoItems(depth);
    for i := 0 to |items|
      invariant buf.Valid() && state.remaining >= 0
      invariant buf.data + EncodeItems(items[i..]) == was + EncodeItems(items)
      invariant state.remaining - NodesOfItems(items[i..]) == budget - NodesOfItems(items)
      invariant AcceptsItems(items, depth, budget, room)
        <==> AcceptsItems(items[i..], depth, state.remaining, buf.Room())
    {
      AcceptsItemsStep(items[i..], depth, state.remaining, buf.Room());
      assert items[i..][0] == items[i] && items[i..][1..] == items[i + 1..];
      err := WriteValue(buf, items[i], state, depth);
      if err.Some? { return; }
    }
    return None;
  }

  lemma AcceptsMap(v: Value, depth: nat, remaining: int, room: int)
    requires v.Map? && depth <= MAX_DEPTH
    ensures Accepts(v, depth, remaining + 1, room)
      <==> (&& |v.entries| < U32_SPAN && |v.entries| <= remaining && 5 <= room
            && AcceptsEntries(v, SortedKeys(v.entries.Keys), depth + 1, remaining, room - 5))
  {
    hide Header, EncodeEntries, NodesOfEntries, SortedKeys, Admissible;
    var keys := SortedKeys(v.entries.Keys);
    NativeRoundTrip.EncodedEntriesSize(v, keys);
    AdmissibleEntries(v, keys, depth);
  }

  lemma AdmissibleEntries(v: Value, keys: seq<bytes>, depth: nat)
    requires v.Map? && depth <= MAX_DEPTH && forall k :: k in v.entries <==> k in keys
    ensures Admissible(v, depth)
      <==> && |v.entries| < U32_SPAN
           && forall i :: 0 <= i < |keys| ==> |keys[i]| < U32_SPAN && Admissible(v.entries[keys[i]], depth + 1)
  {
  }

  method WriteMap(buf: EncodeBuffer, v: Value, state: EncodeState, depth: nat) returns (err: Option<EncodeError>)
    requires v.Map? && buf.Valid() && state.remaining >= 0 && depth <= MAX_DEPTH
    modifies buf, state
    ensures buf.Valid()
    ensures err.None? <==> Accepts(v, depth, old(state.remaining) + 1, old(buf.Room()))
    ensures err.None? ==> buf.data == old(buf.data) + Encode(v)
    ensures err.None? ==> state.remaining == old(state.remaining) + 1 - Nodes(v)
    decreases v, 0, |v.entries| + 1
  {
    hide Accepts, AcceptsEntries, EncodeEntries, NodesOfEntries, Header, Encode, Nodes, SortedKeys, Ascending;
    var keys := SortedKeys(v.entries.Keys);
    NativeRoundTrip.EncodedMap(v);
    AcceptsMap(v, depth, state.remaining, buf.Room());
    if |v.entries| >= U32_SPAN {
      return Some(TooLarge);
    }
    if |v.entries| > state.remaining {
      return Some(EncodeError.TooManyItems);
    }
    err := buf.WriteHeader(6, |v.entries|);
    if err.None? {
      err := WriteEntries(buf, v, keys, state, depth + 1);
    }
  }

  lemma AcceptsEntriesStep(v: Value, keys: seq<bytes>, depth: nat, remaining: int, room: int)
    requires v.Map? && keys != [] && forall k :: k in keys ==> k in v.entries
    ensures AcceptsEntries(v, keys, depth, remaining, room)
      <==> (&& |keys[0]| < U32_SPAN
            && Accepts(v.entries[keys[0]], depth, remaining, room - |EncodeKey(keys[0])|)
            && AcceptsEntries(v, keys[1..], depth, remaining - Nodes(v.entries[keys[0]]),
                              room - |EncodeKey(keys[0])| - |Encode(v.entries[keys[0]])|))
    ensures Accepts(v.entries[keys[0]], depth, remaining, room - |EncodeKey(keys[0])|)
      ==> Nodes(v.entries[keys[0]]) <= remaining
  {
    hide Admissible, Nodes, Encode, EncodeKey;
    assert keys == [keys[0]] + keys[1..];
  }

  lemma AcceptsNoEntries(v: Value, depth: nat)
    requires v.Map?
    ensures forall remaining: nat, room: nat :: AcceptsEntries(v, [], depth, remaining, room)
  {
  }

  method WriteEntries(buf: EncodeBuffer, v: Value, keys: seq<bytes>, state: EncodeState, depth: nat)
    returns (err: Option<EncodeError>)
    requires v.Map? && forall k :: k in keys ==> k in v.entries
    requires buf.Valid() && state.remaining >= 0
    modifies buf, state
    ensures buf.Valid()
    ensures err.None? <==> AcceptsEntries(v, keys, depth, old(state.remaining), old(buf.Room()))
    ensures err.None? ==> buf.data == old(buf.data) + EncodeEntries(v, keys)
    ensures err.None? ==> state.remaining == old(state.remaining) - NodesOfEntries(v, keys)
    decreases v, 0, |keys|
  {
    hide Accepts, AcceptsEntries, Encode, Nodes, EncodeKey;
    ghost var was, budget, room := buf.data, state.remaining, buf.Room();
    AcceptsNoEntries(v, depth);
    for i := 0 to |keys|
      invariant buf.Valid() && state.remaining >= 0
      invariant buf.data + EncodeEntries(v, keys[i..]) == was + EncodeEntries(v, keys)
      invariant state.remaining - NodesOfEntries(v, keys[i..]) == budget - NodesOfEntries(v, keys)
      invariant AcceptsEntries(v, keys, depth, budget, room)
        <==> AcceptsEntries(v, keys[i..], depth, state.remaining, buf.Room())
    {
      AcceptsEntriesStep(v, keys[i..], depth, state.remaining, buf.Room());
      assert keys[i..][0] == keys[i] && keys[i..][1..] == keys[i + 1..];
      if 4 + |keys[i]| > buf.Room() { RejectsShort(v, keys[i..], depth, state.remaining, buf.Room()); }
      err := buf.WriteMapKey(keys[i]);
      if err.Some? { return; }
      err := WriteValue(buf, v.entries[keys[i]], state, depth);
      if err.Some? { return; }
    }
    return None;
  }

  /** Entries whose first key does not fit are not accepted. */
  lemma RejectsShort(v: Value, keys: seq<bytes>, depth: nat, remaining: int, room: int)
    requires v.Map? && keys != [] && forall k :: k in keys ==> k in v.entries
    requires 4 + |keys[0]| > room
    ensures !AcceptsEntries(v, keys, depth, remaining, room)
  {
    hide Admissible, Nodes, Encode;
  }

  /** Encoding into a fresh buffer with a fresh budget: the bytes, or nothing when a limit is exceeded. */
  method EncodeNativeValue(v: Value, limit: int) returns (r: Result<bytes, EncodeError>)
    ensures r.Ok? <==> limit > 0 && Accepts(v, 0, MAX_ITEMS, limit)
    ensures r.Ok? ==> r.value == Encode(v)
    ensures limit <= 0 ==> r == Err(LimitNotPositive)
    ensures r.Ok? ==> Spells(r.value, v) && r.value != [] && r.value[0] == Tag(v)
  {
    hide Accepts, Encode, Nodes, Spells, Tag;
    if limit <= 0 {
      return Err(LimitNotPositive);
    }
    var buf := new EncodeBuffer(limit);
    var state := new EncodeState(MAX_ITEMS);
    var err := WriteValue(buf, v, state, 0);
    if err.Some? {
      return Err(err.value);
    }
    AcceptedIsSpelled(v, limit);
    return Ok(buf.data);
  }

  lemma AcceptedIsSpelled(v: Value, room: int)
    requires Accepts(v, 0, MAX_ITEMS, room)
    ensures Spells(Encode(v), v) && Encode(v) != [] && Encode(v)[0] == Tag(v)
  {
    hide Admissible, Spells, Encode, Nodes;
    EncodedIsSpelled(v, 0);
  }
}
