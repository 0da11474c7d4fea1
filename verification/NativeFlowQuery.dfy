/**
  The FLOW.QUERY request payload: its specialised writer and the size that is
  computed before the buffer is grown.
*/
module NativeFlowQuery {
  import opened Bytes
  import opened ByteOrder
  import opened NativeValue
  import opened NativeEncoder
  import opened NativePayloads
  import opened Results
  import NativeRoundTrip

  const LANGUAGE_VERSION: string := "FQL1"

  /** A prepared query: parameter names in ascending order, a deadline only when positive. */
  datatype Payload = Payload(query: bytes, names: seq<bytes>, params: map<bytes, Value>, deadline: int64) {
    ghost predicate Prepared() {
      Ascending(names) && forall k :: k in names <==> k in params
    }

    /** The generic map that the payload stands for. */
    function Generic(): (v: Value)
      ensures v.Map?
    {
      Map(map[Ascii("query") := Text(query), Ascii("version") := Text(Ascii(LANGUAGE_VERSION))]
          + (if deadline > 0 then map[Ascii("deadline_ms") := Int(deadline)] else map[])
          + (if names != [] then map[Ascii("params") := Map(params)] else map[]))
    }

    function FieldOrder(): seq<bytes> {
      (if deadline > 0 then [Ascii("deadline_ms")] else [])
      + (if names != [] then [Ascii("params")] else [])
      + [Ascii("query"), Ascii("version")]
    }
  }

  function Listed(query: bytes, params: map<bytes, Value>, deadline: int64): (p: Payload)
    ensures p.Prepared()
  {
    Payload(query, SortedKeys(params.Keys), params, deadline)
  }

  lemma FieldNames()
    ensures var d, a, q, v := Ascii("deadline_ms"), Ascii("params"), Ascii("query"), Ascii("version");
      && Less(d, a) && Less(d, q) && Less(d, v) && Less(a, q) && Less(a, v) && Less(q, v)
      && d != a && d != q && d != v && a != q && a != v && q != v
      && |d| == 11 && |a| == 6 && |q| == 5 && |v| == 7 && |Ascii(LANGUAGE_VERSION)| == 4
  {
    var d, a, q, v := Ascii("deadline_ms"), Ascii("params"), Ascii("query"), Ascii("version");
    assert d[0] == 100 && a[0] == 112 && q[0] == 113 && v[0] == 118;
  }

  /** The fields are written in the generic writer's own order. */
  lemma FieldOrderIsSorted(p: Payload)
    ensures Ascending(p.FieldOrder())
    ensures forall k :: k in p.FieldOrder() <==> k in p.Generic().entries
  {
    FieldNames();
    hide Ascii, Less;
  }

  lemma FieldValues(p: Payload)
    ensures Ascii("query") in p.Generic().entries && p.Generic().entries[Ascii("query")] == Text(p.query)
    ensures Ascii("version") in p.Generic().entries
      && p.Generic().entries[Ascii("version")] == Text(Ascii(LANGUAGE_VERSION))
    ensures p.deadline > 0
      ==> Ascii("deadline_ms") in p.Generic().entries && p.Generic().entries[Ascii("deadline_ms")] == Int(p.deadline)
    ensures p.names != []
      ==> Ascii("params") in p.Generic().entries && p.Generic().entries[Ascii("params")] == Map(p.params)
  {
    FieldNames();
    hide Ascii, Less;
  }

  /** One field of the payload's map: its key, then its value one level deeper. */
  method WriteField(buf: EncodeBuffer, key: bytes, value: Value, state: EncodeState, depth: nat) returns (err: Option<EncodeError>)
    requires buf.Valid() && state.remaining >= 0
    modifies buf, state
    ensures buf.Valid()
    ensures err.None? <==> AcceptsField(key, value, depth, old(state.remaining), old(buf.Room()))
    ensures err.None? ==> buf.data == old(buf.data) + (EncodeKey(key) + Encode(value))
    ensures err.None? ==> 0 <= state.remaining == old(state.remaining) - Nodes(value)
  {
    hide Encode, Nodes, Admissible;
    err := buf.WriteMapKey(key);
    if err.Some? { return; }
    err := WriteValue(buf, value, state, depth);
    assert old(buf.data) + EncodeKey(key) + Encode(value) == old(buf.data) + (EncodeKey(key) + Encode(value));
  }

  predicate AcceptsField(key: bytes, value: Value, depth: nat, remaining: int, room: int) {
    |key| < U32_SPAN && 4 + |key| <= room && Accepts(value, depth, remaining, room - 4 - |key|)
  }

  /** The parameters: a nested map, written from the prepared list. */
  method WriteParameters(buf: EncodeBuffer, p: Payload, state: EncodeState, depth: nat) returns (err: Option<EncodeError>)
    requires p.Prepared() && buf.Valid() && 0 <= state.remaining < U32_SPAN
    modifies buf, state
    ensures buf.Valid()
    ensures err.None? <==> AcceptsField(Ascii("params"), Map(p.params), depth, old(state.remaining), old(buf.Room()))
    ensures err.None? ==> buf.data == old(buf.data) + (EncodeKey(Ascii("params")) + Encode(Map(p.params)))
    ensures err.None? ==> 0 <= state.remaining == old(state.remaining) - Nodes(Map(p.params))
  {
    var key := Ascii("params");
    FieldNames();
    hide Encode, Nodes, Accepts, AcceptsEntries, EncodeEntries, NodesOfEntries, Header, Ascii;
    var v := Map(p.params);
    if depth <= MAX_DEPTH {
      WrittenInOrder(v, p.names, depth, state.remaining - 1, buf.Room() - 4 - |key|);
    } else {
      RejectsDepth(v, depth);
    }
    RejectsNothingLeft(v, depth);
    err := buf.WriteMapKey(key);
    if err.Some? { return; }
    err := state.Enter(depth);
    if err.Some? { return; }
    if |p.names| > state.remaining {
      return Some(EncodeError.TooManyItems);
    }
    err := buf.WriteHeader(6, |p.names|);
    if err.Some? { return; }
    err := WriteEntries(buf, v, p.names, state, depth + 1);
    assert old(buf.data) + EncodeKey(key) + Header(6, |p.names|) + EncodeEntries(v, p.names)
      == old(buf.data) + (EncodeKey(key) + (Header(6, |p.names|) + EncodeEntries(v, p.names)));
    NodesWithinBudget(v, p.names, depth + 1);
  }

  lemma RejectsDepth(v: Value, depth: nat)
    requires depth > MAX_DEPTH
    ensures forall remaining, room :: !Accepts(v, depth, remaining, room)
  {
  }

  lemma RejectsNothingLeft(v: Value, depth: nat)
    ensures forall room :: !Accepts(v, depth, 0, room)
  {
  }

  lemma NodesWithinBudget(v: Value, keys: seq<bytes>, depth: nat)
    requires v.Map? && forall k :: k in keys ==> k in v.entries
    ensures forall remaining, room :: AcceptsEntries(v, keys, depth, remaining, room) ==> NodesOfEntries(v, keys) <= remaining
  {
    hide Admissible, NodesOfEntries, EncodeEntries;
  }

  /** What is left to write of the payload's fields; whether the rest fits decides acceptance. */
  ghost predicate Pending(
    p: Payload, rest: seq<bytes>, data: bytes, remaining: int, room: int, was: bytes, depth: nat, budget: int, space: int)
  {
    var v, order := p.Generic(), p.FieldOrder();
    && (forall k :: k in rest || k in order ==> k in v.entries)
    && 0 <= remaining < U32_SPAN && 0 <= room
    && data + EncodeEntries(v, rest) == was + EncodeEntries(v, order)
    && remaining - NodesOfEntries(v, rest) == budget - NodesOfEntries(v, order)
    && (AcceptsEntries(v, order, depth, budget, space) <==> AcceptsEntries(v, rest, depth, remaining, room))
  }

  lemma FieldStep(
    p: Payload, rest: seq<bytes>, data: bytes, remaining: int, room: int, was: bytes, depth: nat, budget: int, space: int)
    requires Pending(p, rest, data, remaining, room, was, depth, budget, space) && rest != []
    ensures var v, key, value := p.Generic(), rest[0], p.Generic().entries[rest[0]];
      && (AcceptsEntries(v, p.FieldOrder(), depth, budget, space) ==> AcceptsField(key, value, depth, remaining, room))
      && (AcceptsField(key, value, depth, remaining, room)
          ==> Pending(p, rest[1..], data + (EncodeKey(key) + Encode(value)), remaining - Nodes(value),
                      room - |EncodeKey(key)| - |Encode(value)|, was, depth, budget, space))
  {
    hide Admissible, Encode, Nodes, Accepts, AcceptsEntries, EncodeKey, EncodeEntries, NodesOfEntries, Payload.Generic,
      Payload.FieldOrder;
    var v := p.Generic();
    EntryAccepted(v, rest, depth, remaining, room);
    EntryWritten(v, rest, data);
  }

  lemma EntryAccepted(v: Value, rest: seq<bytes>, depth: nat, remaining: int, room: int)
    requires v.Map? && rest != [] && (forall k :: k in rest ==> k in v.entries) && 0 <= room
    ensures var key, value := rest[0], v.entries[rest[0]];
      && (AcceptsEntries(v, rest, depth, remaining, room) ==> AcceptsField(key, value, depth, remaining, room))
      && (AcceptsField(key, value, depth, remaining, room)
          ==> && Nodes(value) <= remaining && |EncodeKey(key)| + |Encode(value)| <= room
              && (AcceptsEntries(v, rest, depth, remaining, room)
                  <==> AcceptsEntries(v, rest[1..], depth, remaining - Nodes(value),
                                      room - |EncodeKey(key)| - |Encode(value)|)))
  {
    hide Admissible, Encode, Nodes, AcceptsEntries, EncodeEntries, NodesOfEntries;
    AcceptsEntriesStep(v, rest, depth, remaining, room);
    if 4 + |rest[0]| > room { RejectsShort(v, rest, depth, remaining, room); }
  }

  lemma EntryWritten(v: Value, rest: seq<bytes>, data: bytes)
    requires v.Map? && rest != [] && forall k :: k in rest ==> k in v.entries
    ensures var written := EncodeKey(rest[0]) + Encode(v.entries[rest[0]]);
      data + EncodeEntries(v, rest) == data + written + EncodeEntries(v, rest[1..])
    ensures NodesOfEntries(v, rest) == Nodes(v.entries[rest[0]]) + NodesOfEntries(v, rest[1..])
  {
    hide Encode, Nodes, EncodeKey;
  }

  /** Writes the first pending field; a field that does not fit settles that the payload does not. */
  method WritePending(
    buf: EncodeBuffer, p: Payload, key: bytes, value: Value, state: EncodeState, depth: nat,
    ghost rest: seq<bytes>, ghost was: bytes, ghost budget: int, ghost space: int)
    returns (err: Option<EncodeError>)
    requires buf.Valid() && p.Prepared() && 0 <= state.remaining < U32_SPAN
    requires Pending(p, rest, buf.data, state.remaining, buf.Room(), was, depth, budget, space)
    requires rest != [] && rest[0] == key && p.Generic().entries[key] == value
    requires key == Ascii("params") ==> value == Map(p.params)
    modifies buf, state
    ensures buf.Valid()
    ensures err.None? ==> 0 <= state.remaining < U32_SPAN
    ensures err.None? ==> Pending(p, rest[1..], buf.data, state.remaining, buf.Room(), was, depth, budget, space)
    ensures err.Some? ==> !AcceptsEntries(p.Generic(), p.FieldOrder(), depth, budget, space)
  {
    hide Pending, AcceptsField, AcceptsEntries, Encode, Nodes, Ascii, Payload.Generic, Payload.FieldOrder,
      Payload.Prepared, EncodeKey;
    FieldStep(p, rest, buf.data, state.remaining, buf.Room(), was, depth, budget, space);
    ghost var room := buf.Room();
    if key == Ascii("params") {
      err := WriteParameters(buf, p, state, depth);
    } else {
      err := WriteField(buf, key, value, state, depth);
    }
    if err.None? {
      assert buf.Room() == room - |EncodeKey(key)| - |Encode(value)|;
    }
  }

  /** The payload writer emits exactly the generic map, under exactly the generic map's limits. */
  method WriteFlowQuery(buf: EncodeBuffer, p: Payload, state: EncodeState, depth: nat) returns (err: Option<EncodeError>)
    requires p.Prepared() && buf.Valid() && 0 <= state.remaining < U32_SPAN && depth <= MAX_DEPTH
    modifies buf, state
    ensures buf.Valid()
    ensures err.None? <==> Accepts(p.Generic(), depth, old(state.remaining) + 1, old(buf.Room()))
    ensures err.None? ==> buf.data == old(buf.data) + Encode(p.Generic())
    ensures err.None? ==> state.remaining == old(state.remaining) + 1 - Nodes(p.Generic())
  {
    hide Encode, Nodes, Accepts, AcceptsEntries, EncodeEntries, NodesOfEntries, Header, Ascii, Payload.Generic,
      Payload.Prepared, Less;
    FieldOrderIsSorted(p);
    ghost var v, order := p.Generic(), p.FieldOrder();
    WrittenInOrder(v, order, depth, state.remaining, buf.Room());
    var fieldCount := 2;
    if p.deadline > 0 { fieldCount := fieldCount + 1; }
    if p.names != [] { fieldCount := fieldCount + 1; }
    if fieldCount > state.remaining {
      return Some(EncodeError.TooManyItems);
    }
    err := buf.WriteHeader(6, fieldCount);
    if err.Some? { return; }
    err := WriteFields(buf, p, state, depth + 1);
    assert old(buf.data) + Header(6, fieldCount) + EncodeEntries(v, order)
      == old(buf.data) + (Header(6, fieldCount) + EncodeEntries(v, order));
  }

  method WriteFields(buf: EncodeBuffer, p: Payload, state: EncodeState, depth: nat) returns (err: Option<EncodeError>)
    requires p.Prepared() && buf.Valid() && 0 <= state.remaining < U32_SPAN
    modifies buf, state
    ensures buf.Valid()
    ensures var v, order := p.Generic(), p.FieldOrder();
      && (forall k :: k in order ==> k in v.entries)
      && (err.None? <==> AcceptsEntries(v, order, depth, old(state.remaining), old(buf.Room())))
      && (err.None? ==> buf.data == old(buf.data) + EncodeEntries(v, order))
      && (err.None? ==> state.remaining == old(state.remaining) - NodesOfEntries(v, order))
  {
    hide Pending, AcceptsEntries, Encode, EncodeEntries, NodesOfEntries, Nodes, Ascii, Payload.Generic, Payload.Prepared;
    FieldValues(p);
    FieldNames();
    ghost var was, budget, space := buf.data, state.remaining, buf.Room();
    ghost var rest := p.FieldOrder();
    AllPending(p, buf.data, state.remaining, buf.Room(), depth);
    if p.deadline > 0 {
      err := WritePending(buf, p, Ascii("deadline_ms"), Int(p.deadline), state, depth, rest, was, budget, space);
      if err.Some? { return; }
      rest := rest[1..];
    }
    if p.names != [] {
      err := WritePending(buf, p, Ascii("params"), Map(p.params), state, depth, rest, was, budget, space);
      if err.Some? { return; }
      rest := rest[1..];
    }
    assert rest == [Ascii("query"), Ascii("version")];
    err := WritePending(buf, p, Ascii("query"), Text(p.query), state, depth, rest, was, budget, space);
    if err.Some? { return; }
    rest := rest[1..];
    err := WritePending(buf, p, Ascii("version"), Text(Ascii(LANGUAGE_VERSION)), state, depth, rest, was, budget, space);
    if err.Some? { return; }
    assert rest[1..] == [];
    NothingPending(p, buf.data, state.remaining, buf.Room(), was, depth, budget, space);
  }

  lemma AllPending(p: Payload, data: bytes, remaining: nat, room: nat, depth: nat)
    requires remaining < U32_SPAN
    ensures Pending(p, p.FieldOrder(), data, remaining, room, data, depth, remaining, room)
  {
    hide Ascii, Encode, Nodes, Payload.Generic, Payload.FieldOrder;
    FieldOrderIsSorted(p);
  }

  lemma NothingPending(
    p: Payload, data: bytes, remaining: int, room: int, was: bytes, depth: nat, budget: int, space: int)
    requires Pending(p, [], data, remaining, room, was, depth, budget, space)
    ensures var v, order := p.Generic(), p.FieldOrder();
      && AcceptsEntries(v, order, depth, budget, space)
      && data == was + EncodeEntries(v, order)
      && remaining == budget - NodesOfEntries(v, order)
  {
    hide Payload.Generic, Payload.FieldOrder;
    AcceptsNoEntries(p.Generic(), depth);
  }
}
