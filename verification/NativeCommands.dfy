/**
  The command/args payloads.

  A command payload writes `command` before `args`, which is not the sorted
  order of the generic writer: its bytes differ, but its limits and its decoded
  map are the generic ones.
*/
module NativeCommands {
  import opened Bytes
  import opened ByteOrder
  import opened NativeValue
  import opened NativeEncoder
  import opened NativePayloads
  import opened Results
  import NativeRoundTrip

  // ----- command and args

  function CommandMap(command: bytes, args: seq<Value>): Value {
    Map(map[Ascii("command") := Text(command), Ascii("args") := List(args)])
  }

  /** The key order in which a command payload is written. */
  function CommandOrder(): (keys: seq<bytes>)
    ensures |keys| == 2 && |keys[0]| == 7 && |keys[1]| == 4 && keys[0] != keys[1] && Ascending([keys[1], keys[0]])
  {
    assert Ascii("args")[0] == 97 && Ascii("command")[0] == 99;
    [Ascii("command"), Ascii("args")]
  }

  function EncodeCommand(command: bytes, args: seq<Value>): bytes {
    Header(6, 2) + EncodeEntries(CommandMap(command, args), CommandOrder())
  }

  lemma TwoEntries(v: Value, a: bytes, b: bytes)
    requires v.Map? && a in v.entries && b in v.entries
    ensures EncodeEntries(v, [a, b]) == EncodeKey(a) + Encode(v.entries[a]) + (EncodeKey(b) + Encode(v.entries[b]))
    ensures NodesOfEntries(v, [a, b]) == Nodes(v.entries[a]) + Nodes(v.entries[b])
  {
    hide Encode, Nodes, EncodeKey;
    assert [a, b][1..] == [b] && [b][1..] == [];
    assert EncodeEntries(v, []) == [] && NodesOfEntries(v, []) == 0;
    assert EncodeEntries(v, [b]) == EncodeKey(b) + Encode(v.entries[b]);
    assert NodesOfEntries(v, [b]) == Nodes(v.entries[b]);
  }

  /** The limits of a two-field map, checked field by field in either order. */
  lemma AcceptsTwoFields(v: Value, a: bytes, b: bytes, depth: nat, remaining: int, room: int)
    requires v.Map? && a in v.entries && b in v.entries && a != b && v.entries.Keys == {a, b}
    requires Ascending([a, b]) || Ascending([b, a])
    requires |a| < U32_SPAN && |b| < U32_SPAN && depth <= MAX_DEPTH && remaining < U32_SPAN
    ensures Nodes(v) == 1 + Nodes(v.entries[a]) + Nodes(v.entries[b])
    ensures Accepts(v, depth, remaining + 1, room)
      <==> (&& 2 <= remaining && 5 + 4 + |a| <= room
            && Accepts(v.entries[a], depth + 1, remaining, room - 9 - |a|)
            && 4 + |b| <= room - 9 - |a| - |Encode(v.entries[a])|
            && Accepts(v.entries[b], depth + 1, remaining - Nodes(v.entries[a]),
                       room - 13 - |a| - |b| - |Encode(v.entries[a])|))
  {
    hide Encode, Nodes, Admissible, Header, EncodeEntries, NodesOfEntries;
    var keys := if Ascending([a, b]) then [a, b] else [b, a];
    assert forall k :: k in keys <==> k in v.entries;
    WrittenInOrder(v, keys, depth, remaining, room);
    TwoEntries(v, keys[0], keys[1]);
    NativeRoundTrip.EncodedSize(v.entries[a]);
    NativeRoundTrip.EncodedSize(v.entries[b]);
    assert forall i :: 0 <= i < |keys| ==> keys[i] == a || keys[i] == b;
    assert a in keys && b in keys;
  }

  /** A command payload decodes to the same map as the generic writer's bytes. */
  lemma CommandRoundTrip(command: bytes, args: seq<Value>, suffix: bytes, remaining: nat, depth: nat)
    requires Admissible(CommandMap(command, args), depth)
    requires Nodes(CommandMap(command, args)) <= remaining <= MAX_ITEMS
    ensures var v := CommandMap(command, args);
      Decode(EncodeCommand(command, args) + suffix, MAX_DEPTH, remaining, depth)
      == Ok(Decoded(Normalize(v), suffix, remaining - Nodes(v)))
      == Decode(Encode(v) + suffix, MAX_DEPTH, remaining, depth)
  {
    hide Encode, Decode, Normalize, Nodes, Admissible, Header, EncodeEntries, NodesOfEntries;
    var v, keys := CommandMap(command, args), CommandOrder();
    NativeRoundTrip.RoundTrip(v, suffix, MAX_DEPTH, remaining, depth);
    WrittenInOrder(v, [keys[1], keys[0]], 0, 0, 0);
    TwoEntries(v, keys[1], keys[0]);
    TwoEntries(v, keys[0], keys[1]);
    NativeRoundTrip.MapRoundTrip(v, keys, suffix, MAX_DEPTH, remaining, depth);
  }

  /** DEL, EXISTS and the other key-list commands. */
  method WriteKeyCommand(
    buf: EncodeBuffer, command: bytes, keys: seq<Value>, state: EncodeState, depth: nat) returns (err: Option<EncodeError>)
    requires buf.Valid() && 0 <= state.remaining < U32_SPAN && depth <= MAX_DEPTH
    modifies buf, state
    ensures buf.Valid()
    ensures err.None? <==> Accepts(CommandMap(command, keys), depth, old(state.remaining) + 1, old(buf.Room()))
    ensures err.None? ==> buf.data == old(buf.data) + EncodeCommand(command, keys)
    ensures err.None? ==> state.remaining == old(state.remaining) + 1 - Nodes(CommandMap(command, keys))
  {
    hide Encode, Nodes, Accepts, EncodeEntries, Header;
    ghost var v := CommandMap(command, keys);
    var order := CommandOrder();
    AcceptsTwoFields(v, order[0], order[1], depth, state.remaining, buf.Room());
    TwoEntries(v, order[0], order[1]);
    ghost var first := Header(6, 2) + (EncodeKey(order[0]) + Encode(Text(command)));
    err := WriteCommandName(buf, command, state, depth);
    if err.Some? { return; }
    err := buf.WriteMapKey(order[1]);
    if err.Some? { return; }
    err := WriteListField(buf, keys, state, depth + 1);
    assert old(buf.data) + first + EncodeKey(order[1]) + Encode(List(keys))
      == old(buf.data) + (Header(6, 2) + (EncodeKey(order[0]) + Encode(Text(command)) + (EncodeKey(order[1]) + Encode(List(keys)))));
  }

  lemma OneNode(v: Value)
    requires !v.List? && !v.Map?
    ensures Nodes(v) == 1
  {
  }

  /** The map header and the `command` field. */
  method WriteCommandName(buf: EncodeBuffer, command: bytes, state: EncodeState, depth: nat) returns (err: Option<EncodeError>)
    requires buf.Valid() && 0 <= state.remaining < U32_SPAN && depth <= MAX_DEPTH
    modifies buf, state
    ensures buf.Valid()
    ensures err.None?
      <==> (&& 2 <= old(state.remaining) && 5 + 4 + 7 <= old(buf.Room())
            && Accepts(Text(command), depth + 1, old(state.remaining), old(buf.Room()) - 16))
    ensures err.None?
      ==> buf.data == old(buf.data) + (Header(6, 2) + (EncodeKey(CommandOrder()[0]) + Encode(Text(command))))
    ensures err.None? ==> 0 <= state.remaining == old(state.remaining) - Nodes(Text(command))
  {
    hide Encode, Nodes, Accepts, Header;
    var name := CommandOrder()[0];
    OneNode(Text(command));
    if 2 > state.remaining {
      return Some(EncodeError.TooManyItems);
    }
    err := buf.WriteHeader(6, 2);
    if err.Some? { return; }
    err := buf.WriteMapKey(name);
    if err.Some? { return; }
    err := WriteValue(buf, Text(command), state, depth + 1);
    assert old(buf.data) + Header(6, 2) + EncodeKey(name) + Encode(Text(command))
      == old(buf.data) + (Header(6, 2) + (EncodeKey(name) + Encode(Text(command))));
  }

  function Interleave(keys: seq<bytes>, values: seq<Value>): seq<Value>
    requires |keys| == |values|
  {
    seq(2 * |keys|, i requires 0 <= i < 2 * |keys| => if i % 2 == 0 then Text(keys[i / 2]) else values[i / 2])
  }

  /** The first of the items that are still to be written. */
  method WriteNext(buf: EncodeBuffer, v: Value, ghost items: seq<Value>, state: EncodeState, depth: nat)
    returns (err: Option<EncodeError>)
    requires items != [] && items[0] == v && buf.Valid() && state.remaining >= 0
    modifies buf, state
    ensures buf.Valid() && (err.None? ==> state.remaining >= 0)
    ensures err.Some? ==> !AcceptsItems(items, depth, old(state.remaining), old(buf.Room()))
    ensures err.None?
      ==> && buf.data + EncodeItems(items[1..]) == old(buf.data) + EncodeItems(items)
          && state.remaining - NodesOfItems(items[1..]) == old(state.remaining) - NodesOfItems(items)
          && (AcceptsItems(items, depth, old(state.remaining), old(buf.Room()))
              <==> AcceptsItems(items[1..], depth, state.remaining, buf.Room()))
  {
    hide Accepts, AcceptsItems, Encode, Nodes;
    AcceptsItemsStep(items, depth, state.remaining, buf.Room());
    err := WriteValue(buf, v, state, depth);
  }

  lemma Interleaved(keys: seq<bytes>, values: seq<Value>, i: nat)
    requires |keys| == |values| && i < |keys|
    ensures var rest := Interleave(keys, values)[2 * i..];
      && |rest| >= 2 && rest[0] == Text(keys[i]) && rest[1..][0] == values[i]
      && rest[1..][1..] == Interleave(keys, values)[2 * (i + 1)..]
  {
  }

  /** The interleaved keys and values of MSETNX and its like. */
  method WriteInterleaved(buf: EncodeBuffer, keys: seq<bytes>, values: seq<Value>, state: EncodeState, depth: nat)
    returns (err: Option<EncodeError>)
    requires |keys| == |values|
    requires buf.Valid() && 0 <= state.remaining < U32_SPAN
    modifies buf, state
    ensures buf.Valid()
    ensures err.None? <==> AcceptsItems(Interleave(keys, values), depth, old(state.remaining), old(buf.Room()))
    ensures err.None? ==> buf.data == old(buf.data) + EncodeItems(Interleave(keys, values))
    ensures err.None? ==> state.remaining == old(state.remaining) - NodesOfItems(Interleave(keys, values))
  {
    hide AcceptsItems, EncodeItems, NodesOfItems, Interleave;
    ghost var was, budget, room := buf.data, state.remaining, buf.Room();
    ghost var items := Interleave(keys, values);
    AcceptsNoItems(depth);
    NothingWritten(keys, values);
    for i := 0 to |keys|
      invariant buf.Valid() && 0 <= state.remaining
      invariant buf.data + EncodeItems(items[2 * i..]) == was + EncodeItems(items)
      invariant state.remaining - NodesOfItems(items[2 * i..]) == budget - NodesOfItems(items)
      invariant AcceptsItems(items, depth, budget, room)
        <==> AcceptsItems(items[2 * i..], depth, state.remaining, buf.Room())
    {
      Interleaved(keys, values, i);
      err := WriteNext(buf, Text(keys[i]), items[2 * i..], state, depth);
      if err.Some? { return; }
      err := WriteNext(buf, values[i], items[2 * i..][1..], state, depth);
      if err.Some? { return; }
    }
    return None;
  }

  lemma NothingWritten(keys: seq<bytes>, values: seq<Value>)
    requires |keys| == |values|
    ensures EncodeItems([]) == [] && NodesOfItems([]) == 0
    ensures var items := Interleave(keys, values);
      |items| == 2 * |keys| && items[0..] == items && items[2 * |keys|..] == []
  {
  }

  method WriteKeyValueCommand(
    buf: EncodeBuffer, command: bytes, keys: seq<bytes>, values: seq<Value>, state: EncodeState, depth: nat)
    returns (err: Option<EncodeError>)
    requires buf.Valid() && 0 <= state.remaining < U32_SPAN && depth <= MAX_DEPTH
    modifies buf, state
    ensures buf.Valid()
    ensures err.None?
      <==> (&& |keys| == |values|
            && Accepts(CommandMap(command, Interleave(keys, values)), depth, old(state.remaining) + 1, old(buf.Room())))
    ensures err.None? ==> buf.data == old(buf.data) + EncodeCommand(command, Interleave(keys, values))
    ensures err.None?
      ==> state.remaining == old(state.remaining) + 1 - Nodes(CommandMap(command, Interleave(keys, values)))
  {
    hide Encode, Nodes, Accepts, AcceptsItems, EncodeEntries, EncodeItems, NodesOfItems, Header;
    if |keys| != |values| {
      return Some(Mismatched);
    }
    ghost var args := Interleave(keys, values);
    var order := CommandOrder();
    AcceptsTwoFields(CommandMap(command, args), order[0], order[1], depth, state.remaining, buf.Room());
    TwoEntries(CommandMap(command, args), order[0], order[1]);
    ghost var first := Header(6, 2) + (EncodeKey(order[0]) + Encode(Text(command)));
    err := WriteCommandName(buf, command, state, depth);
    if err.Some? { return; }
    err := buf.WriteMapKey(order[1]);
    if err.Some? { return; }
    AcceptsList(args, depth + 1, state.remaining, buf.Room());
    err := state.Enter(depth + 1);
    if err.Some? { return; }
    var count := 2 * |keys|;
    if count > state.remaining {
      return Some(EncodeError.TooManyItems);
    }
    err := buf.WriteHeader(5, count);
    if err.Some? { return; }
    err := WriteInterleaved(buf, keys, values, state, depth + 2);
    assert old(buf.data) + first + EncodeKey(order[1]) + Header(5, count) + EncodeItems(args)
      == old(buf.data) + (Header(6, 2) + (EncodeKey(order[0]) + Encode(Text(command))
                          + (EncodeKey(order[1]) + (Header(5, count) + EncodeItems(args)))));
  }
}
