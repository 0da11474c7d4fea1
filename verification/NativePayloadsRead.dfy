/** What a server that decodes the specialised payloads reads, by name and position. */
module NativePayloadsRead {
  import opened Bytes
  import opened NativeValue
  import opened NativePayloads
  import opened NativeCommands
  import opened Results
  import NativeRoundTrip

  /** The value that is read when just the suffix is left. */
  ghost function ValueRead(data: bytes, suffix: bytes): Option<Value> {
    var read := Decode(data, MAX_DEPTH, MAX_ITEMS, 0);
    if read.Ok? && read.value.rest == suffix then Some(read.value.value) else None
  }

  lemma EncodedReads(v: Value, suffix: bytes)
    requires Admissible(v, 0) && Nodes(v) <= MAX_ITEMS
    ensures ValueRead(Encode(v) + suffix, suffix) == Some(Normalize(v))
  {
    hide Admissible, Nodes, Encode, Decode, Normalize;
    NativeRoundTrip.RoundTrip(v, suffix, MAX_DEPTH, MAX_ITEMS, 0);
  }

  // ----- MSET

  /** A value with the one field `pairs`, which lists them. */
  predicate HasPairs(v: Value, count: nat) {
    && v.Map? && v.entries.Keys == {Ascii("pairs")} && v.entries[Ascii("pairs")].List?
    && |v.entries[Ascii("pairs")].items| == count
  }

  /** Each pair is a key and its value. */
  predicate SaysTyped(v: Value, keys: seq<bytes>, values: seq<Value>)
    requires |keys| == |values|
  {
    && HasPairs(v, |keys|)
    && forall i :: 0 <= i < |keys| ==> v.entries[Ascii("pairs")].items[i] == List([Binary(keys[i]), Normalize(values[i])])
  }

  /** Keys and values have taken turns, a key first. */
  predicate SaysFlat(v: Value, args: seq<Value>) {
    && HasPairs(v, |args| / 2)
    && forall i :: 0 <= i < |args| / 2 ==>
      v.entries[Ascii("pairs")].items[i] == List([Normalize(args[2 * i]), Normalize(args[2 * i + 1])])
  }

  lemma PairsNormal(keys: seq<Value>, values: seq<Value>)
    requires |keys| == |values|
    ensures var v := Normalize(Single(Ascii("pairs"), List(PairItems(keys, values))));
      && HasPairs(v, |keys|)
      && forall i :: 0 <= i < |keys| ==> v.entries[Ascii("pairs")].items[i] == List([Normalize(keys[i]), Normalize(values[i])])
  {
    hide Ascii;
    var pairs := PairItems(keys, values);
    var v := Single(Ascii("pairs"), List(pairs));
    assert Normalize(v).entries.Keys == {Ascii("pairs")};
    forall i | 0 <= i < |keys| ensures Normalize(pairs[i]) == List([Normalize(keys[i]), Normalize(values[i])]) {
      OnePairNormal(keys[i], values[i]);
    }
  }

  lemma OnePairNormal(key: Value, value: Value)
    ensures Normalize(List([key, value])) == List([Normalize(key), Normalize(value)])
  {
    assert [key, value][0] == key && [key, value][1] == value;
  }

  lemma TypedMSetSays(keys: seq<bytes>, values: seq<Value>, suffix: bytes)
    requires |keys| == |values|
    requires Admissible(MSetPayload.Typed(keys, values).Generic(), 0) && Nodes(MSetPayload.Typed(keys, values).Generic()) <= MAX_ITEMS
    ensures var read := ValueRead(Encode(MSetPayload.Typed(keys, values).Generic()) + suffix, suffix);
      read.Some? && SaysTyped(read.value, keys, values)
  {
    hide Admissible, Nodes, Encode, SaysTyped, ValueRead, MSetPayload.Generic, Normalize;
    EncodedReads(MSetPayload.Typed(keys, values).Generic(), suffix);
    TypedPairs(keys, values);
  }

  lemma TypedPairs(keys: seq<bytes>, values: seq<Value>)
    requires |keys| == |values|
    ensures SaysTyped(Normalize(MSetPayload.Typed(keys, values).Generic()), keys, values)
  {
    hide Ascii, Normalize, HasPairs;
    var p := MSetPayload.Typed(keys, values);
    PairsNormal(p.Keys(), p.Values());
    forall i | 0 <= i < |keys| ensures Normalize(p.Keys()[i]) == Binary(keys[i]) { TextIsBytes(keys[i]); }
    HasList(Normalize(p.Generic()), |keys|);
  }

  lemma HasList(v: Value, count: nat)
    requires HasPairs(v, count)
    ensures v.Map? && Ascii("pairs") in v.entries && v.entries[Ascii("pairs")].List? && |v.entries[Ascii("pairs")].items| == count
  {
    hide Ascii;
  }

  lemma TextIsBytes(key: bytes)
    ensures Normalize(Text(key)) == Binary(key)
  {
  }

  lemma UntypedMSetSays(args: seq<Value>, suffix: bytes)
    requires |args| % 2 == 0
    requires Admissible(MSetPayload.Untyped(args).Generic(), 0) && Nodes(MSetPayload.Untyped(args).Generic()) <= MAX_ITEMS
    ensures var read := ValueRead(Encode(MSetPayload.Untyped(args).Generic()) + suffix, suffix);
      read.Some? && SaysFlat(read.value, args)
  {
    hide Admissible, Nodes, Encode, SaysFlat, ValueRead, MSetPayload.Generic, Normalize;
    EncodedReads(MSetPayload.Untyped(args).Generic(), suffix);
    UntypedPairs(args);
  }

  lemma UntypedPairs(args: seq<Value>)
    requires |args| % 2 == 0
    ensures SaysFlat(Normalize(MSetPayload.Untyped(args).Generic()), args)
  {
    hide Ascii, Normalize, HasPairs;
    var p := MSetPayload.Untyped(args);
    PairsNormal(p.Keys(), p.Values());
    HasList(Normalize(p.Generic()), |args| / 2);
  }

  // ----- commands

  /** The command's name and its arguments in their order. */
  ghost predicate SaysCommand(v: Value, command: bytes, args: seq<Value>) {
    && v.Map? && v.entries.Keys == {Ascii("command"), Ascii("args")}
    && v.entries[Ascii("command")] == Binary(command)
    && v.entries[Ascii("args")].List? && |v.entries[Ascii("args")].items| == |args|
    && forall i :: 0 <= i < |args| ==> v.entries[Ascii("args")].items[i] == Normalize(args[i])
  }

  lemma CommandSays(command: bytes, args: seq<Value>, suffix: bytes)
    requires Admissible(CommandMap(command, args), 0) && Nodes(CommandMap(command, args)) <= MAX_ITEMS
    ensures var read := ValueRead(EncodeCommand(command, args) + suffix, suffix);
      read.Some? && SaysCommand(read.value, command, args)
  {
    hide Admissible, Nodes, Decode, Encode, EncodeCommand, SaysCommand, CommandMap, Normalize;
    CommandRoundTrip(command, args, suffix, MAX_ITEMS, 0);
    CommandNormal(command, args);
  }

  lemma CommandNormal(command: bytes, args: seq<Value>)
    ensures SaysCommand(Normalize(CommandMap(command, args)), command, args)
  {
    hide Ascii;
    var order := CommandOrder();
    assert Normalize(CommandMap(command, args)).entries.Keys == {Ascii("command"), Ascii("args")};
    NamesDiffer();
    TextIsBytes(command);
  }

  lemma NamesDiffer()
    ensures Ascii("command") != Ascii("args")
  {
    assert |Ascii("command")| == 7 && |Ascii("args")| == 4;
  }

  /** The arguments of a command over keys and values: each key, then its value. */
  lemma KeyValueCommandSays(command: bytes, keys: seq<bytes>, values: seq<Value>, suffix: bytes)
    requires |keys| == |values|
    requires Admissible(CommandMap(command, Interleave(keys, values)), 0)
    requires Nodes(CommandMap(command, Interleave(keys, values))) <= MAX_ITEMS
    ensures var read := ValueRead(EncodeCommand(command, Interleave(keys, values)) + suffix, suffix);
      read.Some? && SaysKeysAndValues(read.value, command, keys, values)
  {
    hide Admissible, Nodes, EncodeCommand, ValueRead, SaysCommand, SaysKeysAndValues, CommandMap, Interleave;
    CommandSays(command, Interleave(keys, values), suffix);
    TakesTurns(ValueRead(EncodeCommand(command, Interleave(keys, values)) + suffix, suffix).value, command, keys, values);
  }

  ghost predicate SaysKeysAndValues(v: Value, command: bytes, keys: seq<bytes>, values: seq<Value>)
    requires |keys| == |values|
  {
    && v.Map? && v.entries.Keys == {Ascii("command"), Ascii("args")} && v.entries[Ascii("command")] == Binary(command)
    && v.entries[Ascii("args")].List? && |v.entries[Ascii("args")].items| == 2 * |keys|
    && forall i :: 0 <= i < |keys| ==>
      && v.entries[Ascii("args")].items[2 * i] == Binary(keys[i])
      && v.entries[Ascii("args")].items[2 * i + 1] == Normalize(values[i])
  }

  lemma TakesTurns(v: Value, command: bytes, keys: seq<bytes>, values: seq<Value>)
    requires |keys| == |values| && SaysCommand(v, command, Interleave(keys, values))
    ensures SaysKeysAndValues(v, command, keys, values)
  {
    hide Ascii, Normalize, Interleave;
    InterleavedSize(keys, values);
    forall i | 0 <= i < |keys|
      ensures v.entries[Ascii("args")].items[2 * i] == Binary(keys[i])
      ensures v.entries[Ascii("args")].items[2 * i + 1] == Normalize(values[i])
    {
      Turn(keys, values, i);
      TextIsBytes(keys[i]);
    }
  }

  lemma InterleavedSize(keys: seq<bytes>, values: seq<Value>)
    requires |keys| == |values|
    ensures |Interleave(keys, values)| == 2 * |keys|
  {
  }

  lemma Turn(keys: seq<bytes>, values: seq<Value>, i: nat)
    requires |keys| == |values| && i < |keys|
    ensures |Interleave(keys, values)| == 2 * |keys|
    ensures Interleave(keys, values)[2 * i] == Text(keys[i]) && Interleave(keys, values)[2 * i + 1] == values[i]
  {
  }
}
