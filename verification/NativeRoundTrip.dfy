/**
  Decoding what the encoder wrote.

  The decoder's own depth, count and item checks are separate code from the
  encoder's; these lemmas show that they never reject encoder output.
*/
module NativeRoundTrip {
  import opened Bytes
  import opened ByteOrder
  import opened NativeValue
  import opened Results
  import opened Sequences

  // ----- sizes

  lemma {:induction false} EncodedSize(v: Value)
    ensures |Encode(v)| >= 1 && Nodes(v) >= 1
  {
  }

  lemma {:induction false} EncodedItemsSize(items: seq<Value>)
    ensures |EncodeItems(items)| >= |items| && NodesOfItems(items) >= |items|
  {
    if items != [] {
      EncodedSize(items[0]);
      EncodedItemsSize(items[1..]);
    }
  }

  lemma {:induction false} EncodedEntriesSize(v: Value, keys: seq<bytes>)
    requires v.Map? && forall k :: k in keys ==> k in v.entries
    ensures |EncodeEntries(v, keys)| >= 5 * |keys| && NodesOfEntries(v, keys) >= |keys|
  {
    if keys != [] {
      EncodedSize(v.entries[keys[0]]);
      EncodedEntriesSize(v, keys[1..]);
    }
  }

  // ----- framing

  lemma CountOfHeader(tag: byte, count: nat, rest: bytes)
    requires count < U32_SPAN
    ensures var data := Header(tag, count) + rest;
      data[0] == tag && |data[1..]| == 4 + |rest| && GetU32(data[1..]) == count && data[1..][4..] == rest
  {
    var data := Header(tag, count) + rest;
    assert data[1..] == PutU32(count) + rest;
    U32RoundTrip(count, rest);
  }

  lemma BinaryRoundTrip(data: bytes, suffix: bytes, maxDepth: nat, remaining: nat, depth: nat)
    requires |data| < U32_SPAN && depth <= maxDepth && remaining > 0
    ensures Decode(Header(4, |data|) + data + suffix, maxDepth, remaining, depth)
      == Ok(Decoded(Binary(data), suffix, remaining - 1))
  {
    CountOfHeader(4, |data|, data + suffix);
    var all := Header(4, |data|) + data + suffix;
    assert all == Header(4, |data|) + (data + suffix);
    assert all[1..][4..4 + |data|] == (data + suffix)[..|data|] == data;
    assert all[1..][4 + |data|..] == (data + suffix)[|data|..] == suffix;
  }

  lemma WordRoundTrip(tag: byte, word: uint64, suffix: bytes)
    ensures var data := [tag] + PutU64(word) + suffix;
      |data[1..]| >= 8 && data[0] == tag && GetU64(data[1..]) == word && data[1..][8..] == suffix
  {
    var data := [tag] + PutU64(word) + suffix;
    assert data[1..] == PutU64(word) + suffix;
    U64RoundTrip(word, suffix);
  }

  lemma KeyLayout(key: bytes, after: bytes)
    requires |key| < U32_SPAN
    ensures var data := EncodeKey(key) + after;
      |data| - 4 >= |key| && GetU32(data) == |key| && data[4..4 + |key|] == key && data[4 + |key|..] == after
  {
    U32RoundTrip(|key|, key + after);
    assert EncodeKey(key) + after == PutU32(|key|) + (key + after);
  }

  lemma LeafRoundTrip(v: Value, suffix: bytes, maxDepth: nat, remaining: nat, depth: nat)
    requires !v.List? && !v.Map? && Admissible(v, depth) && depth <= maxDepth && remaining > 0
    ensures Decode(Encode(v) + suffix, maxDepth, remaining, depth)
      == Ok(Decoded(Normalize(v), suffix, remaining - 1))
  {
    hide PutU32, PutU64, GetU32, GetU64;
    match v
    case Nil => assert ([0] + suffix)[1..] == suffix;
    case Bool(b) => assert ([1] + suffix)[1..] == suffix && ([2] + suffix)[1..] == suffix;
    case Int(i) => WordRoundTrip(3, ToU64(i), suffix);
    case UInt(u) => WordRoundTrip(if u < INT64_SPAN then 3 else 8, u, suffix);
    case Float(bits) => WordRoundTrip(7, bits, suffix);
    case Text(text) => BinaryRoundTrip(text, suffix, maxDepth, remaining, depth);
    case Binary(data) => BinaryRoundTrip(data, suffix, maxDepth, remaining, depth);
    case NilBinary =>
      assert Header(4, 0) + [] == Header(4, 0);
      BinaryRoundTrip([], suffix, maxDepth, remaining, depth);
  }

  // ----- the codec law

  /**
    Whatever the encoder admits is read back: the normalised value, exactly the
    bytes that follow it, and the item budget less the same node count.
  */
  lemma {:induction false} RoundTrip(v: Value, suffix: bytes, maxDepth: nat, remaining: nat, depth: nat)
    requires Admissible(v, depth) && maxDepth >= MAX_DEPTH
    requires Nodes(v) <= remaining <= MAX_ITEMS
    ensures Decode(Encode(v) + suffix, maxDepth, remaining, depth)
      == Ok(Decoded(Normalize(v), suffix, remaining - Nodes(v)))
    decreases v, 1, 0
  {
    hide Encode, Decode, Normalize, Admissible, Nodes, Distinct, SortedKeys, NodesOfEntries, EncodeEntries;
    if v.List? {
      ListRoundTrip(v, suffix, maxDepth, remaining, depth);
    } else if v.Map? {
      SortedIsDistinct(v.entries.Keys);
      EncodedMap(v);
      MapRoundTrip(v, SortedKeys(v.entries.Keys), suffix, maxDepth, remaining, depth);
    } else {
      LeafFits(v, depth);
      LeafRoundTrip(v, suffix, maxDepth, remaining, depth);
    }
  }

  lemma SortedIsDistinct(keys: set<bytes>)
    ensures Distinct(SortedKeys(keys))
  {
    hide SortedKeys, Less;
    var sorted := SortedKeys(keys);
    forall i, j | 0 <= i < j < |sorted| ensures sorted[i] != sorted[j] { AscendingIsDistinct(sorted, i, j); }
  }

  lemma LeafFits(v: Value, depth: nat)
    requires !v.List? && !v.Map? && Admissible(v, depth)
    ensures depth <= MAX_DEPTH && Nodes(v) == 1
  {
  }

  lemma EncodedMap(v: Value)
    requires v.Map?
    ensures Encode(v) == Header(6, |v.entries|) + EncodeEntries(v, SortedKeys(v.entries.Keys))
    ensures Nodes(v) == 1 + NodesOfEntries(v, SortedKeys(v.entries.Keys))
    ensures |SortedKeys(v.entries.Keys)| == |v.entries|
  {
  }

  lemma DecodeMapStep(body: bytes, count: nat, maxDepth: nat, remaining: nat, depth: nat)
    requires depth <= maxDepth && count < remaining <= MAX_ITEMS && |body| >= 5 * count
    ensures Decode(Header(6, count) + body, maxDepth, remaining, depth)
      == match DecodeEntries(body, count, map[], maxDepth, remaining - 1, depth + 1)
         case Ok(d) => Ok(Decoded(Map(d.value), d.rest, d.remaining))
         case Err(e) => Err(e)
  {
    hide DecodeEntries, DecodeItems, PutU32, GetU32, Header;
    CountOfHeader(6, count, body);
  }

  lemma {:induction false} ListRoundTrip(v: Value, suffix: bytes, maxDepth: nat, remaining: nat, depth: nat)
    requires v.List? && Admissible(v, depth) && maxDepth >= MAX_DEPTH
    requires Nodes(v) <= remaining <= MAX_ITEMS
    ensures Decode(Encode(v) + suffix, maxDepth, remaining, depth)
      == Ok(Decoded(Normalize(v), suffix, remaining - Nodes(v)))
    decreases v, 0, 0
  {
    hide DecodeItems, DecodeEntries, EncodeItems, EncodeEntries, NodesOfItems, NodesOfEntries, Decode, Header;
    var body := EncodeItems(v.items) + suffix;
    assert Encode(v) + suffix == Header(5, |v.items|) + body;
    EncodedItemsSize(v.items);
    DecodeListStep(body, |v.items|, maxDepth, remaining, depth);
    ItemsRoundTrip(v.items, suffix, maxDepth, remaining - 1, depth + 1);
  }

  lemma DecodeListStep(body: bytes, count: nat, maxDepth: nat, remaining: nat, depth: nat)
    requires depth <= maxDepth && count < remaining <= MAX_ITEMS && |body| >= count
    ensures Decode(Header(5, count) + body, maxDepth, remaining, depth)
      == match DecodeItems(body, count, maxDepth, remaining - 1, depth + 1)
         case Ok(d) => Ok(Decoded(List(d.value), d.rest, d.remaining))
         case Err(e) => Err(e)
  {
    hide DecodeEntries, DecodeItems, PutU32, GetU32, Header;
    CountOfHeader(5, count, body);
  }

  lemma {:induction false} ItemsRoundTrip(items: seq<Value>, suffix: bytes, maxDepth: nat, remaining: nat, depth: nat)
    requires forall i :: 0 <= i < |items| ==> Admissible(items[i], depth)
    requires maxDepth >= MAX_DEPTH && NodesOfItems(items) <= remaining <= MAX_ITEMS
    ensures DecodeItems(EncodeItems(items) + suffix, |items|, maxDepth, remaining, depth)
      == Ok(Decoded(NormalizeItems(items), suffix, remaining - NodesOfItems(items)))
    decreases items
  {
    hide Encode, Nodes, Decode, Normalize;
    if items == [] {
      assert EncodeItems(items) + suffix == suffix;
    } else {
      var body := EncodeItems(items[1..]) + suffix;
      assert EncodeItems(items) + suffix == Encode(items[0]) + body;
      RoundTrip(items[0], body, maxDepth, remaining, depth);
      ItemsRoundTrip(items[1..], suffix, maxDepth, remaining - Nodes(items[0]), depth);
      assert NormalizeItems(items) == [Normalize(items[0])] + NormalizeItems(items[1..]);
    }
  }

  function NormalizeItems(items: seq<Value>): seq<Value> {
    seq(|items|, i requires 0 <= i < |items| => Normalize(items[i]))
  }

  /** A map is read back whatever order its distinct keys were written in. */
  lemma {:induction false} MapRoundTrip(
    v: Value, keys: seq<bytes>, suffix: bytes, maxDepth: nat, remaining: nat, depth: nat)
    requires v.Map? && Admissible(v, depth) && maxDepth >= MAX_DEPTH
    requires Distinct(keys) && |keys| == |v.entries| && forall k :: k in keys <==> k in v.entries
    requires 1 + NodesOfEntries(v, keys) <= remaining <= MAX_ITEMS
    ensures Decode(Header(6, |keys|) + EncodeEntries(v, keys) + suffix, maxDepth, remaining, depth)
      == Ok(Decoded(Normalize(v), suffix, remaining - 1 - NodesOfEntries(v, keys)))
    decreases v, 0, |keys| + 1
  {
    hide Encode, Nodes, Decode, EncodeEntries, NodesOfEntries, DecodeEntries, Header, Normalize, NormalizeEntries,
      Admissible, Distinct;
    AdmissibleMap(v, depth);
    var body := EncodeEntries(v, keys) + suffix;
    assert Header(6, |keys|) + EncodeEntries(v, keys) + suffix == Header(6, |keys|) + body;
    EncodedEntriesSize(v, keys);
    DecodeMapStep(body, |keys|, maxDepth, remaining, depth);
    EntriesRoundTrip(v, keys, map[], suffix, maxDepth, remaining - 1, depth + 1);
    NormalizedMap(v, keys);
  }

  lemma AdmissibleMap(v: Value, depth: nat)
    requires v.Map? && Admissible(v, depth)
    ensures depth <= MAX_DEPTH && |v.entries| < U32_SPAN
    ensures forall k :: k in v.entries ==> |k| < U32_SPAN && Admissible(v.entries[k], depth + 1)
  {
  }

  lemma NormalizedMap(v: Value, keys: seq<bytes>)
    requires v.Map? && forall k :: k in keys <==> k in v.entries
    ensures Map(map[] + NormalizeEntries(v, keys)) == Normalize(v)
  {
    assert map[] + NormalizeEntries(v, keys) == Normalize(v).entries;
  }

  ghost function NormalizeEntries(v: Value, keys: seq<bytes>): map<bytes, Value>
    requires v.Map? && forall k :: k in keys ==> k in v.entries
  {
    map k | k in keys :: Normalize(v.entries[k])
  }

  lemma {:induction false} EntriesRoundTrip(
    v: Value, keys: seq<bytes>, known: map<bytes, Value>, suffix: bytes, maxDepth: nat, remaining: nat, depth: nat)
    requires v.Map? && forall k :: k in keys ==> k in v.entries && k !in known
    requires forall k :: k in v.entries ==> |k| < U32_SPAN && Admissible(v.entries[k], depth)
    requires Distinct(keys) && maxDepth >= MAX_DEPTH && NodesOfEntries(v, keys) <= remaining <= MAX_ITEMS
    ensures DecodeEntries(EncodeEntries(v, keys) + suffix, |keys|, known, maxDepth, remaining, depth)
      == Ok(Decoded(known + NormalizeEntries(v, keys), suffix, remaining - NodesOfEntries(v, keys)))
    decreases v, 0, |keys|
  {
    hide Encode, Nodes, Decode, Normalize, Admissible, EncodeKey, GetU32, DecodeEntries, NormalizeEntries;
    if keys == [] {
      assert EncodeEntries(v, keys) + suffix == suffix;
      NoEntries(v, known, suffix, maxDepth, remaining, depth);
    } else {
      var key, item := keys[0], v.entries[keys[0]];
      var after := EncodeEntries(v, keys[1..]) + suffix;
      assert EncodeEntries(v, keys) + suffix == EncodeKey(key) + (Encode(item) + after);
      RoundTrip(item, after, maxDepth, remaining, depth);
      DecodeEntriesStep(key, Encode(item) + after, |keys|, known, maxDepth, remaining, depth);
      forall k | k in keys[1..] ensures k != key && k in keys { }
      EntriesRoundTrip(v, keys[1..], known[key := Normalize(item)], suffix, maxDepth, remaining - Nodes(item), depth);
      NormalizeEntriesStep(v, keys, known);
    }
  }

  lemma NoEntries(v: Value, known: map<bytes, Value>, data: bytes, maxDepth: nat, remaining: nat, depth: nat)
    requires v.Map?
    ensures DecodeEntries(data, 0, known, maxDepth, remaining, depth)
      == Ok(Decoded(known + NormalizeEntries(v, []), data, remaining))
  {
    assert known + NormalizeEntries(v, []) == known;
  }

  lemma NormalizeEntriesStep(v: Value, keys: seq<bytes>, known: map<bytes, Value>)
    requires v.Map? && keys != [] && forall k :: k in keys ==> k in v.entries
    ensures known[keys[0] := Normalize(v.entries[keys[0]])] + NormalizeEntries(v, keys[1..])
      == known + NormalizeEntries(v, keys)
  {
    hide Normalize;
    assert forall k :: k in keys <==> k == keys[0] || k in keys[1..];
  }

  lemma DecodeEntriesStep(
    key: bytes, after: bytes, count: nat, known: map<bytes, Value>, maxDepth: nat, remaining: nat, depth: nat)
    requires |key| < U32_SPAN && count > 0 && key !in known
    ensures DecodeEntries(EncodeKey(key) + after, count, known, maxDepth, remaining, depth)
      == match Decode(after, maxDepth, remaining, depth)
         case Ok(d) => DecodeEntries(d.rest, count - 1, known[key := d.value], maxDepth, d.remaining, depth)
         case Err(e) => Err(e)
  {
    hide Decode, EncodeKey, GetU32;
    KeyLayout(key, after);
  }
}
