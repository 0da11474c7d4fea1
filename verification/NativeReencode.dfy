/**
  The way back: whatever the decoder accepts can be encoded again, in as many
  bytes and nodes, and reads as the same normal form, in whatever order the
  entries of its maps arrived.
*/
module NativeReencode {
  import opened Bytes
  import opened ByteOrder
  import opened MapSums
  import opened NativeValue
  import opened Results
  import opened Sequences
  import NativeRoundTrip

  // ----- sizes of maps do not depend on the order of their entries

  ghost function EntrySizes(entries: map<bytes, Value>): map<bytes, nat> {
    map k | k in entries :: EntrySize(k, entries[k])
  }

  ghost function EntrySize(key: bytes, item: Value): nat {
    4 + |key| + |Encode(item)|
  }

  ghost function EntryNodes(entries: map<bytes, Value>): map<bytes, nat> {
    map k | k in entries :: Nodes(entries[k])
  }

  ghost function Only(m: map<bytes, nat>, keys: seq<bytes>): map<bytes, nat> {
    map k | k in m && k in keys :: m[k]
  }

  lemma FirstOut(m: map<bytes, nat>, keys: seq<bytes>)
    requires keys != [] && Distinct(keys) && keys[0] in m
    ensures keys[0] in Only(m, keys) && Only(m, keys)[keys[0]] == m[keys[0]]
    ensures Only(m, keys) - {keys[0]} == Only(m, keys[1..])
    ensures Distinct(keys[1..])
  {
    assert keys == [keys[0]] + keys[1..];
    assert keys[0] !in keys[1..];
  }

  lemma {:induction false} EntriesTotal(v: Value, keys: seq<bytes>)
    requires v.Map? && Distinct(keys) && forall k :: k in keys ==> k in v.entries
    ensures |EncodeEntries(v, keys)| == Sum(Only(EntrySizes(v.entries), keys))
    ensures NodesOfEntries(v, keys) == Sum(Only(EntryNodes(v.entries), keys))
    decreases |keys|
  {
    hide Sum, Encode, Nodes;
    var sizes, nodes := EntrySizes(v.entries), EntryNodes(v.entries);
    if keys == [] {
      NoSum(Only(sizes, keys));
      NoSum(Only(nodes, keys));
    } else {
      FirstOut(sizes, keys);
      FirstOut(nodes, keys);
      SumRemove(Only(sizes, keys), keys[0]);
      SumRemove(Only(nodes, keys), keys[0]);
      EntriesTotal(v, keys[1..]);
    }
  }

  lemma NoSum(m: map<bytes, nat>)
    requires m == map[]
    ensures Sum(m) == 0
  {
  }

  lemma MapTotal(entries: map<bytes, Value>)
    ensures |Encode(Map(entries))| == 5 + Sum(EntrySizes(entries))
    ensures Nodes(Map(entries)) == 1 + Sum(EntryNodes(entries))
  {
    hide Sum, EncodeEntries, NodesOfEntries, Distinct, SortedKeys, Ascending, Header, Encode, Nodes;
    var keys := SortedKeys(entries.Keys);
    NativeRoundTrip.SortedIsDistinct(entries.Keys);
    NativeRoundTrip.EncodedMap(Map(entries));
    EntriesTotal(Map(entries), keys);
    assert Only(EntrySizes(entries), keys) == EntrySizes(entries);
    assert Only(EntryNodes(entries), keys) == EntryNodes(entries);
  }

  lemma EntryAdded(known: map<bytes, Value>, key: bytes, item: Value)
    requires key !in known
    ensures Sum(EntrySizes(known[key := item])) == Sum(EntrySizes(known)) + 4 + |key| + |Encode(item)|
    ensures Sum(EntryNodes(known[key := item])) == Sum(EntryNodes(known)) + Nodes(item)
  {
    hide Sum, EntrySizes, EntryNodes, Encode, Nodes;
    SizesUpdate(known, key, item);
    NodesUpdate(known, key, item);
    SumUpdate(EntrySizes(known), key, EntrySize(key, item));
    SumUpdate(EntryNodes(known), key, Nodes(item));
  }

  lemma SizesUpdate(known: map<bytes, Value>, key: bytes, item: Value)
    ensures EntrySizes(known[key := item]) == EntrySizes(known)[key := EntrySize(key, item)]
    ensures key !in known ==> key !in EntrySizes(known)
  {
    hide EntrySize;
  }

  lemma NodesUpdate(known: map<bytes, Value>, key: bytes, item: Value)
    ensures EntryNodes(known[key := item]) == EntryNodes(known)[key := Nodes(item)]
    ensures key !in known ==> key !in EntryNodes(known)
  {
    hide Nodes;
  }

  /** Entries that fit beyond one that was added fit beyond those before it. */
  lemma EntriesStep(
    known: map<bytes, Value>, key: bytes, item: Value, entries: map<bytes, Value>, depth: nat, consumed: int, spent: int)
    requires key !in known && |key| < U32_SPAN && Admissible(item, depth)
    requires EntriesFit(known[key := item], entries, depth, consumed, spent)
    ensures EntriesFit(known, entries, depth, consumed + 4 + |key| + |Encode(item)|, spent + Nodes(item))
  {
    hide Sum, EntrySizes, EntryNodes, Encode, Nodes, Admissible;
    EntryAdded(known, key, item);
    forall k | k in known ensures k in entries && entries[k] == known[k] {
      assert k in known[key := item] && known[key := item][k] == known[k];
    }
    assert key in known[key := item];
  }

  lemma EntriesNone(known: map<bytes, Value>, depth: nat)
    ensures EntriesFit(known, known, depth, 0, 0)
  {
  }

  // ----- what was decoded

  /** The value fits the encoder's limits and weighs what was consumed. */
  ghost predicate Fits(v: Value, depth: nat, consumed: int, spent: int) {
    Admissible(v, depth) && |Encode(v)| == consumed && Nodes(v) == spent
  }

  ghost predicate ItemsFit(items: seq<Value>, depth: nat, consumed: int, spent: int) {
    && (forall i :: 0 <= i < |items| ==> Admissible(items[i], depth))
    && |EncodeItems(items)| == consumed && NodesOfItems(items) == spent
  }

  ghost predicate EntriesFit(known: map<bytes, Value>, entries: map<bytes, Value>, depth: nat, consumed: int, spent: int) {
    && (forall k :: k in known ==> k in entries && entries[k] == known[k])
    && (forall k :: k in entries && k !in known ==> |k| < U32_SPAN && Admissible(entries[k], depth))
    && Sum(EntrySizes(entries)) == Sum(EntrySizes(known)) + consumed
    && Sum(EntryNodes(entries)) == Sum(EntryNodes(known)) + spent
  }

  lemma {:induction false} DecodedFits(data: bytes, maxDepth: nat, remaining: nat, depth: nat)
    requires maxDepth <= MAX_DEPTH && Decode(data, maxDepth, remaining, depth).Ok?
    ensures var d := Decode(data, maxDepth, remaining, depth).value;
      Fits(d.value, depth, |data| - |d.rest|, remaining - d.remaining)
    decreases |data|, 0
  {
    hide Fits, ItemsFit, EntriesFit, DecodeItems, DecodeEntries, DecodeBinary;
    var rest, left := data[1..], remaining - 1;
    match data[0] as int
    case 4 => BinaryFits(rest, left, depth);
    case 5 =>
      DecodedItems(rest[4..], GetU32(rest), maxDepth, left, depth + 1);
      ListFits(data, maxDepth, remaining, depth);
    case 6 =>
      DecodedEntries(rest[4..], GetU32(rest), map[], maxDepth, left, depth + 1);
      MapFits(data, maxDepth, remaining, depth);
    case _ => ScalarFits(data, maxDepth, remaining, depth);
  }

  lemma ScalarFits(data: bytes, maxDepth: nat, remaining: nat, depth: nat)
    requires maxDepth <= MAX_DEPTH && Decode(data, maxDepth, remaining, depth).Ok? && data[0] !in {4, 5, 6}
    ensures var d := Decode(data, maxDepth, remaining, depth).value;
      Fits(d.value, depth, |data| - |d.rest|, remaining - d.remaining)
  {
    hide DecodeItems, DecodeEntries, DecodeBinary, EncodeItems, EncodeEntries;
  }

  lemma BinaryFits(rest: bytes, left: nat, depth: nat)
    requires DecodeBinary(rest, left).Ok? && depth <= MAX_DEPTH
    ensures var d := DecodeBinary(rest, left).value; Fits(d.value, depth, 1 + |rest| - |d.rest|, 1)
  {
    hide EncodeItems, EncodeEntries;
  }

  lemma ListFits(data: bytes, maxDepth: nat, remaining: nat, depth: nat)
    requires maxDepth <= MAX_DEPTH && Decode(data, maxDepth, remaining, depth).Ok? && data[0] == 5
    requires var rest := data[1..];
      var items := DecodeItems(rest[4..], GetU32(rest), maxDepth, remaining - 1, depth + 1).value;
      ItemsFit(items.value, depth + 1, |rest| - 4 - |items.rest|, remaining - 1 - items.remaining) && |items.value| == GetU32(rest)
    ensures var d := Decode(data, maxDepth, remaining, depth).value;
      Fits(d.value, depth, |data| - |d.rest|, remaining - d.remaining)
  {
    hide DecodeItems, DecodeEntries, DecodeBinary, EncodeItems, EncodeEntries, NodesOfItems, GetU32;
    CountFits(data[1..]);
  }

  lemma CountFits(rest: bytes)
    requires |rest| >= 4
    ensures GetU32(rest) < U32_SPAN
  {
  }

  lemma MapFits(data: bytes, maxDepth: nat, remaining: nat, depth: nat)
    requires maxDepth <= MAX_DEPTH && Decode(data, maxDepth, remaining, depth).Ok? && data[0] == 6
    requires var rest := data[1..];
      var entries := DecodeEntries(rest[4..], GetU32(rest), map[], maxDepth, remaining - 1, depth + 1).value;
      && EntriesFit(map[], entries.value, depth + 1, |rest| - 4 - |entries.rest|, remaining - 1 - entries.remaining)
      && |entries.value| == GetU32(rest)
    ensures var d := Decode(data, maxDepth, remaining, depth).value;
      Fits(d.value, depth, |data| - |d.rest|, remaining - d.remaining)
  {
    hide DecodeItems, DecodeEntries, DecodeBinary, EncodeItems, EncodeEntries, NodesOfEntries, GetU32, Sum, Encode, Nodes,
      Admissible, EntrySizes, EntryNodes;
    CountFits(data[1..]);
    var entries := Decode(data, maxDepth, remaining, depth).value.value.entries;
    MapAdmissible(entries, depth);
    MapTotal(entries);
    NothingKnown();
  }

  lemma MapAdmissible(entries: map<bytes, Value>, depth: nat)
    requires depth <= MAX_DEPTH && |entries| < U32_SPAN
    requires forall k :: k in entries ==> |k| < U32_SPAN && Admissible(entries[k], depth + 1)
    ensures Admissible(Map(entries), depth)
  {
  }

  lemma NothingKnown()
    ensures Sum(EntrySizes(map[])) == 0 && Sum(EntryNodes(map[])) == 0
  {
    NoSum(EntrySizes(map[]));
    NoSum(EntryNodes(map[]));
  }

  lemma {:induction false} DecodedItems(data: bytes, count: nat, maxDepth: nat, remaining: nat, depth: nat)
    requires maxDepth <= MAX_DEPTH && DecodeItems(data, count, maxDepth, remaining, depth).Ok?
    ensures var d := DecodeItems(data, count, maxDepth, remaining, depth).value;
      ItemsFit(d.value, depth, |data| - |d.rest|, remaining - d.remaining) && |d.value| == count
    decreases |data|, 1
  {
    hide Decode, Encode, Nodes, Admissible;
    if count > 0 {
      DecodedFits(data, maxDepth, remaining, depth);
      var head := Decode(data, maxDepth, remaining, depth).value;
      DecodedItems(head.rest, count - 1, maxDepth, head.remaining, depth);
      var tail := DecodeItems(head.rest, count - 1, maxDepth, head.remaining, depth).value;
      assert ([head.value] + tail.value)[1..] == tail.value;
    }
  }

  lemma {:induction false} DecodedEntries(
    data: bytes, count: nat, known: map<bytes, Value>, maxDepth: nat, remaining: nat, depth: nat)
    requires maxDepth <= MAX_DEPTH && DecodeEntries(data, count, known, maxDepth, remaining, depth).Ok?
    ensures var d := DecodeEntries(data, count, known, maxDepth, remaining, depth).value;
      EntriesFit(known, d.value, depth, |data| - |d.rest|, remaining - d.remaining) && |d.value| == |known| + count
    decreases |data|, 1
  {
    hide Decode, Encode, Nodes, Admissible, EntriesFit, GetU32;
    if count == 0 {
      EntriesNone(known, depth);
    } else {
      CountFits(data);
      var key, after := data[4..4 + GetU32(data)], data[4 + GetU32(data)..];
      DecodedFits(after, maxDepth, remaining, depth);
      var item := Decode(after, maxDepth, remaining, depth).value;
      DecodedEntries(item.rest, count - 1, known[key := item.value], maxDepth, item.remaining, depth);
      var entries := DecodeEntries(item.rest, count - 1, known[key := item.value], maxDepth, item.remaining, depth).value;
      EntriesStep(known, key, item.value, entries.value, depth, |item.rest| - |entries.rest|, item.remaining - entries.remaining);
      assert |known[key := item.value]| == |known| + 1;
    }
  }

  /** A decoded value, encoded again and read again, is its own normal form, after as many bytes and nodes. */
  lemma ReencodedReadsAlike(data: bytes, suffix: bytes)
    requires Decode(data, MAX_DEPTH, MAX_ITEMS, 0).Ok?
    ensures var d := Decode(data, MAX_DEPTH, MAX_ITEMS, 0).value;
      && Admissible(d.value, 0) && |Encode(d.value)| == |data| - |d.rest|
      && Decode(Encode(d.value) + suffix, MAX_DEPTH, MAX_ITEMS, 0) == Ok(Decoded(Normalize(d.value), suffix, d.remaining))
  {
    hide Decode, Encode, Nodes, Admissible, Normalize;
    DecodedFits(data, MAX_DEPTH, MAX_ITEMS, 0);
    var d := Decode(data, MAX_DEPTH, MAX_ITEMS, 0).value;
    NativeRoundTrip.RoundTrip(d.value, suffix, MAX_DEPTH, MAX_ITEMS, 0);
  }
}
