/**
  How native values are spelled, tag by tag: a relation between bytes and values
  that neither the encoder nor the decoder is made of. The encoder spells what it
  writes, with one tag for each kind, and the decoder accepts nothing but spellings.
*/
module NativeSpelling {
  import opened Bytes
  import opened ByteOrder
  import opened NativeValue
  import opened Results
  import opened Sequences
  import NativeLocality
  import NativeRoundTrip

  /** The byte that a value of each kind begins with; unsigned numbers have their own only when they need it. */
  function Tag(v: Value): byte {
    match v
    case Nil => 0
    case Bool(b) => if b then 1 else 2
    case Int(_) => 3
    case UInt(u) => if u < 0x8000_0000_0000_0000 then 3 else 8
    case Float(_) => 7
    case Text(_) => 4
    case Binary(_) => 4
    case NilBinary => 4
    case List(_) => 5
    case Map(_) => 6
  }

  /** A tag and an eight-byte number, most significant byte first. */
  predicate Word(b: bytes, tag: byte, n: int) {
    && |b| == 9 && b[0] == tag
    && n == ((((((b[1] as int * 0x100 + b[2]) * 0x100 + b[3]) * 0x100 + b[4]) * 0x100 + b[5]) * 0x100 + b[6]) * 0x100 + b[7]) * 0x100 + b[8]
  }

  /** A four-byte number, most significant byte first. */
  predicate Count(b: bytes, n: int) {
    |b| >= 4 && n == ((b[0] as int * 0x100 + b[1]) * 0x100 + b[2]) * 0x100 + b[3]
  }

  predicate Counted(b: bytes, tag: byte, n: int) {
    |b| >= 5 && b[0] == tag && Count(b[1..], n)
  }

  ghost predicate Spells(b: bytes, v: Value)
    decreases v, 1, 0
  {
    match v
    case Nil => b == [0]
    case Bool(x) => b == if x then [1] else [2]
    case Int(i) => Word(b, 3, if i < 0 then i + 0x1_0000_0000_0000_0000 else i)
    case UInt(u) => Word(b, 8, u) || (u < 0x8000_0000_0000_0000 && Word(b, 3, u))
    case Float(bits) => Word(b, 7, bits)
    case Text(text) => Counted(b, 4, |text|) && b[5..] == text
    case Binary(data) => Counted(b, 4, |data|) && b[5..] == data
    case NilBinary => Counted(b, 4, 0) && |b| == 5
    case List(items) => Counted(b, 5, |items|) && SpellsItems(b[5..], items)
    case Map(entries) =>
      && Counted(b, 6, |entries|)
      && exists keys :: Lists(keys, entries) && SpellsEntries(b[5..], v, keys)
  }

  /** The keys in some order, each once. */
  ghost predicate Lists(keys: seq<bytes>, entries: map<bytes, Value>) {
    Distinct(keys) && |keys| == |entries| && forall k :: k in keys <==> k in entries
  }

  ghost predicate SpellsItems(b: bytes, items: seq<Value>)
    decreases items
  {
    if items == [] then b == []
    else exists i :: 0 <= i <= |b| && Spells(b[..i], items[0]) && SpellsItems(b[i..], items[1..])
  }

  ghost predicate SpellsEntries(b: bytes, v: Value, keys: seq<bytes>)
    requires v.Map? && forall k :: k in keys ==> k in v.entries
    decreases v, 0, |keys|
  {
    if keys == [] then b == []
    else
      var start := 4 + |keys[0]|;
      && Count(b, |keys[0]|) && start <= |b| && b[4..start] == keys[0]
      && exists i :: start <= i <= |b| && Spells(b[start..i], v.entries[keys[0]]) && SpellsEntries(b[i..], v, keys[1..])
  }

  // ----- numbers

  lemma GetCount(b: bytes)
    requires |b| >= 4
    ensures Count(b, GetU32(b))
  {
  }

  lemma GetWord(b: bytes)
    requires |b| == 9
    ensures Word(b, b[0], GetU64(b[1..]))
  {
    var w := b[1..];
    assert w[4..][0] == b[5] && w[4..][1] == b[6] && w[4..][2] == b[7] && w[4..][3] == b[8];
    var hi := GetU32(w);
    assert hi == ((b[1] as int * 0x100 + b[2]) * 0x100 + b[3]) * 0x100 + b[4];
  }

  lemma PutWord(tag: byte, n: uint64)
    ensures Word([tag] + PutU64(n), tag, n)
  {
    hide PutU64, Word;
    var b := [tag] + PutU64(n);
    U64RoundTrip(n, []);
    assert PutU64(n) + [] == b[1..];
    GetWord(b);
  }

  lemma PutCount(n: nat, rest: bytes)
    requires n < U32_SPAN
    ensures Count(PutU32(n) + rest, n)
  {
    hide PutU32, Count, GetU32;
    U32RoundTrip(n, rest);
    GetCount(PutU32(n) + rest);
  }

  lemma HeaderCounts(tag: byte, n: nat, rest: bytes)
    requires n < U32_SPAN
    ensures Counted(Header(tag, n) + rest, tag, n) && (Header(tag, n) + rest)[5..] == rest
  {
    hide PutU32, Count;
    PutCount(n, rest);
    assert (Header(tag, n) + rest)[1..] == PutU32(n) + rest;
  }

  // ----- what the encoder writes

  lemma {:induction false} EncodedIsSpelled(v: Value, depth: nat)
    requires Admissible(v, depth)
    ensures Spells(Encode(v), v) && Encode(v) != [] && Encode(v)[0] == Tag(v)
    decreases v, 1, 0
  {
    hide Admissible, Encode, EncodeItems, EncodeEntries, SpellsItems, SpellsEntries, SortedKeys, Distinct, Lists;
    if v.List? {
      ListIsSpelled(v, depth);
    } else if v.Map? {
      MapIsSpelled(v, depth);
    } else {
      LeafIsSpelled(v, depth);
    }
  }

  lemma LeafIsSpelled(v: Value, depth: nat)
    requires Admissible(v, depth) && !v.List? && !v.Map?
    ensures Spells(Encode(v), v) && Encode(v) != [] && Encode(v)[0] == Tag(v)
  {
    hide Word, PutU64, Counted, Header;
    match v
    case Int(i) => PutWord(3, ToU64(i));
    case UInt(u) => PutWord(if u < INT64_SPAN then 3 else 8, u);
    case Float(bits) => PutWord(7, bits);
    case Text(text) => HeaderCounts(4, |text|, text); HeaderFirst(4, |text|, text);
    case Binary(data) => HeaderCounts(4, |data|, data); HeaderFirst(4, |data|, data);
    case NilBinary =>
      HeaderCounts(4, 0, []);
      HeaderFirst(4, 0, []);
      assert Header(4, 0) + [] == Header(4, 0);
    case _ =>
  }

  lemma HeaderFirst(tag: byte, n: nat, rest: bytes)
    ensures Header(tag, n) + rest != [] && (Header(tag, n) + rest)[0] == tag
  {
  }

  lemma {:induction false} ListIsSpelled(v: Value, depth: nat)
    requires v.List? && Admissible(v, depth)
    ensures Spells(Encode(v), v) && Encode(v) != [] && Encode(v)[0] == Tag(v)
    decreases v, 0, 0
  {
    hide Header, EncodeItems, SpellsItems;
    HeaderCounts(5, |v.items|, EncodeItems(v.items));
    HeaderFirst(5, |v.items|, EncodeItems(v.items));
    ItemsAreSpelled(v.items, depth + 1);
  }

  lemma {:induction false} ItemsAreSpelled(items: seq<Value>, depth: nat)
    requires forall i :: 0 <= i < |items| ==> Admissible(items[i], depth)
    ensures SpellsItems(EncodeItems(items), items)
    decreases items
  {
    hide Encode, Spells, Admissible;
    if items != [] {
      EncodedIsSpelled(items[0], depth);
      ItemsAreSpelled(items[1..], depth);
      var all, i := EncodeItems(items), |Encode(items[0])|;
      assert all[..i] == Encode(items[0]) && all[i..] == EncodeItems(items[1..]);
    }
  }

  lemma {:induction false} MapIsSpelled(v: Value, depth: nat)
    requires v.Map? && Admissible(v, depth)
    ensures Spells(Encode(v), v) && Encode(v) != [] && Encode(v)[0] == Tag(v)
    decreases v, 0, |v.entries| + 1
  {
    hide Header, Encode, EncodeEntries, SpellsEntries, SortedKeys, Distinct, Admissible;
    var keys := SortedKeys(v.entries.Keys);
    NativeRoundTrip.SortedIsDistinct(v.entries.Keys);
    NativeRoundTrip.EncodedMap(v);
    NativeRoundTrip.AdmissibleMap(v, depth);
    HeaderCounts(6, |keys|, EncodeEntries(v, keys));
    HeaderFirst(6, |keys|, EncodeEntries(v, keys));
    EntriesAreSpelled(v, keys, depth + 1);
    assert Lists(keys, v.entries);
  }

  lemma {:induction false} EntriesAreSpelled(v: Value, keys: seq<bytes>, depth: nat)
    requires v.Map? && forall k :: k in keys ==> k in v.entries
    requires forall k :: k in v.entries ==> |k| < U32_SPAN && Admissible(v.entries[k], depth)
    ensures SpellsEntries(EncodeEntries(v, keys), v, keys)
    decreases v, 0, |keys|
  {
    hide Encode, Spells, SpellsEntries, Admissible, Count, EncodeKey;
    if keys == [] {
      NoEntriesSpelled(v);
    } else {
      var key, item := keys[0], v.entries[keys[0]];
      EncodedIsSpelled(item, depth);
      EntriesAreSpelled(v, keys[1..], depth);
      EntryParts(key, Encode(item), EncodeEntries(v, keys[1..]));
      assert EncodeEntries(v, keys) == EncodeKey(key) + Encode(item) + EncodeEntries(v, keys[1..]);
      OneMoreEntry(EncodeEntries(v, keys), v, keys, 4 + |key| + |Encode(item)|);
    }
  }

  lemma OneMoreEntry(b: bytes, v: Value, keys: seq<bytes>, i: nat)
    requires v.Map? && keys != [] && forall k :: k in keys ==> k in v.entries
    requires Count(b, |keys[0]|) && 4 + |keys[0]| <= i <= |b| && b[4..4 + |keys[0]|] == keys[0]
    requires Spells(b[4 + |keys[0]|..i], v.entries[keys[0]]) && SpellsEntries(b[i..], v, keys[1..])
    ensures SpellsEntries(b, v, keys)
  {
    hide Spells, Count;
  }

  lemma NoEntriesSpelled(v: Value)
    requires v.Map?
    ensures SpellsEntries([], v, [])
  {
  }

  lemma EntryParts(key: bytes, item: bytes, rest: bytes)
    requires |key| < U32_SPAN
    ensures var all, start := EncodeKey(key) + item + rest, 4 + |key|;
      && |all| == start + |item| + |rest| && Count(all, |key|) && all[4..start] == key && all[start..start + |item|] == item && all[start + |item|..] == rest
  {
    hide Count, PutU32;
    assert EncodeKey(key) + item + rest == PutU32(|key|) + (key + item + rest);
    PutCount(|key|, key + item + rest);
  }

  // ----- what the decoder accepts

  lemma {:induction false} DecodedIsSpelled(data: bytes, maxDepth: nat, remaining: nat, depth: nat)
    requires Decode(data, maxDepth, remaining, depth).Ok?
    ensures var d := Decode(data, maxDepth, remaining, depth).value;
      |d.rest| <= |data| && Suffix(data, d.rest) && Spells(Front(data, d.rest), d.value)
    decreases |data|, 0
  {
    hide Decode, DecodeItems, DecodeEntries, DecodeBinary, Spells, GetU32, GetU64, Suffix, Front;
    ReadsSomething(data, maxDepth, remaining, depth);
    if data[0] == 5 {
      NativeLocality.ListParts(data, maxDepth, remaining, depth);
      ItemsReadSpelled(data[1..][4..], GetU32(data[1..]), maxDepth, remaining - 1, depth + 1);
      ListReadSpelled(data, DecodeItems(data[1..][4..], GetU32(data[1..]), maxDepth, remaining - 1, depth + 1).value);
    } else if data[0] == 6 {
      NativeLocality.MapParts(data, maxDepth, remaining, depth);
      var keys := EntriesReadSpelled(data[1..][4..], GetU32(data[1..]), map[], maxDepth, remaining - 1, depth + 1);
      MapReadSpelled(data, DecodeEntries(data[1..][4..], GetU32(data[1..]), map[], maxDepth, remaining - 1, depth + 1).value, keys);
    } else {
      LeafReadSpelled(data, maxDepth, remaining, depth);
    }
  }

  /** What was consumed, and that nothing but it came before what was left. */
  function Front(data: bytes, rest: bytes): bytes
    requires |rest| <= |data|
  {
    data[..|data| - |rest|]
  }

  predicate Suffix(data: bytes, rest: bytes)
    requires |rest| <= |data|
  {
    data[|data| - |rest|..] == rest
  }

  lemma ReadsSomething(data: bytes, maxDepth: nat, remaining: nat, depth: nat)
    requires Decode(data, maxDepth, remaining, depth).Ok?
    ensures data != [] && depth <= maxDepth && remaining > 0 && data[0] <= 8
  {
    hide DecodeItems, DecodeEntries, DecodeBinary, GetU32, GetU64;
  }

  lemma LeafReadSpelled(data: bytes, maxDepth: nat, remaining: nat, depth: nat)
    requires Decode(data, maxDepth, remaining, depth).Ok? && data[0] !in {5, 6}
    ensures var d := Decode(data, maxDepth, remaining, depth).value;
      |d.rest| <= |data| && Suffix(data, d.rest) && Spells(Front(data, d.rest), d.value)
  {
    hide DecodeItems, DecodeEntries, GetU32, GetU64, Word, Count;
    var d := Decode(data, maxDepth, remaining, depth).value;
    if data[0] == 4 {
      BinaryReadSpelled(data);
    } else if data[0] in {3, 7, 8} {
      WordRead(data);
    } else {
      assert data[..1] == [data[0]];
    }
  }

  lemma WordRead(data: bytes)
    requires |data| >= 9
    ensures data[1..][8..] == data[9..] && Word(data[..9], data[0], GetU64(data[1..]))
    ensures var i := ToInt64(GetU64(data[1..])); (if i < 0 then i + 0x1_0000_0000_0000_0000 else i) == GetU64(data[1..])
  {
    hide GetU64, Word;
    GetWord(data[..9]);
    SameWord(data);
  }

  lemma SameWord(data: bytes)
    requires |data| >= 9
    ensures GetU64(data[..9][1..]) == GetU64(data[1..])
  {
    forall i | 0 <= i < 8 ensures data[..9][1..][i] == data[1..][i] { }
  }

  lemma BinaryReadSpelled(data: bytes)
    requires |data| >= 5 && data[0] == 4 && |data| - 5 >= GetU32(data[1..])
    ensures var size := GetU32(data[1..]);
      Spells(data[..5 + size], Binary(data[1..][4..4 + size])) && data[1..][4 + size..] == data[5 + size..]
  {
    hide GetU32;
    var size := GetU32(data[1..]);
    CountRead(data[1..], data[..5 + size][1..]);
    assert data[..5 + size][5..] == data[1..][4..4 + size];
  }

  lemma CountRead(b: bytes, c: bytes)
    requires |b| >= 4 && |c| >= 4 && b[..4] == c[..4]
    ensures Count(c, GetU32(b))
  {
    assert c[0] == b[..4][0] && c[1] == b[..4][1] && c[2] == b[..4][2] && c[3] == b[..4][3];
  }

  lemma ListReadSpelled(data: bytes, items: Decoded<seq<Value>>)
    requires |data| >= 5 && data[0] == 5 && |items.rest| <= |data| - 5 && |items.value| == GetU32(data[1..])
    requires Suffix(data[1..][4..], items.rest) && SpellsItems(Front(data[1..][4..], items.rest), items.value)
    ensures Suffix(data, items.rest) && Spells(Front(data, items.rest), List(items.value))
  {
    hide GetU32, SpellsItems, Count;
    var b := Front(data, items.rest);
    CountRead(data[1..], b[1..]);
    assert b[5..] == Front(data[1..][4..], items.rest);
  }

  lemma MapReadSpelled(data: bytes, entries: Decoded<map<bytes, Value>>, keys: seq<bytes>)
    requires |data| >= 5 && data[0] == 6 && |entries.rest| <= |data| - 5 && |entries.value| == GetU32(data[1..])
    requires Suffix(data[1..][4..], entries.rest) && Lists(keys, entries.value)
    requires SpellsEntries(Front(data[1..][4..], entries.rest), Map(entries.value), keys)
    ensures Suffix(data, entries.rest) && Spells(Front(data, entries.rest), Map(entries.value))
  {
    hide GetU32, SpellsEntries, Count, Lists;
    var b := Front(data, entries.rest);
    CountRead(data[1..], b[1..]);
    assert b[5..] == Front(data[1..][4..], entries.rest);
  }

  lemma {:induction false} ItemsReadSpelled(data: bytes, count: nat, maxDepth: nat, remaining: nat, depth: nat)
    requires DecodeItems(data, count, maxDepth, remaining, depth).Ok?
    ensures var d := DecodeItems(data, count, maxDepth, remaining, depth).value;
      && |d.rest| <= |data| && |d.value| == count && Suffix(data, d.rest)
      && SpellsItems(Front(data, d.rest), d.value)
    decreases |data|, 1
  {
    hide Decode, Spells;
    if count > 0 {
      var head := Decode(data, maxDepth, remaining, depth).value;
      DecodedIsSpelled(data, maxDepth, remaining, depth);
      ItemsReadSpelled(head.rest, count - 1, maxDepth, head.remaining, depth);
      var tail := DecodeItems(head.rest, count - 1, maxDepth, head.remaining, depth).value;
      var b, i := Front(data, tail.rest), |data| - |head.rest|;
      assert b[..i] == Front(data, head.rest) && b[i..] == Front(head.rest, tail.rest);
      assert ([head.value] + tail.value)[1..] == tail.value;
    }
  }

  /** The entries that were read, in the order in which they were read, on top of those already known. */
  lemma {:induction false} EntriesReadSpelled(
    data: bytes, count: nat, known: map<bytes, Value>, maxDepth: nat, remaining: nat, depth: nat) returns (keys: seq<bytes>)
    requires DecodeEntries(data, count, known, maxDepth, remaining, depth).Ok?
    ensures var d := DecodeEntries(data, count, known, maxDepth, remaining, depth).value;
      && |d.rest| <= |data| && Suffix(data, d.rest) && |keys| == count && |d.value| == |known| + count
      && Adds(keys, known, d.value)
      && SpellsEntries(Front(data, d.rest), Map(d.value), keys)
    decreases |data|, 1
  {
    hide Decode, Spells, GetU32, Count;
    if count == 0 {
      keys := [];
    } else {
      var end := 4 + GetU32(data);
      var key, item := data[4..end], Decode(data[end..], maxDepth, remaining, depth).value;
      var more := known[key := item.value];
      DecodedIsSpelled(data[end..], maxDepth, remaining, depth);
      var rest := EntriesReadSpelled(item.rest, count - 1, more, maxDepth, item.remaining, depth);
      var d := DecodeEntries(item.rest, count - 1, more, maxDepth, item.remaining, depth).value;
      keys := [key] + rest;
      AddsMore(key, rest, known, item.value, d.value);
      EntryReadSpelled(data, end, item, d, keys);
    }
  }

  /** From `known` to `all` exactly these keys were added, each once. */
  ghost predicate Adds(keys: seq<bytes>, known: map<bytes, Value>, all: map<bytes, Value>) {
    && Distinct(keys)
    && (forall k :: k in known ==> k in all && all[k] == known[k])
    && (forall k :: k in all <==> k in known || k in keys)
    && forall k :: k in keys ==> k !in known
  }

  lemma AddsMore(key: bytes, rest: seq<bytes>, known: map<bytes, Value>, v: Value, all: map<bytes, Value>)
    requires key !in known && Adds(rest, known[key := v], all)
    ensures Adds([key] + rest, known, all) && key in all && all[key] == v
  {
    var keys := [key] + rest;
    assert key in known[key := v];
    forall i, j | 0 <= i < j < |keys| ensures keys[i] != keys[j] { assert keys[j] == rest[j - 1]; }
    forall k | k in known ensures k in all && all[k] == known[k] { assert k in known[key := v]; }
    forall k ensures k in keys <==> k == key || k in rest { }
  }

  lemma EntryReadSpelled(data: bytes, end: nat, item: Decoded<Value>, d: Decoded<map<bytes, Value>>, keys: seq<bytes>)
    requires |data| >= 4 && end == 4 + GetU32(data) <= |data| && keys != [] && keys[0] == data[4..end]
    requires forall k :: k in keys ==> k in d.value
    requires d.value[keys[0]] == item.value
    requires |d.rest| <= |item.rest| <= |data| - end && Suffix(data[end..], item.rest) && Suffix(item.rest, d.rest)
    requires Spells(Front(data[end..], item.rest), item.value)
    requires SpellsEntries(Front(item.rest, d.rest), Map(d.value), keys[1..])
    ensures Suffix(data, d.rest) && SpellsEntries(Front(data, d.rest), Map(d.value), keys)
  {
    hide Spells, SpellsEntries, Count, GetU32;
    var b, i := Front(data, d.rest), |data| - |item.rest|;
    EntryLies(data, end, item.rest, d.rest);
    CountRead(data, b);
    OneMoreEntry(b, Map(d.value), keys, i);
  }

  lemma EntryLies(data: bytes, end: nat, middle: bytes, rest: bytes)
    requires 4 <= end <= |data| && |rest| <= |middle| <= |data| - end
    requires Suffix(data[end..], middle) && Suffix(middle, rest)
    ensures var b, i := Front(data, rest), |data| - |middle|;
      && b[4..end] == data[4..end] && b[..4] == data[..4]
      && b[end..i] == Front(data[end..], middle) && b[i..] == Front(middle, rest) && Suffix(data, rest)
  {
  }
}
