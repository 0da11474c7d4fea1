/**
  Reading is local: what the decoder reads depends only on the bytes it consumes,
  and on no more of the item budget than it spends.
*/
module NativeLocality {
  import opened Bytes
  import opened NativeValue
  import opened Results

  /** The front of `data` that was consumed when `rest` was left. */
  function Used(data: bytes, rest: bytes): bytes
    requires |rest| <= |data|
  {
    data[..|data| - |rest|]
  }

  ghost predicate Suffix(rest: bytes, data: bytes) {
    |rest| <= |data| && data == Used(data, rest) + rest
  }

  lemma SuffixOf(data: bytes, i: nat)
    requires i <= |data|
    ensures Suffix(data[i..], data) && Used(data, data[i..]) == data[..i]
  {
    assert data == data[..i] + data[i..];
  }

  lemma SuffixTrans(a: bytes, b: bytes, c: bytes)
    requires Suffix(a, b) && Suffix(b, c)
    ensures Suffix(a, c) && Used(c, a) == Used(c, b) + Used(b, a)
  {
    assert c == Used(c, b) + (Used(b, a) + a);
    assert c == (Used(c, b) + Used(b, a)) + a;
    assert c[..|c| - |a|] == Used(c, b) + Used(b, a);
  }

  // ----- what is left is the end of what was there

  lemma {:induction false} DecodeLeaves(data: bytes, maxDepth: nat, remaining: nat, depth: nat)
    requires Decode(data, maxDepth, remaining, depth).Ok?
    ensures Suffix(Decode(data, maxDepth, remaining, depth).value.rest, data)
    decreases |data|, 0
  {
    hide DecodeItems, DecodeEntries, DecodeBinary, Suffix, GetU32;
    var d, rest := Decode(data, maxDepth, remaining, depth).value, data[1..];
    SuffixOf(data, 1);
    match data[0] as int
    case 4 =>
      BinaryLeaves(rest, remaining - 1);
      SuffixTrans(d.rest, rest, data);
    case 5 =>
      SuffixOf(rest, 4);
      ItemsLeave(rest[4..], GetU32(rest), maxDepth, remaining - 1, depth + 1);
      SuffixTrans(d.rest, rest[4..], rest);
      SuffixTrans(d.rest, rest, data);
    case 6 =>
      SuffixOf(rest, 4);
      EntriesLeave(rest[4..], GetU32(rest), map[], maxDepth, remaining - 1, depth + 1);
      SuffixTrans(d.rest, rest[4..], rest);
      SuffixTrans(d.rest, rest, data);
    case _ => ScalarLeaves(data, maxDepth, remaining, depth);
  }

  lemma BinaryLeaves(rest: bytes, left: nat)
    requires DecodeBinary(rest, left).Ok?
    ensures Suffix(DecodeBinary(rest, left).value.rest, rest)
  {
    hide GetU32;
    SuffixOf(rest, 4 + GetU32(rest));
  }

  lemma ScalarLeaves(data: bytes, maxDepth: nat, remaining: nat, depth: nat)
    requires Decode(data, maxDepth, remaining, depth).Ok? && data[0] !in {4, 5, 6}
    ensures Suffix(Decode(data, maxDepth, remaining, depth).value.rest, data)
  {
    hide DecodeItems, DecodeEntries, DecodeBinary, Suffix, GetU32, GetU64;
    SuffixOf(data, 1);
    if |data| >= 9 {
      SuffixOf(data, 9);
      assert data[1..][8..] == data[9..];
    }
  }

  lemma {:induction false} ItemsLeave(data: bytes, count: nat, maxDepth: nat, remaining: nat, depth: nat)
    requires DecodeItems(data, count, maxDepth, remaining, depth).Ok?
    ensures var d := DecodeItems(data, count, maxDepth, remaining, depth).value;
      Suffix(d.rest, data) && |data| - |d.rest| >= count && remaining - d.remaining >= count
    decreases |data|, 1
  {
    hide Decode, Suffix;
    if count == 0 {
      SuffixOf(data, 0);
    } else {
      var head := Decode(data, maxDepth, remaining, depth).value;
      DecodeLeaves(data, maxDepth, remaining, depth);
      ItemsLeave(head.rest, count - 1, maxDepth, head.remaining, depth);
      SuffixTrans(DecodeItems(data, count, maxDepth, remaining, depth).value.rest, head.rest, data);
    }
  }

  lemma {:induction false} EntriesLeave(
    data: bytes, count: nat, known: map<bytes, Value>, maxDepth: nat, remaining: nat, depth: nat)
    requires DecodeEntries(data, count, known, maxDepth, remaining, depth).Ok?
    ensures var d := DecodeEntries(data, count, known, maxDepth, remaining, depth).value;
      Suffix(d.rest, data) && |data| - |d.rest| >= 5 * count && remaining - d.remaining >= count
    decreases |data|, 1
  {
    hide Decode, Suffix, GetU32;
    if count == 0 {
      SuffixOf(data, 0);
    } else {
      var end, d := 4 + GetU32(data), DecodeEntries(data, count, known, maxDepth, remaining, depth).value;
      var key, item := data[4..end], Decode(data[end..], maxDepth, remaining, depth).value;
      SuffixOf(data, end);
      DecodeLeaves(data[end..], maxDepth, remaining, depth);
      EntriesLeave(item.rest, count - 1, known[key := item.value], maxDepth, item.remaining, depth);
      SuffixTrans(d.rest, item.rest, data[end..]);
      SuffixTrans(d.rest, data[end..], data);
    }
  }

  // ----- the consumed bytes alone, before anything else and under any budget that pays for them

  lemma {:induction false} DecodeAlone(data: bytes, maxDepth: nat, remaining: nat, depth: nat, suffix: bytes, budget: nat)
    requires Decode(data, maxDepth, remaining, depth).Ok?
    requires remaining - Decode(data, maxDepth, remaining, depth).value.remaining <= budget
    ensures var d := Decode(data, maxDepth, remaining, depth).value;
      Decode(Used(data, d.rest) + suffix, maxDepth, budget, depth)
      == Ok(Decoded(d.value, suffix, budget - (remaining - d.remaining)))
    decreases |data|, 0
  {
    hide DecodeItems, DecodeEntries, DecodeBinary, Suffix, GetU32, GetU64, Decode, Used;
    DecodeLeaves(data, maxDepth, remaining, depth);
    DecodeStarts(data, maxDepth, remaining, depth);
    if data[0] == 4 {
      BinaryAlone(data, maxDepth, remaining, depth, suffix, budget);
    } else if data[0] == 5 {
      ListParts(data, maxDepth, remaining, depth);
      var rest := data[1..];
      ItemsAlone(rest[4..], GetU32(rest), maxDepth, remaining - 1, depth + 1, suffix, budget - 1);
      ListAlone(data, maxDepth, remaining, depth, suffix, budget);
    } else if data[0] == 6 {
      MapParts(data, maxDepth, remaining, depth);
      var rest := data[1..];
      EntriesAlone(rest[4..], GetU32(rest), map[], maxDepth, remaining - 1, depth + 1, suffix, budget - 1);
      MapAlone(data, maxDepth, remaining, depth, suffix, budget);
    } else {
      ScalarAlone(data, maxDepth, remaining, depth, suffix, budget);
    }
  }

  lemma DecodeStarts(data: bytes, maxDepth: nat, remaining: nat, depth: nat)
    requires Decode(data, maxDepth, remaining, depth).Ok?
    ensures data != [] && depth <= maxDepth && remaining > 0
  {
    hide DecodeItems, DecodeEntries, DecodeBinary, GetU32, GetU64;
  }

  lemma ScalarAlone(data: bytes, maxDepth: nat, remaining: nat, depth: nat, suffix: bytes, budget: nat)
    requires Decode(data, maxDepth, remaining, depth).Ok? && data[0] !in {4, 5, 6}
    requires remaining - Decode(data, maxDepth, remaining, depth).value.remaining <= budget
    ensures var d := Decode(data, maxDepth, remaining, depth).value;
      Decode(Used(data, d.rest) + suffix, maxDepth, budget, depth)
      == Ok(Decoded(d.value, suffix, budget - (remaining - d.remaining)))
  {
    hide DecodeItems, DecodeEntries, DecodeBinary, GetU32, GetU64;
    var d := Decode(data, maxDepth, remaining, depth).value;
    var all := Used(data, d.rest) + suffix;
    if data[0] as int <= 2 {
      assert all[0] == data[0] && all[1..] == suffix;
    } else {
      WordAlone(data, suffix);
      assert |d.rest| == |data| - 9;
    }
  }

  lemma WordAlone(data: bytes, suffix: bytes)
    requires |data| >= 9
    ensures var all := data[..9] + suffix;
      all[0] == data[0] && |all[1..]| >= 8 && all[1..][8..] == suffix && GetU64(all[1..]) == GetU64(data[1..])
  {
    var all := data[..9] + suffix;
    forall i | 0 <= i < 8 ensures all[1..][i] == data[1..][i] { }
  }

  lemma CountAlone(rest: bytes, k: nat, suffix: bytes)
    requires 4 <= k <= |rest|
    ensures var all := rest[..k] + suffix; |all| >= 4 && GetU32(all) == GetU32(rest) && all[4..] == rest[4..k] + suffix
  {
  }

  lemma BinaryAlone(data: bytes, maxDepth: nat, remaining: nat, depth: nat, suffix: bytes, budget: nat)
    requires Decode(data, maxDepth, remaining, depth).Ok? && data[0] == 4
    requires remaining - Decode(data, maxDepth, remaining, depth).value.remaining <= budget
    ensures var d := Decode(data, maxDepth, remaining, depth).value;
      Decode(Used(data, d.rest) + suffix, maxDepth, budget, depth)
      == Ok(Decoded(d.value, suffix, budget - (remaining - d.remaining)))
  {
    hide DecodeItems, DecodeEntries, GetU32, GetU64;
    var d, rest := Decode(data, maxDepth, remaining, depth).value, data[1..];
    var size := GetU32(rest);
    var all := Used(data, d.rest) + suffix;
    assert |d.rest| == |data| - 5 - size;
    assert all[0] == data[0] && all[1..] == rest[..4 + size] + suffix;
    CountAlone(rest, 4 + size, suffix);
    assert all[1..][4..4 + size] == rest[4..4 + size];
    assert all[1..][4 + size..] == suffix;
  }

  /** The parts of an accepted list. */
  lemma ListParts(data: bytes, maxDepth: nat, remaining: nat, depth: nat)
    requires Decode(data, maxDepth, remaining, depth).Ok? && data[0] == 5
    ensures var rest := data[1..];
      && |rest| >= 4 && GetU32(rest) <= MAX_ITEMS && remaining > 0
      && var items := DecodeItems(rest[4..], GetU32(rest), maxDepth, remaining - 1, depth + 1);
         items.Ok? && Decode(data, maxDepth, remaining, depth)
           == Ok(Decoded(List(items.value.value), items.value.rest, items.value.remaining))
  {
    hide DecodeItems, DecodeEntries, DecodeBinary, GetU32, GetU64;
  }

  lemma MapParts(data: bytes, maxDepth: nat, remaining: nat, depth: nat)
    requires Decode(data, maxDepth, remaining, depth).Ok? && data[0] == 6
    ensures var rest := data[1..];
      && |rest| >= 4 && GetU32(rest) <= MAX_ITEMS && remaining > 0
      && var entries := DecodeEntries(rest[4..], GetU32(rest), map[], maxDepth, remaining - 1, depth + 1);
         entries.Ok? && Decode(data, maxDepth, remaining, depth)
           == Ok(Decoded(Map(entries.value.value), entries.value.rest, entries.value.remaining))
  {
    hide DecodeItems, DecodeEntries, DecodeBinary, GetU32, GetU64;
  }

  /** A list or map whose parts read is read. */
  lemma ListWhole(all: bytes, maxDepth: nat, budget: nat, depth: nat)
    requires |all| >= 5 && all[0] == 5 && depth <= maxDepth && budget > 0
    requires CountInBounds(GetU32(all[1..]), |all| - 5, 1) && GetU32(all[1..]) <= budget - 1
    requires DecodeItems(all[1..][4..], GetU32(all[1..]), maxDepth, budget - 1, depth + 1).Ok?
    ensures var items := DecodeItems(all[1..][4..], GetU32(all[1..]), maxDepth, budget - 1, depth + 1).value;
      Decode(all, maxDepth, budget, depth) == Ok(Decoded(List(items.value), items.rest, items.remaining))
  {
    hide DecodeItems, DecodeEntries, DecodeBinary, GetU32, GetU64;
  }

  lemma MapWhole(all: bytes, maxDepth: nat, budget: nat, depth: nat)
    requires |all| >= 5 && all[0] == 6 && depth <= maxDepth && budget > 0
    requires CountInBounds(GetU32(all[1..]), |all| - 5, 5) && GetU32(all[1..]) <= budget - 1
    requires DecodeEntries(all[1..][4..], GetU32(all[1..]), map[], maxDepth, budget - 1, depth + 1).Ok?
    ensures var entries := DecodeEntries(all[1..][4..], GetU32(all[1..]), map[], maxDepth, budget - 1, depth + 1).value;
      Decode(all, maxDepth, budget, depth) == Ok(Decoded(Map(entries.value), entries.rest, entries.remaining))
  {
    hide DecodeItems, DecodeEntries, DecodeBinary, GetU32, GetU64;
  }

  /** The consumed front of a counted part: a tag, the count and what the count announces. */
  lemma FrontAlone(data: bytes, rest: bytes, suffix: bytes)
    requires |data| >= 5 && Suffix(rest, data[1..][4..])
    ensures var all := Used(data, rest) + suffix;
      && |rest| <= |data| && |all| >= 5 && all[0] == data[0] && GetU32(all[1..]) == GetU32(data[1..])
      && all[1..][4..] == Used(data[1..][4..], rest) + suffix
  {
    hide GetU32;
    var k := |data| - |rest|;
    var all := Used(data, rest) + suffix;
    CountAlone(data[1..], k - 1, suffix);
    assert all[1..] == data[1..][..k - 1] + suffix;
    assert data[1..][4..k - 1] == Used(data[1..][4..], rest);
  }

  lemma ListAlone(data: bytes, maxDepth: nat, remaining: nat, depth: nat, suffix: bytes, budget: nat)
    requires Decode(data, maxDepth, remaining, depth).Ok? && data[0] == 5 && depth <= maxDepth && remaining > 0
    requires remaining - Decode(data, maxDepth, remaining, depth).value.remaining <= budget && |data| >= 5
    requires var body, count := data[1..][4..], GetU32(data[1..]);
      && DecodeItems(body, count, maxDepth, remaining - 1, depth + 1).Ok? && budget > 0
      && var d := DecodeItems(body, count, maxDepth, remaining - 1, depth + 1).value;
         && remaining - 1 - d.remaining <= budget - 1
         && DecodeItems(Used(body, d.rest) + suffix, count, maxDepth, budget - 1, depth + 1)
            == Ok(Decoded(d.value, suffix, budget - 1 - (remaining - 1 - d.remaining)))
    ensures var d := Decode(data, maxDepth, remaining, depth).value;
      Decode(Used(data, d.rest) + suffix, maxDepth, budget, depth)
      == Ok(Decoded(d.value, suffix, budget - (remaining - d.remaining)))
  {
    hide DecodeItems, DecodeEntries, DecodeBinary, GetU32, GetU64, Decode, Used, Suffix;
    ListParts(data, maxDepth, remaining, depth);
    var body, count := data[1..][4..], GetU32(data[1..]);
    var d := DecodeItems(body, count, maxDepth, remaining - 1, depth + 1).value;
    ItemsLeave(body, count, maxDepth, remaining - 1, depth + 1);
    FrontAlone(data, d.rest, suffix);
    UsedSize(body, d.rest);
    ListWhole(Used(data, d.rest) + suffix, maxDepth, budget, depth);
  }

  lemma UsedSize(data: bytes, rest: bytes)
    requires |rest| <= |data|
    ensures |Used(data, rest)| == |data| - |rest|
  {
  }

  lemma MapAlone(data: bytes, maxDepth: nat, remaining: nat, depth: nat, suffix: bytes, budget: nat)
    requires Decode(data, maxDepth, remaining, depth).Ok? && data[0] == 6 && depth <= maxDepth && remaining > 0
    requires remaining - Decode(data, maxDepth, remaining, depth).value.remaining <= budget && |data| >= 5
    requires var body, count := data[1..][4..], GetU32(data[1..]);
      && DecodeEntries(body, count, map[], maxDepth, remaining - 1, depth + 1).Ok? && budget > 0
      && var d := DecodeEntries(body, count, map[], maxDepth, remaining - 1, depth + 1).value;
         && remaining - 1 - d.remaining <= budget - 1
         && DecodeEntries(Used(body, d.rest) + suffix, count, map[], maxDepth, budget - 1, depth + 1)
            == Ok(Decoded(d.value, suffix, budget - 1 - (remaining - 1 - d.remaining)))
    ensures var d := Decode(data, maxDepth, remaining, depth).value;
      Decode(Used(data, d.rest) + suffix, maxDepth, budget, depth)
      == Ok(Decoded(d.value, suffix, budget - (remaining - d.remaining)))
  {
    hide DecodeItems, DecodeEntries, DecodeBinary, GetU32, GetU64, Decode, Used, Suffix;
    MapParts(data, maxDepth, remaining, depth);
    var body, count := data[1..][4..], GetU32(data[1..]);
    var d := DecodeEntries(body, count, map[], maxDepth, remaining - 1, depth + 1).value;
    EntriesLeave(body, count, map[], maxDepth, remaining - 1, depth + 1);
    FrontAlone(data, d.rest, suffix);
    UsedSize(body, d.rest);
    MapWhole(Used(data, d.rest) + suffix, maxDepth, budget, depth);
  }

  lemma {:induction false} ItemsAlone(
    data: bytes, count: nat, maxDepth: nat, remaining: nat, depth: nat, suffix: bytes, budget: nat)
    requires DecodeItems(data, count, maxDepth, remaining, depth).Ok?
    requires remaining - DecodeItems(data, count, maxDepth, remaining, depth).value.remaining <= budget
    ensures var d := DecodeItems(data, count, maxDepth, remaining, depth).value;
      DecodeItems(Used(data, d.rest) + suffix, count, maxDepth, budget, depth)
      == Ok(Decoded(d.value, suffix, budget - (remaining - d.remaining)))
    decreases |data|, 1
  {
    hide Decode, Suffix, Used;
    var d := DecodeItems(data, count, maxDepth, remaining, depth).value;
    if count == 0 {
      NothingUsed(data, suffix);
    } else {
      var head := Decode(data, maxDepth, remaining, depth).value;
      var tail := DecodeItems(head.rest, count - 1, maxDepth, head.remaining, depth).value;
      DecodeLeaves(data, maxDepth, remaining, depth);
      ItemsLeave(head.rest, count - 1, maxDepth, head.remaining, depth);
      SuffixTrans(tail.rest, head.rest, data);
      DecodeAlone(data, maxDepth, remaining, depth, Used(head.rest, tail.rest) + suffix, budget);
      ItemsAlone(head.rest, count - 1, maxDepth, head.remaining, depth, suffix, budget - (remaining - head.remaining));
      assert Used(data, d.rest) + suffix == Used(data, head.rest) + (Used(head.rest, tail.rest) + suffix);
    }
  }

  lemma NothingUsed(data: bytes, suffix: bytes)
    ensures Used(data, data) + suffix == suffix
  {
  }

  lemma {:induction false} EntriesAlone(
    data: bytes, count: nat, known: map<bytes, Value>, maxDepth: nat, remaining: nat, depth: nat, suffix: bytes, budget: nat)
    requires DecodeEntries(data, count, known, maxDepth, remaining, depth).Ok?
    requires remaining - DecodeEntries(data, count, known, maxDepth, remaining, depth).value.remaining <= budget
    ensures var d := DecodeEntries(data, count, known, maxDepth, remaining, depth).value;
      DecodeEntries(Used(data, d.rest) + suffix, count, known, maxDepth, budget, depth)
      == Ok(Decoded(d.value, suffix, budget - (remaining - d.remaining)))
    decreases |data|, 1
  {
    hide Decode, Suffix, Used, GetU32;
    var d := DecodeEntries(data, count, known, maxDepth, remaining, depth).value;
    if count == 0 {
      NothingUsed(data, suffix);
    } else {
      var end := 4 + GetU32(data);
      var key, item := data[4..end], Decode(data[end..], maxDepth, remaining, depth).value;
      var more := known[key := item.value];
      DecodeLeaves(data[end..], maxDepth, remaining, depth);
      EntriesLeave(item.rest, count - 1, more, maxDepth, item.remaining, depth);
      var after := Used(item.rest, d.rest) + suffix;
      DecodeAlone(data[end..], maxDepth, remaining, depth, after, budget);
      EntriesAlone(item.rest, count - 1, more, maxDepth, item.remaining, depth, suffix, budget - (remaining - item.remaining));
      EntryFront(data, end, item.rest, d.rest, suffix);
      var all := Used(data, d.rest) + suffix;
      assert all[end..] == Used(data[end..], item.rest) + after;
    }
  }

  lemma EntryFront(data: bytes, end: nat, middle: bytes, rest: bytes, suffix: bytes)
    requires 4 <= end <= |data| && Suffix(middle, data[end..]) && Suffix(rest, middle)
    ensures |rest| <= |data|
    ensures var all := Used(data, rest) + suffix;
      && |all| >= end && GetU32(all) == GetU32(data) && all[4..end] == data[4..end]
      && all[end..] == Used(data[end..], middle) + (Used(middle, rest) + suffix)
  {
    SuffixTrans(rest, middle, data[end..]);
    SuffixOf(data, end);
    SuffixTrans(rest, data[end..], data);
    var all := Used(data, rest) + suffix;
    assert all == data[..end] + (Used(data[end..], middle) + Used(middle, rest) + suffix);
    forall i | 0 <= i < 4 ensures all[i] == data[i] { }
  }
}
