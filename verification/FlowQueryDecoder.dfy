/** The typed FLOW.QUERY decoder's loops: a moving offset and a shared item budget. */
module FlowQueryDecoder {
  import opened Bytes
  import opened NativeValue
  import opened NativeDecoder
  import opened CompactReaders
  import opened CompactReaderLoops
  import opened FlowQueryResult
  import FlowQueryWire
  import opened Results
  import opened Utf8

  /** A method's outcome and the budget it left agree with the reading function. */
  ghost predicate Reads<T>(r: Option<Read<T>>, remaining: int, spec: Option<Taken<T>>) {
    match spec
    case Some(t) => r == Some(Read(t.value, t.next)) && remaining == t.remaining
    case None => r == None
  }

  method ReadTextAt(data: bytes, offset: nat, budget: DecodeBudget) returns (r: Option<Read<Value>>)
    requires budget.remaining >= 0
    modifies budget
    ensures Reads(r, budget.remaining, ReadText(data, offset, old(budget.remaining)))
  {
    hide GetU32, ValidUtf8;
    if offset >= |data| {
      return None;
    }
    budget.remaining := budget.remaining - 1;
    if budget.remaining < 0 {
      return None;
    }
    if data[offset] == 0 {
      return Some(Read(Nil, offset + 1));
    }
    if data[offset] != 4 || |data| - offset < 5 {
      return None;
    }
    var size := GetU32(data[offset + 1..]);
    if size > |data| - offset - 5 {
      return None;
    }
    var next := offset + 5 + size;
    var text := data[offset + 5..next];
    if |text| == 0 || !ValidUtf8(text) {
      return None;
    }
    return Some(Read(Text(text), next));
  }

  ghost function After(record: Record, rest: Option<Taken<Record>>): Option<Taken<Record>> {
    match rest
    case None => None
    case Some(t) => Some(t.(value := record + t.value))
  }

  lemma {:induction false} LaterFields(data: bytes, offset: nat, bitmap: nat, index: nat, remaining: nat, typed: bool)
    requires offset <= |data| && index <= FIELDS
    ensures var r := ReadFieldsFrom(data, offset, bitmap, index, remaining, typed);
      r.Some? ==> StartsAt(r.value.value, index)
    decreases FIELDS - index
  {
    hide ReadField, HasBit, StartsAt;
    if index == FIELDS {
      NoneStarts();
    } else if !HasBit(bitmap, index) {
      LaterFields(data, offset, bitmap, index + 1, remaining, typed);
      var rest := ReadFieldsFrom(data, offset, bitmap, index + 1, remaining, typed);
      if rest.Some? { StartsEarlier(rest.value.value, index); }
    } else {
      var field := ReadField(data, offset, remaining, index, typed);
      if field.Some? {
        LaterFields(data, field.value.next, bitmap, index + 1, field.value.remaining, typed);
        var rest := ReadFieldsFrom(data, field.value.next, bitmap, index + 1, field.value.remaining, typed);
        if rest.Some? { StartsWith(rest.value.value, index, field.value.value); }
      }
    }
  }

  lemma NoneStarts()
    ensures StartsAt(map[], FIELDS)
  {
  }

  lemma FieldStep(record: Record, data: bytes, offset: nat, bitmap: nat, index: nat, remaining: nat, typed: bool)
    requires offset <= |data| && index < FIELDS && HasBit(bitmap, index)
    ensures var here := After(record, ReadFieldsFrom(data, offset, bitmap, index, remaining, typed));
      match ReadField(data, offset, remaining, index, typed)
      case None => here == None
      case Some(field) =>
        here == After(record[index := field.value], ReadFieldsFrom(data, field.next, bitmap, index + 1, field.remaining, typed))
  {
    hide ReadField, HasBit;
    var field := ReadField(data, offset, remaining, index, typed);
    if field.Some? {
      var rest := ReadFieldsFrom(data, field.value.next, bitmap, index + 1, field.value.remaining, typed);
      LaterFields(data, field.value.next, bitmap, index + 1, field.value.remaining, typed);
      if rest.Some? {
        StartsEarlier(rest.value.value, index);
        DisjointUpdate(record, rest.value.value, index, field.value.value);
      }
    }
  }

  lemma DisjointUpdate(a: Record, b: Record, index: nat, v: Value)
    requires index !in b
    ensures a + b[index := v] == a[index := v] + b
  {
  }

  lemma NoFieldsYet(r: Option<Taken<Record>>)
    ensures After(map[], r) == r
  {
    if r.Some? { assert map[] + r.value.value == r.value.value; }
  }

  lemma NoFieldsLeft(record: Record, data: bytes, offset: nat, bitmap: nat, remaining: nat, typed: bool)
    requires offset <= |data|
    ensures After(record, ReadFieldsFrom(data, offset, bitmap, FIELDS, remaining, typed)) == Some(Taken(record, offset, remaining))
  {
    assert record + map[] == record;
  }

  lemma NoBit(data: bytes, offset: nat, bitmap: nat, index: nat, remaining: nat, typed: bool)
    requires offset <= |data| && index < FIELDS && !HasBit(bitmap, index)
    ensures ReadFieldsFrom(data, offset, bitmap, index, remaining, typed) == ReadFieldsFrom(data, offset, bitmap, index + 1, remaining, typed)
  {
  }

  method ReadFieldAt(data: bytes, offset: nat, index: nat, budget: DecodeBudget, typed: bool) returns (r: Option<Read<Value>>)
    requires offset <= |data| && budget.remaining >= 0 && budget.maxDepth == MAX_DEPTH
    modifies budget
    ensures Reads(r, budget.remaining, ReadField(data, offset, old(budget.remaining), index, typed))
  {
    hide ReadText, TakeValue;
    if typed && TextField(index) {
      r := ReadTextAt(data, offset, budget);
      return;
    }
    var value := DecodeAt(data, offset, budget);
    match value
    case Err(_) => return None;
    case Ok(v) => return Some(v);
  }

  method ReadRecordAt(data: bytes, start: nat, budget: DecodeBudget, typed: bool) returns (r: Option<Read<Record>>)
    requires budget.remaining >= 0 && budget.maxDepth == MAX_DEPTH
    modifies budget
    ensures Reads(r, budget.remaining, ReadRecord(data, start, old(budget.remaining), typed))
  {
    hide ReadFieldsFrom, ReadField, HasBit, GetU32, Power;
    if |data| - start < 4 {
      return None;
    }
    var bitmap := GetU32(data[start..]);
    if bitmap >= Power(FIELDS) {
      return None;
    }
    var offset: nat := start + 4;
    ghost var spec := ReadFieldsFrom(data, offset, bitmap, 0, budget.remaining, typed);
    var record: Record := map[];
    NoFieldsYet(spec);
    for index := 0 to FIELDS
      invariant offset <= |data| && budget.remaining >= 0
      invariant After(record, ReadFieldsFrom(data, offset, bitmap, index, budget.remaining, typed)) == spec
    {
      if !HasBit(bitmap, index) {
        NoBit(data, offset, bitmap, index, budget.remaining, typed);
        continue;
      }
      FieldStep(record, data, offset, bitmap, index, budget.remaining, typed);
      var field := ReadFieldAt(data, offset, index, budget, typed);
      if field.None? {
        return None;
      }
      offset := field.value.next;
      record := record[index := field.value.value];
    }
    NoFieldsLeft(record, data, offset, bitmap, budget.remaining, typed);
    return Some(Read(record, offset));
  }

  ghost function Following(records: seq<Record>, rest: Option<Read<seq<Record>>>): Option<Read<seq<Record>>> {
    match rest
    case None => None
    case Some(t) => Some(Read(records + t.value, t.next))
  }

  lemma RecordStep(records: seq<Record>, data: bytes, offset: nat, count: nat, remaining: nat, typed: bool)
    requires offset <= |data| && count > 0
    ensures var here := Following(records, ReadRecords(data, offset, count, remaining, typed));
      match ReadRecord(data, offset, remaining, typed)
      case None => here == None
      case Some(first) =>
        here == Following(records + [first.value], ReadRecords(data, first.next, count - 1, first.remaining, typed))
  {
    hide ReadRecord;
    var first := ReadRecord(data, offset, remaining, typed);
    if first.Some? {
      var rest := ReadRecords(data, first.value.next, count - 1, first.value.remaining, typed);
      if rest.Some? {
        assert records + ([first.value.value] + rest.value.value) == records + [first.value.value] + rest.value.value;
      }
    }
  }

  lemma NoRecords(data: bytes, offset: nat, count: nat, remaining: nat, typed: bool, records: seq<Record>)
    requires offset <= |data|
    ensures Following([], ReadRecords(data, offset, count, remaining, typed)) == ReadRecords(data, offset, count, remaining, typed)
    ensures Following(records, ReadRecords(data, offset, 0, remaining, typed)) == Some(Read(records, offset))
  {
    hide ReadRecord;
    var r := ReadRecords(data, offset, count, remaining, typed);
    if r.Some? { assert [] + r.value.value == r.value.value; }
    assert records + [] == records;
  }

  method ReadRecordsAt(data: bytes, start: nat, count: nat, typed: bool) returns (r: Option<Read<seq<Record>>>)
    requires start <= |data| && count <= MAX_RECORDS
    ensures r == ReadRecords(data, start, count, MAX_ITEMS - count, typed)
  {
    hide ReadRecords, ReadRecord;
    var budget := new DecodeBudget(MAX_DEPTH, MAX_ITEMS);
    budget.remaining := budget.remaining - count;
    var records, offset: nat := [], start;
    ghost var spec := ReadRecords(data, start, count, MAX_ITEMS - count, typed);
    NoRecords(data, start, count, MAX_ITEMS - count, typed, []);
    for index := 0 to count
      invariant fresh(budget) && offset <= |data| && budget.remaining >= 0 && budget.maxDepth == MAX_DEPTH
      invariant Following(records, ReadRecords(data, offset, count - index, budget.remaining, typed)) == spec
    {
      RecordStep(records, data, offset, count - index, budget.remaining, typed);
      var record := ReadRecordAt(data, offset, budget, typed);
      if record.None? {
        return None;
      }
      offset := record.value.next;
      records := records + [record.value.value];
    }
    NoRecords(data, offset, 0, budget.remaining, typed, records);
    return Some(Read(records, offset));
  }

  /** The header's two loops: quality codes, then counters. */
  method ReadHeader(data: bytes) returns (head: Option<Head>)
    ensures head == ReadHead(data)
  {
    hide ReadQuality, ReadUsage, ReadU64;
    if |data| < 2 + 4 + 8 * USAGE_FIELDS || data[0] != QUERY_RESULT {
      return None;
    }
    var quality := ReadQualities(data);
    if quality.None? {
      return None;
    }
    var usage := ReadCounters(data);
    if usage.None? {
      return None;
    }
    return Some(Head(data[1], quality.value, UsageOf(usage.value), 6 + 8 * USAGE_FIELDS));
  }

  ghost function Prefixed<T>(before: seq<T>, rest: Option<seq<T>>): Option<seq<T>> {
    if rest.None? then None else Some(before + rest.value)
  }

  lemma PrefixedStep<T>(before: seq<T>, x: T, rest: Option<seq<T>>)
    ensures Prefixed([], rest) == rest
    ensures rest.Some? ==> Prefixed(before, Some([x] + rest.value)) == Prefixed(before + [x], rest)
    ensures Prefixed(before, Some([])) == Some(before)
  {
    if rest.Some? {
      assert [] + rest.value == rest.value;
      assert before + ([x] + rest.value) == before + [x] + rest.value;
    }
    assert before + [] == before;
  }

  method ReadQualities(data: bytes) returns (quality: Option<seq<string>>)
    requires |data| >= 6
    ensures quality == ReadQuality(data, 2, 0)
  {
    var values: seq<string> := [];
    var offset: nat := 2;
    PrefixedStep(values, "", ReadQuality(data, 2, 0));
    for index := 0 to 4
      invariant offset == 2 + index
      invariant Prefixed(values, ReadQuality(data, offset, index)) == ReadQuality(data, 2, 0)
    {
      var code := data[offset];
      offset := offset + 1;
      if code >= 4 || QUALITY[index][code] == "" {
        return None;
      }
      PrefixedStep(values, QUALITY[index][code], ReadQuality(data, offset, index + 1));
      values := values + [QUALITY[index][code]];
    }
    PrefixedStep(values, "", None);
    return Some(values);
  }

  method ReadCounters(data: bytes) returns (usage: Option<seq<int>>)
    ensures usage == ReadUsage(data, 6, USAGE_FIELDS)
  {
    hide ReadU64;
    var values: seq<int> := [];
    var offset: nat := 6;
    PrefixedStep(values, 0, ReadUsage(data, 6, USAGE_FIELDS));
    for index := 0 to USAGE_FIELDS
      invariant offset == 6 + 8 * index
      invariant Prefixed(values, ReadUsage(data, offset, USAGE_FIELDS - index)) == ReadUsage(data, 6, USAGE_FIELDS)
    {
      var value := ReadU64(data, offset);
      if value.None? {
        return None;
      }
      PrefixedStep(values, value.value, ReadUsage(data, offset + 8, USAGE_FIELDS - index - 1));
      offset := offset + 8;
      values := values + [value.value];
    }
    PrefixedStep(values, 0, None);
    return Some(values);
  }

  /** The compact result, decoded straight into the typed one. */
  method DecodeTyped(data: bytes) returns (result: Option<QueryResult>)
    ensures result == DecodeCompact(data, true)
    ensures FlowQueryWire.Reads(data, result, true)
  {
    hide ReadHead, ReadPage, ReadRecords, GetU32, GetU64, CountersOk, FlowQueryWire.Reads;
    FlowQueryWire.DecodesWritten(data, true);
    var head := ReadHeader(data);
    if head.None? || !CountersOk(head.value.usage) {
      return None;
    }
    var usage := head.value.usage;
    var shape: Shape, offset: nat;
    if head.value.kind == 0 {
      var page := ReadPage(data, head.value.next);
      if page.None? || |data| - page.value.next < 4 {
        return None;
      }
      var count := GetU32(data[page.value.next..]);
      if count > MAX_RECORDS {
        return None;
      }
      var records := ReadRecordsAt(data, page.value.next + 4, count, true);
      if records.None? || !RecordUsageOk(usage, count) {
        return None;
      }
      shape, offset := Records(records.value.value, page.value.value), records.value.next;
    } else if head.value.kind == 1 {
      var count := ReadU64(data, head.value.next);
      if count.None? || !CountUsageOk(usage) {
        return None;
      }
      shape, offset := Count(count.value), head.value.next + 8;
    } else {
      return None;
    }
    if offset != |data| || usage.responseBytes != |data| {
      return None;
    }
    return Some(QueryResult(head.value.quality, usage, shape));
  }

  /** The compact result as generic values; usage is checked before the records are read. */
  method DecodeGeneric(data: bytes) returns (result: Option<QueryResult>)
    ensures result == DecodeCompact(data, false)
    ensures FlowQueryWire.Reads(data, result, false)
  {
    hide ReadHead, ReadPage, ReadRecords, GetU32, GetU64, CountersOk, FlowQueryWire.Reads;
    FlowQueryWire.DecodesWritten(data, false);
    var head := ReadHeader(data);
    if head.None? || !CountersOk(head.value.usage) {
      return None;
    }
    var usage := head.value.usage;
    var shape: Shape, offset: nat;
    if head.value.kind == 0 {
      var page := ReadPage(data, head.value.next);
      if page.None? || |data| - page.value.next < 4 {
        return None;
      }
      var count := GetU32(data[page.value.next..]);
      if count > MAX_RECORDS || !RecordUsageOk(usage, count) {
        return None;
      }
      var records := ReadRecordsAt(data, page.value.next + 4, count, false);
      if records.None? {
        return None;
      }
      shape, offset := Records(records.value.value, page.value.value), records.value.next;
    } else if head.value.kind == 1 {
      if !CountUsageOk(usage) {
        return None;
      }
      var count := ReadU64(data, head.value.next);
      if count.None? {
        return None;
      }
      shape, offset := Count(count.value), head.value.next + 8;
    } else {
      return None;
    }
    if offset != |data| || usage.responseBytes != |data| {
      return None;
    }
    return Some(QueryResult(head.value.quality, usage, shape));
  }

  // ----- the slow path's records

  const TEXT_FIELDS: seq<nat> := [0, 1, 2, 5, 11, 13, 14, 15, 18]

  lemma TextFieldsListed(index: nat)
    ensures TextField(index) <==> index in TEXT_FIELDS
  {
  }

  /** The record with the first `n` text fields converted. */
  ghost predicate ConvertedTo(record: Record, n: nat, mapping: Record, textOf: Value -> Option<bytes>)
    requires n <= |TEXT_FIELDS|
  {
    && mapping.Keys == record.Keys
    && (forall i: nat :: i in record && i !in TEXT_FIELDS[..n] ==> mapping[i] == record[i])
    && forall k :: 0 <= k < n && TEXT_FIELDS[k] in record ==> AsText(record[TEXT_FIELDS[k]], textOf) == Some(mapping[TEXT_FIELDS[k]])
  }

  /** Text fields are converted in place, one after the other. */
  method ConvertFields(record: Record, textOf: Value -> Option<bytes>) returns (converted: Option<Record>)
    ensures converted == ConvertRecord(record, textOf)
  {
    hide AsText, TextField, ConvertedTo, ConvertRecord;
    var mapping := record;
    NoneConverted(record, textOf);
    for k := 0 to |TEXT_FIELDS|
      invariant ConvertedTo(record, k, mapping, textOf)
    {
      var field := TEXT_FIELDS[k];
      NextField(record, k, mapping, textOf);
      if field !in mapping {
        continue;
      }
      var text := AsText(mapping[field], textOf);
      if text.None? {
        return None;
      }
      mapping := mapping[field := text.value];
    }
    AllConverted(record, mapping, textOf);
    return Some(mapping);
  }

  /** A text field of the record is as it was until its turn comes. */
  lemma NextField(record: Record, k: nat, mapping: Record, textOf: Value -> Option<bytes>)
    requires k < |TEXT_FIELDS| && ConvertedTo(record, k, mapping, textOf)
    ensures var field := TEXT_FIELDS[k];
      && (field in mapping <==> field in record)
      && (field !in record ==> ConvertedTo(record, k + 1, mapping, textOf))
      && (field in record ==>
            && mapping[field] == record[field]
            && (AsText(record[field], textOf).Some?
                ==> ConvertedTo(record, k + 1, mapping[field := AsText(record[field], textOf).value], textOf))
            && (AsText(record[field], textOf).None? ==> ConvertRecord(record, textOf).None?))
  {
    hide AsText, TextField;
    DistinctFields(k);
    TextFieldsListed(TEXT_FIELDS[k]);
    assert TEXT_FIELDS[..k + 1] == TEXT_FIELDS[..k] + [TEXT_FIELDS[k]];
    EarlierDiffer(k);
  }

  lemma NoneConverted(record: Record, textOf: Value -> Option<bytes>)
    ensures ConvertedTo(record, 0, record, textOf)
  {
  }

  lemma EarlierDiffer(k: nat)
    requires k < |TEXT_FIELDS|
    ensures forall j :: 0 <= j < k ==> TEXT_FIELDS[j] != TEXT_FIELDS[k]
  {
  }

  lemma DistinctFields(k: nat)
    requires k < |TEXT_FIELDS|
    ensures TEXT_FIELDS[k] !in TEXT_FIELDS[..k]
  {
  }

  lemma AllConverted(record: Record, mapping: Record, textOf: Value -> Option<bytes>)
    requires ConvertedTo(record, |TEXT_FIELDS|, mapping, textOf)
    ensures ConvertRecord(record, textOf) == Some(mapping)
  {
    hide AsText, TextField;
    forall i: nat | i in record
      ensures TextField(i) ==> AsText(record[i], textOf) == Some(mapping[i])
      ensures !TextField(i) ==> mapping[i] == record[i]
    {
      TextFieldsListed(i);
      assert TEXT_FIELDS[..|TEXT_FIELDS|] == TEXT_FIELDS;
      if i in TEXT_FIELDS { var k :| 0 <= k < |TEXT_FIELDS| && TEXT_FIELDS[k] == i; }
    }
    assert ConvertRecord(record, textOf).value == mapping;
  }

  method ConvertRecordMaps(items: seq<Record>, textOf: Value -> Option<bytes>) returns (records: Option<seq<Record>>)
    ensures records == if |items| > MAX_RECORDS then None else ConvertRecords(items, textOf)
  {
    hide ConvertRecord;
    if |items| > MAX_RECORDS {
      return None;
    }
    var converted: seq<Record> := [];
    PrefixedStep(converted, map[], ConvertRecords(items, textOf));
    assert items[0..] == items;
    for index := 0 to |items|
      invariant Prefixed(converted, ConvertRecords(items[index..], textOf)) == ConvertRecords(items, textOf)
    {
      assert items[index..][1..] == items[index + 1..];
      var record := ConvertFields(items[index], textOf);
      if record.None? {
        return None;
      }
      PrefixedStep(converted, record.value, ConvertRecords(items[index + 1..], textOf));
      converted := converted + [record.value];
    }
    PrefixedStep(converted, map[], None);
    return Some(converted);
  }
}
