/** The readers' loops: a moving offset and a shared budget, against the reading functions. */
module CompactReaderLoops {
  import opened Bytes
  import opened NativeValue
  import opened NativeDecoder
  import opened CompactReaders
  import opened Results

  /** A method's outcome and the budget it left agree with the reading function. */
  ghost predicate Took<T>(r: Result<Read<T>, CompactError>, remaining: int, spec: Result<Taken<T>, CompactError>) {
    match spec
    case Ok(t) => r == Ok(Read(t.value, t.next)) && remaining == t.remaining
    case Err(e) => r == Err(e)
  }

  method DecodeAt(data: bytes, offset: nat, budget: DecodeBudget) returns (r: Result<Read<Value>, CompactError>)
    requires offset <= |data| && budget.remaining >= 0 && budget.maxDepth == MAX_DEPTH
    modifies budget
    ensures Took(r, budget.remaining, TakeValue(data, offset, old(budget.remaining)))
  {
    hide Decode;
    var value := DecodeValue(data[offset..], budget, 0);
    match value
    case Err(e) => return Err(Nested(e));
    case Ok(v) => return Ok(Read(v.value, |data| - |v.rest|));
  }

  method ReadFlowRecord(data: bytes, offset: nat, budget: DecodeBudget) returns (r: Result<Read<Value>, CompactError>)
    requires budget.remaining >= 0 && budget.maxDepth == MAX_DEPTH
    modifies budget
    ensures Took(r, budget.remaining, TakeFlowRecord(data, offset, old(budget.remaining)))
  {
    hide TakeFields, GetU32;
    if |data| - offset < 5 || data[offset] != FLOW_RECORD { return Err(Invalid); }
    var count := GetU32(data[offset + 1..]);
    if !CountInBounds(count, |data| - offset - 5, 2) { return Err(TooMany); }
    if count > budget.remaining { return Err(AggregateLimit); }
    budget.remaining := budget.remaining - count;
    var fields := ReadFields(data, offset + 5, count, budget);
    match fields
    case Err(e) => return Err(e);
    case Ok(f) => return Ok(Read(Map(f.value), f.next));
  }

  method ReadFields(data: bytes, start: nat, count: nat, budget: DecodeBudget)
    returns (r: Result<Read<map<bytes, Value>>, CompactError>)
    requires start <= |data| && budget.remaining >= 0 && budget.maxDepth == MAX_DEPTH
    modifies budget
    ensures Took(r, budget.remaining, TakeFields(data, start, count, map[], old(budget.remaining)))
  {
    hide TakeValue, ReadFieldName;
    ghost var spec := TakeFields(data, start, count, map[], budget.remaining);
    var record: map<bytes, Value> := map[];
    var offset: nat := start;
    for index := 0 to count
      invariant budget.remaining >= 0 && offset <= |data|
      invariant TakeFields(data, offset, count - index, record, budget.remaining) == spec
    {
      var name := ReadFieldName(data, offset);
      if name.Err? { return Err(name.error); }
      var value := DecodeAt(data, name.value.next, budget);
      if value.Err? { return Err(value.error); }
      offset := value.value.next;
      if name.value.value == [] {
        continue;
      }
      if name.value.value in record { return Err(Duplicate); }
      record := record[name.value.value := value.value.value];
    }
    return Ok(Read(record, offset));
  }

  ghost function Prefixed(items: seq<Value>, r: Result<Taken<seq<Value>>, CompactError>): Result<Taken<seq<Value>>, CompactError> {
    match r
    case Ok(t) => Ok(Taken(items + t.value, t.next, t.remaining))
    case Err(e) => Err(e)
  }

  lemma RecordsStep(items: seq<Value>, data: bytes, offset: nat, count: nat, remaining: nat)
    requires offset <= |data| && count > 0
    ensures Prefixed(items, TakeRecords(data, offset, count, remaining))
      == match TakeFlowRecord(data, offset, remaining)
         case Ok(t) => Prefixed(items + [t.value], TakeRecords(data, t.next, count - 1, t.remaining))
         case Err(e) => Err(e)
  {
    hide TakeFlowRecord;
    var head := TakeFlowRecord(data, offset, remaining);
    if head.Ok? {
      var tail := TakeRecords(data, head.value.next, count - 1, head.value.remaining);
      if tail.Ok? {
        assert items + ([head.value.value] + tail.value.value) == items + [head.value.value] + tail.value.value;
      }
    }
  }

  lemma EndOfRecords(items: seq<Value>, data: bytes, offset: nat, remaining: nat)
    requires offset <= |data|
    ensures Prefixed(items, TakeRecords(data, offset, 0, remaining)) == Ok(Taken(items, offset, remaining))
  {
    assert items + [] == items;
  }

  lemma PrefixedByNothing(r: Result<Taken<seq<Value>>, CompactError>)
    ensures Prefixed([], r) == r
  {
    if r.Ok? { assert [] + r.value.value == r.value.value; }
  }

  method ReadFlowRecordList(data: bytes, offset: nat, budget: DecodeBudget) returns (r: Result<Read<Value>, CompactError>)
    requires budget.remaining >= 0 && budget.maxDepth == MAX_DEPTH
    modifies budget
    ensures Took(r, budget.remaining, TakeFlowRecordList(data, offset, old(budget.remaining)))
  {
    hide TakeRecords, TakeFlowRecord, GetU32, Prefixed;
    if |data| - offset < 5 || data[offset] != FLOW_RECORD_LIST { return Err(Invalid); }
    var count := GetU32(data[offset + 1..]);
    if !CountInBounds(count, |data| - offset - 5, 5) { return Err(TooMany); }
    if count > budget.remaining { return Err(AggregateLimit); }
    budget.remaining := budget.remaining - count;
    ghost var spec := TakeRecords(data, offset + 5, count, budget.remaining);
    PrefixedByNothing(spec);
    var records: seq<Value> := [];
    var at: nat := offset + 5;
    for index := 0 to count
      invariant budget.remaining >= 0 && at <= |data|
      invariant Prefixed(records, TakeRecords(data, at, count - index, budget.remaining)) == spec
    {
      RecordsStep(records, data, at, count - index, budget.remaining);
      var record := ReadFlowRecord(data, at, budget);
      if record.Err? { return Err(record.error); }
      at := record.value.next;
      records := records + [record.value.value];
    }
    EndOfRecords(records, data, at, budget.remaining);
    return Ok(Read(List(records), at));
  }

  method ReadBinaryList(data: bytes, offset: nat, budget: DecodeBudget) returns (r: Result<Read<Value>, CompactError>)
    requires budget.remaining >= 0
    modifies budget
    ensures Took(r, budget.remaining, TakeBinaryList(data, offset, old(budget.remaining)))
  {
    hide ReadBinaries, ReadBinary, GetU32, PrefixedRead;
    if |data| - offset < 4 { return Err(Short); }
    var count := GetU32(data[offset..]);
    if !CountInBounds(count, |data| - offset - 4, 4) { return Err(TooMany); }
    if count > budget.remaining { return Err(AggregateLimit); }
    budget.remaining := budget.remaining - count;
    ghost var spec := ReadBinaries(data, offset + 4, count);
    BinariesPrefixedByNothing(spec);
    var values: seq<Value> := [];
    var at: nat := offset + 4;
    for index := 0 to count
      invariant at <= |data| && budget.remaining == old(budget.remaining) - count
      invariant PrefixedRead(values, ReadBinaries(data, at, count - index)) == spec
    {
      BinariesStep(values, data, at, count - index);
      var value := ReadBinary(data, at);
      if value.Err? { return Err(value.error); }
      values := values + [Binary(value.value.value)];
      at := value.value.next;
    }
    EndOfBinaries(values, data, at);
    return Ok(Read(List(values), at));
  }

  ghost function PrefixedRead(items: seq<Value>, r: Result<Read<seq<Value>>, CompactError>): Result<Read<seq<Value>>, CompactError> {
    match r
    case Ok(t) => Ok(Read(items + t.value, t.next))
    case Err(e) => Err(e)
  }

  lemma BinariesStep(items: seq<Value>, data: bytes, offset: nat, count: nat)
    requires offset <= |data| && count > 0
    ensures PrefixedRead(items, ReadBinaries(data, offset, count))
      == match ReadBinary(data, offset)
         case Ok(t) => PrefixedRead(items + [Binary(t.value)], ReadBinaries(data, t.next, count - 1))
         case Err(e) => Err(e)
  {
    hide ReadBinary;
    var head := ReadBinary(data, offset);
    if head.Ok? {
      var tail := ReadBinaries(data, head.value.next, count - 1);
      if tail.Ok? {
        assert items + ([Binary(head.value.value)] + tail.value.value) == items + [Binary(head.value.value)] + tail.value.value;
      }
    }
  }

  lemma EndOfBinaries(items: seq<Value>, data: bytes, offset: nat)
    requires offset <= |data|
    ensures PrefixedRead(items, ReadBinaries(data, offset, 0)) == Ok(Read(items, offset))
  {
    assert items + [] == items;
  }

  lemma BinariesPrefixedByNothing(r: Result<Read<seq<Value>>, CompactError>)
    ensures PrefixedRead([], r) == r
  {
    if r.Ok? { assert [] + r.value.value == r.value.value; }
  }

  method ReadBinaryMap(data: bytes, offset: nat, budget: DecodeBudget) returns (r: Result<Read<Value>, CompactError>)
    requires budget.remaining >= 0
    modifies budget
    ensures Took(r, budget.remaining, TakeBinaryMap(data, offset, old(budget.remaining)))
  {
    hide ReadBinary, GetU32;
    if |data| - offset < 4 { return Err(Short); }
    var count := GetU32(data[offset..]);
    if !CountInBounds(count, |data| - offset - 4, 8) { return Err(TooMany); }
    if count > budget.remaining { return Err(AggregateLimit); }
    budget.remaining := budget.remaining - count;
    ghost var spec := ReadPairs(data, offset + 4, count, map[]);
    var values: map<bytes, Value> := map[];
    var at: nat := offset + 4;
    for index := 0 to count
      invariant at <= |data| && budget.remaining == old(budget.remaining) - count
      invariant ReadPairs(data, at, count - index, values) == spec
    {
      var key := ReadBinary(data, at);
      if key.Err? { return Err(key.error); }
      var value := ReadBinary(data, key.value.next);
      if value.Err? { return Err(value.error); }
      if key.value.value in values { return Err(Duplicate); }
      values := values[key.value.value := Binary(value.value.value)];
      at := value.value.next;
    }
    return Ok(Read(Map(values), at));
  }
}
