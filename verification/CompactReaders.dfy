/**
  What the compact response readers accept: binaries, Flow records, record lists,
  binary lists and binary maps at an offset of a response body.
*/
module CompactReaders {
  import opened Bytes
  import opened NativeValue
  import opened Results

  const NIL_LENGTH: nat := 0xFFFF_FFFF
  const FLOW_RECORD: byte := 0x84
  const FLOW_RECORD_LIST: byte := 0x85

  const FLOW_RECORD_FIELDS: seq<string> := [
    "", "id", "type", "state", "version", "priority", "partition_key",
    "payload_ref", "result_ref", "error_ref", "payload", "result", "error",
    "created_at_ms", "updated_at_ms", "next_run_at_ms", "lease_deadline_ms",
    "lease_owner", "lease_token", "fencing_token", "attempts", "history_max_events",
    "history_hot_max_events", "child_groups", "parent_flow_id", "parent_partition_key",
    "root_flow_id", "correlation_id", "terminal_retention_until_ms", "ttl_ms",
    "retention_ttl_ms", "run_state", "value_refs", "values", "payload_omitted",
    "payload_size", "result_omitted", "result_size", "error_omitted", "error_size",
    "max_attempts", "attributes"
  ]

  datatype CompactError =
    | Short
    | Invalid
    | TooMany
    | AggregateLimit
    | Duplicate
    | EmptyName
    | Unsupported(tag: byte)
    | NegativeToken
    | Nested(cause: DecodeError)

  /** A part that was read and the offset after it. */
  datatype Read<+T> = Read(value: T, next: nat)

  /** A part that was read, the offset after it and the item budget left. */
  datatype Taken<+T> = Taken(value: T, next: nat, remaining: nat)

  function ReadBinary(data: bytes, offset: nat): (r: Result<Read<bytes>, CompactError>)
    ensures r.Ok? ==> offset + 4 <= r.value.next <= |data|
  {
    if |data| - offset < 4 then Err(Short)
    else
      var size := GetU32(data[offset..]);
      if size > |data| - offset - 4 then Err(Short)
      else Ok(Read(data[offset + 4..offset + 4 + size], offset + 4 + size))
  }

  function ReadOptionalBinary(data: bytes, offset: nat): (r: Result<Read<Option<bytes>>, CompactError>)
    ensures r.Ok? ==> offset + 4 <= r.value.next <= |data|
  {
    if |data| - offset < 4 then Err(Short)
    else if GetU32(data[offset..]) == NIL_LENGTH then Ok(Read(None, offset + 4))
    else
      var present :- ReadBinary(data, offset);
      Ok(Read(Some(present.value), present.next))
  }

  /** A native value embedded at an offset, under the shared item budget. */
  function TakeValue(data: bytes, offset: nat, remaining: nat): (r: Result<Taken<Value>, CompactError>)
    requires offset <= |data|
    ensures r.Ok? ==> offset < r.value.next <= |data| && r.value.remaining <= remaining
  {
    match Decode(data[offset..], MAX_DEPTH, remaining, 0)
    case Ok(d) => Ok(Taken(d.value, |data| - |d.rest|, d.remaining))
    case Err(e) => Err(Nested(e))
  }

  function FieldName(id: byte): bytes {
    if id as int < |FLOW_RECORD_FIELDS| then Ascii(FLOW_RECORD_FIELDS[id as int]) else []
  }

  /** The name of the field at `offset` and the offset of its value. */
  function ReadFieldName(data: bytes, offset: nat): (r: Result<Read<bytes>, CompactError>)
    ensures r.Ok? ==> offset < r.value.next <= |data|
  {
    if offset >= |data| then Err(Short)
    else if data[offset] != 0 then Ok(Read(FieldName(data[offset]), offset + 1))
    else
      var name :- ReadBinary(data, offset + 1);
      if name.value == [] then Err(EmptyName) else Ok(name)
  }

  function TakeFields(data: bytes, offset: nat, count: nat, record: map<bytes, Value>, remaining: nat)
    : (r: Result<Taken<map<bytes, Value>>, CompactError>)
    requires offset <= |data|
    ensures r.Ok? ==> offset <= r.value.next <= |data| && r.value.remaining <= remaining
    decreases count
  {
    if count == 0 then Ok(Taken(record, offset, remaining))
    else
      var name :- ReadFieldName(data, offset);
      var field :- TakeValue(data, name.next, remaining);
      // A numeric field this client does not know is validated and skipped.
      if name.value == [] then TakeFields(data, field.next, count - 1, record, field.remaining)
      else if name.value in record then Err(Duplicate)
      else TakeFields(data, field.next, count - 1, record[name.value := field.value], field.remaining)
  }

  function TakeFlowRecord(data: bytes, offset: nat, remaining: nat): (r: Result<Taken<Value>, CompactError>)
    ensures r.Ok? ==> offset + 5 <= r.value.next <= |data| && r.value.remaining <= remaining
  {
    if |data| - offset < 5 || data[offset] != FLOW_RECORD then Err(Invalid)
    else
      var count := GetU32(data[offset + 1..]);
      if !CountInBounds(count, |data| - offset - 5, 2) then Err(TooMany)
      else if count > remaining then Err(AggregateLimit)
      else
        var fields :- TakeFields(data, offset + 5, count, map[], remaining - count);
        Ok(Taken(Map(fields.value), fields.next, fields.remaining))
  }

  function TakeRecords(data: bytes, offset: nat, count: nat, remaining: nat): (r: Result<Taken<seq<Value>>, CompactError>)
    requires offset <= |data|
    ensures r.Ok? ==> offset <= r.value.next <= |data| && r.value.remaining <= remaining
    decreases count
  {
    if count == 0 then Ok(Taken([], offset, remaining))
    else
      var head :- TakeFlowRecord(data, offset, remaining);
      var tail :- TakeRecords(data, head.next, count - 1, head.remaining);
      Ok(Taken([head.value] + tail.value, tail.next, tail.remaining))
  }

  function TakeFlowRecordList(data: bytes, offset: nat, remaining: nat): (r: Result<Taken<Value>, CompactError>)
    ensures r.Ok? ==> offset + 5 <= r.value.next <= |data| && r.value.remaining <= remaining
  {
    if |data| - offset < 5 || data[offset] != FLOW_RECORD_LIST then Err(Invalid)
    else
      var count := GetU32(data[offset + 1..]);
      if !CountInBounds(count, |data| - offset - 5, 5) then Err(TooMany)
      else if count > remaining then Err(AggregateLimit)
      else
        var records :- TakeRecords(data, offset + 5, count, remaining - count);
        Ok(Taken(List(records.value), records.next, records.remaining))
  }

  function ReadBinaries(data: bytes, offset: nat, count: nat): (r: Result<Read<seq<Value>>, CompactError>)
    requires offset <= |data|
    ensures r.Ok? ==> offset <= r.value.next <= |data|
    decreases count
  {
    if count == 0 then Ok(Read([], offset))
    else
      var head :- ReadBinary(data, offset);
      var tail :- ReadBinaries(data, head.next, count - 1);
      Ok(Read([Binary(head.value)] + tail.value, tail.next))
  }

  function TakeBinaryList(data: bytes, offset: nat, remaining: nat): (r: Result<Taken<Value>, CompactError>)
    ensures r.Ok? ==> offset + 4 <= r.value.next <= |data| && r.value.remaining <= remaining
  {
    if |data| - offset < 4 then Err(Short)
    else
      var count := GetU32(data[offset..]);
      if !CountInBounds(count, |data| - offset - 4, 4) then Err(TooMany)
      else if count > remaining then Err(AggregateLimit)
      else
        var values :- ReadBinaries(data, offset + 4, count);
        Ok(Taken(List(values.value), values.next, remaining - count))
  }

  function ReadPairs(data: bytes, offset: nat, count: nat, values: map<bytes, Value>)
    : (r: Result<Read<map<bytes, Value>>, CompactError>)
    requires offset <= |data|
    ensures r.Ok? ==> offset <= r.value.next <= |data|
    decreases count
  {
    if count == 0 then Ok(Read(values, offset))
    else
      var key :- ReadBinary(data, offset);
      var value :- ReadBinary(data, key.next);
      if key.value in values then Err(Duplicate)
      else ReadPairs(data, value.next, count - 1, values[key.value := Binary(value.value)])
  }

  function TakeBinaryMap(data: bytes, offset: nat, remaining: nat): (r: Result<Taken<Value>, CompactError>)
    ensures r.Ok? ==> offset + 4 <= r.value.next <= |data| && r.value.remaining <= remaining
  {
    if |data| - offset < 4 then Err(Short)
    else
      var count := GetU32(data[offset..]);
      if !CountInBounds(count, |data| - offset - 4, 8) then Err(TooMany)
      else if count > remaining then Err(AggregateLimit)
      else
        var values :- ReadPairs(data, offset + 4, count, map[]);
        Ok(Taken(Map(values.value), values.next, remaining - count))
  }
}
