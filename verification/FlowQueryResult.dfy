/**
  Compact FLOW.QUERY results, decoded in two ways: straight into the typed result,
  or into generic values that are then validated and converted. The first is an
  optimisation of the second.
*/
module FlowQueryResult {
  import opened Bytes
  import opened NativeValue
  import opened CompactReaders
  import opened Results
  import opened Utf8

  const QUERY_RESULT: byte := 0xA0
  const MAX_RECORDS: nat := 100
  const MIN_CURSOR: nat := 16
  const MAX_CURSOR: nat := 4096
  const FIELDS: nat := 20
  const USAGE_FIELDS: nat := 11
  const MAX_INT64: int := 0x7FFF_FFFF_FFFF_FFFF

  const QUALITY: seq<seq<string>> := [
    ["authoritative", "projected_exact", "exact", "not_applicable"],
    ["current", "projection_watermark", "not_applicable", ""],
    ["complete", "unavailable", "", ""],
    ["none", "complete", "authenticated_seek", "live_seek"]
  ]

  /** Record fields are named by their place in the field table, which is their bit in a record's bitmap. */
  type Record = map<nat, Value>

  /** The fields that hold text: names, keys and identifiers. */
  predicate TextField(index: nat) {
    index in {0, 1, 2, 5, 11, 13, 14, 15, 18}
  }

  datatype Usage = Usage(
    rangeSeeks: int, rangePages: int, scannedEntries: int, scannedBytes: int, hydratedRecords: int,
    residualChecks: int, duplicateEntries: int, resultRecords: int, responseBytes: int,
    memoryHighWater: int, wallTime: int)

  datatype Head = Head(kind: byte, quality: seq<string>, usage: Usage, next: nat)

  /** The cursor is absent on the last page. */
  datatype Page = Page(hasMore: bool, cursor: Option<bytes>)

  datatype Shape = Records(records: seq<Record>, page: Page) | Count(count: int)

  datatype QueryResult = QueryResult(quality: seq<string>, usage: Usage, shape: Shape)

  // ----- what both decoders read alike

  function ReadU64(data: bytes, offset: nat): (r: Option<int>)
    ensures r.Some? ==> 0 <= r.value <= MAX_INT64 && offset + 8 <= |data|
  {
    if |data| - offset < 8 then None
    else if GetU64(data[offset..]) > MAX_INT64 then None
    else Some(GetU64(data[offset..]))
  }

  function ReadQuality(data: bytes, offset: nat, index: nat): (r: Option<seq<string>>)
    requires index <= 4 && offset + 4 - index <= |data|
    ensures r.Some? ==> |r.value| == 4 - index
    decreases 4 - index
  {
    if index == 4 then Some([])
    else if data[offset] >= 4 || QUALITY[index][data[offset]] == "" then None
    else
      match ReadQuality(data, offset + 1, index + 1)
      case None => None
      case Some(rest) => Some([QUALITY[index][data[offset]]] + rest)
  }

  function ReadUsage(data: bytes, offset: nat, count: nat): (r: Option<seq<int>>)
    ensures r.Some? ==> |r.value| == count && forall i :: 0 <= i < count ==> 0 <= r.value[i] <= MAX_INT64
    decreases count
  {
    if count == 0 then Some([])
    else
      var first := ReadU64(data, offset);
      var rest := ReadUsage(data, offset + 8, count - 1);
      if first.None? || rest.None? then None else Some([first.value] + rest.value)
  }

  function UsageOf(u: seq<int>): Usage
    requires |u| == USAGE_FIELDS
  {
    Usage(u[0], u[1], u[2], u[3], u[4], u[5], u[6], u[7], u[8], u[9], u[10])
  }

  function ReadHead(data: bytes): (r: Option<Head>)
    ensures r.Some? ==> r.value.next <= |data|
  {
    if |data| < 2 + 4 + 8 * USAGE_FIELDS || data[0] != QUERY_RESULT then None
    else
      var quality := ReadQuality(data, 2, 0);
      var usage := ReadUsage(data, 6, USAGE_FIELDS);
      if quality.None? || usage.None? then None
      else Some(Head(data[1], quality.value, UsageOf(usage.value), 6 + 8 * USAGE_FIELDS))
  }

  lemma CodesAreKnown(index: nat, code: nat)
    requires index < 4 && code < 4 && QUALITY[index][code] != ""
    ensures QualityOk(index, QUALITY[index][code])
  {
  }

  lemma {:induction false} QualityRead(data: bytes, offset: nat, index: nat)
    requires index <= 4 && offset + 4 - index <= |data|
    ensures var r := ReadQuality(data, offset, index);
      r.Some? ==> forall k :: 0 <= k < |r.value| ==> QualityOk(index + k, r.value[k])
    decreases 4 - index
  {
    hide QualityOk;
    var r := ReadQuality(data, offset, index);
    if index < 4 && r.Some? {
      CodesAreKnown(index, data[offset]);
      QualityRead(data, offset + 1, index + 1);
      var rest := ReadQuality(data, offset + 1, index + 1).value;
      forall k | 0 <= k < |r.value| ensures QualityOk(index + k, r.value[k]) {
        assert k > 0 ==> r.value[k] == rest[k - 1] && QualityOk(index + 1 + (k - 1), rest[k - 1]);
      }
    }
  }

  /** What the header can hold passes the slow path's validation. */
  lemma HeadIsValid(data: bytes)
    requires ReadHead(data).Some?
    ensures QualitiesOk(ReadHead(data).value.quality) && UsageInRange(ReadHead(data).value.usage)
  {
    hide QualityOk, ReadQuality, ReadUsage, UsageInRange;
    QualityRead(data, 2, 0);
    var quality := ReadQuality(data, 2, 0).value;
    assert forall i :: 0 <= i < 4 ==> QualityOk(0 + i, quality[i]);
    UsageRead(ReadUsage(data, 6, USAGE_FIELDS).value);
  }

  lemma UsageRead(u: seq<int>)
    requires |u| == USAGE_FIELDS && forall i :: 0 <= i < |u| ==> 0 <= u[i] <= MAX_INT64
    ensures UsageInRange(UsageOf(u))
  {
  }

  function CursorPrefix(): bytes {
    Ascii("fqc1_")
  }

  function ReadPage(data: bytes, offset: nat): (r: Option<Read<Page>>)
    ensures r.Some? ==> PageOk(r.value.value) && offset < r.value.next <= |data|
  {
    if |data| - offset < 5 then None
    else
      var more, size := data[offset], GetU32(data[offset + 1..]);
      if more == 0 && size == NIL_LENGTH then Some(Read(Page(false, None), offset + 5))
      else if more != 1 || size < MIN_CURSOR || size == NIL_LENGTH || size > MAX_CURSOR || size > |data| - offset - 5 then None
      else
        var cursor := data[offset + 5..offset + 5 + size];
        if !(CursorPrefix() <= cursor) || !ValidUtf8(cursor) then None
        else Some(Read(Page(true, Some(cursor)), offset + 5 + size))
  }

  /** The counters, compared without overflowing 64 bits. */
  predicate CountersOk(u: Usage) {
    var maxPages := if u.scannedEntries <= MAX_INT64 - u.rangeSeeks then u.scannedEntries + u.rangeSeeks else MAX_INT64;
    var maxChecks := if u.scannedEntries <= MAX_INT64 / 12 then u.scannedEntries * 12 else MAX_INT64;
    && u.hydratedRecords <= u.scannedEntries && u.duplicateEntries <= u.scannedEntries
    && u.rangePages <= maxPages && u.residualChecks <= maxChecks
  }

  /** The guards against overflow change nothing: the counters are compared as if they had no width. */
  lemma CountersMeaning(u: Usage)
    requires UsageInRange(u)
    ensures CountersOk(u)
      <==> && u.hydratedRecords <= u.scannedEntries && u.duplicateEntries <= u.scannedEntries
           && u.rangePages <= u.scannedEntries + u.rangeSeeks && u.residualChecks <= 12 * u.scannedEntries
  {
  }

  predicate RecordUsageOk(u: Usage, count: nat) {
    u.resultRecords == count && u.resultRecords <= u.scannedEntries
  }

  predicate CountUsageOk(u: Usage) {
    u.resultRecords == 1
  }

  // ----- records

  predicate HasBit(bitmap: nat, index: nat) {
    bitmap / Power(index) % 2 == 1
  }

  function Power(index: nat): nat
    ensures Power(index) > 0
  {
    if index == 0 then 1 else 2 * Power(index - 1)
  }

  /** Text is nil or a non-empty binary of valid UTF-8. */
  function ReadText(data: bytes, offset: nat, remaining: nat): (r: Option<Taken<Value>>)
    ensures r.Some? ==> offset < r.value.next <= |data| && r.value.remaining <= remaining
  {
    if offset >= |data| || remaining == 0 then None
    else if data[offset] == 0 then Some(Taken(Nil, offset + 1, remaining - 1))
    else if data[offset] != 4 || |data| - offset < 5 then None
    else
      var size := GetU32(data[offset + 1..]);
      if size > |data| - offset - 5 then None
      else
        var text := data[offset + 5..offset + 5 + size];
        if text == [] || !ValidUtf8(text) then None else Some(Taken(Text(text), offset + 5 + size, remaining - 1))
  }

  function ReadField(data: bytes, offset: nat, remaining: nat, index: nat, typed: bool): (r: Option<Taken<Value>>)
    requires offset <= |data|
    ensures r.Some? ==> offset < r.value.next <= |data| && r.value.remaining <= remaining
  {
    if typed && TextField(index) then ReadText(data, offset, remaining)
    else
      match TakeValue(data, offset, remaining)
      case Err(_) => None
      case Ok(t) => Some(t)
  }

  /** The fields whose bits are set, from `index` on. */
  function ReadFieldsFrom(data: bytes, offset: nat, bitmap: nat, index: nat, remaining: nat, typed: bool): (r: Option<Taken<Record>>)
    requires offset <= |data| && index <= FIELDS
    ensures r.Some? ==> offset <= r.value.next <= |data| && r.value.remaining <= remaining
    decreases FIELDS - index
  {
    if index == FIELDS then Some(Taken(map[], offset, remaining))
    else if !HasBit(bitmap, index) then ReadFieldsFrom(data, offset, bitmap, index + 1, remaining, typed)
    else
      match ReadField(data, offset, remaining, index, typed)
      case None => None
      case Some(field) =>
        match ReadFieldsFrom(data, field.next, bitmap, index + 1, field.remaining, typed)
        case None => None
        case Some(rest) => Some(Taken(rest.value[index := field.value], rest.next, rest.remaining))
  }

  function ReadRecord(data: bytes, offset: nat, remaining: nat, typed: bool): (r: Option<Taken<Record>>)
    ensures r.Some? ==> offset < r.value.next <= |data| && r.value.remaining <= remaining
  {
    if |data| - offset < 4 then None
    else if GetU32(data[offset..]) >= Power(FIELDS) then None
    else ReadFieldsFrom(data, offset + 4, GetU32(data[offset..]), 0, remaining, typed)
  }

  function ReadRecords(data: bytes, offset: nat, count: nat, remaining: nat, typed: bool): (r: Option<Read<seq<Record>>>)
    requires offset <= |data|
    ensures r.Some? ==> |r.value.value| == count && r.value.next <= |data|
    decreases count
  {
    if count == 0 then Some(Read([], offset))
    else
      match ReadRecord(data, offset, remaining, typed)
      case None => None
      case Some(first) =>
        match ReadRecords(data, first.next, count - 1, first.remaining, typed)
        case None => None
        case Some(rest) => Some(Read([first.value] + rest.value, rest.next))
  }

  /** The records of a page, and the result's own checks on them. */
  function ReadPageOfRecords(data: bytes, offset: nat, usage: Usage, typed: bool): Option<Read<Shape>> {
    match ReadPage(data, offset)
    case None => None
    case Some(page) =>
      if |data| - page.next < 4 then None
      else
        var count := GetU32(data[page.next..]);
        if count > MAX_RECORDS || !RecordUsageOk(usage, count) then None
        else
          match ReadRecords(data, page.next + 4, count, MAX_ITEMS - count, typed)
          case None => None
          case Some(records) => Some(Read(Records(records.value, page.value), records.next))
  }

  function ReadCount(data: bytes, offset: nat, usage: Usage): Option<Read<Shape>> {
    match ReadU64(data, offset)
    case None => None
    case Some(count) => if CountUsageOk(usage) then Some(Read(Count(count), offset + 8)) else None
  }

  function ReadShape(data: bytes, head: Head, typed: bool): Option<Read<Shape>> {
    if head.kind == 0 then ReadPageOfRecords(data, head.next, head.usage, typed)
    else if head.kind == 1 then ReadCount(data, head.next, head.usage)
    else None
  }

  /** The compact result, typed or generic. */
  function DecodeCompact(data: bytes, typed: bool): Option<QueryResult> {
    match ReadHead(data)
    case None => None
    case Some(head) =>
      if !CountersOk(head.usage) then None
      else
        match ReadShape(data, head, typed)
        case None => None
        case Some(shape) =>
          if shape.next != |data| || head.usage.responseBytes != |data| then None
          else Some(QueryResult(head.quality, head.usage, shape.value))
  }

  // ----- the slow path's validation of generic values

  predicate QualityOk(index: nat, value: string)
    requires index < 4
  {
    && value != "" && |value| <= 64
    && match index
       case 0 => value == "authoritative" || value == "projected_exact" || value == "exact" || value == "not_applicable"
       case 1 => value == "current" || value == "projection_watermark" || value == "not_applicable"
       case 2 => value == "complete" || value == "unavailable"
       case _ => value == "none" || value == "complete" || value == "authenticated_seek" || value == "live_seek"
  }

  predicate QualitiesOk(quality: seq<string>) {
    |quality| == 4 && forall i :: 0 <= i < 4 ==> QualityOk(i, quality[i])
  }

  predicate UsageInRange(u: Usage) {
    && 0 <= u.rangeSeeks <= MAX_INT64 && 0 <= u.rangePages <= MAX_INT64 && 0 <= u.scannedEntries <= MAX_INT64
    && 0 <= u.scannedBytes <= MAX_INT64 && 0 <= u.hydratedRecords <= MAX_INT64 && 0 <= u.residualChecks <= MAX_INT64
    && 0 <= u.duplicateEntries <= MAX_INT64 && 0 <= u.resultRecords <= MAX_INT64 && 0 <= u.responseBytes <= MAX_INT64
    && 0 <= u.memoryHighWater <= MAX_INT64 && 0 <= u.wallTime <= MAX_INT64
  }

  predicate PageOk(page: Page) {
    && (page.cursor.Some? ==>
          var cursor := page.cursor.value;
          ValidUtf8(cursor) && MIN_CURSOR <= |cursor| <= MAX_CURSOR && CursorPrefix() <= cursor)
    && page.hasMore == page.cursor.Some?
  }

  /** A text field's value as text; `textOf` is what becomes of a value that is neither text nor bytes. */
  function AsText(v: Value, textOf: Value -> Option<bytes>): Option<Value> {
    match v
    case Nil => Some(Nil)
    case Text(text) => if text == [] || !ValidUtf8(text) then None else Some(v)
    case Binary(text) => if text == [] || !ValidUtf8(text) then None else Some(Text(text))
    case _ =>
      match textOf(v)
      case None => None
      case Some(text) => if text == [] then None else Some(Text(text))
  }

  function ConvertRecord(record: Record, textOf: Value -> Option<bytes>): Option<Record> {
    if forall i :: i in record && TextField(i) ==> AsText(record[i], textOf).Some? then
      Some(map i | i in record :: if TextField(i) then AsText(record[i], textOf).value else record[i])
    else None
  }

  function ConvertRecords(records: seq<Record>, textOf: Value -> Option<bytes>): Option<seq<Record>> {
    if records == [] then Some([])
    else
      match ConvertRecord(records[0], textOf)
      case None => None
      case Some(first) =>
        match ConvertRecords(records[1..], textOf)
        case None => None
        case Some(rest) => Some([first] + rest)
  }

  function Validate(generic: QueryResult, textOf: Value -> Option<bytes>): Option<QueryResult> {
    if !QualitiesOk(generic.quality) || !UsageInRange(generic.usage) || !CountersOk(generic.usage) then None
    else
      match generic.shape
      case Count(count) =>
        if 0 <= count <= MAX_INT64 && CountUsageOk(generic.usage) then Some(generic) else None
      case Records(records, page) =>
        if |records| > MAX_RECORDS || !PageOk(page) || !RecordUsageOk(generic.usage, |records|) then None
        else
          match ConvertRecords(records, textOf)
          case None => None
          case Some(converted) => Some(generic.(shape := Records(converted, page)))
  }

  // ----- the two paths agree

  /** Nil or a binary, as the servers that speak the compact form send text. */
  predicate NilOrBinary(v: Value) {
    v.Nil? || v.Binary?
  }

  predicate TextFieldsPlain(record: Record) {
    forall i :: i in record && TextField(i) ==> NilOrBinary(record[i])
  }

  /** The typed reader of a text field reads what the generic reader reads, converted. */
  lemma TextIsDecoded(data: bytes, offset: nat, remaining: nat, textOf: Value -> Option<bytes>)
    requires offset <= |data|
    ensures var fast, slow := ReadText(data, offset, remaining), TakeValue(data, offset, remaining);
      && (fast.Some? ==>
            && slow.Ok? && NilOrBinary(slow.value.value) && AsText(slow.value.value, textOf) == Some(fast.value.value)
            && fast.value == slow.value.(value := fast.value.value))
      && (slow.Ok? && NilOrBinary(slow.value.value) && AsText(slow.value.value, textOf).Some? ==> fast.Some?)
  {
    hide GetU32, ValidUtf8;
    if offset < |data| {
      var rest := data[offset..][1..];
      assert rest == data[offset + 1..];
      if data[offset] == 4 && |rest| >= 4 {
        var size := GetU32(rest);
        if size <= |rest| - 4 {
          Within(data, offset + 1, rest, 4, size);
        }
      }
    }
  }

  lemma Within(data: bytes, offset: nat, rest: bytes, from: nat, size: nat)
    requires offset <= |data| && rest == data[offset..] && from + size <= |rest|
    ensures rest[from..from + size] == data[offset + from..offset + from + size]
  {
  }

  /** A field read by both: the same place, and the same value once converted. */
  ghost predicate FieldsAgree(fast: Option<Taken<Record>>, slow: Option<Taken<Record>>, textOf: Value -> Option<bytes>) {
    && (fast.Some? ==>
          && slow.Some? && TextFieldsPlain(slow.value.value)
          && ConvertRecord(slow.value.value, textOf) == Some(fast.value.value)
          && fast.value == slow.value.(value := fast.value.value))
    && (slow.Some? && TextFieldsPlain(slow.value.value) && ConvertRecord(slow.value.value, textOf).Some? ==> fast.Some?)
  }

  ghost predicate StartsAt(record: Record, index: nat) {
    forall i: nat :: i < index ==> i !in record
  }

  lemma StartsEarlier(record: Record, index: nat)
    requires StartsAt(record, index + 1)
    ensures StartsAt(record, index) && index !in record
  {
  }

  lemma StartsWith(record: Record, index: nat, v: Value)
    requires StartsAt(record, index + 1)
    ensures StartsAt(record[index := v], index)
  {
  }

  lemma FieldAdded(record: Record, index: nat, v: Value, textOf: Value -> Option<bytes>)
    requires index !in record
    ensures TextFieldsPlain(record[index := v]) <==> TextFieldsPlain(record) && (TextField(index) ==> NilOrBinary(v))
    ensures ConvertRecord(record[index := v], textOf).Some?
      <==> ConvertRecord(record, textOf).Some? && (TextField(index) ==> AsText(v, textOf).Some?)
    ensures ConvertRecord(record[index := v], textOf).Some?
      ==> ConvertRecord(record[index := v], textOf).value
          == ConvertRecord(record, textOf).value[index := if TextField(index) then AsText(v, textOf).value else v]
  {
    hide AsText, TextField, NilOrBinary;
    var added := record[index := v];
    assert forall i :: i in record ==> i in added && added[i] == record[i];
    assert index in added && added[index] == v;
  }

  lemma {:induction false} FieldsFromAgree(
    data: bytes, offset: nat, bitmap: nat, index: nat, remaining: nat, textOf: Value -> Option<bytes>)
    requires offset <= |data| && index <= FIELDS
    ensures var fast, slow :=
        ReadFieldsFrom(data, offset, bitmap, index, remaining, true), ReadFieldsFrom(data, offset, bitmap, index, remaining, false);
      && FieldsAgree(fast, slow, textOf)
      && (slow.Some? ==> StartsAt(slow.value.value, index))
    decreases FIELDS - index
  {
    hide AsText, TextField, NilOrBinary, ReadText, TakeValue, HasBit, ConvertRecord, TextFieldsPlain, StartsAt;
    if index == FIELDS {
      NoFields(textOf);
    } else if !HasBit(bitmap, index) {
      FieldsFromAgree(data, offset, bitmap, index + 1, remaining, textOf);
      var rest := ReadFieldsFrom(data, offset, bitmap, index + 1, remaining, false);
      if rest.Some? { StartsEarlier(rest.value.value, index); }
    } else {
      TextIsDecoded(data, offset, remaining, textOf);
      var slow := ReadField(data, offset, remaining, index, false);
      if slow.Some? {
        FieldsFromAgree(data, slow.value.next, bitmap, index + 1, slow.value.remaining, textOf);
        var rest := ReadFieldsFrom(data, slow.value.next, bitmap, index + 1, slow.value.remaining, false);
        if rest.Some? {
          StartsEarlier(rest.value.value, index);
          StartsWith(rest.value.value, index, slow.value.value);
          FieldAdded(rest.value.value, index, slow.value.value, textOf);
        }
      }
    }
  }

  lemma NoFields(textOf: Value -> Option<bytes>)
    ensures ConvertRecord(map[], textOf) == Some(map[]) && TextFieldsPlain(map[]) && StartsAt(map[], FIELDS)
  {
    var none: Record := map[];
    assert ConvertRecord(none, textOf).value == none;
  }

  predicate AllPlain(records: seq<Record>) {
    forall i :: 0 <= i < |records| ==> TextFieldsPlain(records[i])
  }

  ghost predicate RecordsAgree(fast: Option<Read<seq<Record>>>, slow: Option<Read<seq<Record>>>, textOf: Value -> Option<bytes>) {
    && (fast.Some? ==>
          && slow.Some? && AllPlain(slow.value.value)
          && ConvertRecords(slow.value.value, textOf) == Some(fast.value.value)
          && fast.value.next == slow.value.next)
    && (slow.Some? && AllPlain(slow.value.value) && ConvertRecords(slow.value.value, textOf).Some? ==> fast.Some?)
  }

  lemma FirstRecord(first: Record, rest: seq<Record>)
    ensures AllPlain([first] + rest) <==> TextFieldsPlain(first) && AllPlain(rest)
    ensures ([first] + rest)[1..] == rest && ([first] + rest)[0] == first
  {
    hide TextFieldsPlain;
    var all := [first] + rest;
    assert forall i :: 0 <= i < |rest| ==> all[i + 1] == rest[i];
    if AllPlain(all) {
      assert TextFieldsPlain(all[0]);
      forall i | 0 <= i < |rest| ensures TextFieldsPlain(rest[i]) { assert TextFieldsPlain(all[i + 1]); }
    }
  }

  lemma {:induction false} RecordsReadAlike(data: bytes, offset: nat, count: nat, remaining: nat, textOf: Value -> Option<bytes>)
    requires offset <= |data|
    ensures RecordsAgree(ReadRecords(data, offset, count, remaining, true), ReadRecords(data, offset, count, remaining, false), textOf)
    decreases count
  {
    hide ReadFieldsFrom, ConvertRecord, TextFieldsPlain, GetU32, Power;
    if count > 0 {
      RecordReadAlike(data, offset, remaining, textOf);
      var slow := ReadRecord(data, offset, remaining, false);
      if slow.Some? {
        RecordsReadAlike(data, slow.value.next, count - 1, slow.value.remaining, textOf);
        var rest := ReadRecords(data, slow.value.next, count - 1, slow.value.remaining, false);
        if rest.Some? { FirstRecord(slow.value.value, rest.value.value); }
      }
    }
  }

  lemma RecordReadAlike(data: bytes, offset: nat, remaining: nat, textOf: Value -> Option<bytes>)
    ensures FieldsAgree(ReadRecord(data, offset, remaining, true), ReadRecord(data, offset, remaining, false), textOf)
  {
    hide ReadFieldsFrom, ConvertRecord, TextFieldsPlain, Power;
    if |data| - offset >= 4 {
      FieldsFromAgree(data, offset + 4, GetU32(data[offset..]), 0, remaining, textOf);
    }
  }

  predicate ShapePlain(shape: Shape) {
    shape.Records? ==> AllPlain(shape.records)
  }

  lemma ShapesAgree(data: bytes, head: Head, textOf: Value -> Option<bytes>)
    requires QualitiesOk(head.quality) && UsageInRange(head.usage) && CountersOk(head.usage)
    ensures var fast, slow := ReadShape(data, head, true), ReadShape(data, head, false);
      && (fast.Some? ==>
            && slow.Some? && fast.value.next == slow.value.next && ShapePlain(slow.value.value)
            && Validate(QueryResult(head.quality, head.usage, slow.value.value), textOf)
               == Some(QueryResult(head.quality, head.usage, fast.value.value)))
      && ((slow.Some? && ShapePlain(slow.value.value)
           && Validate(QueryResult(head.quality, head.usage, slow.value.value), textOf).Some?)
          ==> fast.Some?)
  {
    hide ReadRecords, ConvertRecords, AllPlain, PageOk, QualitiesOk, UsageInRange, CountersOk, GetU32, GetU64;
    var page := ReadPage(data, head.next);
    if head.kind == 0 && page.Some? && |data| - page.value.next >= 4 {
      var count := GetU32(data[page.value.next..]);
      if count <= MAX_RECORDS { RecordsReadAlike(data, page.value.next + 4, count, MAX_ITEMS - count, textOf); }
    }
  }

  /**
    Whatever the typed decoder accepts, the generic decoder and its validation accept
    with the same result.
  */
  lemma FastRefinesSlow(data: bytes, textOf: Value -> Option<bytes>)
    requires DecodeCompact(data, true).Some?
    ensures var generic := DecodeCompact(data, false);
      generic.Some? && ShapePlain(generic.value.shape) && Validate(generic.value, textOf) == DecodeCompact(data, true)
  {
    hide ReadShape, Validate, ShapePlain, QualitiesOk, UsageInRange, CountersOk;
    HeadIsValid(data);
    ShapesAgree(data, ReadHead(data).value, textOf);
  }

  /** And what they accept the typed decoder accepts too, when every text field is nil or a binary. */
  lemma SlowIsFast(data: bytes, textOf: Value -> Option<bytes>)
    requires var generic := DecodeCompact(data, false);
      generic.Some? && Validate(generic.value, textOf).Some? && ShapePlain(generic.value.shape)
    ensures DecodeCompact(data, true) == Validate(DecodeCompact(data, false).value, textOf)
  {
    hide ReadShape, Validate, ShapePlain, QualitiesOk, UsageInRange, CountersOk;
    HeadIsValid(data);
    ShapesAgree(data, ReadHead(data).value, textOf);
  }
}
