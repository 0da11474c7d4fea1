/**
  Compact FLOW.QUERY results as a server writes them, every counter, code, bit and
  field at its place. Both decoders accept exactly what can be written, and read
  from it exactly what was written.
*/
module FlowQueryWire {
  import opened Bytes
  import opened NativeValue
  import opened CompactReaders
  import opened CompactWire
  import opened FlowQueryResult
  import opened Results
  import opened Utf8

  /** A record's fields as they are written: each under its place in the field table, its value encoded. */
  type Fields = map<nat, bytes>

  datatype Body = Rows(rows: seq<Fields>, cursor: Option<bytes>) | Number(n: int)

  datatype Answer = Answer(exactness: string, freshness: string, coverage: string, pagination: string, usage: Usage, body: Body)

  // ----- the field table

  /** The names of the fields, in the order of their bits. */
  const NAMES: seq<string> := [
    "id", "type", "state", "version", "priority", "partition_key",
    "created_at_ms", "updated_at_ms", "next_run_at_ms", "lease_deadline_ms",
    "attempts", "run_state", "max_active_ms", "parent_flow_id", "root_flow_id",
    "correlation_id", "attributes", "state_meta", "event_id", "fields"
  ]

  /** The places that the typed decoder reads as text are those of the names that the conversion of generic results looks up. */
  lemma TextFieldsByName(i: nat)
    requires i < 20
    ensures TextField(i)
      <==> NAMES[i] in {"id", "type", "state", "partition_key", "run_state", "parent_flow_id", "root_flow_id", "correlation_id", "event_id"}
  {
  }

  // ----- the header

  function ExactnessCode(s: string): byte {
    match s
    case "authoritative" => 0
    case "projected_exact" => 1
    case "exact" => 2
    case "not_applicable" => 3
    case _ => 4
  }

  function FreshnessCode(s: string): byte {
    match s
    case "current" => 0
    case "projection_watermark" => 1
    case "not_applicable" => 2
    case _ => 4
  }

  function CoverageCode(s: string): byte {
    match s
    case "complete" => 0
    case "unavailable" => 1
    case _ => 4
  }

  function PaginationCode(s: string): byte {
    match s
    case "none" => 0
    case "complete" => 1
    case "authenticated_seek" => 2
    case "live_seek" => 3
    case _ => 4
  }

  function QualityWire(a: Answer): bytes {
    [ExactnessCode(a.exactness), FreshnessCode(a.freshness), CoverageCode(a.coverage), PaginationCode(a.pagination)]
  }

  predicate KnownQuality(a: Answer) {
    ExactnessCode(a.exactness) < 4 && FreshnessCode(a.freshness) < 4 && CoverageCode(a.coverage) < 4 && PaginationCode(a.pagination) < 4
  }

  function Number64(n: int): bytes
  {
    if 0 <= n < UINT64_SPAN then PutU64(n) else []
  }

  function UsageWire(u: Usage): bytes {
    Number64(u.rangeSeeks) + (Number64(u.rangePages) + (Number64(u.scannedEntries) + (Number64(u.scannedBytes)
    + (Number64(u.hydratedRecords) + (Number64(u.residualChecks) + (Number64(u.duplicateEntries) + (Number64(u.resultRecords)
    + (Number64(u.responseBytes) + (Number64(u.memoryHighWater) + (Number64(u.wallTime) + []))))))))))
  }

  predicate UsageFits(u: Usage) {
    && UsageInRange(u)
    && u.hydratedRecords <= u.scannedEntries && u.duplicateEntries <= u.scannedEntries
    && u.rangePages <= u.scannedEntries + u.rangeSeeks && u.residualChecks <= 12 * u.scannedEntries
  }

  function Numbers(s: seq<int>): bytes {
    if s == [] then [] else Number64(s[0]) + Numbers(s[1..])
  }

  lemma U64Read(data: bytes, offset: nat, n: int)
    requires 0 <= n <= MAX_INT64
    ensures At(data, offset, Number64(n)) <==> ReadU64(data, offset) == Some(n)
  {
    hide At, GetU64, PutU64;
    AtU64(data, offset, n);
  }

  lemma {:induction false} NumbersRead(data: bytes, offset: nat, s: seq<int>)
    requires forall i :: 0 <= i < |s| ==> 0 <= s[i] <= MAX_INT64
    ensures offset <= |data| ==> (At(data, offset, Numbers(s)) <==> ReadUsage(data, offset, |s|) == Some(s))
    ensures |Numbers(s)| == 8 * |s|
    decreases |s|
  {
    hide At, Number64, ReadU64;
    if s == [] {
      if offset <= |data| { AtNothing(data, offset); }
    } else {
      NumberSize(s[0]);
      U64Read(data, offset, s[0]);
      NumbersRead(data, offset + 8, s[1..]);
      AtJoin(data, offset, Number64(s[0]), Numbers(s[1..]));
      if At(data, offset, Number64(s[0])) { AtWithin(data, offset, Number64(s[0])); }
      var first, rest := ReadU64(data, offset), ReadUsage(data, offset + 8, |s| - 1);
      assert s == [s[0]] + s[1..];
      if first.Some? && rest.Some? && [first.value] + rest.value == s {
        assert ([first.value] + rest.value)[0] == s[0] && ([first.value] + rest.value)[1..] == rest.value;
      }
      FirstNeedsRoom(data, offset);
    }
  }

  lemma NumberSize(n: int)
    requires 0 <= n <= MAX_INT64
    ensures |Number64(n)| == 8
  {
  }

  lemma FirstNeedsRoom(data: bytes, offset: nat)
    ensures ReadU64(data, offset).Some? ==> offset + 8 <= |data|
  {
  }

  function Listed(u: Usage): seq<int> {
    [u.rangeSeeks, u.rangePages, u.scannedEntries, u.scannedBytes, u.hydratedRecords, u.residualChecks, u.duplicateEntries,
     u.resultRecords, u.responseBytes, u.memoryHighWater, u.wallTime]
  }

  lemma UsageIsNumbers(u: Usage)
    ensures UsageWire(u) == Numbers(Listed(u))
  {
    hide Number64;
    NumbersTail(Listed(u), 11);
    NumbersTail(Listed(u), 10);
    NumbersTail(Listed(u), 9);
    NumbersTail(Listed(u), 8);
    NumbersTail(Listed(u), 7);
    NumbersTail(Listed(u), 6);
    NumbersTail(Listed(u), 5);
    NumbersTail(Listed(u), 4);
    NumbersTail(Listed(u), 3);
    NumbersTail(Listed(u), 2);
    NumbersTail(Listed(u), 1);
    NumbersTail(Listed(u), 0);
    assert Listed(u)[0..] == Listed(u);
  }

  lemma NumbersTail(s: seq<int>, i: nat)
    requires i <= |s|
    ensures Numbers(s[i..]) == if i == |s| then [] else Number64(s[i]) + Numbers(s[i + 1..])
  {
    hide Number64;
    if i < |s| { assert s[i..][1..] == s[i + 1..] && s[i..][0] == s[i]; }
  }

  /** The counters at their places are the usage that they name. */
  lemma UsageReads(data: bytes, offset: nat, u: Usage)
    requires UsageInRange(u) && offset <= |data|
    ensures |UsageWire(u)| == 88
    ensures At(data, offset, UsageWire(u))
      <==> ReadUsage(data, offset, USAGE_FIELDS).Some? && UsageOf(ReadUsage(data, offset, USAGE_FIELDS).value) == u
  {
    hide At, ReadUsage, Numbers, UsageWire;
    UsageIsNumbers(u);
    NumbersRead(data, offset, Listed(u));
    var r := ReadUsage(data, offset, USAGE_FIELDS);
    if r.Some? && UsageOf(r.value) == u { assert r.value == Listed(u); }
  }

  // ----- quality codes

  function CodeOf(index: nat, s: string): byte {
    match index
    case 0 => ExactnessCode(s)
    case 1 => FreshnessCode(s)
    case 2 => CoverageCode(s)
    case _ => PaginationCode(s)
  }

  lemma CodeMeans(index: nat, code: byte, s: string)
    requires index < 4
    ensures code < 4 && QUALITY[index][code] != "" && QUALITY[index][code] == s <==> CodeOf(index, s) == code && code < 4
  {
    if index == 0 { ExactnessMeans(code, s); }
    else if index == 1 { FreshnessMeans(code, s); }
    else if index == 2 { CoverageMeans(code, s); }
    else { PaginationMeans(code, s); }
  }

  lemma ExactnessMeans(code: byte, s: string)
    ensures code < 4 && QUALITY[0][code] != "" && QUALITY[0][code] == s <==> ExactnessCode(s) == code && code < 4
  {
  }

  lemma FreshnessMeans(code: byte, s: string)
    ensures code < 4 && QUALITY[1][code] != "" && QUALITY[1][code] == s <==> FreshnessCode(s) == code && code < 4
  {
  }

  lemma CoverageMeans(code: byte, s: string)
    ensures code < 4 && QUALITY[2][code] != "" && QUALITY[2][code] == s <==> CoverageCode(s) == code && code < 4
  {
  }

  lemma PaginationMeans(code: byte, s: string)
    ensures code < 4 && QUALITY[3][code] != "" && QUALITY[3][code] == s <==> PaginationCode(s) == code && code < 4
  {
  }

  function Codes(index: nat, q: seq<string>): bytes
    decreases |q|
  {
    if q == [] then [] else [CodeOf(index, q[0])] + Codes(index + 1, q[1..])
  }

  lemma {:induction false} CodesRead(data: bytes, offset: nat, index: nat, q: seq<string>)
    requires index <= 4 && |q| == 4 - index && offset + 4 - index <= |data|
    ensures ReadQuality(data, offset, index) == Some(q)
      <==> At(data, offset, Codes(index, q)) && forall k :: 0 <= k < |q| ==> CodeOf(index + k, q[k]) < 4
    decreases 4 - index
  {
    hide At, CodeOf;
    if index == 4 {
      AtNothing(data, offset);
    } else {
      CodeMeans(index, data[offset], q[0]);
      CodesRead(data, offset + 1, index + 1, q[1..]);
      AtJoin(data, offset, [CodeOf(index, q[0])], Codes(index + 1, q[1..]));
      AtByte(data, offset, CodeOf(index, q[0]));
      CodesStep(data, offset, index, q);
    }
  }

  lemma CodesStep(data: bytes, offset: nat, index: nat, q: seq<string>)
    requires index < 4 && |q| == 4 - index && offset + 4 - index <= |data|
    ensures ReadQuality(data, offset, index) == Some(q)
      <==> && data[offset] < 4 && QUALITY[index][data[offset]] != "" && QUALITY[index][data[offset]] == q[0]
           && ReadQuality(data, offset + 1, index + 1) == Some(q[1..])
    ensures (forall k :: 0 <= k < |q| ==> CodeOf(index + k, q[k]) < 4)
      <==> CodeOf(index, q[0]) < 4 && forall k :: 0 <= k < |q[1..]| ==> CodeOf(index + 1 + k, q[1..][k]) < 4
  {
    hide CodeOf;
    assert q == [q[0]] + q[1..];
    if (forall k :: 0 <= k < |q| ==> CodeOf(index + k, q[k]) < 4) {
      assert CodeOf(index + 0, q[0]) < 4;
      forall k | 0 <= k < |q[1..]| ensures CodeOf(index + 1 + k, q[1..][k]) < 4 { assert CodeOf(index + (k + 1), q[k + 1]) < 4; }
    }
    if CodeOf(index, q[0]) < 4 && (forall k :: 0 <= k < |q[1..]| ==> CodeOf(index + 1 + k, q[1..][k]) < 4) {
      forall k | 0 <= k < |q| ensures CodeOf(index + k, q[k]) < 4 {
        if k > 0 { assert q[k] == q[1..][k - 1] && CodeOf(index + 1 + (k - 1), q[1..][k - 1]) < 4; }
      }
    }
    var rest := ReadQuality(data, offset + 1, index + 1);
    if data[offset] < 4 && rest.Some? && [QUALITY[index][data[offset]]] + rest.value == q {
      assert q[1..] == rest.value;
    }
  }

  function Quality(a: Answer): seq<string> {
    [a.exactness, a.freshness, a.coverage, a.pagination]
  }

  lemma QualityReads(data: bytes, offset: nat, a: Answer)
    requires offset + 4 <= |data|
    ensures ReadQuality(data, offset, 0) == Some(Quality(a)) <==> At(data, offset, QualityWire(a)) && KnownQuality(a)
  {
    hide At, ReadQuality, ExactnessCode, FreshnessCode, CoverageCode, PaginationCode;
    CodesRead(data, offset, 0, Quality(a));
    FourCodes(a);
    assert CodeOf(0 + 0, Quality(a)[0]) == ExactnessCode(a.exactness) && CodeOf(0 + 1, Quality(a)[1]) == FreshnessCode(a.freshness);
    assert CodeOf(0 + 2, Quality(a)[2]) == CoverageCode(a.coverage) && CodeOf(0 + 3, Quality(a)[3]) == PaginationCode(a.pagination);
  }

  lemma FourCodes(a: Answer)
    ensures Codes(0, Quality(a)) == QualityWire(a)
  {
    hide ExactnessCode, FreshnessCode, CoverageCode, PaginationCode;
    var q := Quality(a);
    assert q[1..] == [a.freshness, a.coverage, a.pagination] && q[1..][1..] == [a.coverage, a.pagination];
    assert q[1..][1..][1..] == [a.pagination] && q[1..][1..][1..][1..] == [];
    assert Codes(3, [a.pagination]) == [PaginationCode(a.pagination)] + Codes(4, []);
    assert Codes(2, [a.coverage, a.pagination]) == [CoverageCode(a.coverage)] + Codes(3, [a.pagination]);
    assert Codes(1, q[1..]) == [FreshnessCode(a.freshness)] + Codes(2, q[1..][1..]);
  }

  // ----- pages

  function CursorBytes(): bytes {
    [0x66, 0x71, 0x63, 0x31, 0x5F]
  }

  /** `fqc1_`. */
  lemma CursorLetters()
    ensures CursorPrefix() == CursorBytes()
  {
  }

  function PageWire(cursor: Option<bytes>): bytes {
    match cursor
    case None => [0] + [0xFF, 0xFF, 0xFF, 0xFF]
    case Some(c) => [1] + Sized(c)
  }

  predicate CursorFits(cursor: Option<bytes>) {
    cursor.Some? ==> 16 <= |cursor.value| <= 4096 && CursorBytes() <= cursor.value && ValidUtf8(cursor.value)
  }

  lemma SizedAt(data: bytes, offset: nat, b: bytes)
    requires |b| < U32_SPAN
    ensures At(data, offset, Sized(b))
      <==> offset + 4 + |b| <= |data| && GetU32(data[offset..]) == |b| && data[offset + 4..offset + 4 + |b|] == b
  {
    hide GetU32, PutU32;
    AtJoin(data, offset, PutU32(|b|), b);
    AtU32(data, offset, |b|);
  }

  lemma PageAt(data: bytes, offset: nat, cursor: Option<bytes>)
    requires CursorFits(cursor) && At(data, offset, PageWire(cursor))
    ensures ReadPage(data, offset) == Some(Read(Page(cursor.Some?, cursor), offset + |PageWire(cursor)|))
  {
    hide At, GetU32, PutU32, ValidUtf8, CursorPrefix, CursorBytes;
    CursorLetters();
    NilIsNil();
    match cursor
    case None =>
      AtJoin(data, offset, [0], [0xFF, 0xFF, 0xFF, 0xFF]);
      AtByte(data, offset, 0);
      AtU32(data, offset + 1, NIL_LENGTH);
    case Some(c) =>
      AtJoin(data, offset, [1], Sized(c));
      AtByte(data, offset, 1);
      SizedAt(data, offset + 1, c);
  }

  lemma PageRead(data: bytes, offset: nat)
    requires ReadPage(data, offset).Some?
    ensures var r := ReadPage(data, offset).value;
      && r.value.hasMore == r.value.cursor.Some? && CursorFits(r.value.cursor)
      && At(data, offset, PageWire(r.value.cursor)) && r.next == offset + |PageWire(r.value.cursor)|
  {
    hide At, GetU32, PutU32, ValidUtf8, CursorPrefix, CursorBytes;
    CursorLetters();
    NilIsNil();
    var cursor := ReadPage(data, offset).value.value.cursor;
    match cursor
    case None =>
      AtJoin(data, offset, [0], [0xFF, 0xFF, 0xFF, 0xFF]);
      AtByte(data, offset, 0);
      AtU32(data, offset + 1, NIL_LENGTH);
    case Some(c) =>
      AtJoin(data, offset, [1], Sized(c));
      AtByte(data, offset, 1);
      SizedAt(data, offset + 1, c);
  }

  // ----- bitmaps

  /** Bit `i` is set for the field at place `i`. */
  function Bits(keys: set<nat>, i: nat): nat
    requires i <= 20
    decreases 20 - i
  {
    if i == 20 then 0 else (if i in keys then 1 else 0) + 2 * Bits(keys, i + 1)
  }

  lemma {:induction false} BitsFrom(keys: set<nat>, i: nat)
    requires i <= 20
    ensures Bits(keys, 0) / Power(i) == Bits(keys, i)
    decreases i
  {
    hide Power, Bits;
    if i == 0 {
      PowerOfNothing();
    } else {
      BitsFrom(keys, i - 1);
      Halves(Bits(keys, 0), Power(i - 1));
      PowerStep(i - 1);
      BitsStep(keys, i - 1);
    }
  }

  lemma PowerOfNothing()
    ensures Power(0) == 1
  {
  }

  lemma PowerStep(i: nat)
    ensures Power(i + 1) == 2 * Power(i)
  {
  }

  lemma BitsStep(keys: set<nat>, i: nat)
    requires i < 20
    ensures Bits(keys, i) / 2 == Bits(keys, i + 1) && Bits(keys, i) % 2 == if i in keys then 1 else 0
    ensures Bits(keys, i) == 2 * Bits(keys, i + 1) + if i in keys then 1 else 0
  {
  }

  lemma Halves(n: nat, p: nat)
    requires p > 0
    ensures n / (2 * p) == n / p / 2
  {
    var q, r := n / p, n % p;
    var h, l := q / 2, q % 2;
    Euclid(n, p);
    Distribute(2 * h, l, p);
    assert 2 * h * p == h * (2 * p);
    if l == 1 { assert l * p == p; } else { assert l * p == 0; }
    Divides(n, 2 * p, h, l * p + r);
  }

  lemma Euclid(n: nat, d: nat)
    requires d > 0
    ensures n == n / d * d + n % d && 0 <= n % d < d
  {
  }

  lemma Distribute(a: int, b: int, d: int)
    ensures (a + b) * d == a * d + b * d
  {
  }

  lemma AtLeast(x: int, d: int)
    requires x >= 1 && d >= 1
    ensures x * d >= d
  {
  }

  lemma Divides(n: nat, d: nat, q: nat, r: nat)
    requires d > 0 && n == q * d + r && r < d
    ensures n / d == q
  {
    var p := n / d;
    Euclid(n, d);
    Distribute(q - p, p, d);
    Distribute(p - q, q, d);
    if q > p { AtLeast(q - p, d); }
    if p > q { AtLeast(p - q, d); }
  }

  lemma BitIsMember(keys: set<nat>, i: nat)
    requires i < 20
    ensures HasBit(Bits(keys, 0), i) <==> i in keys
  {
    hide Bits, Power;
    BitsFrom(keys, i);
    BitsStep(keys, i);
  }

  lemma {:induction false} BitsAreFew(keys: set<nat>, i: nat)
    requires i <= 20
    ensures Bits(keys, i) < Power(20 - i)
    decreases 20 - i
  {
    if i < 20 { BitsAreFew(keys, i + 1); }
  }

  /** A bitmap is that of the fields whose bits it has. */
  lemma {:induction false} BitsOfBitmap(bitmap: nat, keys: set<nat>, i: nat)
    requires i <= 20 && bitmap < Power(20) && forall k :: 0 <= k < 20 ==> (k in keys <==> HasBit(bitmap, k))
    ensures Bits(keys, i) == bitmap / Power(i)
    decreases 20 - i
  {
    hide Power, Bits;
    if i == 20 {
      NoBits(keys);
      Small(bitmap, Power(20));
    } else {
      BitsOfBitmap(bitmap, keys, i + 1);
      PowerStep(i);
      Halves(bitmap, Power(i));
      BitsStep(keys, i);
    }
  }

  lemma NoBits(keys: set<nat>)
    ensures Bits(keys, 20) == 0
  {
  }

  lemma Small(n: nat, d: nat)
    requires n < d
    ensures n / d == 0
  {
  }

  // ----- records

  /** What a field's value becomes: text where the typed decoder reads text, else as it is. */
  function Expected(index: nat, raw: bytes, typed: bool): Value
    requires IsNative(raw)
  {
    var v := NativeIn(raw);
    if typed && TextField(index) && v.Binary? then Text(v.data) else v
  }

  /** Text is nil or a non-empty binary of valid UTF-8. */
  predicate FieldFits(index: nat, raw: bytes, typed: bool) {
    && IsNative(raw)
    && (typed && TextField(index)
        ==> NativeIn(raw).Nil? || (NativeIn(raw).Binary? && NativeIn(raw).data != [] && ValidUtf8(NativeIn(raw).data)))
  }

  predicate RowFits(row: Fields, typed: bool) {
    forall i :: i in row ==> i < 20 && FieldFits(i, row[i], typed)
  }

  function FieldsWireFrom(row: Fields, i: nat): bytes
    requires i <= 20
    decreases 20 - i
  {
    if i == 20 then [] else (if i in row then row[i] else []) + FieldsWireFrom(row, i + 1)
  }

  function FieldsCostFrom(row: Fields, i: nat, typed: bool): nat
    requires i <= 20 && RowFits(row, typed)
    decreases 20 - i
  {
    if i == 20 then 0 else (if i in row then NodesIn(row[i]) else 0) + FieldsCostFrom(row, i + 1, typed)
  }

  function RecordOfRow(row: Fields, i: nat, typed: bool): Record
    requires RowFits(row, typed)
  {
    map k | k in row && i <= k :: Expected(k, row[k], typed)
  }

  function RowWire(row: Fields): bytes {
    PutU32(Bits(row.Keys, 0)) + FieldsWireFrom(row, 0)
  }

  ghost function NoText(v: Value): Option<bytes> {
    None
  }

  lemma FieldAt(data: bytes, offset: nat, remaining: nat, index: nat, raw: bytes, typed: bool)
    requires FieldFits(index, raw, typed) && At(data, offset, raw) && NodesIn(raw) <= remaining && offset <= |data|
    ensures ReadField(data, offset, remaining, index, typed)
      == Some(Taken(Expected(index, raw, typed), offset + |raw|, remaining - NodesIn(raw)))
  {
    hide At, IsNative, NativeIn, NodesIn, ReadText, TakeValue, ValidUtf8, TextField;
    ValueAt(data, offset, raw, remaining);
    if typed && TextField(index) { TextIsDecoded(data, offset, remaining, NoText); }
  }

  lemma FieldRead(data: bytes, offset: nat, remaining: nat, index: nat, typed: bool) returns (raw: bytes)
    requires offset <= |data| && remaining <= MAX_ITEMS && ReadField(data, offset, remaining, index, typed).Some?
    ensures FieldFits(index, raw, typed) && At(data, offset, raw) && NodesIn(raw) <= remaining
    ensures ReadField(data, offset, remaining, index, typed)
      == Some(Taken(Expected(index, raw, typed), offset + |raw|, remaining - NodesIn(raw)))
  {
    hide At, IsNative, NativeIn, NodesIn, ReadText, TakeValue, ValidUtf8, TextField;
    if typed && TextField(index) { TextIsDecoded(data, offset, remaining, NoText); }
    raw := ValueTaken(data, offset, remaining);
  }

  lemma FieldsWireStep(data: bytes, offset: nat, row: Fields, i: nat)
    requires i < 20 && offset <= |data|
    ensures i in row ==>
      && |FieldsWireFrom(row, i)| == |row[i]| + |FieldsWireFrom(row, i + 1)|
      && (At(data, offset, FieldsWireFrom(row, i))
          <==> At(data, offset, row[i]) && At(data, offset + |row[i]|, FieldsWireFrom(row, i + 1)))
    ensures i !in row ==> FieldsWireFrom(row, i) == FieldsWireFrom(row, i + 1)
  {
    hide At;
    if i in row { AtJoin(data, offset, row[i], FieldsWireFrom(row, i + 1)); }
  }

  lemma RecordStep(row: Fields, i: nat, typed: bool)
    requires RowFits(row, typed) && i < 20
    ensures i in row ==> RecordOfRow(row, i, typed) == RecordOfRow(row, i + 1, typed)[i := Expected(i, row[i], typed)]
    ensures i !in row ==> RecordOfRow(row, i, typed) == RecordOfRow(row, i + 1, typed)
  {
    hide Expected, FieldFits;
  }

  lemma NoRecord(row: Fields, typed: bool)
    requires RowFits(row, typed)
    ensures RecordOfRow(row, 20, typed) == map[]
  {
    hide Expected, FieldFits;
  }

  lemma {:induction false} FieldsFromAt(data: bytes, offset: nat, bitmap: nat, row: Fields, i: nat, remaining: nat, typed: bool)
    requires RowFits(row, typed) && i <= 20 && offset <= |data| && At(data, offset, FieldsWireFrom(row, i))
    requires FieldsCostFrom(row, i, typed) <= remaining
    requires forall k :: 0 <= k < 20 ==> (HasBit(bitmap, k) <==> k in row)
    ensures ReadFieldsFrom(data, offset, bitmap, i, remaining, typed)
      == Some(Taken(RecordOfRow(row, i, typed), offset + |FieldsWireFrom(row, i)|, remaining - FieldsCostFrom(row, i, typed)))
    decreases 20 - i
  {
    hide At, IsNative, NativeIn, NodesIn, HasBit, ReadField, ReadFieldsFrom, Expected, FieldFits, RecordOfRow;
    ReadFieldsStep(data, offset, bitmap, i, remaining, typed);
    if i == 20 {
      NoRecord(row, typed);
    } else {
      FieldsWireStep(data, offset, row, i);
      RecordStep(row, i, typed);
      if i in row {
        FitsNative(row, i, typed);
        FieldAt(data, offset, remaining, i, row[i], typed);
        AtWithin(data, offset, row[i]);
        FieldsFromAt(data, offset + |row[i]|, bitmap, row, i + 1, remaining - NodesIn(row[i]), typed);
      } else {
        FieldsFromAt(data, offset, bitmap, row, i + 1, remaining, typed);
      }
    }
  }

  lemma FitsNative(row: Fields, i: nat, typed: bool)
    requires RowFits(row, typed) && i in row
    ensures FieldFits(i, row[i], typed) && IsNative(row[i])
  {
    hide IsNative, NativeIn, ValidUtf8;
  }

  /** The rows that were read from place `i` on. */
  lemma {:induction false} FieldsFromRead(data: bytes, offset: nat, bitmap: nat, i: nat, remaining: nat, typed: bool) returns (row: Fields)
    requires i <= 20 && offset <= |data| && remaining <= MAX_ITEMS
    requires ReadFieldsFrom(data, offset, bitmap, i, remaining, typed).Some?
    ensures RowFits(row, typed) && (forall k :: k in row <==> i <= k < 20 && HasBit(bitmap, k))
    ensures At(data, offset, FieldsWireFrom(row, i))
    ensures FieldsCostFrom(row, i, typed) <= remaining
    ensures ReadFieldsFrom(data, offset, bitmap, i, remaining, typed)
      == Some(Taken(RecordOfRow(row, i, typed), offset + |FieldsWireFrom(row, i)|, remaining - FieldsCostFrom(row, i, typed)))
    decreases 20 - i
  {
    hide At, IsNative, NativeIn, NodesIn, HasBit, ReadField, ReadFieldsFrom, Expected, FieldFits, RecordOfRow;
    ReadFieldsStep(data, offset, bitmap, i, remaining, typed);
    if i == 20 {
      row := map[];
      NoRecord(row, typed);
      AtNothing(data, offset);
    } else if HasBit(bitmap, i) {
      var raw := FieldRead(data, offset, remaining, i, typed);
      var field := ReadField(data, offset, remaining, i, typed).value;
      FitsIsNative(i, raw, typed);
      var rest := FieldsFromRead(data, field.next, bitmap, i + 1, field.remaining, typed);
      row := rest[i := raw];
      Beyond(rest, row, i, raw, typed);
      FieldsWireStep(data, offset, row, i);
      RecordStep(row, i, typed);
    } else {
      row := FieldsFromRead(data, offset, bitmap, i + 1, remaining, typed);
      FieldsWireStep(data, offset, row, i);
      RecordStep(row, i, typed);
    }
  }

  lemma ReadFieldsStep(data: bytes, offset: nat, bitmap: nat, i: nat, remaining: nat, typed: bool)
    requires i <= 20 && offset <= |data|
    ensures var r := ReadFieldsFrom(data, offset, bitmap, i, remaining, typed);
      if i == 20 then r == Some(Taken(map[], offset, remaining))
      else if !HasBit(bitmap, i) then r == ReadFieldsFrom(data, offset, bitmap, i + 1, remaining, typed)
      else
        var field := ReadField(data, offset, remaining, i, typed);
        if field.None? then r.None?
        else
          var rest := ReadFieldsFrom(data, field.value.next, bitmap, i + 1, field.value.remaining, typed);
          if rest.None? then r.None?
          else r == Some(Taken(rest.value.value[i := field.value.value], rest.value.next, rest.value.remaining))
  {
    hide HasBit, ReadField;
  }

  lemma FitsIsNative(i: nat, raw: bytes, typed: bool)
    requires FieldFits(i, raw, typed)
    ensures IsNative(raw)
  {
  }

  /** A field at an earlier place changes nothing from the next place on. */
  lemma Beyond(rest: Fields, row: Fields, i: nat, raw: bytes, typed: bool)
    requires RowFits(rest, typed) && i < 20 && FieldFits(i, raw, typed) && row == rest[i := raw]
    ensures RowFits(row, typed)
    ensures FieldsWireFrom(row, i + 1) == FieldsWireFrom(rest, i + 1)
    ensures FieldsCostFrom(row, i + 1, typed) == FieldsCostFrom(rest, i + 1, typed)
    ensures RecordOfRow(row, i + 1, typed) == RecordOfRow(rest, i + 1, typed)
  {
    hide FieldFits, NodesIn, IsNative, NativeIn, Expected;
    AllFitsWith(rest, i, raw, typed);
    BeyondFrom(rest, row, i, i + 1, typed);
    forall k | k in row && i + 1 <= k ensures k in rest && row[k] == rest[k] { }
  }

  lemma AllFitsWith(rest: Fields, i: nat, raw: bytes, typed: bool)
    requires RowFits(rest, typed) && i < 20 && FieldFits(i, raw, typed)
    ensures RowFits(rest[i := raw], typed)
  {
    hide FieldFits;
  }

  lemma {:induction false} BeyondFrom(rest: Fields, row: Fields, i: nat, j: nat, typed: bool)
    requires RowFits(rest, typed) && RowFits(row, typed) && i < j <= 20
    requires forall k: nat :: k != i ==> (k in row <==> k in rest) && (k in row ==> row[k] == rest[k])
    ensures FieldsWireFrom(row, j) == FieldsWireFrom(rest, j) && FieldsCostFrom(row, j, typed) == FieldsCostFrom(rest, j, typed)
    decreases 20 - j
  {
    hide FieldFits, NodesIn, IsNative;
    if j < 20 {
      BeyondFrom(rest, row, i, j + 1, typed);
      if j in row { FitsNative(row, j, typed); }
    }
  }

  lemma RowAt(data: bytes, offset: nat, row: Fields, remaining: nat, typed: bool)
    requires RowFits(row, typed) && At(data, offset, RowWire(row)) && FieldsCostFrom(row, 0, typed) <= remaining
    ensures ReadRecord(data, offset, remaining, typed)
      == Some(Taken(RecordOfRow(row, 0, typed), offset + |RowWire(row)|, remaining - FieldsCostFrom(row, 0, typed)))
  {
    hide At, GetU32, PutU32, Power, Bits, HasBit, RowFits, RecordOfRow, FieldsWireFrom, FieldsCostFrom;
    FewBits();
    RowLies(data, offset, row);
    BitsAreMembers(row);
    FieldsFromAt(data, offset + 4, Bits(row.Keys, 0), row, 0, remaining, typed);
  }

  lemma BitsAreMembers(row: Fields)
    ensures forall k :: 0 <= k < 20 ==> (HasBit(Bits(row.Keys, 0), k) <==> k in row)
  {
    hide Bits, HasBit;
    forall k | 0 <= k < 20 ensures HasBit(Bits(row.Keys, 0), k) <==> k in row { BitIsMember(row.Keys, k); }
  }

  lemma RowLies(data: bytes, offset: nat, row: Fields)
    requires At(data, offset, RowWire(row))
    ensures offset + 4 <= |data| && GetU32(data[offset..]) == Bits(row.Keys, 0) < 0x10_0000
    ensures At(data, offset + 4, FieldsWireFrom(row, 0)) && |RowWire(row)| == 4 + |FieldsWireFrom(row, 0)|
  {
    hide At, GetU32, PutU32, Power, Bits, FieldsWireFrom;
    BitsAreFew(row.Keys, 0);
    FewBits();
    AtJoin(data, offset, PutU32(Bits(row.Keys, 0)), FieldsWireFrom(row, 0));
    AtU32(data, offset, Bits(row.Keys, 0));
    AtWithin(data, offset + 4, FieldsWireFrom(row, 0));
  }

  lemma FewBits()
    ensures Power(20) == 0x10_0000
  {
    assert Power(4) == 16;
    assert Power(8) == 256;
    assert Power(12) == 4096;
    assert Power(16) == 0x1_0000;
  }

  lemma RowRead(data: bytes, offset: nat, remaining: nat, typed: bool) returns (row: Fields)
    requires remaining <= MAX_ITEMS && ReadRecord(data, offset, remaining, typed).Some?
    ensures RowFits(row, typed) && At(data, offset, RowWire(row)) && FieldsCostFrom(row, 0, typed) <= remaining
    ensures ReadRecord(data, offset, remaining, typed)
      == Some(Taken(RecordOfRow(row, 0, typed), offset + |RowWire(row)|, remaining - FieldsCostFrom(row, 0, typed)))
  {
    hide At, GetU32, PutU32, Power, Bits, HasBit, RowFits, RecordOfRow, FieldsWireFrom, FieldsCostFrom;
    var bitmap := GetU32(data[offset..]);
    row := FieldsFromRead(data, offset + 4, bitmap, 0, remaining, typed);
    FewBits();
    BitsOfBitmap(bitmap, row.Keys, 0);
    PowerOfNothing();
    AtJoin(data, offset, PutU32(bitmap), FieldsWireFrom(row, 0));
    AtU32(data, offset, bitmap);
  }

  predicate RowsFit(rows: seq<Fields>, typed: bool) {
    forall i :: 0 <= i < |rows| ==> RowFits(rows[i], typed)
  }

  function RowsWire(rows: seq<Fields>): bytes {
    if rows == [] then [] else RowWire(rows[0]) + RowsWire(rows[1..])
  }

  function RowsCost(rows: seq<Fields>, typed: bool): nat
    requires RowsFit(rows, typed)
  {
    if rows == [] then 0 else FieldsCostFrom(rows[0], 0, typed) + RowsCost(rows[1..], typed)
  }

  function RecordsOfRows(rows: seq<Fields>, typed: bool): seq<Record>
    requires RowsFit(rows, typed)
  {
    seq(|rows|, i requires 0 <= i < |rows| => RecordOfRow(rows[i], 0, typed))
  }

  lemma FirstRow(rows: seq<Fields>, typed: bool)
    requires rows != [] && RowsFit(rows, typed)
    ensures RowFits(rows[0], typed) && RowsFit(rows[1..], typed)
    ensures RecordsOfRows(rows, typed) == [RecordOfRow(rows[0], 0, typed)] + RecordsOfRows(rows[1..], typed)
  {
    hide RowFits, RecordOfRow;
  }

  lemma NoRows(typed: bool)
    ensures RowsFit([], typed) && RecordsOfRows([], typed) == []
  {
  }

  lemma {:induction false} RowsAt(data: bytes, offset: nat, rows: seq<Fields>, remaining: nat, typed: bool)
    requires RowsFit(rows, typed) && offset <= |data| && At(data, offset, RowsWire(rows)) && RowsCost(rows, typed) <= remaining
    ensures ReadRecords(data, offset, |rows|, remaining, typed)
      == Some(Read(RecordsOfRows(rows, typed), offset + |RowsWire(rows)|))
    decreases |rows|
  {
    hide At, RowFits, RowWire, FieldsCostFrom, RecordOfRow, ReadRecord, RowsFit, RecordsOfRows;
    if rows == [] {
      NoRows(typed);
    } else {
      FirstRow(rows, typed);
      AtJoin(data, offset, RowWire(rows[0]), RowsWire(rows[1..]));
      AtWithin(data, offset, RowWire(rows[0]));
      RowAt(data, offset, rows[0], remaining, typed);
      RowsAt(data, offset + |RowWire(rows[0])|, rows[1..], remaining - FieldsCostFrom(rows[0], 0, typed), typed);
    }
  }

  lemma {:induction false} RowsRead(data: bytes, offset: nat, count: nat, remaining: nat, typed: bool) returns (rows: seq<Fields>)
    requires offset <= |data| && remaining <= MAX_ITEMS && ReadRecords(data, offset, count, remaining, typed).Some?
    ensures |rows| == count && RowsFit(rows, typed) && At(data, offset, RowsWire(rows)) && RowsCost(rows, typed) <= remaining
    ensures ReadRecords(data, offset, count, remaining, typed)
      == Some(Read(RecordsOfRows(rows, typed), offset + |RowsWire(rows)|))
    decreases count
  {
    hide At, RowFits, RowWire, FieldsCostFrom, RecordOfRow, ReadRecord, RowsFit, RecordsOfRows;
    if count == 0 {
      rows := [];
      NoRows(typed);
      AtNothing(data, offset);
    } else {
      var first := ReadRecord(data, offset, remaining, typed).value;
      var row := RowRead(data, offset, remaining, typed);
      var rest := RowsRead(data, first.next, count - 1, first.remaining, typed);
      rows := [row] + rest;
      assert rows[1..] == rest;
      MoreRows(row, rest, typed);
      FirstRow(rows, typed);
      AtJoin(data, offset, RowWire(row), RowsWire(rest));
    }
  }

  lemma MoreRows(row: Fields, rest: seq<Fields>, typed: bool)
    requires RowFits(row, typed) && RowsFit(rest, typed)
    ensures RowsFit([row] + rest, typed)
  {
    hide RowFits;
  }

  // ----- whole results

  function BodyWire(body: Body): bytes {
    match body
    case Rows(rows, cursor) => PageWire(cursor) + (PutU32(|rows|) + RowsWire(rows))
    case Number(n) => Number64(n)
  }

  /** The result's own counts: at most 100 records, as many as were found, or one number. */
  predicate BodyFits(body: Body, usage: Usage, typed: bool) {
    match body
    case Rows(rows, cursor) =>
      && |rows| <= 100 && CursorFits(cursor) && RowsFit(rows, typed) && |rows| + RowsCost(rows, typed) <= MAX_ITEMS
      && usage.resultRecords == |rows| <= usage.scannedEntries
    case Number(n) => 0 <= n <= MAX_INT64 && usage.resultRecords == 1
  }

  function Kind(body: Body): byte {
    if body.Rows? then 0 else 1
  }

  function ShapeOf(body: Body, typed: bool): Shape
    requires body.Rows? ==> RowsFit(body.rows, typed)
  {
    match body
    case Rows(rows, cursor) => Records(RecordsOfRows(rows, typed), Page(cursor.Some?, cursor))
    case Number(n) => Count(n)
  }

  lemma RowsLie(data: bytes, offset: nat, rows: seq<Fields>, cursor: Option<bytes>)
    requires |rows| <= 100 && At(data, offset, BodyWire(Rows(rows, cursor)))
    ensures At(data, offset, PageWire(cursor))
    ensures var place := offset + |PageWire(cursor)|;
      && place + 4 <= |data| && GetU32(data[place..]) == |rows| && At(data, place + 4, RowsWire(rows))
  {
    hide At, GetU32, PutU32, PageWire, RowsWire;
    AtJoin(data, offset, PageWire(cursor), PutU32(|rows|) + RowsWire(rows));
    AtJoin(data, offset + |PageWire(cursor)|, PutU32(|rows|), RowsWire(rows));
    AtU32(data, offset + |PageWire(cursor)|, |rows|);
  }

  lemma RowsBodyAt(data: bytes, offset: nat, rows: seq<Fields>, cursor: Option<bytes>, usage: Usage, typed: bool)
    requires BodyFits(Rows(rows, cursor), usage, typed) && At(data, offset, BodyWire(Rows(rows, cursor)))
    ensures ReadPageOfRecords(data, offset, usage, typed)
      == Some(Read(ShapeOf(Rows(rows, cursor), typed), offset + |BodyWire(Rows(rows, cursor))|))
  {
    hide At, GetU32, PutU32, PageWire, CursorFits, RowsFit, RowsWire, RowsCost, RecordsOfRows, ReadPage, ReadRecords;
    var place := offset + |PageWire(cursor)|;
    RowsLie(data, offset, rows, cursor);
    PageAt(data, offset, cursor);
    RowsAt(data, place + 4, rows, MAX_ITEMS - |rows|, typed);
  }

  lemma BodyAt(data: bytes, offset: nat, body: Body, head: Head, typed: bool)
    requires BodyFits(body, head.usage, typed) && At(data, offset, BodyWire(body)) && head.next == offset && head.kind == Kind(body)
    ensures ReadShape(data, head, typed) == Some(Read(ShapeOf(body, typed), offset + |BodyWire(body)|))
  {
    hide At, PageWire, CursorFits, RowsFit, RowsWire, RowsCost, RecordsOfRows, ReadPageOfRecords, ReadU64, Number64, PutU32;
    match body
    case Rows(rows, cursor) => RowsBodyAt(data, offset, rows, cursor, head.usage, typed);
    case Number(n) =>
      NumberSize(n);
      U64Read(data, offset, n);
  }

  lemma BodyRead(data: bytes, head: Head, typed: bool) returns (body: Body)
    requires ReadShape(data, head, typed).Some?
    ensures BodyFits(body, head.usage, typed) && head.kind == Kind(body) && At(data, head.next, BodyWire(body))
    ensures ReadShape(data, head, typed) == Some(Read(ShapeOf(body, typed), head.next + |BodyWire(body)|))
  {
    hide At, ReadPageOfRecords, RowsFit, RowsWire, RowsCost, RecordsOfRows, CursorFits, PageWire, ReadU64, Number64, PutU32;
    var offset := head.next;
    if head.kind == 0 {
      body := RowsBodyRead(data, offset, head.usage, typed);
    } else {
      var n := ReadU64(data, offset).value;
      body := Number(n);
      NumberSize(n);
      U64Read(data, offset, n);
    }
  }

  lemma RowsBodyRead(data: bytes, offset: nat, usage: Usage, typed: bool) returns (body: Body)
    requires ReadPageOfRecords(data, offset, usage, typed).Some?
    ensures body.Rows? && BodyFits(body, usage, typed) && At(data, offset, BodyWire(body))
    ensures ReadPageOfRecords(data, offset, usage, typed) == Some(Read(ShapeOf(body, typed), offset + |BodyWire(body)|))
  {
    hide At, GetU32, PutU32, PageWire, CursorFits, RowsFit, RowsWire, RowsCost, RecordsOfRows, ReadPage, ReadRecords;
    var page := ReadPage(data, offset).value;
    var count := GetU32(data[page.next..]);
    PageRead(data, offset);
    var rows := RowsRead(data, page.next + 4, count, MAX_ITEMS - count, typed);
    body := Rows(rows, page.value.cursor);
    AtU32(data, page.next, |rows|);
    AtJoin(data, page.next, PutU32(|rows|), RowsWire(rows));
    AtJoin(data, offset, PageWire(page.value.cursor), PutU32(|rows|) + RowsWire(rows));
  }

  /** The result as bytes: the kind of result, the quality codes, the counters, and the records or the number. */
  function Wire(a: Answer): bytes {
    [0xA0] + ([Kind(a.body)] + (QualityWire(a) + (UsageWire(a.usage) + BodyWire(a.body))))
  }

  /** The server keeps the client's checks, and counts its own bytes. */
  predicate Fits(a: Answer, typed: bool) {
    && KnownQuality(a) && UsageFits(a.usage) && BodyFits(a.body, a.usage, typed)
    && a.usage.responseBytes == |Wire(a)|
  }

  function ResultOf(a: Answer, typed: bool): QueryResult
    requires a.body.Rows? ==> RowsFit(a.body.rows, typed)
  {
    QueryResult(Quality(a), a.usage, ShapeOf(a.body, typed))
  }

  lemma HeadLies(data: bytes, a: Answer)
    requires UsageInRange(a.usage)
    ensures |QualityWire(a)| == 4 && |UsageWire(a.usage)| == 88
    ensures At(data, 0, Wire(a))
      <==> && |data| >= 2 && data[0] == 0xA0 && data[1] == Kind(a.body) && At(data, 2, QualityWire(a)) && At(data, 6, UsageWire(a.usage))
           && At(data, 94, BodyWire(a.body))
  {
    hide At, QualityWire, UsageWire, BodyWire, UsageInRange, ReadUsage;
    FourBytes(a);
    var u, b := UsageWire(a.usage), BodyWire(a.body);
    UsageLength(a.usage);
    AtJoin(data, 0, [0xA0], [Kind(a.body)] + (QualityWire(a) + (u + b)));
    AtJoin(data, 1, [Kind(a.body)], QualityWire(a) + (u + b));
    AtJoin(data, 2, QualityWire(a), u + b);
    AtJoin(data, 6, u, b);
    AtByte(data, 0, 0xA0);
    AtByte(data, 1, Kind(a.body));
  }

  lemma FourBytes(a: Answer)
    ensures |QualityWire(a)| == 4
  {
  }

  lemma UsageLength(u: Usage)
    requires UsageInRange(u)
    ensures |UsageWire(u)| == 88
  {
    hide UsageInRange, UsageWire;
    UsageReads([], 0, u);
  }

  lemma HeadReads(data: bytes, a: Answer)
    requires UsageInRange(a.usage) && |data| >= 94 && data[0] == 0xA0 && data[1] == Kind(a.body)
    ensures ReadHead(data) == Some(Head(Kind(a.body), Quality(a), a.usage, 94))
      <==> At(data, 2, QualityWire(a)) && KnownQuality(a) && At(data, 6, UsageWire(a.usage))
  {
    hide At, QualityWire, UsageWire, UsageInRange, ReadUsage, ReadQuality, KnownQuality, UsageOf;
    QualityReads(data, 2, a);
    UsageReads(data, 6, a.usage);
  }

  /** Whatever a server can write is read as what it says, by both decoders. */
  lemma WrittenIsRead(a: Answer, typed: bool)
    requires Fits(a, typed)
    ensures DecodeCompact(Wire(a), typed) == Some(ResultOf(a, typed))
  {
    hide At, QualityWire, UsageWire, BodyWire, UsageInRange, ReadHead, ReadShape, KnownQuality, BodyFits, Wire, CountersOk, Quality;
    var data := Wire(a);
    UsageOfFits(a.usage);
    Whole(data);
    HeadLies(data, a);
    BodyEnds(data, a);
    HeadReads(data, a);
    RowsOfFit(a.body, a.usage, typed);
    BodyAt(data, 94, a.body, Head(Kind(a.body), Quality(a), a.usage, 94), typed);
  }

  lemma RowsOfFit(body: Body, usage: Usage, typed: bool)
    requires BodyFits(body, usage, typed)
    ensures body.Rows? ==> RowsFit(body.rows, typed)
  {
    hide RowsFit, CursorFits;
  }

  lemma Whole(data: bytes)
    ensures At(data, 0, data)
  {
    assert data[0..|data|] == data;
  }

  lemma UsageOfFits(u: Usage)
    requires UsageFits(u)
    ensures UsageInRange(u) && CountersOk(u)
  {
    hide CountersOk, UsageInRange;
    CountersMeaning(u);
  }

  lemma BodyEnds(data: bytes, a: Answer)
    requires UsageInRange(a.usage) && data == Wire(a) && At(data, 94, BodyWire(a.body))
    ensures |data| == 94 + |BodyWire(a.body)|
  {
    hide At, QualityWire, UsageWire, BodyWire, UsageInRange;
    FourBytes(a);
    UsageLength(a.usage);
  }

  /** And whatever they accept is something that a server can write. */
  lemma ReadIsWritten(data: bytes, typed: bool) returns (a: Answer)
    requires DecodeCompact(data, typed).Some?
    ensures Fits(a, typed) && data == Wire(a) && DecodeCompact(data, typed) == Some(ResultOf(a, typed))
  {
    hide At, QualityWire, UsageWire, BodyWire, UsageInRange, ReadHead, ReadShape, KnownQuality, BodyFits, CountersOk, UsageFits;
    var head := ReadHead(data).value;
    HeadIsValid(data);
    HeadPlace(data);
    var q := head.quality;
    FourQualities(q);
    var body := BodyRead(data, head, typed);
    RowsOfFit(body, head.usage, typed);
    a := Answer(q[0], q[1], q[2], q[3], head.usage, body);
    assert Quality(a) == q;
    HeadReads(data, a);
    HeadLies(data, a);
    AtWithin(data, 94, BodyWire(body));
    FitsOfUsage(a.usage);
    WholeWire(data, a);
  }

  lemma FourQualities(q: seq<string>)
    requires QualitiesOk(q)
    ensures |q| == 4 && q == [q[0], q[1], q[2], q[3]]
  {
    hide QualityOk;
  }

  lemma HeadPlace(data: bytes)
    requires ReadHead(data).Some?
    ensures |data| >= 94 && data[0] == 0xA0 && ReadHead(data).value.next == 94 && ReadHead(data).value.kind == data[1]
  {
    hide ReadUsage, ReadQuality, UsageOf;
  }

  lemma FitsOfUsage(u: Usage)
    requires UsageInRange(u) && CountersOk(u)
    ensures UsageFits(u)
  {
    hide CountersOk, UsageInRange;
    CountersMeaning(u);
  }

  lemma WholeWire(data: bytes, a: Answer)
    requires UsageInRange(a.usage) && At(data, 0, Wire(a)) && |data| == 94 + |BodyWire(a.body)|
    ensures data == Wire(a)
  {
    hide QualityWire, UsageWire, BodyWire, UsageInRange;
    FourBytes(a);
    UsageLength(a.usage);
    assert data[0..|data|] == data;
  }

  ghost predicate Written(a: Answer, data: bytes, typed: bool) {
    Fits(a, typed) && data == Wire(a)
  }

  /** `result` is what the bytes say, if a server can have written them, and nothing otherwise. */
  ghost predicate Reads(data: bytes, result: Option<QueryResult>, typed: bool) {
    && (forall a :: Written(a, data, typed) ==> SaysTo(a, result, typed))
    && (result.Some? ==> exists a :: Written(a, data, typed))
  }

  ghost predicate SaysTo(a: Answer, result: Option<QueryResult>, typed: bool) {
    (a.body.Rows? ==> RowsFit(a.body.rows, typed)) && result == Some(ResultOf(a, typed))
  }

  lemma DecodesWritten(data: bytes, typed: bool)
    ensures Reads(data, DecodeCompact(data, typed), typed)
  {
    hide Fits, Wire, DecodeCompact, ResultOf, RowsFit, BodyFits;
    forall a | Written(a, data, typed) ensures SaysTo(a, DecodeCompact(data, typed), typed) {
      RowsOf(a, typed);
      WrittenIsRead(a, typed);
    }
    if DecodeCompact(data, typed).Some? {
      var a := ReadIsWritten(data, typed);
      assert Written(a, data, typed);
    }
  }

  lemma RowsOf(a: Answer, typed: bool)
    requires Fits(a, typed)
    ensures a.body.Rows? ==> RowsFit(a.body.rows, typed)
  {
    hide RowsFit, CursorFits, UsageFits, KnownQuality, Wire;
  }
}
