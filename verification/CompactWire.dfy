/**
  The wire form of what the compact readers read, written without them: the
  readers accept exactly these bytes, and read from them exactly what was written.
*/
module CompactWire {
  import opened Bytes
  import opened NativeValue
  import opened CompactReaders
  import opened Results
  import NativeLocality
  import NativeReencode
  import NativeRoundTrip

  /** `part` stands at `offset`. */
  predicate At(data: bytes, offset: nat, part: bytes) {
    offset + |part| <= |data| && data[offset..offset + |part|] == part
  }

  lemma AtJoin(data: bytes, offset: nat, a: bytes, b: bytes)
    ensures At(data, offset, a + b) <==> At(data, offset, a) && At(data, offset + |a|, b)
  {
    if offset + |a| + |b| <= |data| {
      var whole := data[offset..offset + |a| + |b|];
      assert whole == data[offset..offset + |a|] + data[offset + |a|..offset + |a| + |b|];
      if At(data, offset, a + b) {
        assert whole[..|a|] == a && whole[|a|..] == b;
      }
    }
  }

  lemma AtByte(data: bytes, offset: nat, b: byte)
    ensures At(data, offset, [b]) <==> offset < |data| && data[offset] == b
  {
  }

  lemma AtNothing(data: bytes, offset: nat)
    requires offset <= |data|
    ensures At(data, offset, [])
  {
  }

  // ----- numbers

  lemma U32Back(b: bytes)
    requires |b| >= 4
    ensures PutU32(GetU32(b)) == b[..4]
  {
    var n := GetU32(b);
    assert n / 0x100_0000 == b[0] && n / 0x1_0000 == b[0] as int * 0x100 + b[1];
    assert n / 0x100 == b[0] as int * 0x1_0000 + b[1] as int * 0x100 + b[2];
  }

  lemma U64Back(b: bytes)
    requires |b| >= 8
    ensures PutU64(GetU64(b)) == b[..8]
  {
    hide GetU32, PutU32;
    U32Back(b);
    U32Back(b[4..]);
    assert GetU64(b) / U32_SPAN == GetU32(b) && GetU64(b) % U32_SPAN == GetU32(b[4..]);
    assert b[..8] == b[..4] + b[4..][..4];
  }

  lemma AtU32(data: bytes, offset: nat, n: nat)
    requires n < U32_SPAN
    ensures At(data, offset, PutU32(n)) <==> offset + 4 <= |data| && GetU32(data[offset..]) == n
  {
    hide GetU32, PutU32;
    if offset + 4 <= |data| {
      U32Back(data[offset..]);
      assert data[offset..][..4] == data[offset..offset + 4];
      if At(data, offset, PutU32(n)) {
        U32RoundTrip(n, data[offset + 4..]);
        assert data[offset..] == PutU32(n) + data[offset + 4..];
      }
    }
  }

  lemma AtU64(data: bytes, offset: nat, n: uint64)
    ensures At(data, offset, PutU64(n)) <==> offset + 8 <= |data| && GetU64(data[offset..]) == n
  {
    hide GetU64, PutU64;
    if offset + 8 <= |data| {
      U64Back(data[offset..]);
      assert data[offset..][..8] == data[offset..offset + 8];
      if At(data, offset, PutU64(n)) {
        U64RoundTrip(n, data[offset + 8..]);
        assert data[offset..] == PutU64(n) + data[offset + 8..];
      }
    }
  }

  // ----- binaries

  function Sized(b: bytes): bytes {
    PutU32(|b|) + b
  }

  /** Absence is the length of four 0xFF bytes. */
  function SizedOptional(b: Option<bytes>): bytes {
    match b
    case None => [0xFF, 0xFF, 0xFF, 0xFF]
    case Some(present) => Sized(present)
  }

  predicate OptionalFits(b: Option<bytes>) {
    b.Some? ==> |b.value| < 0xFFFF_FFFF
  }

  lemma BinaryAt(data: bytes, offset: nat, b: bytes)
    requires |b| < U32_SPAN && At(data, offset, Sized(b))
    ensures ReadBinary(data, offset) == Ok(Read(b, offset + 4 + |b|))
  {
    hide GetU32, PutU32, At;
    AtJoin(data, offset, PutU32(|b|), b);
    AtU32(data, offset, |b|);
    AtEnds(data, offset + 4, b);
  }

  lemma AtEnds(data: bytes, offset: nat, part: bytes)
    requires At(data, offset, part)
    ensures offset + |part| <= |data| && data[offset..offset + |part|] == part
  {
  }

  lemma BinaryRead(data: bytes, offset: nat)
    requires ReadBinary(data, offset).Ok?
    ensures var r := ReadBinary(data, offset).value;
      |r.value| < U32_SPAN && At(data, offset, Sized(r.value)) && r.next == offset + |Sized(r.value)|
  {
    hide GetU32, PutU32;
    var r := ReadBinary(data, offset).value;
    AtU32(data, offset, |r.value|);
    AtJoin(data, offset, PutU32(|r.value|), r.value);
  }

  lemma NilIsNil()
    ensures PutU32(NIL_LENGTH) == [0xFF, 0xFF, 0xFF, 0xFF]
  {
  }

  lemma OptionalAt(data: bytes, offset: nat, b: Option<bytes>)
    requires OptionalFits(b) && At(data, offset, SizedOptional(b))
    ensures ReadOptionalBinary(data, offset) == Ok(Read(b, offset + |SizedOptional(b)|))
  {
    hide GetU32, PutU32, At, ReadBinary;
    NilIsNil();
    AtU32(data, offset, NIL_LENGTH);
    if b.Some? {
      AtJoin(data, offset, PutU32(|b.value|), b.value);
      AtU32(data, offset, |b.value|);
      BinaryAt(data, offset, b.value);
    }
  }

  lemma OptionalRead(data: bytes, offset: nat)
    requires ReadOptionalBinary(data, offset).Ok?
    ensures var r := ReadOptionalBinary(data, offset).value;
      OptionalFits(r.value) && At(data, offset, SizedOptional(r.value)) && r.next == offset + |SizedOptional(r.value)|
  {
    hide GetU32, PutU32, At, ReadBinary;
    var r := ReadOptionalBinary(data, offset).value;
    NilIsNil();
    AtU32(data, offset, NIL_LENGTH);
    if r.value.Some? {
      BinaryRead(data, offset);
      AtJoin(data, offset, PutU32(|r.value.value|), r.value.value);
      AtU32(data, offset, |r.value.value|);
    }
  }

  // ----- embedded native values

  /** The bytes are one native value and nothing else. */
  predicate IsNative(raw: bytes) {
    match Decode(raw, MAX_DEPTH, MAX_ITEMS, 0)
    case Ok(d) => d.rest == []
    case Err(_) => false
  }

  function NativeIn(raw: bytes): Value
    requires IsNative(raw)
  {
    Decode(raw, MAX_DEPTH, MAX_ITEMS, 0).value.value
  }

  function NodesIn(raw: bytes): (n: nat)
    requires IsNative(raw)
    ensures n > 0
  {
    MAX_ITEMS - Decode(raw, MAX_DEPTH, MAX_ITEMS, 0).value.remaining
  }

  /** What the encoder writes is a native value, namely its normal form, with as many nodes. */
  lemma EncodedIsNative(v: Value)
    requires Admissible(v, 0) && Nodes(v) <= MAX_ITEMS
    ensures IsNative(Encode(v)) && NativeIn(Encode(v)) == Normalize(v) && NodesIn(Encode(v)) == Nodes(v)
  {
    hide Decode, Encode, Nodes, Admissible, Normalize;
    NativeRoundTrip.RoundTrip(v, [], MAX_DEPTH, MAX_ITEMS, 0);
    assert Encode(v) + [] == Encode(v);
  }

  lemma ValueAt(data: bytes, offset: nat, raw: bytes, remaining: nat)
    requires IsNative(raw) && NodesIn(raw) <= remaining && At(data, offset, raw)
    ensures TakeValue(data, offset, remaining) == Ok(Taken(NativeIn(raw), offset + |raw|, remaining - NodesIn(raw)))
  {
    hide Decode;
    var suffix := data[offset + |raw|..];
    assert data[offset..] == raw + suffix;
    NativeLocality.DecodeAlone(raw, MAX_DEPTH, MAX_ITEMS, 0, suffix, remaining);
    assert NativeLocality.Used(raw, []) == raw;
  }

  lemma ValueTaken(data: bytes, offset: nat, remaining: nat) returns (raw: bytes)
    requires offset <= |data| && remaining <= MAX_ITEMS && TakeValue(data, offset, remaining).Ok?
    ensures var t := TakeValue(data, offset, remaining).value;
      && IsNative(raw) && At(data, offset, raw) && t.next == offset + |raw| && raw != []
      && t.value == NativeIn(raw) && t.remaining == remaining - NodesIn(raw)
  {
    hide Decode;
    var t := TakeValue(data, offset, remaining).value;
    var d := Decode(data[offset..], MAX_DEPTH, remaining, 0).value;
    raw := data[offset..t.next];
    NativeLocality.DecodeAlone(data[offset..], MAX_DEPTH, remaining, 0, [], MAX_ITEMS);
    assert NativeLocality.Used(data[offset..], d.rest) + [] == raw;
  }

  // ----- Flow records

  /** A field under a number, or an extension under its own name. */
  datatype Field = Numbered(id: byte, raw: bytes) | Extension(name: bytes, raw: bytes)

  /** The names that the numbers stand for; a number without a name is one that a later server may use. */
  function Label(id: byte): string {
    match id as int
    case 1 => "id"
    case 2 => "type"
    case 3 => "state"
    case 4 => "version"
    case 5 => "priority"
    case 6 => "partition_key"
    case 7 => "payload_ref"
    case 8 => "result_ref"
    case 9 => "error_ref"
    case 10 => "payload"
    case 11 => "result"
    case 12 => "error"
    case 13 => "created_at_ms"
    case 14 => "updated_at_ms"
    case 15 => "next_run_at_ms"
    case 16 => "lease_deadline_ms"
    case 17 => "lease_owner"
    case 18 => "lease_token"
    case 19 => "fencing_token"
    case 20 => "attempts"
    case 21 => "history_max_events"
    case 22 => "history_hot_max_events"
    case 23 => "child_groups"
    case 24 => "parent_flow_id"
    case 25 => "parent_partition_key"
    case 26 => "root_flow_id"
    case 27 => "correlation_id"
    case 28 => "terminal_retention_until_ms"
    case 29 => "ttl_ms"
    case 30 => "retention_ttl_ms"
    case 31 => "run_state"
    case 32 => "value_refs"
    case 33 => "values"
    case 34 => "payload_omitted"
    case 35 => "payload_size"
    case 36 => "result_omitted"
    case 37 => "result_size"
    case 38 => "error_omitted"
    case 39 => "error_size"
    case 40 => "max_attempts"
    case 41 => "attributes"
    case _ => ""
  }

  lemma LabelsFirst(id: byte)
    requires id < 21
    ensures id as int < |FLOW_RECORD_FIELDS| && FLOW_RECORD_FIELDS[id] == Label(id)
  {
  }

  lemma LabelsLast(id: byte)
    requires id >= 21
    ensures if id < 42 then id as int < |FLOW_RECORD_FIELDS| && FLOW_RECORD_FIELDS[id] == Label(id)
            else id as int >= |FLOW_RECORD_FIELDS| && Label(id) == ""
  {
  }

  lemma LabelIsName(id: byte)
    ensures FieldName(id) == Ascii(Label(id))
  {
    hide Ascii, Label;
    if id < 21 { LabelsFirst(id); } else { LabelsLast(id); }
    NoName();
  }

  lemma NoName()
    ensures Ascii("") == []
  {
  }

  function KeyOf(f: Field): bytes {
    match f
    case Numbered(id, _) => Ascii(Label(id))
    case Extension(name, _) => name
  }

  function FieldHead(f: Field): bytes {
    match f
    case Numbered(id, _) => [id]
    case Extension(name, _) => [0] + Sized(name)
  }

  predicate FieldFits(f: Field) {
    && IsNative(f.raw)
    && match f
       case Numbered(id, _) => id != 0
       case Extension(name, _) => 0 < |name| < U32_SPAN
  }

  predicate FieldsFit(fields: seq<Field>) {
    forall i :: 0 <= i < |fields| ==> FieldFits(fields[i])
  }

  function FieldsWire(fields: seq<Field>): bytes {
    if fields == [] then [] else FieldHead(fields[0]) + fields[0].raw + FieldsWire(fields[1..])
  }

  function FieldsNodes(fields: seq<Field>): nat
    requires FieldsFit(fields)
  {
    if fields == [] then 0 else NodesIn(fields[0].raw) + FieldsNodes(fields[1..])
  }

  /** Fields with a name, under that name; the others are skipped. */
  function RecordOf(fields: seq<Field>): map<bytes, Value>
    requires FieldsFit(fields)
  {
    if fields == [] then map[]
    else
      (if KeyOf(fields[0]) == [] then map[] else map[KeyOf(fields[0]) := NativeIn(fields[0].raw)]) + RecordOf(fields[1..])
  }

  /** No two fields have the same name, and none has the name of one already known. */
  ghost predicate Fresh(fields: seq<Field>, known: map<bytes, Value>) {
    && (forall i :: 0 <= i < |fields| && KeyOf(fields[i]) != [] ==> KeyOf(fields[i]) !in known)
    && forall i, j :: 0 <= i < j < |fields| && KeyOf(fields[i]) != [] ==> KeyOf(fields[i]) != KeyOf(fields[j])
  }

  lemma FieldNameAt(data: bytes, offset: nat, f: Field)
    requires FieldFits(f) && At(data, offset, FieldHead(f))
    ensures ReadFieldName(data, offset) == Ok(Read(KeyOf(f), offset + |FieldHead(f)|))
  {
    hide IsNative, At, FieldName, Label, ReadBinary;
    match f
    case Numbered(id, _) =>
      AtByte(data, offset, id);
      LabelIsName(id);
    case Extension(name, _) =>
      AtJoin(data, offset, [0], Sized(name));
      AtByte(data, offset, 0);
      BinaryAt(data, offset + 1, name);
  }

  /** A field as it was read; its value is still to come. */
  lemma FieldNameRead(data: bytes, offset: nat, raw: bytes) returns (f: Field)
    requires ReadFieldName(data, offset).Ok? && IsNative(raw)
    ensures var r := ReadFieldName(data, offset).value;
      FieldFits(f) && At(data, offset, FieldHead(f)) && r == Read(KeyOf(f), offset + |FieldHead(f)|) && f.raw == raw
  {
    hide IsNative, At, FieldName, Label, ReadBinary;
    if data[offset] != 0 {
      f := Numbered(data[offset], raw);
      AtByte(data, offset, data[offset]);
      LabelIsName(data[offset]);
    } else {
      var name := ReadBinary(data, offset + 1).value;
      f := Extension(name.value, raw);
      BinaryRead(data, offset + 1);
      AtByte(data, offset, 0);
      AtJoin(data, offset, [0], Sized(name.value));
    }
  }

  lemma FieldsStep(data: bytes, offset: nat, fields: seq<Field>)
    requires fields != []
    ensures At(data, offset, FieldsWire(fields))
      <==> && At(data, offset, FieldHead(fields[0]))
           && At(data, offset + |FieldHead(fields[0])|, fields[0].raw)
           && At(data, offset + |FieldHead(fields[0])| + |fields[0].raw|, FieldsWire(fields[1..]))
  {
    hide At, FieldHead;
    AtJoin(data, offset, FieldHead(fields[0]) + fields[0].raw, FieldsWire(fields[1..]));
    AtJoin(data, offset, FieldHead(fields[0]), fields[0].raw);
  }

  lemma FreshStep(fields: seq<Field>, known: map<bytes, Value>, v: Value)
    requires fields != []
    ensures var key := KeyOf(fields[0]);
      Fresh(fields, known) <==>
      if key == [] then Fresh(fields[1..], known) else key !in known && Fresh(fields[1..], known[key := v])
  {
    hide KeyOf;
    var key, rest := KeyOf(fields[0]), fields[1..];
    var more := if key == [] then known else known[key := v];
    if Fresh(fields, known) {
      forall i | 0 <= i < |rest| && KeyOf(rest[i]) != [] ensures KeyOf(rest[i]) !in more { assert rest[i] == fields[i + 1]; }
      forall i, j | 0 <= i < j < |rest| && KeyOf(rest[i]) != [] ensures KeyOf(rest[i]) != KeyOf(rest[j]) {
        assert rest[i] == fields[i + 1] && rest[j] == fields[j + 1];
      }
    }
    if Fresh(rest, more) && key !in known {
      forall i | 0 <= i < |fields| && KeyOf(fields[i]) != [] ensures KeyOf(fields[i]) !in known {
        if i > 0 { assert fields[i] == rest[i - 1]; }
      }
      forall i, j | 0 <= i < j < |fields| && KeyOf(fields[i]) != [] ensures KeyOf(fields[i]) != KeyOf(fields[j]) {
        assert fields[j] == rest[j - 1];
        if i > 0 { assert fields[i] == rest[i - 1]; }
      }
    }
    if key == [] && Fresh(rest, known) {
      forall i | 0 <= i < |fields| && KeyOf(fields[i]) != [] ensures KeyOf(fields[i]) !in known {
        if i > 0 { assert fields[i] == rest[i - 1]; }
      }
      forall i, j | 0 <= i < j < |fields| && KeyOf(fields[i]) != [] ensures KeyOf(fields[i]) != KeyOf(fields[j]) {
        assert fields[j] == rest[j - 1];
        if i > 0 { assert fields[i] == rest[i - 1]; }
      }
    }
  }

  lemma RecordStep(fields: seq<Field>, known: map<bytes, Value>)
    requires fields != [] && FieldsFit(fields)
    ensures FieldsFit(fields[1..])
    ensures var key := KeyOf(fields[0]);
      known + RecordOf(fields)
      == (if key == [] then known else known[key := NativeIn(fields[0].raw)]) + RecordOf(fields[1..])
  {
    hide KeyOf, IsNative, NativeIn;
  }

  lemma {:induction false} FieldsAt(data: bytes, offset: nat, fields: seq<Field>, known: map<bytes, Value>, remaining: nat)
    requires FieldsFit(fields) && Fresh(fields, known) && FieldsNodes(fields) <= remaining
    requires At(data, offset, FieldsWire(fields)) && offset <= |data|
    ensures TakeFields(data, offset, |fields|, known, remaining)
      == Ok(Taken(known + RecordOf(fields), offset + |FieldsWire(fields)|, remaining - FieldsNodes(fields)))
    decreases |fields|
  {
    hide TakeFields, At, FieldHead, KeyOf, IsNative, NativeIn, NodesIn, ReadFieldName, TakeValue, Fresh, RecordOf, FieldFits;
    if fields == [] {
      NoRecord(known);
      NoFieldsTaken(data, offset, known, remaining);
    } else {
      var f := fields[0];
      FieldsStep(data, offset, fields);
      FirstFits(fields);
      FieldNameAt(data, offset, f);
      var start := offset + |FieldHead(f)|;
      ValueAt(data, start, f.raw, remaining);
      FreshStep(fields, known, NativeIn(f.raw));
      RecordStep(fields, known);
      AtWithin(data, start, f.raw);
      FieldsAt(data, start + |f.raw|, fields[1..], if KeyOf(f) == [] then known else known[KeyOf(f) := NativeIn(f.raw)],
        remaining - NodesIn(f.raw));
      TakeFieldsStep(data, offset, |fields|, known, remaining);
    }
  }

  lemma TakeFieldsStep(data: bytes, offset: nat, count: nat, known: map<bytes, Value>, remaining: nat)
    requires offset <= |data| && count > 0 && ReadFieldName(data, offset).Ok?
    requires TakeValue(data, ReadFieldName(data, offset).value.next, remaining).Ok?
    ensures var name := ReadFieldName(data, offset).value;
      var field := TakeValue(data, name.next, remaining).value;
      TakeFields(data, offset, count, known, remaining) ==
      if name.value == [] then TakeFields(data, field.next, count - 1, known, field.remaining)
      else if name.value in known then Err(Duplicate)
      else TakeFields(data, field.next, count - 1, known[name.value := field.value], field.remaining)
  {
    hide ReadFieldName, TakeValue;
  }

  lemma NoFieldsTaken(data: bytes, offset: nat, known: map<bytes, Value>, remaining: nat)
    requires offset <= |data|
    ensures TakeFields(data, offset, 0, known, remaining) == Ok(Taken(known, offset, remaining))
  {
  }

  lemma NoRecord(known: map<bytes, Value>)
    ensures known + RecordOf([]) == known
  {
  }

  lemma FirstFits(fields: seq<Field>)
    requires fields != [] && FieldsFit(fields)
    ensures FieldFits(fields[0]) && IsNative(fields[0].raw) && FieldsFit(fields[1..])
  {
    hide IsNative;
  }

  lemma AtWithin(data: bytes, offset: nat, part: bytes)
    requires At(data, offset, part)
    ensures offset + |part| <= |data|
  {
  }

  lemma {:induction false} FieldsTaken(data: bytes, offset: nat, count: nat, known: map<bytes, Value>, remaining: nat)
    returns (fields: seq<Field>)
    requires offset <= |data| && remaining <= MAX_ITEMS && TakeFields(data, offset, count, known, remaining).Ok?
    ensures |fields| == count && FieldsFit(fields) && Fresh(fields, known) && At(data, offset, FieldsWire(fields))
    ensures var t := TakeFields(data, offset, count, known, remaining).value;
      && t.value == known + RecordOf(fields) && t.next == offset + |FieldsWire(fields)|
      && t.remaining == remaining - FieldsNodes(fields)
    decreases count
  {
    hide At, FieldHead, KeyOf, IsNative, NativeIn, NodesIn, ReadFieldName, TakeValue, Fresh, RecordOf, FieldFits;
    if count == 0 {
      fields := [];
      NoFields(data, offset, known);
    } else {
      var name := ReadFieldName(data, offset).value;
      var raw := ValueTaken(data, name.next, remaining);
      var value := TakeValue(data, name.next, remaining).value;
      var f := FieldNameRead(data, offset, raw);
      var rest := FieldsTaken(data, value.next, count - 1,
        if name.value == [] then known else known[name.value := value.value], value.remaining);
      fields := [f] + rest;
      assert fields[1..] == rest;
      FieldsStep(data, offset, fields);
      FreshStep(fields, known, value.value);
      MoreFit(f, rest);
      RecordStep(fields, known);
    }
  }

  lemma NoFields(data: bytes, offset: nat, known: map<bytes, Value>)
    requires offset <= |data|
    ensures FieldsFit([]) && Fresh([], known) && At(data, offset, FieldsWire([])) && known + RecordOf([]) == known
  {
  }

  lemma MoreFit(f: Field, rest: seq<Field>)
    requires FieldFits(f) && FieldsFit(rest)
    ensures FieldsFit([f] + rest)
  {
    hide FieldFits;
  }

  lemma {:induction false} FieldsTakeRoom(fields: seq<Field>)
    requires FieldsFit(fields)
    ensures |FieldsWire(fields)| >= 2 * |fields| && FieldsNodes(fields) >= |fields|
  {
    hide IsNative, NodesIn;
    if fields != [] {
      FirstFits(fields);
      NativeIsThere(fields[0].raw);
      FieldsTakeRoom(fields[1..]);
    }
  }

  lemma NativeIsThere(raw: bytes)
    requires IsNative(raw)
    ensures raw != []
  {
  }

  // ----- records

  function RecordWire(fields: seq<Field>): bytes {
    [0x84] + PutU32(|fields|) + FieldsWire(fields)
  }

  ghost predicate RecordFits(fields: seq<Field>) {
    FieldsFit(fields) && Fresh(fields, map[])
  }

  /** A unit for every field, on top of those of its value. */
  function RecordCost(fields: seq<Field>): nat
    requires FieldsFit(fields)
  {
    |fields| + FieldsNodes(fields)
  }

  lemma CountAt(data: bytes, offset: nat, tag: byte, count: nat, body: bytes)
    requires count < U32_SPAN
    ensures At(data, offset, [tag] + PutU32(count) + body)
      <==> && offset + 5 <= |data| && data[offset] == tag && GetU32(data[offset + 1..]) == count
           && At(data, offset + 5, body)
  {
    hide At, GetU32, PutU32;
    AtJoin(data, offset, [tag] + PutU32(count), body);
    AtJoin(data, offset, [tag], PutU32(count));
    AtByte(data, offset, tag);
    AtU32(data, offset + 1, count);
  }

  lemma RecordAt(data: bytes, offset: nat, fields: seq<Field>, remaining: nat)
    requires RecordFits(fields) && RecordCost(fields) <= remaining <= MAX_ITEMS && At(data, offset, RecordWire(fields))
    ensures TakeFlowRecord(data, offset, remaining)
      == Ok(Taken(Map(RecordOf(fields)), offset + |RecordWire(fields)|, remaining - RecordCost(fields)))
  {
    hide At, Fresh, FieldsFit, RecordOf, TakeFields, GetU32, PutU32;
    CountAt(data, offset, 0x84, |fields|, FieldsWire(fields));
    AtWithin(data, offset + 5, FieldsWire(fields));
    FieldsTakeRoom(fields);
    FieldsAt(data, offset + 5, fields, map[], remaining - |fields|);
    OnNothing(RecordOf(fields));
  }

  lemma OnNothing(m: map<bytes, Value>)
    ensures map[] + m == m
  {
  }

  lemma RecordTaken(data: bytes, offset: nat, remaining: nat) returns (fields: seq<Field>)
    requires remaining <= MAX_ITEMS && TakeFlowRecord(data, offset, remaining).Ok?
    ensures RecordFits(fields) && At(data, offset, RecordWire(fields))
    ensures var t := TakeFlowRecord(data, offset, remaining).value;
      && t.value == Map(RecordOf(fields)) && t.next == offset + |RecordWire(fields)|
      && t.remaining == remaining - RecordCost(fields)
  {
    hide At, Fresh, FieldsFit, RecordOf, TakeFields, GetU32, PutU32;
    var count := GetU32(data[offset + 1..]);
    fields := FieldsTaken(data, offset + 5, count, map[], remaining - count);
    CountAt(data, offset, 0x84, |fields|, FieldsWire(fields));
    OnNothing(RecordOf(fields));
  }

  // ----- record lists

  ghost predicate RecordsFit(records: seq<seq<Field>>) {
    forall i :: 0 <= i < |records| ==> RecordFits(records[i])
  }

  function RecordsWire(records: seq<seq<Field>>): bytes {
    if records == [] then [] else RecordWire(records[0]) + RecordsWire(records[1..])
  }

  ghost function RecordsCost(records: seq<seq<Field>>): nat
    requires RecordsFit(records)
  {
    if records == [] then 0 else RecordCost(records[0]) + RecordsCost(records[1..])
  }

  ghost function RecordsOf(records: seq<seq<Field>>): seq<Value>
    requires RecordsFit(records)
  {
    seq(|records|, i requires 0 <= i < |records| => Map(RecordOf(records[i])))
  }

  lemma FirstRecord(records: seq<seq<Field>>)
    requires records != [] && RecordsFit(records)
    ensures RecordFits(records[0]) && FieldsFit(records[0]) && RecordsFit(records[1..])
    ensures RecordsOf(records) == [Map(RecordOf(records[0]))] + RecordsOf(records[1..])
  {
    hide Fresh, FieldsFit, RecordOf;
  }

  lemma {:induction false} RecordsAt(data: bytes, offset: nat, records: seq<seq<Field>>, remaining: nat)
    requires RecordsFit(records) && RecordsCost(records) <= remaining <= MAX_ITEMS && offset <= |data|
    requires At(data, offset, RecordsWire(records))
    ensures TakeRecords(data, offset, |records|, remaining)
      == Ok(Taken(RecordsOf(records), offset + |RecordsWire(records)|, remaining - RecordsCost(records)))
    decreases |records|
  {
    hide At, TakeFlowRecord, TakeRecords, RecordWire, RecordCost, RecordFits, RecordsFit, RecordsOf;
    if records == [] {
      NoRecords(data, offset);
      NoRecordsTaken(data, offset, remaining);
    } else {
      FirstRecord(records);
      AtJoin(data, offset, RecordWire(records[0]), RecordsWire(records[1..]));
      AtWithin(data, offset, RecordWire(records[0]));
      RecordAt(data, offset, records[0], remaining);
      RecordsAt(data, offset + |RecordWire(records[0])|, records[1..], remaining - RecordCost(records[0]));
      TakeRecordsStep(data, offset, |records|, remaining);
    }
  }

  lemma TakeRecordsStep(data: bytes, offset: nat, count: nat, remaining: nat)
    requires offset <= |data| && count > 0 && TakeFlowRecord(data, offset, remaining).Ok?
    requires var head := TakeFlowRecord(data, offset, remaining).value;
      TakeRecords(data, head.next, count - 1, head.remaining).Ok?
    ensures var head := TakeFlowRecord(data, offset, remaining).value;
      var tail := TakeRecords(data, head.next, count - 1, head.remaining).value;
      TakeRecords(data, offset, count, remaining) == Ok(Taken([head.value] + tail.value, tail.next, tail.remaining))
  {
    hide TakeFlowRecord;
  }

  lemma NoRecordsTaken(data: bytes, offset: nat, remaining: nat)
    requires offset <= |data|
    ensures TakeRecords(data, offset, 0, remaining) == Ok(Taken([], offset, remaining))
  {
  }

  lemma NoRecords(data: bytes, offset: nat)
    requires offset <= |data|
    ensures RecordsFit([]) && RecordsOf([]) == [] && At(data, offset, RecordsWire([]))
  {
  }

  lemma {:induction false} RecordsTaken(data: bytes, offset: nat, count: nat, remaining: nat) returns (records: seq<seq<Field>>)
    requires remaining <= MAX_ITEMS && offset <= |data| && TakeRecords(data, offset, count, remaining).Ok?
    ensures |records| == count && RecordsFit(records) && At(data, offset, RecordsWire(records))
    ensures var t := TakeRecords(data, offset, count, remaining).value;
      && t.value == RecordsOf(records) && t.next == offset + |RecordsWire(records)|
      && t.remaining == remaining - RecordsCost(records)
    decreases count
  {
    hide At, TakeFlowRecord, RecordWire, RecordCost, RecordFits, RecordsFit, RecordsOf;
    if count == 0 {
      records := [];
      NoRecords(data, offset);
    } else {
      var head := TakeFlowRecord(data, offset, remaining).value;
      var first := RecordTaken(data, offset, remaining);
      var rest := RecordsTaken(data, head.next, count - 1, head.remaining);
      records := [first] + rest;
      assert records[1..] == rest;
      AllFit(first, rest);
      FirstRecord(records);
      AtJoin(data, offset, RecordWire(first), RecordsWire(rest));
    }
  }

  lemma AllFit(first: seq<Field>, rest: seq<seq<Field>>)
    requires RecordFits(first) && RecordsFit(rest)
    ensures RecordsFit([first] + rest)
  {
    hide RecordFits;
  }

  function RecordListWire(records: seq<seq<Field>>): bytes {
    [0x85] + PutU32(|records|) + RecordsWire(records)
  }

  ghost function RecordListCost(records: seq<seq<Field>>): nat
    requires RecordsFit(records)
  {
    |records| + RecordsCost(records)
  }

  lemma {:induction false} RecordsTakeRoom(records: seq<seq<Field>>)
    ensures |RecordsWire(records)| >= 5 * |records|
  {
    if records != [] { RecordsTakeRoom(records[1..]); }
  }

  lemma RecordListAt(data: bytes, offset: nat, records: seq<seq<Field>>, remaining: nat)
    requires RecordsFit(records) && RecordListCost(records) <= remaining <= MAX_ITEMS && At(data, offset, RecordListWire(records))
    ensures TakeFlowRecordList(data, offset, remaining)
      == Ok(Taken(List(RecordsOf(records)), offset + |RecordListWire(records)|, remaining - RecordListCost(records)))
  {
    hide At, RecordsFit, RecordsOf, TakeRecords, GetU32, PutU32, RecordsWire, RecordsCost;
    CountAt(data, offset, 0x85, |records|, RecordsWire(records));
    AtWithin(data, offset + 5, RecordsWire(records));
    RecordsTakeRoom(records);
    RecordsAt(data, offset + 5, records, remaining - |records|);
  }

  lemma RecordListTaken(data: bytes, offset: nat, remaining: nat) returns (records: seq<seq<Field>>)
    requires remaining <= MAX_ITEMS && TakeFlowRecordList(data, offset, remaining).Ok?
    ensures RecordsFit(records) && At(data, offset, RecordListWire(records))
    ensures var t := TakeFlowRecordList(data, offset, remaining).value;
      && t.value == List(RecordsOf(records)) && t.next == offset + |RecordListWire(records)|
      && t.remaining == remaining - RecordListCost(records)
  {
    hide At, RecordsFit, RecordsOf, TakeRecords, GetU32, PutU32, RecordsWire, RecordsCost;
    var count := GetU32(data[offset + 1..]);
    records := RecordsTaken(data, offset + 5, count, remaining - count);
    CountAt(data, offset, 0x85, |records|, RecordsWire(records));
  }

  // ----- binary lists

  predicate BinariesFit(items: seq<bytes>) {
    |items| <= MAX_ITEMS && forall i :: 0 <= i < |items| ==> |items[i]| < U32_SPAN
  }

  function BinariesWire(items: seq<bytes>): bytes {
    if items == [] then [] else Sized(items[0]) + BinariesWire(items[1..])
  }

  function BinariesOf(items: seq<bytes>): seq<Value> {
    seq(|items|, i requires 0 <= i < |items| => Binary(items[i]))
  }

  function BinaryListWire(items: seq<bytes>): bytes {
    PutU32(|items|) + BinariesWire(items)
  }

  lemma FirstBinary(items: seq<bytes>)
    requires items != []
    ensures BinariesOf(items) == [Binary(items[0])] + BinariesOf(items[1..])
  {
  }

  lemma NoBinaries()
    ensures BinariesOf([]) == []
  {
  }

  lemma {:induction false} BinariesAt(data: bytes, offset: nat, items: seq<bytes>)
    requires BinariesFit(items) && offset <= |data| && At(data, offset, BinariesWire(items))
    ensures ReadBinaries(data, offset, |items|) == Ok(Read(BinariesOf(items), offset + |BinariesWire(items)|))
    ensures |BinariesWire(items)| >= 4 * |items|
    decreases |items|
  {
    hide At, ReadBinary, PutU32, BinariesOf;
    if items == [] {
      NoBinaries();
    } else {
      AtJoin(data, offset, Sized(items[0]), BinariesWire(items[1..]));
      AtWithin(data, offset, Sized(items[0]));
      BinaryAt(data, offset, items[0]);
      BinariesAt(data, offset + |Sized(items[0])|, items[1..]);
      FirstBinary(items);
    }
  }

  lemma {:induction false} BinariesRead(data: bytes, offset: nat, count: nat) returns (items: seq<bytes>)
    requires offset <= |data| && count <= MAX_ITEMS && ReadBinaries(data, offset, count).Ok?
    ensures |items| == count && BinariesFit(items) && At(data, offset, BinariesWire(items))
    ensures ReadBinaries(data, offset, count).value == Read(BinariesOf(items), offset + |BinariesWire(items)|)
    decreases count
  {
    hide At, ReadBinary, Sized, BinariesOf;
    if count == 0 {
      items := [];
      NoBinaries();
      AtNothing(data, offset);
    } else {
      var head := ReadBinary(data, offset).value;
      BinaryRead(data, offset);
      var rest := BinariesRead(data, head.next, count - 1);
      items := [head.value] + rest;
      assert items[1..] == rest;
      FirstBinary(items);
      AtJoin(data, offset, Sized(head.value), BinariesWire(rest));
    }
  }

  lemma BinaryListAt(data: bytes, offset: nat, items: seq<bytes>, remaining: nat)
    requires BinariesFit(items) && |items| <= remaining && At(data, offset, BinaryListWire(items))
    ensures TakeBinaryList(data, offset, remaining)
      == Ok(Taken(List(BinariesOf(items)), offset + |BinaryListWire(items)|, remaining - |items|))
  {
    hide At, BinariesFit, BinariesOf, ReadBinaries, GetU32, PutU32, BinariesWire;
    SmallList(items);
    AtJoin(data, offset, PutU32(|items|), BinariesWire(items));
    AtU32(data, offset, |items|);
    AtWithin(data, offset + 4, BinariesWire(items));
    BinariesAt(data, offset + 4, items);
  }

  lemma SmallList(items: seq<bytes>)
    requires BinariesFit(items)
    ensures |items| <= MAX_ITEMS
  {
  }

  lemma BinaryListTaken(data: bytes, offset: nat, remaining: nat) returns (items: seq<bytes>)
    requires TakeBinaryList(data, offset, remaining).Ok?
    ensures BinariesFit(items) && At(data, offset, BinaryListWire(items)) && |items| <= remaining
    ensures TakeBinaryList(data, offset, remaining).value
      == Taken(List(BinariesOf(items)), offset + |BinaryListWire(items)|, remaining - |items|)
  {
    hide At, BinariesFit, BinariesOf, ReadBinaries, GetU32, PutU32, BinariesWire;
    var count := GetU32(data[offset..]);
    items := BinariesRead(data, offset + 4, count);
    AtJoin(data, offset, PutU32(|items|), BinariesWire(items));
    AtU32(data, offset, |items|);
  }

  // ----- binary maps

  datatype Pair = Pair(key: bytes, value: bytes)

  predicate PairsFit(pairs: seq<Pair>) {
    |pairs| <= MAX_ITEMS && forall i :: 0 <= i < |pairs| ==> |pairs[i].key| < U32_SPAN && |pairs[i].value| < U32_SPAN
  }

  predicate FreshKeys(pairs: seq<Pair>, known: map<bytes, Value>) {
    && (forall i :: 0 <= i < |pairs| ==> pairs[i].key !in known)
    && forall i, j :: 0 <= i < j < |pairs| ==> pairs[i].key != pairs[j].key
  }

  function PairsWire(pairs: seq<Pair>): bytes {
    if pairs == [] then [] else Sized(pairs[0].key) + Sized(pairs[0].value) + PairsWire(pairs[1..])
  }

  function PairsOf(pairs: seq<Pair>): map<bytes, Value> {
    if pairs == [] then map[] else map[pairs[0].key := Binary(pairs[0].value)] + PairsOf(pairs[1..])
  }

  function BinaryMapWire(pairs: seq<Pair>): bytes {
    PutU32(|pairs|) + PairsWire(pairs)
  }

  lemma FreshKeysStep(pairs: seq<Pair>, known: map<bytes, Value>, v: Value)
    requires pairs != []
    ensures FreshKeys(pairs, known) <==> pairs[0].key !in known && FreshKeys(pairs[1..], known[pairs[0].key := v])
  {
    var rest, more := pairs[1..], known[pairs[0].key := v];
    if FreshKeys(pairs, known) {
      forall i | 0 <= i < |rest| ensures rest[i].key !in more { assert rest[i] == pairs[i + 1]; }
    }
    if pairs[0].key !in known && FreshKeys(rest, more) {
      forall i | 0 <= i < |pairs| ensures pairs[i].key !in known { if i > 0 { assert pairs[i] == rest[i - 1]; } }
      forall i, j | 0 <= i < j < |pairs| ensures pairs[i].key != pairs[j].key {
        assert pairs[j] == rest[j - 1];
        if i > 0 { assert pairs[i] == rest[i - 1]; }
      }
    }
  }

  lemma PairsStep(pairs: seq<Pair>, known: map<bytes, Value>)
    requires pairs != []
    ensures known + PairsOf(pairs) == known[pairs[0].key := Binary(pairs[0].value)] + PairsOf(pairs[1..])
  {
  }

  lemma PairsWireStep(data: bytes, offset: nat, pairs: seq<Pair>)
    requires pairs != []
    ensures var key, value := pairs[0].key, pairs[0].value;
      At(data, offset, PairsWire(pairs))
      <==> && At(data, offset, Sized(key)) && At(data, offset + |Sized(key)|, Sized(value))
           && At(data, offset + |Sized(key)| + |Sized(value)|, PairsWire(pairs[1..]))
  {
    hide At, Sized;
    AtJoin(data, offset, Sized(pairs[0].key) + Sized(pairs[0].value), PairsWire(pairs[1..]));
    AtJoin(data, offset, Sized(pairs[0].key), Sized(pairs[0].value));
  }

  lemma {:induction false} PairsAt(data: bytes, offset: nat, pairs: seq<Pair>, known: map<bytes, Value>)
    requires PairsFit(pairs) && FreshKeys(pairs, known) && offset <= |data| && At(data, offset, PairsWire(pairs))
    ensures ReadPairs(data, offset, |pairs|, known) == Ok(Read(known + PairsOf(pairs), offset + |PairsWire(pairs)|))
    ensures |PairsWire(pairs)| >= 8 * |pairs|
    decreases |pairs|
  {
    hide At, ReadBinary, PutU32, FreshKeys, PairsOf;
    if pairs == [] {
      NoPairs(known);
    } else {
      var key, value := pairs[0].key, pairs[0].value;
      PairsWireStep(data, offset, pairs);
      AtWithin(data, offset + |Sized(key)|, Sized(value));
      BinaryAt(data, offset, key);
      BinaryAt(data, offset + |Sized(key)|, value);
      FreshKeysStep(pairs, known, Binary(value));
      PairsStep(pairs, known);
      PairsAt(data, offset + |Sized(key)| + |Sized(value)|, pairs[1..], known[key := Binary(value)]);
    }
  }

  lemma NoPairs(known: map<bytes, Value>)
    ensures known + PairsOf([]) == known && FreshKeys([], known)
  {
  }

  lemma {:induction false} PairsRead(data: bytes, offset: nat, count: nat, known: map<bytes, Value>) returns (pairs: seq<Pair>)
    requires offset <= |data| && count <= MAX_ITEMS && ReadPairs(data, offset, count, known).Ok?
    ensures |pairs| == count && PairsFit(pairs) && FreshKeys(pairs, known) && At(data, offset, PairsWire(pairs))
    ensures ReadPairs(data, offset, count, known).value == Read(known + PairsOf(pairs), offset + |PairsWire(pairs)|)
    decreases count
  {
    hide At, ReadBinary, Sized, FreshKeys, PairsOf;
    if count == 0 {
      pairs := [];
      NoPairs(known);
      AtNothing(data, offset);
    } else {
      var key := ReadBinary(data, offset).value;
      var value := ReadBinary(data, key.next).value;
      BinaryRead(data, offset);
      BinaryRead(data, key.next);
      var rest := PairsRead(data, value.next, count - 1, known[key.value := Binary(value.value)]);
      pairs := [Pair(key.value, value.value)] + rest;
      assert pairs[1..] == rest;
      PairsWireStep(data, offset, pairs);
      FreshKeysStep(pairs, known, Binary(value.value));
      PairsStep(pairs, known);
    }
  }

  lemma BinaryMapAt(data: bytes, offset: nat, pairs: seq<Pair>, remaining: nat)
    requires PairsFit(pairs) && FreshKeys(pairs, map[]) && |pairs| <= remaining && At(data, offset, BinaryMapWire(pairs))
    ensures TakeBinaryMap(data, offset, remaining)
      == Ok(Taken(Map(PairsOf(pairs)), offset + |BinaryMapWire(pairs)|, remaining - |pairs|))
  {
    hide At, PairsFit, FreshKeys, PairsOf, ReadPairs, GetU32, PutU32, PairsWire;
    SmallMap(pairs);
    AtJoin(data, offset, PutU32(|pairs|), PairsWire(pairs));
    AtU32(data, offset, |pairs|);
    AtWithin(data, offset + 4, PairsWire(pairs));
    PairsAt(data, offset + 4, pairs, map[]);
    OnNothing(PairsOf(pairs));
  }

  lemma SmallMap(pairs: seq<Pair>)
    requires PairsFit(pairs)
    ensures |pairs| <= MAX_ITEMS
  {
  }

  lemma BinaryMapTaken(data: bytes, offset: nat, remaining: nat) returns (pairs: seq<Pair>)
    requires TakeBinaryMap(data, offset, remaining).Ok?
    ensures PairsFit(pairs) && FreshKeys(pairs, map[]) && At(data, offset, BinaryMapWire(pairs)) && |pairs| <= remaining
    ensures TakeBinaryMap(data, offset, remaining).value
      == Taken(Map(PairsOf(pairs)), offset + |BinaryMapWire(pairs)|, remaining - |pairs|)
  {
    hide At, PairsFit, FreshKeys, PairsOf, ReadPairs, GetU32, PutU32, PairsWire;
    var count := GetU32(data[offset..]);
    pairs := PairsRead(data, offset + 4, count, map[]);
    AtJoin(data, offset, PutU32(|pairs|), PairsWire(pairs));
    AtU32(data, offset, |pairs|);
    OnNothing(PairsOf(pairs));
  }
}
