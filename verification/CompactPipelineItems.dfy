/**
  The ways to read one item of a compact PIPELINE response.

  Most items parse in at most one way. A claimed job (tag 4) does not say
  whether its optional run state and attributes are present, so it yields up to
  four candidates that end at different offsets.
*/
module CompactPipelineItems {
  import opened Bytes
  import opened NativeValue
  import opened NativeDecoder
  import opened CompactReaders
  import opened CompactReaderLoops
  import opened PipelineSearch
  import opened Results

  type Candidates = seq<Candidate<Value>>

  // ----- the candidates at an offset

  function Optional(o: Option<bytes>): Value {
    if o.Some? then Binary(o.value) else NilBinary
  }

  /** A part that consumed a fresh item budget becomes one candidate with its cost. */
  function Costed(r: Result<Taken<Value>, CompactError>): Result<Candidates, CompactError>
    requires r.Ok? ==> r.value.remaining <= MAX_ITEMS
  {
    if r.Err? then Err(r.error)
    else Ok([Candidate(r.value.value, r.value.next, MAX_ITEMS - r.value.remaining)])
  }

  function Attributes(data: bytes, offset: nat): (o: Option<Candidate<Value>>)
    requires offset <= |data|
    ensures o.Some? ==> offset < o.value.next <= |data|
  {
    match TakeValue(data, offset, MAX_ITEMS)
    case Ok(t) => if t.value.Map? then Some(Candidate(t.value, t.next, MAX_ITEMS - t.remaining)) else None
    case Err(_) => None
  }

  /** The claim's fixed fields: id, partition, lease and fencing token. */
  function ClaimBase(data: bytes, offset: nat): (r: Result<Read<seq<Value>>, CompactError>)
    ensures r.Ok? ==> offset < r.value.next <= |data|
  {
    var id :- ReadBinary(data, offset);
    var partition :- ReadOptionalBinary(data, id.next);
    var lease :- ReadBinary(data, partition.next);
    if |data| - lease.next < 8 then Err(Short)
    else
      var token := GetU64(data[lease.next..]);
      if token >= INT64_SPAN then Err(NegativeToken)
      else Ok(Read([Binary(id.value), Optional(partition.value), Binary(lease.value), Int(token)], lease.next + 8))
  }

  function WithStateAndAttributes(data: bytes, base: Read<seq<Value>>): Candidates {
    match ReadOptionalBinary(data, base.next)
    case Err(_) => []
    case Ok(state) =>
      match Attributes(data, state.next)
      case None => []
      case Some(c) => [c.(value := List(base.value + [Optional(state.value), c.value]))]
  }

  function WithAttributes(data: bytes, base: Read<seq<Value>>): Candidates
    requires base.next <= |data|
  {
    match Attributes(data, base.next)
    case None => []
    case Some(c) => [c.(value := List(base.value + [c.value]))]
  }

  function WithState(data: bytes, base: Read<seq<Value>>): Candidates {
    match ReadOptionalBinary(data, base.next)
    case Err(_) => []
    case Ok(state) => [Candidate(List(base.value + [Optional(state.value)]), state.next, 0)]
  }

  /** In this order: state and attributes, attributes, state, neither. */
  function ClaimCandidates(data: bytes, offset: nat): Result<Candidates, CompactError> {
    var base :- ClaimBase(data, offset);
    Ok(WithStateAndAttributes(data, base) + WithAttributes(data, base) + WithState(data, base)
       + [Candidate(List(base.value), base.next, 0)])
  }

  function ValueRefEntries(ref: bytes, partition: Option<bytes>, owner: Option<bytes>): map<bytes, Value> {
    map[Ascii("ref") := Binary(ref)]
    + (if partition.Some? then map[Ascii("partition_key") := Binary(partition.value)] else map[])
    + (if owner.Some? then map[Ascii("owner_flow_id") := Binary(owner.value)] else map[])
  }

  function ReadValueRef(data: bytes, offset: nat): (r: Result<Read<Value>, CompactError>)
    ensures r.Ok? ==> offset < r.value.next <= |data|
  {
    var ref :- ReadBinary(data, offset);
    var partition :- ReadOptionalBinary(data, ref.next);
    var owner :- ReadOptionalBinary(data, partition.next);
    Ok(Read(Map(ValueRefEntries(ref.value, partition.value, owner.value)), owner.next))
  }

  function OKCandidates(tag: byte, data: bytes, offset: nat): Result<Candidates, CompactError>
    requires offset <= |data|
  {
    match tag as int
    case 0 => Ok([Candidate(Nil, offset, 0)])
    case 1 =>
      var value :- ReadBinary(data, offset);
      Ok([Candidate(Binary(value.value), value.next, 0)])
    case 2 => Costed(TakeFlowRecord(data, offset, MAX_ITEMS))
    case 3 => Costed(TakeFlowRecordList(data, offset, MAX_ITEMS))
    case 4 => ClaimCandidates(data, offset)
    case 5 =>
      var value :- ReadValueRef(data, offset);
      Ok([Candidate(value.value, value.next, 0)])
    case 6 => Costed(TakeBinaryList(data, offset, MAX_ITEMS))
    case 7 => Costed(TakeBinaryMap(data, offset, MAX_ITEMS))
    case _ => Err(Unsupported(tag))
  }

  function Labelled(outcome: string, v: Value): Value {
    List([Text(Ascii(outcome)), v])
  }

  function LabelledOK(candidates: Candidates): Candidates {
    seq(|candidates|, i requires 0 <= i < |candidates| =>
      candidates[i].(value := Labelled("ok", candidates[i].value)))
  }

  function ItemCandidates(data: bytes, offset: nat): Result<Candidates, CompactError> {
    if offset >= |data| then Err(Short)
    else if data[offset] == 0 then
      if offset + 1 >= |data| then Err(Short)
      else
        var values :- OKCandidates(data[offset + 1], data, offset + 2);
        Ok(LabelledOK(values))
    else if data[offset] != 1 && data[offset] != 2 then Err(Unsupported(data[offset]))
    else
      var reason :- ReadBinary(data, offset + 1);
      Ok([Candidate(Labelled(if data[offset] == 1 then "busy" else "error", Binary(reason.value)), reason.next, 0)])
  }

  // ----- facts the search relies on

  lemma OKCandidatesEnd(tag: byte, data: bytes, offset: nat)
    requires offset <= |data|
    ensures OKCandidates(tag, data, offset).Ok?
      ==> forall c :: c in OKCandidates(tag, data, offset).value ==> offset <= c.next <= |data|
  {
    hide TakeFlowRecord, TakeFlowRecordList, TakeBinaryList, TakeBinaryMap, ReadValueRef, ReadBinary, ClaimBase,
      ReadOptionalBinary, Attributes;
  }

  /** Every item takes at least two bytes and ends within the data. */
  lemma ItemCandidatesEnd(data: bytes, offset: nat)
    ensures ItemCandidates(data, offset).Ok?
      ==> forall c :: c in ItemCandidates(data, offset).value ==> offset + 2 <= c.next <= |data|
  {
    hide OKCandidates, ReadBinary;
    if offset + 1 < |data| {
      OKCandidatesEnd(data[offset + 1], data, offset + 2);
    }
  }

  /** Only claimed jobs are ambiguous. */
  lemma OnlyClaimsAreAmbiguous(data: bytes, offset: nat)
    requires ItemCandidates(data, offset).Ok?
    ensures |ItemCandidates(data, offset).value| <= 4
    ensures |ItemCandidates(data, offset).value| > 1
      ==> offset + 1 < |data| && data[offset] == 0 && data[offset + 1] == 4
  {
    hide TakeFlowRecord, TakeFlowRecordList, TakeBinaryList, TakeBinaryMap, ReadValueRef, ReadBinary, ClaimBase,
      ReadOptionalBinary, Attributes;
  }

  // ----- the decoder's item methods

  method DecodeAttributes(data: bytes, offset: nat) returns (o: Option<Candidate<Value>>)
    requires offset <= |data|
    ensures o == Attributes(data, offset)
  {
    hide TakeValue;
    var budget := new DecodeBudget(MAX_DEPTH, MAX_ITEMS);
    var value := DecodeAt(data, offset, budget);
    if value.Err? || !value.value.value.Map? {
      return None;
    }
    return Some(Candidate(value.value.value, value.value.next, MAX_ITEMS - budget.remaining));
  }

  method DecodeClaim(data: bytes, offset: nat) returns (r: Result<Candidates, CompactError>)
    ensures r == ClaimCandidates(data, offset)
  {
    hide Attributes, ReadOptionalBinary, ClaimBase;
    var base := ClaimBase(data, offset);
    if base.Err? { return Err(base.error); }
    var fields, next := base.value.value, base.value.next;
    var candidates: Candidates := [];
    var runState := ReadOptionalBinary(data, next);
    if runState.Ok? {
      var attributes := DecodeAttributes(data, runState.value.next);
      if attributes.Some? {
        candidates := candidates
          + [attributes.value.(value := List(fields + [Optional(runState.value.value), attributes.value.value]))];
      }
    }
    assert candidates == WithStateAndAttributes(data, base.value);
    var attributes := DecodeAttributes(data, next);
    if attributes.Some? {
      candidates := candidates + [attributes.value.(value := List(fields + [attributes.value.value]))];
    }
    assert candidates == WithStateAndAttributes(data, base.value) + WithAttributes(data, base.value);
    if runState.Ok? {
      candidates := candidates + [Candidate(List(fields + [Optional(runState.value.value)]), runState.value.next, 0)];
    }
    assert candidates
      == WithStateAndAttributes(data, base.value) + WithAttributes(data, base.value) + WithState(data, base.value);
    return Ok(candidates + [Candidate(List(fields), next, 0)]);
  }

  method DecodeOKValues(tag: byte, data: bytes, offset: nat) returns (r: Result<Candidates, CompactError>)
    requires offset <= |data|
    ensures r == OKCandidates(tag, data, offset)
  {
    hide TakeFlowRecord, TakeFlowRecordList, TakeBinaryList, TakeBinaryMap, ReadValueRef, ReadBinary, ClaimCandidates;
    match tag as int
    case 0 => return Ok([Candidate(Nil, offset, 0)]);
    case 1 =>
      var value := ReadBinary(data, offset);
      if value.Err? { return Err(value.error); }
      return Ok([Candidate(Binary(value.value.value), value.value.next, 0)]);
    case 4 => r := DecodeClaim(data, offset);
    case 5 =>
      var value := ReadValueRef(data, offset);
      if value.Err? { return Err(value.error); }
      return Ok([Candidate(value.value.value, value.value.next, 0)]);
    case _ =>
      var budget := new DecodeBudget(MAX_DEPTH, MAX_ITEMS);
      var value: Result<Read<Value>, CompactError>;
      match tag as int {
        case 2 => value := ReadFlowRecord(data, offset, budget);
        case 3 => value := ReadFlowRecordList(data, offset, budget);
        case 6 => value := ReadBinaryList(data, offset, budget);
        case 7 => value := ReadBinaryMap(data, offset, budget);
        case _ => return Err(Unsupported(tag));
      }
      if value.Err? { return Err(value.error); }
      return Ok([Candidate(value.value.value, value.value.next, MAX_ITEMS - budget.remaining)]);
  }

  method DecodeItem(data: bytes, start: nat) returns (r: Result<Candidates, CompactError>)
    ensures r == ItemCandidates(data, start)
  {
    hide OKCandidates, ReadBinary;
    if start >= |data| { return Err(Short); }
    var status := data[start];
    var offset := start + 1;
    if status == 0 {
      if offset >= |data| { return Err(Short); }
      var values := DecodeOKValues(data[offset], data, offset + 1);
      if values.Err? { return Err(values.error); }
      var candidates: Candidates := [];
      for index := 0 to |values.value|
        invariant candidates == LabelledOK(values.value)[..index]
      {
        var candidate := values.value[index];
        candidates := candidates + [Candidate(Labelled("ok", candidate.value), candidate.next, candidate.cost)];
      }
      assert candidates == LabelledOK(values.value);
      return Ok(candidates);
    }
    if status != 1 && status != 2 { return Err(Unsupported(status)); }
    var reason := ReadBinary(data, offset);
    if reason.Err? { return Err(reason.error); }
    var outcome := "error";
    if status == 1 { outcome := "busy"; }
    return Ok([Candidate(Labelled(outcome, Binary(reason.value.value)), reason.value.next, 0)]);
  }
}
