/**
  The items of a compact PIPELINE response as a server writes them, and what each
  of them answers. An offset has a candidate for exactly the items whose bytes
  stand there, the forms of a claimed job in their order.
*/
module CompactPipelineWire {
  import opened Bytes
  import opened NativeValue
  import opened CompactReaders
  import opened CompactPipelineItems
  import opened CompactWire
  import opened PipelineSearch
  import opened Results

  /** A claimed job writes its run state and its attributes only if it has them, and does not say so. */
  datatype Item =
    | Busy(reason: bytes)
    | Failed(reason: bytes)
    | Absent
    | Bytes(value: bytes)
    | Record(fields: seq<Field>)
    | Records(records: seq<seq<Field>>)
    | Claim(id: bytes, partition: Option<bytes>, lease: bytes, token: uint64, state: Option<Option<bytes>>, attributes: Option<bytes>)
    | ValueRef(ref: bytes, partition: Option<bytes>, owner: Option<bytes>)
    | Binaries(values: seq<bytes>)
    | Pairs(pairs: seq<Pair>)

  // ----- bytes

  function Wire(item: Item): bytes {
    match item
    case Busy(reason) => [1] + Sized(reason)
    case Failed(reason) => [2] + Sized(reason)
    case _ => [0] + [Tag(item)] + Body(item)
  }

  function Tag(item: Item): byte {
    match item
    case Bytes(_) => 1
    case Record(_) => 2
    case Records(_) => 3
    case Claim(_, _, _, _, _, _) => 4
    case ValueRef(_, _, _) => 5
    case Binaries(_) => 6
    case Pairs(_) => 7
    case _ => 0
  }

  function Body(item: Item): bytes {
    match item
    case Bytes(value) => Sized(value)
    case Record(fields) => RecordWire(fields)
    case Records(records) => RecordListWire(records)
    case Claim(_, _, _, _, _, _) => ClaimHead(item) + ClaimTail(item)
    case ValueRef(ref, partition, owner) => Sized(ref) + SizedOptional(partition) + SizedOptional(owner)
    case Binaries(values) => BinaryListWire(values)
    case Pairs(pairs) => BinaryMapWire(pairs)
    case _ => []
  }

  function ClaimHead(item: Item): bytes
    requires item.Claim?
  {
    Sized(item.id) + SizedOptional(item.partition) + Sized(item.lease) + PutU64(item.token)
  }

  function ClaimTail(item: Item): bytes
    requires item.Claim?
  {
    (if item.state.Some? then SizedOptional(item.state.value) else [])
    + (if item.attributes.Some? then item.attributes.value else [])
  }

  ghost predicate Fits(item: Item) {
    match item
    case Busy(reason) => |reason| < U32_SPAN
    case Failed(reason) => |reason| < U32_SPAN
    case Absent => true
    case Bytes(value) => |value| < U32_SPAN
    case Record(fields) => RecordFits(fields) && RecordCost(fields) <= MAX_ITEMS
    case Records(records) => RecordsFit(records) && RecordListCost(records) <= MAX_ITEMS
    case Claim(id, partition, lease, token, state, attributes) =>
      && |id| < U32_SPAN && OptionalFits(partition) && |lease| < U32_SPAN && token < INT64_SPAN
      && (state.Some? ==> OptionalFits(state.value))
      && (attributes.Some? ==> IsNative(attributes.value) && NativeIn(attributes.value).Map?)
    case ValueRef(ref, partition, owner) => |ref| < U32_SPAN && OptionalFits(partition) && OptionalFits(owner)
    case Binaries(values) => BinariesFit(values)
    case Pairs(pairs) => PairsFit(pairs) && FreshKeys(pairs, map[])
  }

  // ----- answers

  function Maybe(b: Option<bytes>): Value {
    match b
    case None => NilBinary
    case Some(present) => Binary(present)
  }

  ghost function Content(item: Item): Value
    requires Fits(item) && !item.Busy? && !item.Failed?
  {
    match item
    case Absent => Nil
    case Bytes(value) => Binary(value)
    case Record(fields) => Map(RecordOf(fields))
    case Records(records) => List(RecordsOf(records))
    case Claim(id, partition, lease, token, state, attributes) =>
      List([Binary(id), Maybe(partition), Binary(lease), Int(token)]
        + (if state.Some? then [Maybe(state.value)] else [])
        + (if attributes.Some? then [NativeIn(attributes.value)] else []))
    case ValueRef(ref, partition, owner) =>
      Map(map[Ascii("ref") := Binary(ref)]
        + (match partition case None => map[] case Some(key) => map[Ascii("partition_key") := Binary(key)])
        + (match owner case None => map[] case Some(id) => map[Ascii("owner_flow_id") := Binary(id)]))
    case Binaries(values) => List(BinariesOf(values))
    case Pairs(pairs) => Map(PairsOf(pairs))
  }

  ghost function Answer(item: Item): Value
    requires Fits(item)
  {
    match item
    case Busy(reason) => List([Text(Ascii("busy")), Binary(reason)])
    case Failed(reason) => List([Text(Ascii("error")), Binary(reason)])
    case _ => List([Text(Ascii("ok")), Content(item)])
  }

  /** The units of the item budget that the answer takes beyond its own place. */
  ghost function Cost(item: Item): nat
    requires Fits(item)
  {
    match item
    case Record(fields) => RecordCost(fields)
    case Records(records) => RecordListCost(records)
    case Claim(_, _, _, _, _, attributes) => if attributes.Some? then NodesIn(attributes.value) else 0
    case Binaries(values) => |values|
    case Pairs(pairs) => |pairs|
    case _ => 0
  }

  /** A claimed job is read as if it had everything first, then without its state, then without attributes, then without both. */
  function Rank(item: Item): nat {
    if !item.Claim? || (item.state.Some? && item.attributes.Some?) then 0
    else if item.attributes.Some? then 1
    else if item.state.Some? then 2
    else 3
  }

  ghost predicate Matches(item: Item, data: bytes, offset: nat) {
    Fits(item) && At(data, offset, Wire(item))
  }

  ghost function CandidateOf(item: Item, offset: nat): Candidate<Value>
    requires Fits(item)
  {
    Candidate(Answer(item), offset + |Wire(item)|, Cost(item))
  }

  /** The candidates are those of the items, in the order of their ranks. */
  ghost predicate AreCandidates(candidates: seq<Candidate<Value>>, items: seq<Item>, data: bytes, offset: nat) {
    && |items| == |candidates|
    && (forall i :: 0 <= i < |items| ==> Matches(items[i], data, offset) && candidates[i] == CandidateOf(items[i], offset))
    && forall i, j :: 0 <= i < j < |items| ==> Rank(items[i]) < Rank(items[j])
  }

  // ----- items that are read in one way

  lemma TagAt(data: bytes, offset: nat, tag: byte, body: bytes)
    ensures At(data, offset, [0] + [tag] + body)
      <==> offset + 1 < |data| && data[offset] == 0 && data[offset + 1] == tag && At(data, offset + 2, body)
  {
    hide At;
    AtJoin(data, offset, [0] + [tag], body);
    AtJoin(data, offset, [0], [tag]);
    AtByte(data, offset, 0);
    AtByte(data, offset + 1, tag);
  }

  /** What the readers have to say about the body of an item that is not a claimed job. */
  ghost predicate BodyReads(item: Item, data: bytes, body: nat) {
    && Fits(item) && body <= |data|
    && match item
       case Absent => true
       case Bytes(value) => ReadBinary(data, body) == Ok(Read(value, body + |Sized(value)|))
       case Record(_) =>
         TakeFlowRecord(data, body, MAX_ITEMS) == Ok(Taken(Content(item), body + |Wire(item)| - 2, MAX_ITEMS - Cost(item)))
       case Records(_) =>
         TakeFlowRecordList(data, body, MAX_ITEMS) == Ok(Taken(Content(item), body + |Wire(item)| - 2, MAX_ITEMS - Cost(item)))
       case ValueRef(_, _, _) => ReadValueRef(data, body) == Ok(Read(Content(item), body + |Wire(item)| - 2))
       case Binaries(_) =>
         TakeBinaryList(data, body, MAX_ITEMS) == Ok(Taken(Content(item), body + |Wire(item)| - 2, MAX_ITEMS - Cost(item)))
       case Pairs(_) =>
         TakeBinaryMap(data, body, MAX_ITEMS) == Ok(Taken(Content(item), body + |Wire(item)| - 2, MAX_ITEMS - Cost(item)))
       case _ => false
  }

  lemma BodyAt(data: bytes, offset: nat, item: Item)
    requires Matches(item, data, offset) && !item.Claim? && !item.Busy? && !item.Failed?
    ensures BodyReads(item, data, offset + 2)
    ensures offset + 1 < |data| && data[offset] == 0 && data[offset + 1] == Tag(item)
  {
    hide At, RecordWire, RecordListWire, BinaryListWire, BinaryMapWire, Sized, SizedOptional, RecordFits, RecordsFit,
      BinariesFit, PairsFit, FreshKeys, ReadBinary, TakeFlowRecord, TakeFlowRecordList, TakeBinaryList, TakeBinaryMap,
      RecordCost, RecordListCost, RecordOf, RecordsOf, BinariesOf, PairsOf, FieldsFit, ReadValueRef;
    WireParts(data, offset, item);
    match item
    case Absent =>
    case Bytes(value) => BytesAt(data, offset + 2, value);
    case Record(fields) => RecordAt(data, offset + 2, fields, MAX_ITEMS);
    case Records(records) => RecordListAt(data, offset + 2, records, MAX_ITEMS);
    case ValueRef(_, _, _) => ValueRefAt(data, offset + 2, item);
    case Binaries(values) => FewBinaries(values); BinaryListAt(data, offset + 2, values, MAX_ITEMS);
    case Pairs(pairs) => FewPairs(pairs); BinaryMapAt(data, offset + 2, pairs, MAX_ITEMS);
  }

  lemma WireParts(data: bytes, offset: nat, item: Item)
    requires !item.Busy? && !item.Failed?
    ensures |Wire(item)| == 2 + |Body(item)|
    ensures At(data, offset, Wire(item))
      <==> offset + 1 < |data| && data[offset] == 0 && data[offset + 1] == Tag(item) && At(data, offset + 2, Body(item))
  {
    hide At, RecordWire, RecordListWire, BinaryListWire, BinaryMapWire, Sized, SizedOptional, ClaimHead, ClaimTail;
    TagAt(data, offset, Tag(item), Body(item));
  }

  lemma FewBinaries(values: seq<bytes>)
    requires BinariesFit(values)
    ensures |values| <= MAX_ITEMS
  {
  }

  lemma FewPairs(pairs: seq<Pair>)
    requires PairsFit(pairs)
    ensures |pairs| <= MAX_ITEMS
  {
  }

  lemma BytesAt(data: bytes, offset: nat, value: bytes)
    requires |value| < U32_SPAN && At(data, offset, Sized(value))
    ensures ReadBinary(data, offset) == Ok(Read(value, offset + |Sized(value)|))
  {
    hide ReadBinary, At;
    BinaryAt(data, offset, value);
  }

  lemma ValueRefAt(data: bytes, offset: nat, item: Item)
    requires item.ValueRef? && Fits(item) && At(data, offset, Body(item))
    ensures ReadValueRef(data, offset) == Ok(Read(Content(item), offset + |Body(item)|))
  {
    hide At, ReadBinary, ReadOptionalBinary, SizedOptional, Sized, Ascii, OptionalFits;
    var ref, partition, owner := item.ref, item.partition, item.owner;
    AtJoin(data, offset, Sized(ref) + SizedOptional(partition), SizedOptional(owner));
    AtJoin(data, offset, Sized(ref), SizedOptional(partition));
    BytesAt(data, offset, ref);
    OptionalAt(data, offset + |Sized(ref)|, partition);
    OptionalAt(data, offset + |Sized(ref)| + |SizedOptional(partition)|, owner);
  }

  lemma ValueRefRead(data: bytes, offset: nat) returns (item: Item)
    requires ReadValueRef(data, offset).Ok?
    ensures item.ValueRef? && Fits(item) && At(data, offset, Body(item))
    ensures ReadValueRef(data, offset) == Ok(Read(Content(item), offset + |Body(item)|))
  {
    hide At, ReadBinary, ReadOptionalBinary, SizedOptional, Sized, Ascii, OptionalFits;
    var ref := ReadBinary(data, offset).value;
    var partition := ReadOptionalBinary(data, ref.next).value;
    var owner := ReadOptionalBinary(data, partition.next).value;
    item := ValueRef(ref.value, partition.value, owner.value);
    BinaryRead(data, offset);
    OptionalRead(data, ref.next);
    OptionalRead(data, partition.next);
    AtJoin(data, offset, Sized(ref.value) + SizedOptional(partition.value), SizedOptional(owner.value));
    AtJoin(data, offset, Sized(ref.value), SizedOptional(partition.value));
  }

  /** The one item whose body was read under a tag other than that of claimed jobs. */
  lemma BodyRead(data: bytes, body: nat, tag: byte) returns (item: Item)
    requires body <= |data| && tag != 4 && OKCandidates(tag, data, body).Ok?
    ensures !item.Busy? && !item.Failed? && !item.Claim? && Tag(item) == tag
    ensures At(data, body, Body(item)) && BodyReads(item, data, body)
  {
    hide At, RecordWire, RecordListWire, BinaryListWire, BinaryMapWire, Sized, SizedOptional, RecordFits, RecordsFit,
      BinariesFit, PairsFit, FreshKeys, ReadBinary, TakeFlowRecord, TakeFlowRecordList, TakeBinaryList, TakeBinaryMap,
      RecordCost, RecordListCost, RecordOf, RecordsOf, BinariesOf, PairsOf, FieldsFit, ReadValueRef, ClaimCandidates;
    match tag as int
    case 0 =>
      item := Absent;
      AtNothing(data, body);
    case 1 =>
      item := Bytes(ReadBinary(data, body).value.value);
      BinaryRead(data, body);
    case 2 =>
      var fields := RecordTaken(data, body, MAX_ITEMS);
      item := Record(fields);
      WireParts(data, 0, item);
    case 3 =>
      var records := RecordListTaken(data, body, MAX_ITEMS);
      item := Records(records);
      WireParts(data, 0, item);
    case 5 =>
      item := ValueRefRead(data, body);
      WireParts(data, 0, item);
    case 6 =>
      var values := BinaryListTaken(data, body, MAX_ITEMS);
      item := Binaries(values);
      WireParts(data, 0, item);
    case 7 =>
      var pairs := BinaryMapTaken(data, body, MAX_ITEMS);
      item := Pairs(pairs);
      WireParts(data, 0, item);
  }

  lemma BodyIsRead(data: bytes, body: nat, item: Item)
    requires !item.Busy? && !item.Failed? && !item.Claim? && BodyReads(item, data, body)
    ensures Fits(item)
    ensures OKCandidates(Tag(item), data, body) == Ok([Candidate(Content(item), body + |Body(item)|, Cost(item))])
  {
    hide At, RecordWire, RecordListWire, BinaryListWire, BinaryMapWire, SizedOptional, Sized, RecordFits, RecordsFit,
      BinariesFit, PairsFit, FreshKeys, ReadBinary, TakeFlowRecord, TakeFlowRecordList, TakeBinaryList, TakeBinaryMap,
      RecordCost, RecordListCost, RecordOf, RecordsOf, BinariesOf, PairsOf, FieldsFit, ReadValueRef, ClaimCandidates;
    WireParts(data, body, item);
  }

  lemma BodyIsCandidate(data: bytes, offset: nat, item: Item)
    requires offset + 1 < |data| && data[offset] == 0 && data[offset + 1] == Tag(item)
    requires !item.Busy? && !item.Failed? && !item.Claim? && BodyReads(item, data, offset + 2)
    ensures ItemCandidates(data, offset) == Ok([CandidateOf(item, offset)])
  {
    hide At, BodyReads, OKCandidates, Content, Fits, Cost, Body, Wire, Tag, Ascii, LabelledOK;
    WireParts(data, offset, item);
    BodyIsRead(data, offset + 2, item);
    OneLabelled(Candidate(Content(item), offset + |Wire(item)|, Cost(item)));
  }

  lemma OneLabelled(c: Candidate<Value>)
    ensures LabelledOK([c]) == [Candidate(List([Text(Ascii("ok")), c.value]), c.next, c.cost)]
  {
    hide Ascii;
  }

  lemma RefusalAt(data: bytes, offset: nat, item: Item)
    requires Matches(item, data, offset) && (item.Busy? || item.Failed?)
    ensures ItemCandidates(data, offset) == Ok([CandidateOf(item, offset)])
  {
    hide At, ReadBinary, Sized, Ascii, OKCandidates;
    if item.Busy? {
      AtJoin(data, offset, [1], Sized(item.reason));
      AtByte(data, offset, 1);
    } else {
      AtJoin(data, offset, [2], Sized(item.reason));
      AtByte(data, offset, 2);
    }
    BytesAt(data, offset + 1, item.reason);
  }

  lemma RefusalRead(data: bytes, offset: nat) returns (item: Item)
    requires ItemCandidates(data, offset).Ok? && data[offset] != 0
    ensures Matches(item, data, offset) && (item.Busy? || item.Failed?)
  {
    hide At, ReadBinary, Sized, Ascii, OKCandidates;
    var reason := ReadBinary(data, offset + 1).value;
    item := if data[offset] == 1 then Busy(reason.value) else Failed(reason.value);
    BinaryRead(data, offset + 1);
    AtByte(data, offset, data[offset]);
    AtJoin(data, offset, [data[offset]], Sized(reason.value));
  }

  // ----- claimed jobs

  ghost function Base(item: Item): seq<Value>
    requires item.Claim? && Fits(item)
  {
    [Binary(item.id), Maybe(item.partition), Binary(item.lease), Int(item.token)]
  }

  lemma HeadAt(data: bytes, offset: nat, item: Item)
    requires item.Claim? && Fits(item) && At(data, offset, ClaimHead(item))
    ensures ClaimBase(data, offset) == Ok(Read(Base(item), offset + |ClaimHead(item)|))
  {
    hide At, ReadBinary, ReadOptionalBinary, Sized, SizedOptional, PutU64, GetU64, OptionalFits, IsNative, NativeIn;
    var a, b, c, d := Sized(item.id), SizedOptional(item.partition), Sized(item.lease), PutU64(item.token);
    AtJoin(data, offset, a + b + c, d);
    AtJoin(data, offset, a + b, c);
    AtJoin(data, offset, a, b);
    BytesAt(data, offset, item.id);
    OptionalAt(data, offset + |a|, item.partition);
    BytesAt(data, offset + |a| + |b|, item.lease);
    AtU64(data, offset + |a| + |b| + |c|, item.token);
  }

  /** The claimed job with neither state nor attributes. */
  lemma HeadRead(data: bytes, offset: nat) returns (item: Item)
    requires ClaimBase(data, offset).Ok?
    ensures item.Claim? && item.state.None? && item.attributes.None? && Fits(item)
    ensures At(data, offset, ClaimHead(item))
    ensures ClaimBase(data, offset) == Ok(Read(Base(item), offset + |ClaimHead(item)|))
  {
    hide At, ReadBinary, ReadOptionalBinary, Sized, SizedOptional, PutU64, GetU64, OptionalFits;
    var id := ReadBinary(data, offset).value;
    var partition := ReadOptionalBinary(data, id.next).value;
    var lease := ReadBinary(data, partition.next).value;
    var token := GetU64(data[lease.next..]);
    item := Claim(id.value, partition.value, lease.value, token, None, None);
    BinaryRead(data, offset);
    OptionalRead(data, id.next);
    BinaryRead(data, partition.next);
    AtU64(data, lease.next, token);
    var a, b, c, d := Sized(item.id), SizedOptional(item.partition), Sized(item.lease), PutU64(item.token);
    AtJoin(data, offset, a, b);
    AtJoin(data, offset, a + b, c);
    AtJoin(data, offset, a + b + c, d);
  }

  lemma AttributesAt(data: bytes, offset: nat, raw: bytes)
    requires IsNative(raw) && NativeIn(raw).Map? && At(data, offset, raw)
    ensures offset <= |data| && Attributes(data, offset) == Some(Candidate(NativeIn(raw), offset + |raw|, NodesIn(raw)))
  {
    hide At, TakeValue, IsNative, NativeIn, NodesIn;
    AtWithin(data, offset, raw);
    NodesWithin(raw);
    ValueAt(data, offset, raw, MAX_ITEMS);
  }

  lemma NodesWithin(raw: bytes)
    requires IsNative(raw)
    ensures NodesIn(raw) <= MAX_ITEMS
  {
  }

  lemma AttributesRead(data: bytes, offset: nat) returns (raw: bytes)
    requires offset <= |data| && Attributes(data, offset).Some?
    ensures IsNative(raw) && NativeIn(raw).Map? && At(data, offset, raw)
    ensures Attributes(data, offset) == Some(Candidate(NativeIn(raw), offset + |raw|, NodesIn(raw)))
  {
    hide At, TakeValue, IsNative, NativeIn, NodesIn;
    raw := ValueTaken(data, offset, MAX_ITEMS);
  }

  /** The candidate that a claimed job is, before it is labelled. */
  ghost function Bare(item: Item, offset: nat): Candidate<Value>
    requires Fits(item) && item.Claim?
  {
    Candidate(Content(item), offset + |Wire(item)|, Cost(item))
  }

  /** The candidates of one form: at most one, that of an item of this form whose bytes stand there. */
  ghost predicate OfForm(candidates: seq<Candidate<Value>>, rank: nat, items: seq<Item>, data: bytes, offset: nat) {
    && |candidates| == |items| <= 1
    && forall i :: 0 <= i < |items| ==>
      && items[i].Claim? && Rank(items[i]) == rank && Matches(items[i], data, offset)
      && candidates[i] == Bare(items[i], offset)
  }

  lemma ClaimParts(data: bytes, offset: nat, item: Item)
    requires item.Claim?
    ensures |Wire(item)| == 2 + |ClaimHead(item)| + |ClaimTail(item)|
    ensures At(data, offset, Wire(item))
      <==> && offset + 1 < |data| && data[offset] == 0 && data[offset + 1] == 4
           && At(data, offset + 2, ClaimHead(item)) && At(data, offset + 2 + |ClaimHead(item)|, ClaimTail(item))
  {
    hide At, ClaimHead, ClaimTail;
    TagAt(data, offset, 4, ClaimHead(item) + ClaimTail(item));
    AtJoin(data, offset + 2, ClaimHead(item), ClaimTail(item));
  }

  /** A claimed job stands at `offset` up to its state and attributes. */
  ghost predicate Headed(item: Item, data: bytes, offset: nat, base: Read<seq<Value>>) {
    && item.Claim? && Fits(item) && item.state.None? && item.attributes.None?
    && Matches(item, data, offset)
    && base == Read(Base(item), offset + 2 + |ClaimHead(item)|) && base.next <= |data|
  }

  lemma SameHead(item: Item, state: Option<Option<bytes>>, attributes: Option<bytes>)
    requires item.Claim?
    ensures ClaimHead(item.(state := state, attributes := attributes)) == ClaimHead(item)
  {
  }

  /** The item's own fields decide whether it stands there, once its head does. */
  lemma FormStands(item: Item, data: bytes, offset: nat, base: Read<seq<Value>>, state: Option<Option<bytes>>, attributes: Option<bytes>)
    requires Headed(item, data, offset, base)
    requires state.Some? ==> OptionalFits(state.value)
    requires attributes.Some? ==> IsNative(attributes.value) && NativeIn(attributes.value).Map?
    ensures var full := item.(state := state, attributes := attributes);
      && Fits(full) && full.Claim?
      && (Matches(full, data, offset) <==> At(data, base.next, ClaimTail(full)))
      && Bare(full, offset) == Candidate(
        List(base.value + (if state.Some? then [Maybe(state.value)] else [])
          + (if attributes.Some? then [NativeIn(attributes.value)] else [])),
        base.next + |ClaimTail(full)|,
        if attributes.Some? then NodesIn(attributes.value) else 0)
  {
    hide At, ClaimHead, ClaimTail, IsNative, NativeIn, NodesIn, OptionalFits;
    var full := item.(state := state, attributes := attributes);
    SameHead(item, state, attributes);
    ClaimParts(data, offset, item);
    ClaimParts(data, offset, full);
  }

  lemma TailJoin(data: bytes, offset: nat, item: Item)
    requires item.Claim? && offset <= |data|
    ensures var a := if item.state.Some? then SizedOptional(item.state.value) else [];
      var b := if item.attributes.Some? then item.attributes.value else [];
      && |ClaimTail(item)| == |a| + |b|
      && (At(data, offset, ClaimTail(item)) <==> At(data, offset, a) && At(data, offset + |a|, b))
  {
    hide At, SizedOptional;
    AtJoin(data, offset, if item.state.Some? then SizedOptional(item.state.value) else [],
      if item.attributes.Some? then item.attributes.value else []);
  }

  lemma BothAt(data: bytes, offset: nat, item: Item, base: Read<seq<Value>>, state: Option<bytes>, raw: bytes)
    requires Headed(item, data, offset, base) && OptionalFits(state) && IsNative(raw) && NativeIn(raw).Map?
    requires Matches(item.(state := Some(state), attributes := Some(raw)), data, offset)
    ensures WithStateAndAttributes(data, base) == [Bare(item.(state := Some(state), attributes := Some(raw)), offset)]
  {
    hide At, IsNative, NativeIn, NodesIn, OptionalFits, SizedOptional, ReadOptionalBinary, Attributes, Headed, Bare, ClaimTail,
      Matches;
    FormStands(item, data, offset, base, Some(state), Some(raw));
    HeadedStops(item, data, offset, base);
    TailJoin(data, base.next, item.(state := Some(state), attributes := Some(raw)));
    OptionalAt(data, base.next, state);
    AttributesAt(data, base.next + |SizedOptional(state)|, raw);
    assert base.value + [Maybe(state)] + [NativeIn(raw)] == base.value + [Optional(state), NativeIn(raw)];
  }

  lemma HeadedStops(item: Item, data: bytes, offset: nat, base: Read<seq<Value>>)
    requires Headed(item, data, offset, base)
    ensures base.next <= |data| && item.Claim?
  {
  }

  lemma BothRead(data: bytes, offset: nat, item: Item, base: Read<seq<Value>>) returns (items: seq<Item>)
    requires Headed(item, data, offset, base)
    ensures OfForm(WithStateAndAttributes(data, base), 0, items, data, offset)
  {
    hide At, IsNative, NativeIn, NodesIn, OptionalFits, SizedOptional, ReadOptionalBinary, Attributes, Headed, Bare, ClaimTail,
      Matches;
    items := [];
    HeadedStops(item, data, offset, base);
    var state := ReadOptionalBinary(data, base.next);
    if state.Ok? {
      OptionalRead(data, base.next);
      if Attributes(data, state.value.next).Some? {
        var raw := AttributesRead(data, state.value.next);
        var full := item.(state := Some(state.value.value), attributes := Some(raw));
        FormStands(item, data, offset, base, Some(state.value.value), Some(raw));
        TailJoin(data, base.next, full);
        assert base.value + [Maybe(state.value.value)] + [NativeIn(raw)] == base.value + [Optional(state.value.value), NativeIn(raw)];
        items := [full];
      }
    }
  }

  lemma AttributesOnlyAt(data: bytes, offset: nat, item: Item, base: Read<seq<Value>>, raw: bytes)
    requires Headed(item, data, offset, base) && IsNative(raw) && NativeIn(raw).Map?
    requires Matches(item.(state := None, attributes := Some(raw)), data, offset)
    ensures base.next <= |data| && WithAttributes(data, base) == [Bare(item.(state := None, attributes := Some(raw)), offset)]
  {
    hide At, IsNative, NativeIn, NodesIn, OptionalFits, SizedOptional, ReadOptionalBinary, Attributes, Headed, Bare, ClaimTail,
      Matches;
    FormStands(item, data, offset, base, None, Some(raw));
    HeadedStops(item, data, offset, base);
    TailJoin(data, base.next, item.(state := None, attributes := Some(raw)));
    AttributesAt(data, base.next, raw);
    assert base.value + [] + [NativeIn(raw)] == base.value + [NativeIn(raw)];
  }

  lemma AttributesOnlyRead(data: bytes, offset: nat, item: Item, base: Read<seq<Value>>) returns (items: seq<Item>)
    requires Headed(item, data, offset, base)
    ensures base.next <= |data| && OfForm(WithAttributes(data, base), 1, items, data, offset)
  {
    hide At, IsNative, NativeIn, NodesIn, OptionalFits, SizedOptional, ReadOptionalBinary, Attributes, Headed, Bare, ClaimTail,
      Matches;
    items := [];
    HeadedStops(item, data, offset, base);
    if Attributes(data, base.next).Some? {
      var raw := AttributesRead(data, base.next);
      var full := item.(state := None, attributes := Some(raw));
      FormStands(item, data, offset, base, None, Some(raw));
      AtEmpty(data, base.next);
      TailJoin(data, base.next, full);
      assert base.value + [] + [NativeIn(raw)] == base.value + [NativeIn(raw)];
      items := [full];
    }
  }

  lemma AtEmpty(data: bytes, offset: nat)
    requires offset <= |data|
    ensures At(data, offset, [])
  {
  }

  lemma StateOnlyAt(data: bytes, offset: nat, item: Item, base: Read<seq<Value>>, state: Option<bytes>)
    requires Headed(item, data, offset, base) && OptionalFits(state)
    requires Matches(item.(state := Some(state), attributes := None), data, offset)
    ensures WithState(data, base) == [Bare(item.(state := Some(state), attributes := None), offset)]
  {
    hide At, IsNative, NativeIn, NodesIn, OptionalFits, SizedOptional, ReadOptionalBinary, Attributes, Headed, Bare, ClaimTail,
      Matches;
    FormStands(item, data, offset, base, Some(state), None);
    HeadedStops(item, data, offset, base);
    TailJoin(data, base.next, item.(state := Some(state), attributes := None));
    OptionalAt(data, base.next, state);
    assert base.value + [Maybe(state)] + [] == base.value + [Optional(state)];
  }

  lemma StateOnlyRead(data: bytes, offset: nat, item: Item, base: Read<seq<Value>>) returns (items: seq<Item>)
    requires Headed(item, data, offset, base)
    ensures OfForm(WithState(data, base), 2, items, data, offset)
  {
    hide At, IsNative, NativeIn, NodesIn, OptionalFits, SizedOptional, ReadOptionalBinary, Attributes, Headed, Bare, ClaimTail,
      Matches;
    items := [];
    HeadedStops(item, data, offset, base);
    var state := ReadOptionalBinary(data, base.next);
    if state.Ok? {
      OptionalRead(data, base.next);
      var full := item.(state := Some(state.value.value), attributes := None);
      FormStands(item, data, offset, base, Some(state.value.value), None);
      OptionalWithin(data, base.next);
      AtEmpty(data, state.value.next);
      TailJoin(data, base.next, full);
      assert base.value + [Maybe(state.value.value)] + [] == base.value + [Optional(state.value.value)];
      items := [full];
    }
  }

  lemma OptionalWithin(data: bytes, offset: nat)
    requires ReadOptionalBinary(data, offset).Ok?
    ensures ReadOptionalBinary(data, offset).value.next <= |data|
  {
  }

  lemma FormsJoin(
    a: seq<Candidate<Value>>, x: seq<Item>, b: seq<Candidate<Value>>, y: seq<Item>, data: bytes, offset: nat, rank: nat)
    requires Bares(a, x, data, offset) && (forall i :: 0 <= i < |x| ==> Rank(x[i]) < rank)
    requires OfForm(b, rank, y, data, offset)
    ensures Bares(a + b, x + y, data, offset) && forall i :: 0 <= i < |x + y| ==> Rank((x + y)[i]) < rank + 1
  {
    hide Matches, Bare, Rank;
  }

  ghost predicate Bares(candidates: seq<Candidate<Value>>, items: seq<Item>, data: bytes, offset: nat) {
    && |items| == |candidates|
    && (forall i :: 0 <= i < |items| ==>
      items[i].Claim? && Matches(items[i], data, offset) && candidates[i] == Bare(items[i], offset))
    && forall i, j :: 0 <= i < j < |items| ==> Rank(items[i]) < Rank(items[j])
  }

  lemma ClaimsRead(data: bytes, offset: nat) returns (items: seq<Item>)
    requires offset + 1 < |data| && data[offset] == 0 && data[offset + 1] == 4 && ClaimCandidates(data, offset + 2).Ok?
    ensures Bares(ClaimCandidates(data, offset + 2).value, items, data, offset)
  {
    hide ClaimBase, WithStateAndAttributes, WithAttributes, WithState, Headed, OfForm, Bares, Matches, Rank;
    var item := HeadRead(data, offset + 2);
    var base := ClaimBase(data, offset + 2).value;
    HeadStands(data, offset, item);
    var both := BothRead(data, offset, item, base);
    var attributes := AttributesOnlyRead(data, offset, item, base);
    var state := StateOnlyRead(data, offset, item, base);
    PlainForm(data, offset, item, base);
    NoForms(data, offset);
    assert [] + WithStateAndAttributes(data, base) == WithStateAndAttributes(data, base) && [] + both == both;
    FormsJoin([], [], WithStateAndAttributes(data, base), both, data, offset, 0);
    FormsJoin(WithStateAndAttributes(data, base), both, WithAttributes(data, base), attributes, data, offset, 1);
    FormsJoin(WithStateAndAttributes(data, base) + WithAttributes(data, base), both + attributes,
      WithState(data, base), state, data, offset, 2);
    FormsJoin(WithStateAndAttributes(data, base) + WithAttributes(data, base) + WithState(data, base), both + attributes + state,
      [Candidate(List(base.value), base.next, 0)], [item], data, offset, 3);
    items := both + attributes + state + [item];
  }

  lemma NoForms(data: bytes, offset: nat)
    ensures Bares([], [], data, offset)
  {
  }

  lemma HeadStands(data: bytes, offset: nat, item: Item)
    requires offset + 1 < |data| && data[offset] == 0 && data[offset + 1] == 4
    requires item.Claim? && item.state.None? && item.attributes.None? && Fits(item) && At(data, offset + 2, ClaimHead(item))
    ensures Headed(item, data, offset, Read(Base(item), offset + 2 + |ClaimHead(item)|))
  {
    hide At, ClaimHead, OptionalFits;
    ClaimParts(data, offset, item);
    AtWithin(data, offset + 2, ClaimHead(item));
    AtEmpty(data, offset + 2 + |ClaimHead(item)|);
  }

  lemma PlainForm(data: bytes, offset: nat, item: Item, base: Read<seq<Value>>)
    requires Headed(item, data, offset, base)
    ensures OfForm([Candidate(List(base.value), base.next, 0)], 3, [item], data, offset)
  {
    hide At, ClaimHead, OptionalFits;
    ClaimParts(data, offset, item);
    assert base.value + [] + [] == base.value;
  }

  lemma ClaimStands(data: bytes, offset: nat, item: Item)
    requires item.Claim? && Matches(item, data, offset)
    ensures ClaimCandidates(data, offset + 2).Ok? && Bare(item, offset) in ClaimCandidates(data, offset + 2).value
  {
    hide ClaimBase, WithStateAndAttributes, WithAttributes, WithState, Headed, OfForm, Bares, Rank, Bare, At, ClaimHead, ClaimTail,
      IsNative, NativeIn, OptionalFits;
    ClaimParts(data, offset, item);
    HeadAt(data, offset + 2, item);
    var plain := item.(state := None, attributes := None);
    SameHead(item, None, None);
    SameBase(item);
    HeadStands(data, offset, plain);
    var base := ClaimBase(data, offset + 2).value;
    HeadedStops(plain, data, offset, base);
    assert plain.(state := item.state, attributes := item.attributes) == item;
    if item.state.Some? && item.attributes.Some? {
      BothAt(data, offset, plain, base, item.state.value, item.attributes.value);
    } else if item.attributes.Some? {
      AttributesOnlyAt(data, offset, plain, base, item.attributes.value);
    } else if item.state.Some? {
      StateOnlyAt(data, offset, plain, base, item.state.value);
    } else {
      PlainForm(data, offset, item, base);
      PlainBare(data, offset, item, base);
    }
  }

  lemma SameBase(item: Item)
    requires item.Claim? && Fits(item)
    ensures Fits(item.(state := None, attributes := None)) && Base(item.(state := None, attributes := None)) == Base(item)
  {
    hide IsNative, NativeIn, OptionalFits;
  }

  lemma PlainBare(data: bytes, offset: nat, item: Item, base: Read<seq<Value>>)
    requires item.Claim? && Fits(item) && OfForm([Candidate(List(base.value), base.next, 0)], 3, [item], data, offset)
    ensures Bare(item, offset) == Candidate(List(base.value), base.next, 0)
  {
    hide Bare, Matches;
    var items := [item];
    assert items[0] == item;
  }

  // ----- the two directions

  /** Every candidate is that of an item whose bytes stand there, the forms of a claimed job in their order. */
  lemma CandidatesAreItems(data: bytes, offset: nat) returns (items: seq<Item>)
    requires ItemCandidates(data, offset).Ok?
    ensures AreCandidates(ItemCandidates(data, offset).value, items, data, offset)
  {
    hide OKCandidates, Matches, BodyReads, Body, ReadBinary, Tag, Rank, Ascii, CandidateOf;
    if data[offset] != 0 {
      var item := RefusalRead(data, offset);
      RefusalAt(data, offset, item);
      items := [item];
    } else if data[offset + 1] == 4 {
      items := ClaimItemsRead(data, offset);
    } else {
      var item := BodyRead(data, offset + 2, data[offset + 1]);
      BodyStands(data, offset, item);
      BodyIsCandidate(data, offset, item);
      items := [item];
    }
  }

  lemma BodyStands(data: bytes, offset: nat, item: Item)
    requires !item.Busy? && !item.Failed? && !item.Claim? && BodyReads(item, data, offset + 2)
    requires offset + 1 < |data| && data[offset] == 0 && data[offset + 1] == Tag(item) && At(data, offset + 2, Body(item))
    ensures Matches(item, data, offset)
  {
    hide At, Body, Tag, Wire;
    WireParts(data, offset, item);
  }

  lemma ClaimItemsRead(data: bytes, offset: nat) returns (items: seq<Item>)
    requires ItemCandidates(data, offset).Ok? && data[offset] == 0 && data[offset + 1] == 4
    ensures AreCandidates(ItemCandidates(data, offset).value, items, data, offset)
  {
    hide ClaimCandidates, Fits, At, Wire, Rank, Ascii, Bare, CandidateOf;
    items := ClaimsRead(data, offset);
    forall i | 0 <= i < |items| ensures ItemCandidates(data, offset).value[i] == CandidateOf(items[i], offset) {
      BareLabelled(data, offset, items[i]);
    }
  }

  lemma BareLabelled(data: bytes, offset: nat, item: Item)
    requires item.Claim? && Matches(item, data, offset)
    ensures CandidateOf(item, offset) == Bare(item, offset).(value := Labelled("ok", Bare(item, offset).value))
  {
    hide Ascii, Content, Cost, Wire, At;
  }

  /** Every item whose bytes stand there is among the candidates, with its answer, its end and its cost. */
  lemma ItemIsCandidate(data: bytes, offset: nat, item: Item)
    requires Matches(item, data, offset)
    ensures ItemCandidates(data, offset).Ok? && CandidateOf(item, offset) in ItemCandidates(data, offset).value
    ensures !item.Claim? ==> ItemCandidates(data, offset) == Ok([CandidateOf(item, offset)])
  {
    hide ItemCandidates, Matches, BodyReads, Body, Tag, Ascii, CandidateOf;
    if item.Busy? || item.Failed? {
      RefusalAt(data, offset, item);
    } else if item.Claim? {
      ClaimIsCandidate(data, offset, item);
    } else {
      BodyAt(data, offset, item);
      BodyIsCandidate(data, offset, item);
    }
  }

  lemma ClaimIsCandidate(data: bytes, offset: nat, item: Item)
    requires item.Claim? && Matches(item, data, offset)
    ensures ItemCandidates(data, offset).Ok? && CandidateOf(item, offset) in ItemCandidates(data, offset).value
  {
    hide ClaimCandidates, Ascii, Bare, CandidateOf, ClaimHead, ClaimTail, Fits, At, Wire;
    ClaimParts(data, offset, item);
    ClaimStands(data, offset, item);
    BareLabelled(data, offset, item);
    var bare := ClaimCandidates(data, offset + 2).value;
    var i :| 0 <= i < |bare| && bare[i] == Bare(item, offset);
    assert LabelledOK(bare)[i] == CandidateOf(item, offset);
  }
}
