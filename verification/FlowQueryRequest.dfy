/**
  From a query and its parameters to the request's bytes: what preparation
  accepts, and that what it accepts is written exactly.
*/
module FlowQueryRequest {
  import opened Bytes
  import opened ByteOrder
  import opened NativeValue
  import opened NativeEncoder
  import opened NativeFlowQuery
  import opened NativeFlowQuerySize
  import opened Results
  import opened Utf8
  import NativeRoundTrip

  const MAX_QUERY: nat := 16384
  const MAX_PARAMETERS: nat := 64
  const MAX_NAME: nat := 128
  const MAX_VALUE: nat := 65535

  datatype RequestError =
    | InvalidUtf8
    | EmptyQuery
    | QueryTooLong
    | TooManyParameters
    | InvalidName(name: bytes)
    | InvalidValue(name: bytes)

  // ----- query text

  /** The length of the white space character at the start of the text, or 0. */
  function SpaceLength(text: bytes): (n: nat)
    requires text != []
    ensures n <= |text|
  {
    var c := text[0];
    if 9 <= c <= 13 || c == 32 then 1
    else if |text| >= 2 && c == 0xC2 && text[1] in {0x85, 0xA0} then 2
    else if |text| >= 3
         && (|| text[..3] == [0xE1, 0x9A, 0x80]
             || (text[..2] == [0xE2, 0x80] && (0x80 <= text[2] <= 0x8A || text[2] in {0xA8, 0xA9, 0xAF}))
             || text[..3] == [0xE2, 0x81, 0x9F] || text[..3] == [0xE3, 0x80, 0x80]) then 3
    else 0
  }

  predicate AllSpace(text: bytes) {
    text == [] || (SpaceLength(text) > 0 && AllSpace(text[SpaceLength(text)..]))
  }

  /** The characters that Unicode calls white space. */
  predicate WhiteSpace(code: nat) {
    || 0x09 <= code <= 0x0D || code in {0x20, 0x85, 0xA0, 0x1680, 0x2028, 0x2029, 0x202F, 0x205F, 0x3000}
    || 0x2000 <= code <= 0x200A
  }

  /** The UTF-8 form of a character of up to three bytes. */
  function Utf8Of(code: nat): bytes {
    if code < 0x80 then [code]
    else if code < 0x800 then [0xC0 + code / 64, 0x80 + code % 64]
    else [0xE0 + code / 4096 % 16, 0x80 + code / 64 % 64, 0x80 + code % 64]
  }

  /** The first character is white space, and this long. */
  lemma SpaceIsWhite(text: bytes)
    requires text != []
    ensures SpaceLength(text) > 0
      ==> exists code :: WhiteSpace(code) && Utf8Of(code) == text[..SpaceLength(text)]
  {
    var n := SpaceLength(text);
    if n == 1 {
      assert Utf8Of(text[0] as int) == text[..1];
    } else if n == 2 {
      assert Utf8Of(text[1] as int) == text[..2];
    } else if n == 3 {
      LongSpace(text);
    }
  }

  lemma LongSpace(text: bytes)
    requires text != [] && SpaceLength(text) == 3
    ensures exists code :: WhiteSpace(code) && Utf8Of(code) == text[..3]
  {
    var three := text[..3];
    assert three == [text[0], text[1], text[2]] && text[..2] == [text[0], text[1]];
    if three == [0xE1, 0x9A, 0x80] {
      assert Utf8Of(0x1680) == three;
    } else if three == [0xE2, 0x81, 0x9F] {
      assert Utf8Of(0x205F) == three;
    } else if three == [0xE3, 0x80, 0x80] {
      assert Utf8Of(0x3000) == three;
    } else {
      var code := 0x2000 + text[2] as int - 0x80;
      assert Utf8Of(code) == three;
    }
  }

  lemma WhiteIsSpace(text: bytes, code: nat)
    requires WhiteSpace(code) && Utf8Of(code) <= text
    ensures text != [] && SpaceLength(text) == |Utf8Of(code)|
  {
    var form := Utf8Of(code);
    assert form == text[..|form|];
    if |form| == 3 {
      assert text[..3] == [form[0], form[1], form[2]] && text[..2] == [form[0], form[1]];
    }
  }

  /** A text of these characters and no others, or of none. */
  ghost predicate IsBlank(text: bytes)
    decreases |text|
  {
    text == []
    || exists code :: WhiteSpace(code) && Utf8Of(code) <= text && IsBlank(text[|Utf8Of(code)|..])
  }

  /** Exactly the texts of white space alone count as empty. */
  lemma {:induction false} AllSpaceIsBlank(text: bytes)
    ensures AllSpace(text) <==> IsBlank(text)
    decreases |text|
  {
    hide SpaceLength, WhiteSpace, Utf8Of;
    if text != [] {
      SpaceIsWhite(text);
      if AllSpace(text) {
        var code :| WhiteSpace(code) && Utf8Of(code) == text[..SpaceLength(text)];
        AllSpaceIsBlank(text[SpaceLength(text)..]);
        assert Utf8Of(code) <= text;
      }
      if IsBlank(text) {
        var code :| WhiteSpace(code) && Utf8Of(code) <= text && IsBlank(text[|Utf8Of(code)|..]);
        WhiteIsSpace(text, code);
        NotEmpty(code);
        AllSpaceIsBlank(text[|Utf8Of(code)|..]);
      }
    }
  }

  lemma NotEmpty(code: nat)
    requires WhiteSpace(code)
    ensures Utf8Of(code) != []
  {
  }

  function TextError(text: bytes): Option<RequestError> {
    if !ValidUtf8(text) then Some(InvalidUtf8)
    else if AllSpace(text) then Some(EmptyQuery)
    else if |text| > MAX_QUERY then Some(QueryTooLong)
    else None
  }

  // ----- parameters

  predicate NameByte(c: byte) {
    97 <= c <= 122 || 65 <= c <= 90 || 48 <= c <= 57 || c in {95, 46, 45}
  }

  predicate ParameterName(name: bytes) {
    0 < |name| <= MAX_NAME && forall i :: 0 <= i < |name| ==> NameByte(name[i])
  }

  predicate Finite(bits: uint64) {
    bits / 0x10_0000_0000_0000 % 0x800 != 0x7FF
  }

  /** A parameter's value as it is sent; integers of any width become signed ones. */
  function SentValue(v: Value): Option<Value> {
    match v
    case Text(text) => if ValidUtf8(text) && |text| <= MAX_VALUE then Some(v) else None
    case Binary(data) => if |data| <= MAX_VALUE then Some(v) else None
    case NilBinary => Some(v)
    case Bool(_) => Some(v)
    case Float(bits) => if Finite(bits) then Some(v) else None
    case Int(_) => Some(v)
    case UInt(u) => if u < INT64_SPAN then Some(Int(u)) else None
    case _ => None
  }

  predicate Preparable(query: bytes, params: map<bytes, Value>) {
    && TextError(query).None? && |params| <= MAX_PARAMETERS
    && forall k :: k in params ==> ParameterName(k) && SentValue(params[k]).Some?
  }

  // ----- what can be sent, in its own terms

  predicate NameLetter(c: byte) {
    var letter := c as int as char;
    'a' <= letter <= 'z' || 'A' <= letter <= 'Z' || '0' <= letter <= '9' || letter in {'_', '.', '-'}
  }

  /** Text and bytes of up to 65535 bytes, booleans, finite floats, and integers of 64 bits with a sign. */
  predicate Sendable(v: Value) {
    || (v.Text? && ValidUtf8(v.text) && |v.text| <= 65535) || (v.Binary? && |v.data| <= 65535) || v.NilBinary?
    || v.Bool? || v.Int? || (v.UInt? && v.u <= 0x7FFF_FFFF_FFFF_FFFF)
    || (v.Float? && v.bits / 0x10_0000_0000_0000 % 2048 < 2047)
  }

  /** Up to 16384 bytes of UTF-8 that are not blank, and up to 64 parameters with names of 1 to 128 letters. */
  ghost predicate MayBeSent(query: bytes, params: map<bytes, Value>) {
    && ValidUtf8(query) && !IsBlank(query) && |query| <= 16384 && |params| <= 64
    && forall k :: k in params ==> 1 <= |k| <= 128 && (forall i :: 0 <= i < |k| ==> NameLetter(k[i])) && Sendable(params[k])
  }

  lemma PreparableMeans(query: bytes, params: map<bytes, Value>)
    ensures Preparable(query, params) <==> MayBeSent(query, params)
  {
    hide IsBlank, AllSpace, ValidUtf8;
    AllSpaceIsBlank(query);
    assert forall c: byte :: NameByte(c) <==> NameLetter(c);
    assert forall v: Value :: SentValue(v).Some? <==> Sendable(v);
  }

  function Sent(params: map<bytes, Value>): map<bytes, Value>
    requires forall k :: k in params ==> SentValue(params[k]).Some?
  {
    map k | k in params :: SentValue(params[k]).value
  }

  /** The payload that stands for a query: its parameters listed in the order of their names. */
  function PayloadOf(query: bytes, params: map<bytes, Value>, deadline: int64): (p: Payload)
    requires Preparable(query, params)
    ensures p.Prepared()
  {
    Listed(query, Sent(params), deadline)
  }

  /** The text is looked at first, then the number of parameters; of refused parameters any may be the one named. */
  ghost predicate Refuses(query: bytes, params: map<bytes, Value>, error: RequestError) {
    if TextError(query).Some? then error == TextError(query).value
    else if |params| > MAX_PARAMETERS then error == TooManyParameters
    else match error
      case InvalidName(name) => name in params && !ParameterName(name)
      case InvalidValue(name) => name in params && ParameterName(name) && SentValue(params[name]).None?
      case _ => false
  }

  /** Walks the parameters in whatever order the map gives them; the names are sorted afterwards. */
  method Prepare(query: bytes, params: map<bytes, Value>, deadline: int64) returns (r: Result<Payload, RequestError>)
    ensures r.Ok? <==> MayBeSent(query, params)
    ensures r.Ok? <==> Preparable(query, params)
    ensures r.Ok? ==> r.value == PayloadOf(query, params, deadline)
    ensures r.Err? ==> Refuses(query, params, r.error)
  {
    hide TextError, ParameterName, SentValue, SortedKeys, MayBeSent;
    PreparableMeans(query, params);
    var refused := TextError(query);
    if refused.Some? {
      return Err(refused.value);
    }
    if |params| > MAX_PARAMETERS {
      return Err(TooManyParameters);
    }
    var left, sent: map<bytes, Value> := params.Keys, map[];
    while left != {}
      invariant left <= params.Keys && sent.Keys == params.Keys - left
      invariant forall k :: k in sent ==> ParameterName(k) && SentValue(params[k]) == Some(sent[k])
    {
      var name :| name in left;
      if !ParameterName(name) {
        return Err(InvalidName(name));
      }
      var value := SentValue(params[name]);
      if value.None? {
        return Err(InvalidValue(name));
      }
      sent := sent[name := value.value];
      left := left - {name};
    }
    assert sent == Sent(params);
    return Ok(Listed(query, sent, deadline));
  }

  lemma KeysSorted(keys: set<bytes>)
    ensures Ascending(SortedKeys(keys)) && forall k :: k in SortedKeys(keys) <==> k in keys
  {
  }

  // ----- what was prepared always fits

  /** Whatever preparation accepts is within the encoder's depth and item limits. */
  lemma PreparedFits(query: bytes, params: map<bytes, Value>, deadline: int64)
    requires Preparable(query, params)
    ensures var p := PayloadOf(query, params, deadline);
      AllSizable(p) && Admissible(p.Generic(), 0) && Nodes(p.Generic()) <= 5 + MAX_PARAMETERS
  {
    hide Sent, SentValue, SortedKeys, Admissible, Nodes, Payload.Generic, Payload.Prepared, AllSizable;
    var p := PayloadOf(query, params, deadline);
    SentFits(query, params);
    CountNames(p.params);
    GenericFits(p);
  }

  lemma CountNames(params: map<bytes, Value>)
    ensures |SortedKeys(params.Keys)| == |params|
  {
    assert |params.Keys| == |params|;
  }

  /** Scalars of bounded size. */
  ghost predicate Scalars(params: map<bytes, Value>) {
    && |params| <= MAX_PARAMETERS
    && forall k :: k in params ==>
      |k| <= MAX_NAME && Sizable(params[k]) && Admissible(params[k], 2) && Nodes(params[k]) == 1
  }

  lemma SentFits(query: bytes, params: map<bytes, Value>)
    requires Preparable(query, params)
    ensures |query| <= MAX_QUERY && Sent(params).Keys == params.Keys && Scalars(Sent(params))
  {
    hide ValidUtf8, AllSpace;
    assert Sent(params).Keys == params.Keys;
    assert |Sent(params).Keys| == |Sent(params)| && |params.Keys| == |params|;
  }

  lemma GenericFits(p: Payload)
    requires p.Prepared() && |p.query| <= MAX_QUERY && |p.names| <= MAX_PARAMETERS && Scalars(p.params)
    ensures AllSizable(p) && Admissible(p.Generic(), 0) && Nodes(p.Generic()) <= 5 + MAX_PARAMETERS
  {
    hide Scalars, Payload.Prepared;
    ParametersFit(p);
    FieldsFit(p);
    FieldNodes(p);
  }

  lemma ParametersFit(p: Payload)
    requires p.Prepared() && Scalars(p.params) && |p.names| <= MAX_PARAMETERS
    ensures AllSizable(p) && Admissible(Map(p.params), 1) && Nodes(Map(p.params)) == 1 + |p.names|
  {
    hide Less;
    var keys := SortedKeys(p.params.Keys);
    KeysSorted(p.params.Keys);
    AscendingIsUnique(keys, p.names);
    OneNodeEach(Map(p.params), p.names);
  }

  lemma {:induction false} OneNodeEach(v: Value, keys: seq<bytes>)
    requires v.Map? && forall k :: k in keys ==> k in v.entries && Nodes(v.entries[k]) == 1
    ensures NodesOfEntries(v, keys) == |keys|
  {
    if keys != [] { OneNodeEach(v, keys[1..]); }
  }

  lemma FieldsFit(p: Payload)
    requires |p.query| <= MAX_QUERY && Admissible(Map(p.params), 1)
    ensures Admissible(p.Generic(), 0)
  {
    hide Admissible, Payload.Generic;
    var g := p.Generic();
    FewFields(p);
    FieldKinds(p);
    ScalarsAdmissible(p);
    SmallMapFits(g);
  }

  lemma FieldKinds(p: Payload)
    ensures var entries := p.Generic().entries;
      forall k :: k in entries ==>
        |k| < 100 && entries[k] in {Text(p.query), Text(Ascii(LANGUAGE_VERSION)), Int(p.deadline), Map(p.params)}
  {
  }

  lemma ScalarsAdmissible(p: Payload)
    requires |p.query| <= MAX_QUERY
    ensures Admissible(Text(p.query), 1) && Admissible(Text(Ascii(LANGUAGE_VERSION)), 1) && Admissible(Int(p.deadline), 1)
  {
  }

  lemma SmallMapFits(g: Value)
    requires g.Map? && |g.entries| <= 4 && forall k :: k in g.entries ==> |k| < 100 && Admissible(g.entries[k], 1)
    ensures Admissible(g, 0)
  {
  }

  lemma FewFields(p: Payload)
    ensures |p.Generic().entries| <= 4
  {
    hide Ascii;
    var keys := p.Generic().entries.Keys;
    var all := {Ascii("query"), Ascii("version"), Ascii("deadline_ms"), Ascii("params")};
    assert keys <= all;
    Subset(keys, all);
    assert |all| <= 4;
  }

  lemma Subset(a: set<bytes>, b: set<bytes>)
    requires a <= b
    ensures |a| <= |b|
  {
    var rest := b - a;
    assert b == a + rest;
  }

  lemma FieldNodes(p: Payload)
    requires p.Prepared() && Nodes(Map(p.params)) == 1 + |p.names| && |p.names| <= MAX_PARAMETERS
    ensures Nodes(p.Generic()) <= 5 + MAX_PARAMETERS
  {
    hide Ascending, Ascii, Payload.Prepared, Nodes, NodesOfEntries, Encode, Payload.Generic;
    var v, order := p.Generic(), p.FieldOrder();
    FieldOrderIsSorted(p);
    FieldValues(p);
    FieldNames();
    NodesInOrder(v, order);
    ScalarNodes(p);
    var rest := order;
    if p.deadline > 0 {
      FirstNode(v, rest);
      rest := rest[1..];
    }
    if p.names != [] {
      FirstNode(v, rest);
      rest := rest[1..];
    }
    assert rest == [Ascii("query"), Ascii("version")];
    TwoNodes(v, rest[0], rest[1]);
  }

  lemma TwoNodes(v: Value, a: bytes, b: bytes)
    requires v.Map? && a in v.entries && b in v.entries
    ensures NodesOfEntries(v, [a, b]) == Nodes(v.entries[a]) + Nodes(v.entries[b])
  {
    hide Nodes, NodesOfEntries;
    FirstNode(v, [a, b]);
    assert [a, b][1..] == [b];
    FirstNode(v, [b]);
    assert [b][1..] == [];
    NoNodes(v);
  }

  lemma NodesInOrder(v: Value, order: seq<bytes>)
    requires v.Map? && Ascending(order) && forall k :: k in order <==> k in v.entries
    ensures Nodes(v) == 1 + NodesOfEntries(v, order)
  {
    hide Less;
    KeysSorted(v.entries.Keys);
    AscendingIsUnique(SortedKeys(v.entries.Keys), order);
  }

  lemma FirstNode(v: Value, keys: seq<bytes>)
    requires v.Map? && keys != [] && forall k :: k in keys ==> k in v.entries
    ensures NodesOfEntries(v, keys) == Nodes(v.entries[keys[0]]) + NodesOfEntries(v, keys[1..])
  {
    hide Nodes;
  }

  lemma NoNodes(v: Value)
    requires v.Map?
    ensures NodesOfEntries(v, []) == 0
  {
  }

  lemma ScalarNodes(p: Payload)
    ensures Nodes(Int(p.deadline)) == 1 && Nodes(Text(p.query)) == 1 && Nodes(Text(Ascii(LANGUAGE_VERSION))) == 1
  {
    hide Ascii;
  }

  // ----- encoding

  datatype EncodeQueryError = Request(error: RequestError) | Size(reason: SizeError) | Encoding(cause: EncodeError)

  /** The payload's size is computed first, and is the size of what is then written. */
  method EncodePayload(p: Payload, limit: int) returns (r: Result<bytes, EncodeQueryError>)
    requires p.Prepared()
    ensures r.Ok? <==> limit > 0 && AllSizable(p) && Accepts(p.Generic(), 0, MAX_ITEMS, limit)
    ensures r.Ok? ==> r.value == Encode(p.Generic())
  {
    hide Encode, Nodes, Payload.Generic, Payload.Prepared, AllSizable, Admissible;
    if limit <= 0 {
      return Err(Encoding(LimitNotPositive));
    }
    var size := EncodedSize(p, limit);
    if size.Err? {
      return Err(Size(size.error));
    }
    var buf := new EncodeBuffer(limit);
    var state := new EncodeState(MAX_ITEMS);
    var err := state.Enter(0);
    if err.Some? {
      assert false;
    }
    err := WriteFlowQuery(buf, p, state, 0);
    if err.Some? {
      return Err(Encoding(err.value));
    }
    return Ok(buf.data);
  }

  /** From a query to its request body: refused only by preparation or by the byte limit. */
  method EncodeQuery(query: bytes, params: map<bytes, Value>, deadline: int64, limit: int) returns (r: Result<bytes, EncodeQueryError>)
    ensures !Preparable(query, params) ==> r.Err?
    ensures Preparable(query, params)
      ==> var generic := PayloadOf(query, params, deadline).Generic();
          && (r.Ok? <==> limit > 0 && |Encode(generic)| <= limit)
          && (r.Ok? ==> r.value == Encode(generic))
  {
    hide Preparable, PayloadOf, Admissible, Nodes, Encode, Payload.Generic, Payload.Prepared, AllSizable;
    var prepared := Prepare(query, params, deadline);
    if prepared.Err? {
      return Err(Request(prepared.error));
    }
    PreparedFits(query, params, deadline);
    r := EncodePayload(prepared.value, limit);
  }

  /** The server that decodes the request reads exactly the prepared query. */
  lemma RequestReads(query: bytes, params: map<bytes, Value>, deadline: int64, suffix: bytes)
    requires Preparable(query, params)
    ensures ReadsBack(PayloadOf(query, params, deadline).Generic(), suffix)
  {
    hide ReadsBack, Preparable, PayloadOf, Admissible, Nodes, Encode, Decode, Normalize, Payload.Generic;
    PreparedFits(query, params, deadline);
    FittingReadsBack(PayloadOf(query, params, deadline).Generic(), suffix);
  }

  // ----- what the server reads, by name

  /** The value as the server sees it: text as its bytes, unsigned numbers as signed ones. */
  function Seen(v: Value): Value {
    match v
    case Text(text) => Binary(text)
    case NilBinary => Binary([])
    case UInt(u) => if u < INT64_SPAN then Int(u) else v
    case _ => v
  }

  /** A map with the query, its language, its deadline if it has one, and its parameters if it has any. */
  ghost predicate Says(v: Value, query: bytes, params: map<bytes, Value>, deadline: int64) {
    && v.Map?
    && v.entries.Keys == {Ascii("query"), Ascii("version")} + (if deadline > 0 then {Ascii("deadline_ms")} else {})
                         + (if params != map[] then {Ascii("params")} else {})
    && v.entries[Ascii("query")] == Binary(query) && v.entries[Ascii("version")] == Binary(Ascii("FQL1"))
    && (deadline > 0 ==> v.entries[Ascii("deadline_ms")] == Int(deadline))
    && (params != map[] ==>
      && v.entries[Ascii("params")].Map? && v.entries[Ascii("params")].entries.Keys == params.Keys
      && forall k :: k in params ==> v.entries[Ascii("params")].entries[k] == Seen(params[k]))
  }

  lemma NormalSays(query: bytes, params: map<bytes, Value>, deadline: int64)
    requires Preparable(query, params)
    ensures Says(Normalize(PayloadOf(query, params, deadline).Generic()), query, params, deadline)
  {
    hide Ascii, Preparable, Sent, Normalize, Payload.Generic, PayloadOf, Seen;
    var p := PayloadOf(query, params, deadline);
    FieldValues(p);
    SentIsSeen(query, params);
    PayloadFields(query, params, deadline);
    NamesOfNothing(query, params, deadline);
    NormalFields(p);
    GenericKeys(p);
    NormalScalars(query, deadline);
  }

  lemma PayloadFields(query: bytes, params: map<bytes, Value>, deadline: int64)
    requires Preparable(query, params)
    ensures var p := PayloadOf(query, params, deadline);
      p.query == query && p.deadline == deadline && p.params == Sent(params)
  {
    hide TextError, ParameterName, SentValue, SortedKeys;
  }

  lemma GenericKeys(p: Payload)
    ensures p.Generic().Map?
    ensures p.Generic().entries.Keys == {Ascii("query"), Ascii("version")}
      + (if p.deadline > 0 then {Ascii("deadline_ms")} else {}) + (if p.names != [] then {Ascii("params")} else {})
  {
    hide Ascii;
  }

  lemma NormalScalars(query: bytes, deadline: int64)
    ensures Normalize(Text(query)) == Binary(query) && Normalize(Int(deadline)) == Int(deadline)
    ensures Normalize(Text(Ascii(LANGUAGE_VERSION))) == Binary(Ascii("FQL1"))
  {
    hide Ascii;
  }

  lemma NormalFields(p: Payload)
    ensures var g := p.Generic().entries;
      Normalize(p.Generic()).Map? && Normalize(p.Generic()).entries.Keys == g.Keys
      && forall k :: k in g ==> Normalize(p.Generic()).entries[k] == Normalize(g[k])
  {
    hide Payload.Generic;
  }

  lemma NamesOfNothing(query: bytes, params: map<bytes, Value>, deadline: int64)
    requires Preparable(query, params)
    ensures PayloadOf(query, params, deadline).names == [] <==> params == map[]
  {
    hide SentValue, TextError, ParameterName;
    assert Sent(params).Keys == params.Keys;
    KeysSorted(Sent(params).Keys);
    var names := SortedKeys(Sent(params).Keys);
    assert |names| == |params.Keys|;
    assert params == map[] <==> params.Keys == {};
  }

  lemma SentIsSeen(query: bytes, params: map<bytes, Value>)
    requires Preparable(query, params)
    ensures Normalize(Map(Sent(params))).Map? && Normalize(Map(Sent(params))).entries.Keys == params.Keys
    ensures forall k :: k in params ==> Normalize(Map(Sent(params))).entries[k] == Seen(params[k])
  {
    hide TextError, ParameterName, ValidUtf8, Finite;
  }

  /** What the server decodes from a request is the query that was asked, parameter by parameter. */
  lemma RequestSays(query: bytes, params: map<bytes, Value>, deadline: int64, suffix: bytes)
    requires Preparable(query, params)
    ensures var read := Decode(Encode(PayloadOf(query, params, deadline).Generic()) + suffix, MAX_DEPTH, MAX_ITEMS, 0);
      read.Ok? && read.value.rest == suffix && Says(read.value.value, query, params, deadline)
  {
    hide Preparable, PayloadOf, Encode, Decode, Normalize, Payload.Generic, Says;
    RequestReads(query, params, deadline, suffix);
    NormalSays(query, params, deadline);
  }

  /** Decoding what is written for the value gives its normal form and leaves what followed. */
  ghost predicate ReadsBack(v: Value, suffix: bytes) {
    var read := Decode(Encode(v) + suffix, MAX_DEPTH, MAX_ITEMS, 0);
    read.Ok? && read.value.value == Normalize(v) && read.value.rest == suffix
  }

  lemma FittingReadsBack(v: Value, suffix: bytes)
    requires Admissible(v, 0) && Nodes(v) <= MAX_ITEMS
    ensures ReadsBack(v, suffix)
  {
    hide Admissible, Nodes, Encode, Decode, Normalize;
    NativeRoundTrip.RoundTrip(v, suffix, MAX_DEPTH, MAX_ITEMS, 0);
  }
}
