/** The exact size of a FLOW.QUERY payload, computed before the request buffer is grown. */
module NativeFlowQuerySize {
  import opened Bytes
  import opened ByteOrder
  import opened NativeValue
  import opened NativePayloads
  import opened NativeFlowQuery
  import opened Results
  import NativeRoundTrip

  datatype SizeError = LimitExceeded | Unsupported

  class SizeCounter {
    const limit: nat
    var size: nat

    constructor (limit: nat)
      ensures this.limit == limit && size == 0
    {
      this.limit := limit;
      size := 0;
    }

    method Add(part: nat) returns (ok: bool)
      requires size <= limit
      modifies this
      ensures ok == (part <= limit - old(size))
      ensures size == if ok then old(size) + part else old(size)
    {
      if part > limit - size {
        return false;
      }
      size := size + part;
      return true;
    }

    method AddBinary(length: nat) returns (ok: bool)
      requires size <= limit
      modifies this
      ensures size <= limit && ok == (5 + length <= limit - old(size))
      ensures ok ==> size == old(size) + 5 + length
    {
      ok := Add(5);
      if ok { ok := Add(length); }
    }

    method AddMapKey(length: nat) returns (ok: bool)
      requires size <= limit
      modifies this
      ensures size <= limit && ok == (4 + length <= limit - old(size))
      ensures ok ==> size == old(size) + 4 + length
    {
      ok := Add(4);
      if ok { ok := Add(length); }
    }

    /** One prepared parameter value; preparation leaves only these types. */
    method AddValue(value: Value) returns (err: Option<SizeError>)
      requires size <= limit
      modifies this
      ensures size <= limit
      ensures !Sizable(value) ==> err == Some(Unsupported)
      ensures Sizable(value) ==> err == if |Encode(value)| <= limit - old(size) then None else Some(LimitExceeded)
      ensures err.None? ==> size == old(size) + |Encode(value)|
    {
      var ok;
      match value {
        case Text(text) => ok := AddBinary(|text|);
        case Binary(data) => ok := AddBinary(|data|);
        case NilBinary => ok := AddBinary(0);
        case Bool(_) => ok := Add(1);
        case Int(_) => ok := Add(9);
        case Float(_) => ok := Add(9);
        case _ => return Some(Unsupported);
      }
      return if ok then None else Some(LimitExceeded);
    }
  }

  predicate Sizable(value: Value) {
    value.Text? || value.Binary? || value.NilBinary? || value.Bool? || value.Int? || value.Float?
  }

  predicate AllSizable(p: Payload) {
    forall k :: k in p.params ==> Sizable(p.params[k])
  }

  lemma EntrySize(v: Value, keys: seq<bytes>)
    requires v.Map? && keys != [] && forall k :: k in keys ==> k in v.entries
    ensures |EncodeEntries(v, keys)|
      == 4 + |keys[0]| + |Encode(v.entries[keys[0]])| + |EncodeEntries(v, keys[1..])|
  {
    hide Encode;
  }

  /** The parameters' share: exact, unless it is cut short by the limit or by a value of another kind. */
  method AddParameters(counter: SizeCounter, p: Payload) returns (err: Option<SizeError>)
    requires counter.size <= counter.limit && p.Prepared()
    modifies counter
    ensures counter.size <= counter.limit
    ensures AllSizable(p)
      ==> err == if |EncodeEntries(Map(p.params), p.names)| <= counter.limit - old(counter.size)
                 then None else Some(LimitExceeded)
    ensures !AllSizable(p) ==> err.Some?
    ensures err.None? ==> counter.size == old(counter.size) + |EncodeEntries(Map(p.params), p.names)|
  {
    hide Encode, EncodeEntries, Less, Sizable;
    ghost var v, start := Map(p.params), counter.size;
    for i := 0 to |p.names|
      invariant counter.size <= counter.limit
      invariant counter.size + |EncodeEntries(v, p.names[i..])| == start + |EncodeEntries(v, p.names)|
      invariant forall j :: 0 <= j < i ==> Sizable(p.params[p.names[j]])
    {
      var name := p.names[i];
      EntrySize(v, p.names[i..]);
      assert p.names[i..][0] == name && p.names[i..][1..] == p.names[i + 1..];
      var ok := counter.AddMapKey(|name|);
      if !ok { return Some(LimitExceeded); }
      err := counter.AddValue(p.params[name]);
      if err.Some? { return; }
    }
    NoEntriesSize(v);
    return None;
  }

  lemma NoEntriesSize(v: Value)
    requires v.Map?
    ensures EncodeEntries(v, []) == []
  {
  }

  /** The bytes of the generic map, field by field. */
  lemma PayloadSize(p: Payload)
    requires p.Prepared()
    ensures |Encode(p.Generic())|
      == 5 + (if p.deadline > 0 then 4 + 11 + 9 else 0)
           + (if p.names != [] then 4 + 6 + 5 + |EncodeEntries(Map(p.params), p.names)| else 0)
           + (4 + 5 + 5 + |p.query|) + (4 + 7 + 5 + 4)
  {
    hide Encode, EncodeEntries, NodesOfEntries, Nodes, Header, Payload.Generic, Payload.Prepared, Ascending, Ascii;
    var v, order := p.Generic(), p.FieldOrder();
    FieldOrderIsSorted(p);
    FieldValues(p);
    FieldNames();
    WrittenInOrder(v, order, 0, 0, 0);
    if p.names != [] { ParametersSize(p); }
    ScalarSizes(p);
    var rest := order;
    if p.deadline > 0 {
      EntrySize(v, rest);
      rest := rest[1..];
    }
    if p.names != [] {
      EntrySize(v, rest);
      rest := rest[1..];
    }
    assert rest == [Ascii("query"), Ascii("version")];
    TwoEntriesSize(v, rest[0], rest[1]);
  }

  lemma ParametersSize(p: Payload)
    requires p.Prepared()
    ensures |Encode(Map(p.params))| == 5 + |EncodeEntries(Map(p.params), p.names)|
  {
    hide Encode, EncodeEntries, Ascending;
    WrittenInOrder(Map(p.params), p.names, 0, 0, 0);
  }

  lemma TwoEntriesSize(v: Value, a: bytes, b: bytes)
    requires v.Map? && a in v.entries && b in v.entries
    ensures |EncodeEntries(v, [a, b])| == 4 + |a| + |Encode(v.entries[a])| + 4 + |b| + |Encode(v.entries[b])|
  {
    hide Encode, EncodeEntries;
    EntrySize(v, [a, b]);
    assert [a, b][1..] == [b];
    EntrySize(v, [b]);
    assert [b][1..] == [];
    NoEntriesSize(v);
  }

  lemma NoParameters(p: Payload)
    requires p.Prepared()
    ensures p.names == [] ==> AllSizable(p)
  {
  }

  lemma ScalarSizes(p: Payload)
    ensures |Encode(Int(p.deadline))| == 9
    ensures |Encode(Text(p.query))| == 5 + |p.query|
    ensures |Encode(Text(Ascii(LANGUAGE_VERSION)))| == 9
  {
  }

  /**
    The size that is announced is the size that is written, and fails exactly when it
    exceeds the limit or a parameter is of a kind that preparation does not produce.
  */
  method EncodedSize(p: Payload, limit: nat) returns (r: Result<nat, SizeError>)
    requires p.Prepared()
    ensures !AllSizable(p) ==> r.Err?
    ensures AllSizable(p) ==> r == if |Encode(p.Generic())| <= limit then Ok(|Encode(p.Generic())|) else Err(LimitExceeded)
  {
    hide Encode, EncodeEntries, Payload.Generic, Ascii, AllSizable, Payload.Prepared;
    PayloadSize(p);
    NoParameters(p);
    FieldNames();
    var counter := new SizeCounter(limit);
    var ok := counter.Add(5);
    if !ok { return Err(LimitExceeded); }
    if p.deadline > 0 {
      ok := counter.AddMapKey(|Ascii("deadline_ms")|);
      if !ok { return Err(LimitExceeded); }
      ok := counter.Add(9);
      if !ok { return Err(LimitExceeded); }
    }
    if p.names != [] {
      ok := counter.AddMapKey(|Ascii("params")|);
      if !ok { return Err(LimitExceeded); }
      ok := counter.Add(5);
      if !ok { return Err(LimitExceeded); }
      var err := AddParameters(counter, p);
      if err.Some? { return Err(err.value); }
    }
    ok := counter.AddMapKey(|Ascii("query")|);
    if !ok { return Err(LimitExceeded); }
    ok := counter.AddBinary(|p.query|);
    if !ok { return Err(LimitExceeded); }
    ok := counter.AddMapKey(|Ascii("version")|);
    if !ok { return Err(LimitExceeded); }
    ok := counter.AddBinary(|Ascii(LANGUAGE_VERSION)|);
    if !ok { return Err(LimitExceeded); }
    return Ok(counter.size);
  }
}
