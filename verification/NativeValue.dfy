/**
  The native value tree, its wire form, and what the encoder's and the
  decoder's limits admit.
*/
module NativeValue {
  import opened Bytes
  import opened ByteOrder
  import opened Results

  /** Largest item count of one request or response. */
  const MAX_ITEMS: nat := 1_000_000
  /** Deepest nesting that the encoder writes and the decoder reads. */
  const MAX_DEPTH: nat := 64

  /** `NilBinary` is a nil byte slice held in an interface value. */
  datatype Value =
    | Nil
    | Bool(b: bool)
    | Int(i: int64)
    | UInt(u: uint64)
    | Float(bits: uint64)
    | Text(text: bytes)
    | Binary(data: bytes)
    | NilBinary
    | List(items: seq<Value>)
    | Map(entries: map<bytes, Value>)

  function Header(tag: byte, count: nat): (h: bytes)
    ensures |h| == 5
  {
    [tag] + PutU32(count)
  }

  function EncodeKey(key: bytes): bytes {
    PutU32(|key|) + key
  }

  /** The wire form of a value. */
  function Encode(v: Value): bytes
    decreases v, 1, 0
  {
    match v
    case Nil => [0]
    case Bool(b) => if b then [1] else [2]
    case Int(i) => [3] + PutU64(ToU64(i))
    case UInt(u) => if u < INT64_SPAN then [3] + PutU64(u) else [8] + PutU64(u)
    case Float(bits) => [7] + PutU64(bits)
    case Text(text) => Header(4, |text|) + text
    case Binary(data) => Header(4, |data|) + data
    case NilBinary => Header(4, 0)
    case List(items) => Header(5, |items|) + EncodeItems(items)
    case Map(entries) =>
      Header(6, |entries|) + EncodeEntries(v, SortedKeys(entries.Keys))
  }

  function EncodeItems(items: seq<Value>): bytes
    decreases items
  {
    if items == [] then [] else Encode(items[0]) + EncodeItems(items[1..])
  }

  function EncodeEntries(v: Value, keys: seq<bytes>): bytes
    requires v.Map? && forall k :: k in keys ==> k in v.entries
    decreases v, 0, |keys|
  {
    if keys == [] then []
    else EncodeKey(keys[0]) + Encode(v.entries[keys[0]]) + EncodeEntries(v, keys[1..])
  }

  /** How many units of the item budget a value consumes. */
  function Nodes(v: Value): nat
    decreases v, 1, 0
  {
    match v
    case List(items) => 1 + NodesOfItems(items)
    case Map(entries) => 1 + NodesOfEntries(v, SortedKeys(entries.Keys))
    case _ => 1
  }

  function NodesOfItems(items: seq<Value>): nat
    decreases items
  {
    if items == [] then 0 else Nodes(items[0]) + NodesOfItems(items[1..])
  }

  function NodesOfEntries(v: Value, keys: seq<bytes>): nat
    requires v.Map? && forall k :: k in keys ==> k in v.entries
    decreases v, 0, |keys|
  {
    if keys == [] then 0
    else Nodes(v.entries[keys[0]]) + NodesOfEntries(v, keys[1..])
  }

  /** The shape limits of the encoder: nesting depth and 32-bit lengths. */
  predicate Admissible(v: Value, depth: nat)
    decreases v
  {
    depth <= MAX_DEPTH &&
    match v
    case Text(text) => |text| < U32_SPAN
    case Binary(data) => |data| < U32_SPAN
    case List(items) =>
      && |items| < U32_SPAN
      && forall i :: 0 <= i < |items| ==> Admissible(items[i], depth + 1)
    case Map(entries) =>
      && |entries| < U32_SPAN
      && forall k :: k in entries ==> |k| < U32_SPAN && Admissible(entries[k], depth + 1)
    case _ => true
  }

  /** What the reader of the wire form sees: text is bytes, small unsigned numbers are signed. */
  function Normalize(v: Value): Value {
    match v
    case UInt(u) => if u < INT64_SPAN then Int(u) else v
    case Text(text) => Binary(text)
    case NilBinary => Binary([])
    case List(items) => List(seq(|items|, i requires 0 <= i < |items| => Normalize(items[i])))
    case Map(entries) => Map(map k | k in entries :: Normalize(entries[k]))
    case _ => v
  }

  datatype DecodeError =
    | Empty
    | TooDeep
    | TooManyItems
    | Truncated
    | CountOutOfBounds
    | DuplicateKey
    | UnknownTag(tag: byte)

  /** A decoded part, the bytes after it and the item budget left. */
  datatype Decoded<+T> = Decoded(value: T, rest: bytes, remaining: nat)

  /** The announced item count is plausible for the bytes that are left. */
  predicate CountInBounds(raw: nat, remainingBytes: int, minBytesPerItem: nat) {
    raw <= MAX_ITEMS && (minBytesPerItem > 0 ==> raw * minBytesPerItem <= remainingBytes)
  }

  /** The value at the front of `data`. */
  function Decode(data: bytes, maxDepth: nat, remaining: nat, depth: nat): (r: Result<Decoded<Value>, DecodeError>)
    ensures r.Ok? ==> r.value.remaining < remaining && |r.value.rest| < |data|
    decreases |data|, 0
  {
    if data == [] then Err(Empty)
    else if depth > maxDepth then Err(TooDeep)
    else if remaining == 0 then Err(TooManyItems)
    else
      var rest := data[1..];
      var left := remaining - 1;
      match data[0] as int
      case 0 => Ok(Decoded(Nil, rest, left))
      case 1 => Ok(Decoded(Bool(true), rest, left))
      case 2 => Ok(Decoded(Bool(false), rest, left))
      case 3 =>
        if |rest| < 8 then Err(Truncated)
        else Ok(Decoded(Int(ToInt64(GetU64(rest))), rest[8..], left))
      case 4 => DecodeBinary(rest, left)
      case 5 =>
        if |rest| < 4 then Err(Truncated)
        else if !CountInBounds(GetU32(rest), |rest| - 4, 1) then Err(CountOutOfBounds)
        else if GetU32(rest) > left then Err(TooManyItems)
        else
          var items :- DecodeItems(rest[4..], GetU32(rest), maxDepth, left, depth + 1);
          Ok(Decoded(List(items.value), items.rest, items.remaining))
      case 6 =>
        if |rest| < 4 then Err(Truncated)
        else if !CountInBounds(GetU32(rest), |rest| - 4, 5) then Err(CountOutOfBounds)
        else if GetU32(rest) > left then Err(TooManyItems)
        else
          var entries :- DecodeEntries(rest[4..], GetU32(rest), map[], maxDepth, left, depth + 1);
          Ok(Decoded(Map(entries.value), entries.rest, entries.remaining))
      case 7 =>
        if |rest| < 8 then Err(Truncated)
        else Ok(Decoded(Float(GetU64(rest)), rest[8..], left))
      case 8 =>
        if |rest| < 8 then Err(Truncated)
        else Ok(Decoded(UInt(GetU64(rest)), rest[8..], left))
      case _ => Err(UnknownTag(data[0]))
  }

  function DecodeBinary(rest: bytes, left: nat): (r: Result<Decoded<Value>, DecodeError>)
    ensures r.Ok? ==> r.value.remaining == left && |r.value.rest| <= |rest|
  {
    if |rest| < 4 then Err(Truncated)
    else if |rest| - 4 < GetU32(rest) then Err(Truncated)
    else Ok(Decoded(Binary(rest[4..4 + GetU32(rest)]), rest[4 + GetU32(rest)..], left))
  }

  function DecodeItems(data: bytes, count: nat, maxDepth: nat, remaining: nat, depth: nat)
    : (r: Result<Decoded<seq<Value>>, DecodeError>)
    ensures r.Ok? ==> r.value.remaining <= remaining && |r.value.rest| <= |data|
    decreases |data|, 1
  {
    if count == 0 then Ok(Decoded([], data, remaining))
    else
      var head :- Decode(data, maxDepth, remaining, depth);
      var tail :- DecodeItems(head.rest, count - 1, maxDepth, head.remaining, depth);
      Ok(Decoded([head.value] + tail.value, tail.rest, tail.remaining))
  }

  function DecodeEntries(
    data: bytes, count: nat, known: map<bytes, Value>, maxDepth: nat, remaining: nat, depth: nat)
    : (r: Result<Decoded<map<bytes, Value>>, DecodeError>)
    ensures r.Ok? ==> r.value.remaining <= remaining && |r.value.rest| <= |data|
    decreases |data|, 1
  {
    if count == 0 then Ok(Decoded(known, data, remaining))
    else if |data| < 4 then Err(Truncated)
    else if |data| - 4 < GetU32(data) then Err(Truncated)
    else
      var key := data[4..4 + GetU32(data)];
      if key in known then Err(DuplicateKey)
      else
        var item :- Decode(data[4 + GetU32(data)..], maxDepth, remaining, depth);
        DecodeEntries(item.rest, count - 1, known[key := item.value], maxDepth, item.remaining, depth)
  }
}
