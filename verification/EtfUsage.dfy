/**
  Bounding a usage term by the size it would have in the Erlang External Term
  Format, without encoding it.

  The reference encoding follows the ERTS User's Guide, "External Term Format":
  SMALL_ATOM_UTF8_EXT, SMALL_INTEGER_EXT, INTEGER_EXT, SMALL_BIG_EXT,
  NEW_FLOAT_EXT, BINARY_EXT, NIL_EXT, STRING_EXT, LIST_EXT and MAP_EXT.
*/
module EtfUsage {
  import opened Bytes
  import opened Results

  const MAX_DEPTH: int := 64
  const MAX_NODES: int := 4096
  const MAX_BYTES: int := 262144

  datatype Term =
    | Nil
    | Boolean(value: bool)
    | Signed(whole: int64)
    | Unsigned(count: uint64)
    | Float(bits: uint64)
    | Binary(data: bytes)
    | List(items: seq<Term>)
    | Mapping(entries: seq<Entry>)
    | Unsupported

  /** `key` is absent when it is not a string. */
  datatype Entry = Entry(key: Option<bytes>, value: Term)

  // ----- the reference encoding

  /** The base-256 digits, least significant first, without leading zeros. */
  function Digits(n: nat): (digits: bytes)
    ensures |digits| > 0
  {
    if n < 0x100 then [n] else [n % 0x100] + Digits(n / 0x100)
  }

  function EncodeInteger(i: int): bytes {
    if 0 <= i <= 255 then [97, i]
    else if -0x8000_0000 <= i < 0x8000_0000 then [98] + PutU32(if i < 0 then i + U32_SPAN else i)
    else
      var digits := Digits(if i < 0 then -i else i);
      [110, |digits| % 0x100, if i < 0 then 1 else 0] + digits
  }

  predicate IsByte(t: Term) {
    (t.Signed? && 0 <= t.whole <= 255) || (t.Unsigned? && t.count <= 255)
  }

  predicate IsString(items: seq<Term>) {
    0 < |items| < 0x1_0000 && forall i :: 0 <= i < |items| ==> IsByte(items[i])
  }

  function ByteOf(t: Term): byte
    requires IsByte(t)
  {
    if t.Signed? then t.whole else t.count
  }

  function Encode(t: Term): bytes
    decreases t, 1
  {
    match t
    case Nil => [119, 3] + Ascii("nil")
    case Boolean(b) => if b then [119, 4] + Ascii("true") else [119, 5] + Ascii("false")
    case Signed(i) => EncodeInteger(i)
    case Unsigned(u) => EncodeInteger(u)
    case Float(bits) => [70] + PutU64(bits)
    case Binary(data) => EncodeBinary(data)
    case List(items) =>
      if items == [] then [106]
      else if IsString(items) then
        [107, |items| / 0x100 % 0x100, |items| % 0x100] + seq(|items|, i requires 0 <= i < |items| => ByteOf(items[i]))
      else [108] + PutU32(|items|) + EncodeItems(items) + [106]
    case Mapping(entries) => [116] + PutU32(|entries|) + EncodeEntries(entries)
    case Unsupported => []
  }

  function EncodeBinary(data: bytes): bytes {
    [109] + PutU32(|data|) + data
  }

  function EncodeItems(items: seq<Term>): bytes
    decreases items, 0
  {
    if items == [] then [] else Encode(items[0]) + EncodeItems(items[1..])
  }

  function EncodeEntries(entries: seq<Entry>): bytes
    decreases entries, 0
  {
    if entries == [] then [] else EncodeEntry(entries[0]) + EncodeEntries(entries[1..])
  }

  function EncodeEntry(e: Entry): bytes
    decreases e, 2
  {
    (if e.key.Some? then EncodeBinary(e.key.value) else []) + Encode(e.value)
  }

  /** The sizes of the format, kind by kind. */
  lemma SizesByKind(t: Term)
    ensures match t
      case Nil => |Encode(t)| == 5
      case Boolean(b) => |Encode(t)| == if b then 6 else 7
      case Signed(i) => 0 <= i <= 255 ==> |Encode(t)| == 2
      case Unsigned(u) => u <= 255 ==> |Encode(t)| == 2
      case Float(_) => |Encode(t)| == 9
      case Binary(data) => |Encode(t)| == 5 + |data|
      case List(items) =>
        |Encode(t)| == if items == [] then 1
                       else if |items| <= 65535 && (forall i :: 0 <= i < |items| ==> IsByte(items[i])) then 3 + |items|
                       else 6 + ItemSizes(items)
      case Mapping(entries) =>
        (forall i :: 0 <= i < |entries| ==> entries[i].key.Some?) ==> |Encode(t)| == 5 + EntrySizes(entries)
      case Unsupported => true
  {
    match t
    case List(items) => if items != [] { ItemsSum(items); }
    case Mapping(entries) => EntriesSum(entries);
    case _ =>
  }

  function ItemSizes(items: seq<Term>): nat {
    if items == [] then 0 else |Encode(items[0])| + ItemSizes(items[1..])
  }

  /** Each entry is its key as a binary, and its value. */
  function EntrySizes(entries: seq<Entry>): nat {
    if entries == [] then 0
    else (if entries[0].key.Some? then 5 + |entries[0].key.value| else 0) + |Encode(entries[0].value)| + EntrySizes(entries[1..])
  }

  lemma {:induction false} ItemsSum(items: seq<Term>)
    ensures |EncodeItems(items)| == ItemSizes(items)
  {
    hide Encode;
    if items != [] { ItemsSum(items[1..]); }
  }

  lemma {:induction false} EntriesSum(entries: seq<Entry>)
    ensures |EncodeEntries(entries)| == EntrySizes(entries)
  {
    hide Encode;
    if entries != [] { EntriesSum(entries[1..]); }
  }

  // ----- nodes and bounds

  /** A list counts one node for each cons cell and one for its tail; a map one for itself and one for each key. */
  function Nodes(t: Term): nat
    decreases t, 1
  {
    match t
    case List(items) => ItemNodes(items) + 1
    case Mapping(entries) => EntryNodes(entries) + 1
    case _ => 1
  }

  function ItemNodes(items: seq<Term>): nat
    decreases items, 0
  {
    if items == [] then 0 else 1 + Nodes(items[0]) + ItemNodes(items[1..])
  }

  function EntryNodes(entries: seq<Entry>): nat
    decreases entries, 0
  {
    if entries == [] then 0 else NodesOfEntry(entries[0]) + EntryNodes(entries[1..])
  }

  function NodesOfEntry(e: Entry): nat
    decreases e, 2
  {
    1 + Nodes(e.value)
  }

  /** Of a known kind, with string keys, and not nested too deeply; each cons cell is one level. */
  predicate Portable(t: Term, depth: nat)
    decreases t, 1
  {
    t.Nil?
    || (depth <= MAX_DEPTH
        && match t
           case Unsigned(u) => u < INT64_SPAN
           case List(items) => depth + |items| <= MAX_DEPTH && ItemsPortable(items, depth + 1)
           case Mapping(entries) => EntriesPortable(entries, depth + 1)
           case Unsupported => false
           case _ => true)
  }

  /** The first item is at `depth`, each further one a level deeper. */
  predicate ItemsPortable(items: seq<Term>, depth: nat)
    decreases items, 0
  {
    items == [] || (Portable(items[0], depth) && ItemsPortable(items[1..], depth + 1))
  }

  predicate EntriesPortable(entries: seq<Entry>, depth: nat)
    decreases entries, 0
  {
    entries == [] || (EntryPortable(entries[0], depth) && EntriesPortable(entries[1..], depth))
  }

  predicate EntryPortable(e: Entry, depth: nat)
    decreases e, 2
  {
    e.key.Some? && depth <= MAX_DEPTH && Portable(e.value, depth)
  }

  function NodeSum(items: seq<Term>): nat {
    if items == [] then 0 else Nodes(items[0]) + NodeSum(items[1..])
  }

  function ValuesOf(entries: seq<Entry>): seq<Term> {
    seq(|entries|, i requires 0 <= i < |entries| => entries[i].value)
  }

  /** A list costs a node for each cell and one for its end, a map one for each key and one for itself, besides their parts. */
  lemma NodesByKind(t: Term)
    ensures match t
      case List(items) => Nodes(t) == |items| + 1 + NodeSum(items)
      case Mapping(entries) => Nodes(t) == |entries| + 1 + NodeSum(ValuesOf(entries))
      case _ => Nodes(t) == 1
  {
    match t
    case List(items) => CellsCost(items);
    case Mapping(entries) => KeysCost(entries);
    case _ =>
  }

  lemma {:induction false} CellsCost(items: seq<Term>)
    ensures ItemNodes(items) == |items| + NodeSum(items)
  {
    hide Nodes;
    if items != [] { CellsCost(items[1..]); }
  }

  lemma {:induction false} KeysCost(entries: seq<Entry>)
    ensures EntryNodes(entries) == |entries| + NodeSum(ValuesOf(entries))
  {
    hide Nodes;
    if entries != [] {
      KeysCost(entries[1..]);
      assert ValuesOf(entries)[1..] == ValuesOf(entries[1..]);
    }
  }

  /** An item lies as deep as the cells before it and its list, a value one level below its map; 64 levels are allowed. */
  lemma PortableByKind(t: Term, depth: nat)
    ensures match t
      case Nil => Portable(t, depth)
      case Unsupported => !Portable(t, depth)
      case Unsigned(u) => Portable(t, depth) <==> depth <= 64 && u <= 0x7FFF_FFFF_FFFF_FFFF
      case List(items) =>
        Portable(t, depth) <==> depth + |items| <= 64 && forall i :: 0 <= i < |items| ==> Portable(items[i], depth + 1 + i)
      case Mapping(entries) =>
        Portable(t, depth)
        <==> && depth <= 64 && (entries != [] ==> depth + 1 <= 64)
             && forall i :: 0 <= i < |entries| ==> entries[i].key.Some? && Portable(entries[i].value, depth + 1)
      case _ => Portable(t, depth) <==> depth <= 64
  {
    match t
    case List(items) => ItemsDeeper(items, depth + 1);
    case Mapping(entries) => EntriesDeeper(entries, depth + 1);
    case _ =>
  }

  lemma {:induction false} ItemsDeeper(items: seq<Term>, depth: nat)
    ensures ItemsPortable(items, depth) <==> forall i :: 0 <= i < |items| ==> Portable(items[i], depth + i)
  {
    hide Portable;
    if items != [] {
      ItemsDeeper(items[1..], depth + 1);
      if (forall i :: 0 <= i < |items| ==> Portable(items[i], depth + i)) {
        assert Portable(items[0], depth + 0);
        forall i | 0 <= i < |items[1..]| ensures Portable(items[1..][i], depth + 1 + i) { assert Portable(items[i + 1], depth + (i + 1)); }
      }
      if ItemsPortable(items, depth) {
        forall i | 0 <= i < |items| ensures Portable(items[i], depth + i) {
          if i > 0 { assert items[i] == items[1..][i - 1] && Portable(items[1..][i - 1], depth + 1 + (i - 1)); }
        }
      }
    }
  }

  lemma {:induction false} EntriesDeeper(entries: seq<Entry>, depth: nat)
    ensures EntriesPortable(entries, depth)
      <==> (entries != [] ==> depth <= 64)
           && forall i :: 0 <= i < |entries| ==> entries[i].key.Some? && Portable(entries[i].value, depth)
  {
    hide Portable;
    if entries != [] {
      EntriesDeeper(entries[1..], depth);
      assert forall i :: 0 < i < |entries| ==> entries[i] == entries[1..][i - 1];
    }
  }

  // ----- the size of an integer

  function DigitsValue(digits: bytes): nat {
    if digits == [] then 0 else digits[0] as int + 0x100 * DigitsValue(digits[1..])
  }

  /** The digits are those of the number, and no shorter list would do. */
  lemma {:induction false} DigitsOfNumber(n: nat)
    ensures DigitsValue(Digits(n)) == n
    ensures Digits(n)[|Digits(n)| - 1] == 0 ==> n == 0
  {
    if n < 0x100 {
      assert Digits(n)[1..] == [];
    } else {
      DigitsOfNumber(n / 0x100);
      assert Digits(n)[1..] == Digits(n / 0x100);
    }
  }

  lemma {:induction false} DigitsWithin(n: nat, k: nat)
    requires k > 0 && n < Power(k)
    ensures |Digits(n)| <= k
  {
    if n >= 0x100 {
      assert k > 1;
      DigitsWithin(n / 0x100, k - 1);
    }
  }

  function Power(k: nat): nat {
    if k == 0 then 1 else 0x100 * Power(k - 1)
  }

  /** A SMALL_BIG_EXT of the reference encoding reads back: its length byte, its sign and its magnitude. */
  lemma BigIntegerReads(i: int)
    requires -INT64_SPAN <= i < UINT64_SPAN && !(-0x8000_0000 <= i < 0x8000_0000)
    ensures var encoded := EncodeInteger(i);
      && |encoded| > 3 && encoded[0] == 110 && encoded[1] == |encoded| - 3 <= 8
      && encoded[2] == (if i < 0 then 1 else 0)
      && DigitsValue(encoded[3..]) == if i < 0 then -i else i
  {
    hide Digits, DigitsValue;
    var magnitude := if i < 0 then -i else i;
    DigitsOfNumber(magnitude);
    EightBytes();
    DigitsWithin(magnitude, 8);
    assert EncodeInteger(i)[3..] == Digits(magnitude);
  }

  lemma EightBytes()
    ensures Power(8) == UINT64_SPAN
  {
  }

  /** Counts the bytes of the magnitude; the most negative integer has no positive counterpart of its width. */
  method IntegerSize(value: int64) returns (size: nat)
    ensures size == |EncodeInteger(value)|
  {
    if value >= 0 && value <= 255 {
      return 2;
    }
    if value >= -0x8000_0000 && value <= 0x7FFF_FFFF {
      return 5;
    }
    var magnitude: uint64 := if value < 0 then 0 else value;
    if value < 0 {
      var opposite: int64 := -(value + 1);
      magnitude := opposite + 1;
    }
    ghost var start: nat := magnitude;
    var count := 1;
    magnitude := magnitude / 0x100;
    while magnitude != 0
      invariant count >= 1
      invariant |Digits(start)| == count + if magnitude == 0 then 0 else |Digits(magnitude)|
      decreases magnitude
    {
      count := count + 1;
      magnitude := magnitude / 0x100;
    }
    return 3 + count;
  }

  // ----- validation

  datatype UsageError = TooDeep | TooManyNodes | IntegerOverflow | NotAString | UnsupportedValue | TooLarge

  datatype Measured = Measured(size: nat, isByte: bool)

  class UsageValidation {
    var remaining: int
    var visitCount: nat

    constructor ()
      ensures remaining == MAX_NODES && visitCount == 0
    {
      remaining, visitCount := MAX_NODES, 0;
    }

    method ConsumeNode() returns (ok: bool)
      modifies this`remaining
      ensures remaining == old(remaining) - 1 && ok == (remaining >= 0)
    {
      remaining := remaining - 1;
      ok := remaining >= 0;
    }

    method Scalar(size: nat, isByte: bool) returns (result: Result<Measured, UsageError>)
      modifies this`remaining
      ensures remaining == old(remaining) - 1
      ensures result == if remaining >= 0 then Ok(Measured(size, isByte)) else Err(TooManyNodes)
    {
      var ok := ConsumeNode();
      if !ok {
        return Err(TooManyNodes);
      }
      return Ok(Measured(size, isByte));
    }

    /** Measures a term that is within its bounds, and refuses any other. */
    method Value(t: Term, depth: nat) returns (result: Result<Measured, UsageError>)
      requires visitCount <= depth && remaining >= 0
      modifies this
      ensures visitCount == old(visitCount)
      ensures result.Ok? <==> Portable(t, depth) && Nodes(t) <= old(remaining)
      ensures result.Ok? ==> remaining == old(remaining) - Nodes(t) && result.value == Measured(|Encode(t)|, IsByte(t))
      decreases t, 1
    {
      if t.Nil? {
        result := Scalar(5, false);
        return;
      }
      if depth > MAX_DEPTH {
        return Err(TooDeep);
      }
      match t {
        case Boolean(b) => result := Scalar(if b then 6 else 7, false);
        case Signed(i) =>
          var size := IntegerSize(i);
          result := Scalar(size, i >= 0 && i <= 255);
        case Unsigned(u) =>
          if u >= INT64_SPAN {
            return Err(IntegerOverflow);
          }
          var size := IntegerSize(u);
          result := Scalar(size, u <= 255);
        case Float(_) => result := Scalar(9, false);
        case Binary(data) => result := Scalar(5 + |data|, false);
        case List(items) =>
          if depth + |items| > MAX_DEPTH {
            return Err(TooDeep);
          }
          if visitCount == MAX_DEPTH + 2 {
            assert false;
          }
          visitCount := visitCount + 1;
          result := ListValue(items, depth);
          visitCount := visitCount - 1;
        case Mapping(entries) =>
          if visitCount == MAX_DEPTH + 2 {
            assert false;
          }
          visitCount := visitCount + 1;
          result := MappingValue(entries, depth);
          visitCount := visitCount - 1;
        case Unsupported => return Err(UnsupportedValue);
      }
    }

    method ListValue(items: seq<Term>, depth: nat) returns (result: Result<Measured, UsageError>)
      requires visitCount <= depth + 1 && remaining >= 0 && depth + |items| <= MAX_DEPTH
      modifies this
      ensures visitCount == old(visitCount)
      ensures result.Ok? <==> ItemsPortable(items, depth + 1) && ItemNodes(items) + 1 <= old(remaining)
      ensures result.Ok?
        ==> remaining == old(remaining) - ItemNodes(items) - 1 && result.value == Measured(|Encode(List(items))|, false)
      decreases items, 0
    {
      hide ItemsPortable, ItemNodes, EncodeItems, Portable, Nodes, Encode, IsByte;
      ItemEnds(items, depth + 1);
      ListSize(items);
      if |items| == 0 {
        result := Scalar(1, false);
        return;
      }
      var size, byteList, i := 6, true, 0;
      while i < |items|
        invariant i <= |items| && remaining >= 0 && visitCount == old(visitCount)
        invariant ItemsPortable(items, depth + 1) <==> ItemsPortable(items[i..], depth + 1 + i)
        invariant remaining == old(remaining) - ItemNodes(items) + ItemNodes(items[i..])
        invariant size + |EncodeItems(items[i..])| == 6 + |EncodeItems(items)|
        invariant byteList <==> forall j :: 0 <= j < i ==> IsByte(items[j])
      {
        ItemsFrom(items, i, depth + 1 + i);
        var ok := ConsumeNode();
        if !ok {
          return Err(TooManyNodes);
        }
        var item := Value(items[i], depth + i + 1);
        if item.Err? {
          return Err(item.error);
        }
        size := size + item.value.size;
        byteList := byteList && item.value.isByte;
        i := i + 1;
      }
      var ok := ConsumeNode();
      if !ok {
        return Err(TooManyNodes);
      }
      if byteList {
        return Ok(Measured(3 + |items|, false));
      }
      return Ok(Measured(size, false));
    }

    method MappingValue(entries: seq<Entry>, depth: nat) returns (result: Result<Measured, UsageError>)
      requires visitCount <= depth + 1 && remaining >= 0
      modifies this
      ensures visitCount == old(visitCount)
      ensures result.Ok? <==> EntriesPortable(entries, depth + 1) && EntryNodes(entries) + 1 <= old(remaining)
      ensures result.Ok?
        ==> && remaining == old(remaining) - EntryNodes(entries) - 1
            && result.value == Measured(|Encode(Mapping(entries))|, false)
      decreases entries, 0
    {
      hide EntriesPortable, EntryNodes, EncodeEntries, EntryPortable, NodesOfEntry, EncodeEntry, Encode;
      var ok := ConsumeNode();
      if !ok {
        return Err(TooManyNodes);
      }
      var size, i := 5, 0;
      EntryEnds(entries, depth + 1);
      MappingSize(entries);
      while i < |entries|
        invariant i <= |entries| && remaining >= 0 && visitCount == old(visitCount)
        invariant EntriesPortable(entries, depth + 1) <==> EntriesPortable(entries[i..], depth + 1)
        invariant remaining == old(remaining) - 1 - EntryNodes(entries) + EntryNodes(entries[i..])
        invariant size + |EncodeEntries(entries[i..])| == 5 + |EncodeEntries(entries)|
      {
        EntriesFrom(entries, i, depth + 1);
        var item := EntryValue(entries[i], depth + 1);
        if item.Err? {
          return Err(item.error);
        }
        size := size + item.value;
        i := i + 1;
      }
      return Ok(Measured(size, false));
    }

    method EntryValue(e: Entry, depth: nat) returns (result: Result<nat, UsageError>)
      requires visitCount <= depth && remaining >= 0
      modifies this
      ensures visitCount == old(visitCount)
      ensures result.Ok? <==> EntryPortable(e, depth) && NodesOfEntry(e) <= old(remaining)
      ensures result.Ok? ==> remaining == old(remaining) - NodesOfEntry(e) && result.value == |EncodeEntry(e)|
      decreases e, 2
    {
      if e.key.None? {
        return Err(NotAString);
      }
      var key := KeyValue(e.key.value, depth);
      if key.Err? {
        return Err(key.error);
      }
      var item := Value(e.value, depth);
      if item.Err? {
        return Err(item.error);
      }
      return Ok(key.value.size + item.value.size);
    }

    /** A key is measured like a binary. */
    method KeyValue(key: bytes, depth: nat) returns (result: Result<Measured, UsageError>)
      requires remaining >= 0
      modifies this`remaining
      ensures result.Ok? <==> depth <= MAX_DEPTH && old(remaining) >= 1
      ensures result.Ok? ==> remaining == old(remaining) - 1 && result.value == Measured(|EncodeBinary(key)|, false)
    {
      if depth > MAX_DEPTH {
        return Err(TooDeep);
      }
      result := Scalar(5 + |key|, false);
    }
  }

  lemma ItemsFrom(items: seq<Term>, i: nat, depth: nat)
    requires i < |items|
    ensures ItemsPortable(items[i..], depth) <==> Portable(items[i], depth) && ItemsPortable(items[i + 1..], depth + 1)
    ensures ItemNodes(items[i..]) == 1 + Nodes(items[i]) + ItemNodes(items[i + 1..])
    ensures |EncodeItems(items[i..])| == |Encode(items[i])| + |EncodeItems(items[i + 1..])|
  {
    assert items[i..][1..] == items[i + 1..];
  }

  /** Where the walk over a list begins and ends. */
  lemma ItemEnds(items: seq<Term>, depth: nat)
    ensures items[0..] == items && items[|items|..] == []
    ensures ItemsPortable([], depth + |items|) && ItemNodes([]) == 0 && EncodeItems([]) == []
  {
  }

  lemma ListSize(items: seq<Term>)
    ensures |items| < 0x1_0000
      ==> |Encode(List(items))|
          == if items == [] then 1
             else if forall i :: 0 <= i < |items| ==> IsByte(items[i]) then 3 + |items|
             else 6 + |EncodeItems(items)|
  {
    hide EncodeItems, IsByte;
  }

  lemma EntryEnds(entries: seq<Entry>, depth: nat)
    ensures entries[0..] == entries && entries[|entries|..] == []
    ensures EntriesPortable([], depth) && EntryNodes([]) == 0 && EncodeEntries([]) == []
  {
  }

  lemma MappingSize(entries: seq<Entry>)
    ensures |Encode(Mapping(entries))| == 5 + |EncodeEntries(entries)|
  {
    hide EncodeEntries;
  }

  lemma EntriesFrom(entries: seq<Entry>, i: nat, depth: nat)
    requires i < |entries|
    ensures EntriesPortable(entries[i..], depth)
      <==> EntryPortable(entries[i], depth) && EntriesPortable(entries[i + 1..], depth)
    ensures EntryNodes(entries[i..]) == NodesOfEntry(entries[i]) + EntryNodes(entries[i + 1..])
    ensures |EncodeEntries(entries[i..])| == |EncodeEntry(entries[i])| + |EncodeEntries(entries[i + 1..])|
  {
    assert entries[i..][1..] == entries[i + 1..];
  }

  // ----- the order of the walk

  lemma EntriesMoved(a: seq<Entry>, e: Entry, b: seq<Entry>, depth: nat)
    ensures EntriesPortable(a + [e] + b, depth) <==> EntryPortable(e, depth) && EntriesPortable(a + b, depth)
    ensures EntryNodes(a + [e] + b) == NodesOfEntry(e) + EntryNodes(a + b)
    ensures |EncodeEntries(a + [e] + b)| == |EncodeEntry(e)| + |EncodeEntries(a + b)|
  {
    if a == [] {
      assert a + [e] + b == [e] + b && ([e] + b)[1..] == b && a + b == b;
    } else {
      EntriesMoved(a[1..], e, b, depth);
      assert (a + [e] + b)[1..] == a[1..] + [e] + b && (a + b)[1..] == a[1..] + b;
    }
  }

  lemma {:induction false} SameEntries(x: seq<Entry>, y: seq<Entry>, depth: nat)
    requires multiset(x) == multiset(y)
    ensures EntriesPortable(x, depth) <==> EntriesPortable(y, depth)
    ensures EntryNodes(x) == EntryNodes(y)
    ensures |EncodeEntries(x)| == |EncodeEntries(y)|
  {
    hide EntriesPortable, EntryNodes, EncodeEntries, EntryPortable, NodesOfEntry, EncodeEntry;
    if x == [] {
      assert |y| == |multiset(y)| == 0;
    } else {
      var e, rest: seq<Entry> := x[0], x[1..];
      var before, after := Around(x, y);
      assert x == [] + [e] + rest && [] + rest == rest;
      EntriesMoved([], e, rest, depth);
      EntriesMoved(before, e, after, depth);
      SameEntries(rest, before + after, depth);
    }
  }

  /** The first entry of one walk is somewhere in the other. */
  lemma Around(x: seq<Entry>, y: seq<Entry>) returns (before: seq<Entry>, after: seq<Entry>)
    requires x != [] && multiset(x) == multiset(y)
    ensures y == before + [x[0]] + after && multiset(x[1..]) == multiset(before + after)
  {
    var i := Place(x, y);
    before, after := y[..i], y[i + 1..];
    assert y == before + [x[0]] + after;
    MultisetParts(before, x[0], after);
    MultisetTail(x);
  }

  lemma Place(x: seq<Entry>, y: seq<Entry>) returns (i: nat)
    requires x != [] && multiset(x) == multiset(y)
    ensures i < |y| && y[i] == x[0]
  {
    assert x[0] in multiset(x);
    i :| 0 <= i < |y| && y[i] == x[0];
  }

  lemma MultisetTail(x: seq<Entry>)
    requires x != []
    ensures multiset(x[1..]) == multiset(x) - multiset{x[0]}
  {
    assert x == [x[0]] + x[1..];
  }

  lemma MultisetParts(a: seq<Entry>, e: Entry, b: seq<Entry>)
    ensures multiset(a + [e] + b) - multiset{e} == multiset(a + b)
  {
  }

  // ----- walks of nested maps

  /**
    The same term walked again: each map, however deep, in an order of its own.
    A list keeps its order.
  */
  ghost predicate Rewalked(t: Term, u: Term)
    decreases t, 1
  {
    if t.List? && u.List? then ItemsRewalked(t.items, u.items)
    else if t.Mapping? && u.Mapping? then
      exists z :: EntriesRewalked(t.entries, z) && multiset(z) == multiset(u.entries)
    else t == u
  }

  ghost predicate ItemsRewalked(x: seq<Term>, y: seq<Term>)
    decreases x, 0
  {
    if x == [] || y == [] then x == y
    else Rewalked(x[0], y[0]) && ItemsRewalked(x[1..], y[1..])
  }

  /** The same keys in the same order, with values that were walked again. */
  ghost predicate EntriesRewalked(x: seq<Entry>, y: seq<Entry>)
    decreases x, 0
  {
    if x == [] || y == [] then x == y
    else EntryRewalked(x[0], y[0]) && EntriesRewalked(x[1..], y[1..])
  }

  ghost predicate EntryRewalked(e: Entry, f: Entry)
    decreases e, 2
  {
    e.key == f.key && Rewalked(e.value, f.value)
  }

  /** Nothing that the bounds look at depends on the walk. */
  ghost predicate MeasuresAlike(t: Term, u: Term) {
    && (forall depth: nat :: Portable(t, depth) <==> Portable(u, depth))
    && Nodes(t) == Nodes(u) && |Encode(t)| == |Encode(u)| && IsByte(t) == IsByte(u)
  }

  lemma {:induction false} RewalkedAlike(t: Term, u: Term)
    requires Rewalked(t, u)
    ensures MeasuresAlike(t, u)
    decreases t, 1
  {
    hide EntriesPortable, EntryNodes, EncodeEntries, ItemsPortable, ItemNodes, EncodeItems, EntriesRewalked, ItemsRewalked, IsString;
    if t.List? && u.List? {
      ItemsAlike(t.items, u.items);
      ListsAlike(t.items, u.items);
    } else if t.Mapping? && u.Mapping? {
      var z :| EntriesRewalked(t.entries, z) && multiset(z) == multiset(u.entries);
      EntriesAlike(t.entries, z);
      forall depth: nat ensures EntriesPortable(z, depth) <==> EntriesPortable(u.entries, depth) {
        SameEntries(z, u.entries, depth);
      }
      SameEntries(z, u.entries, 0);
      MappingsAlike(t.entries, u.entries);
    }
  }

  lemma MappingsAlike(x: seq<Entry>, y: seq<Entry>)
    requires forall depth: nat :: EntriesPortable(x, depth) <==> EntriesPortable(y, depth)
    requires EntryNodes(x) == EntryNodes(y) && |EncodeEntries(x)| == |EncodeEntries(y)|
    ensures MeasuresAlike(Mapping(x), Mapping(y))
  {
    hide EntriesPortable, EntryNodes, EncodeEntries;
    var t, u := Mapping(x), Mapping(y);
    forall depth: nat ensures Portable(t, depth) <==> Portable(u, depth) {
      assert EntriesPortable(x, depth + 1) <==> EntriesPortable(y, depth + 1);
    }
    assert |Encode(t)| == 5 + |EncodeEntries(x)| && |Encode(u)| == 5 + |EncodeEntries(y)|;
  }

  lemma ListsAlike(x: seq<Term>, y: seq<Term>)
    requires |x| == |y| && (IsString(x) <==> IsString(y))
    requires forall depth: nat :: ItemsPortable(x, depth) <==> ItemsPortable(y, depth)
    requires ItemNodes(x) == ItemNodes(y) && |EncodeItems(x)| == |EncodeItems(y)|
    ensures MeasuresAlike(List(x), List(y))
  {
    hide ItemsPortable, ItemNodes, EncodeItems, IsString;
    var t, u := List(x), List(y);
    forall depth: nat ensures Portable(t, depth) <==> Portable(u, depth) {
      assert ItemsPortable(x, depth + 1) <==> ItemsPortable(y, depth + 1);
    }
  }

  lemma {:induction false} ItemsAlike(x: seq<Term>, y: seq<Term>)
    requires ItemsRewalked(x, y)
    ensures |x| == |y| && (IsString(x) <==> IsString(y))
    ensures forall depth: nat :: ItemsPortable(x, depth) <==> ItemsPortable(y, depth)
    ensures ItemNodes(x) == ItemNodes(y) && |EncodeItems(x)| == |EncodeItems(y)|
    ensures forall i :: 0 <= i < |x| ==> IsByte(x[i]) == IsByte(y[i])
    decreases x, 0
  {
    hide Portable, Nodes, Encode, Rewalked, IsByte;
    if x != [] && y != [] {
      RewalkedAlike(x[0], y[0]);
      ItemsAlike(x[1..], y[1..]);
      forall i | 0 <= i < |x| ensures IsByte(x[i]) == IsByte(y[i]) {
        if i > 0 { assert x[1..][i - 1] == x[i] && y[1..][i - 1] == y[i]; }
      }
    }
  }

  lemma {:induction false} EntriesAlike(x: seq<Entry>, y: seq<Entry>)
    requires EntriesRewalked(x, y)
    ensures |x| == |y|
    ensures forall depth: nat :: EntriesPortable(x, depth) <==> EntriesPortable(y, depth)
    ensures EntryNodes(x) == EntryNodes(y) && |EncodeEntries(x)| == |EncodeEntries(y)|
    decreases x, 0
  {
    hide EntryPortable, NodesOfEntry, EncodeEntry, EntryRewalked;
    if x != [] && y != [] {
      EntryAlike(x[0], y[0]);
      EntriesAlike(x[1..], y[1..]);
    }
  }

  lemma {:induction false} EntryAlike(e: Entry, f: Entry)
    requires EntryRewalked(e, f)
    ensures forall depth: nat :: EntryPortable(e, depth) <==> EntryPortable(f, depth)
    ensures NodesOfEntry(e) == NodesOfEntry(f) && |EncodeEntry(e)| == |EncodeEntry(f)|
    decreases e, 2
  {
    hide Portable, Nodes, Encode, Rewalked;
    RewalkedAlike(e.value, f.value);
  }

  /** In whatever orders a usage map and the maps nested in it are walked, it is accepted or refused alike. */
  lemma WalkOrderDoesNotMatter(x: seq<Entry>, y: seq<Entry>)
    requires Rewalked(Mapping(x), Mapping(y))
    ensures Acceptable(x) <==> Acceptable(y)
  {
    hide Portable, Nodes, Encode, Rewalked;
    RewalkedAlike(Mapping(x), Mapping(y));
  }

  /** In particular the entries of the outermost map alone may come in any order. */
  lemma ReorderedIsRewalked(x: seq<Entry>, y: seq<Entry>)
    requires multiset(x) == multiset(y)
    ensures Rewalked(Mapping(x), Mapping(y))
  {
    EntriesAsBefore(x);
  }

  /** A term may be walked as it was, so any one map may be reordered alone. */
  lemma {:induction false} WalkedAsBefore(t: Term)
    ensures Rewalked(t, t)
    decreases t, 1
  {
    if t.List? {
      ItemsAsBefore(t.items);
    } else if t.Mapping? {
      EntriesAsBefore(t.entries);
    }
  }

  lemma {:induction false} ItemsAsBefore(x: seq<Term>)
    ensures ItemsRewalked(x, x)
    decreases x, 0
  {
    if x != [] {
      WalkedAsBefore(x[0]);
      ItemsAsBefore(x[1..]);
    }
  }

  lemma {:induction false} EntriesAsBefore(x: seq<Entry>)
    ensures EntriesRewalked(x, x)
    decreases x, 0
  {
    if x != [] {
      EntryAsBefore(x[0]);
      EntriesAsBefore(x[1..]);
    }
  }

  lemma {:induction false} EntryAsBefore(e: Entry)
    ensures EntryRewalked(e, e)
    decreases e, 2
  {
    WalkedAsBefore(e.value);
  }

  /** Accepted exactly when portable, with few enough nodes, and encoded in few enough bytes with the version byte. */
  predicate Acceptable(entries: seq<Entry>) {
    && Portable(Mapping(entries), 0) && Nodes(Mapping(entries)) <= MAX_NODES
    && |Encode(Mapping(entries))| + 1 <= MAX_BYTES
  }

  /** A usage map, or none. The order of its entries is the one in which the map happens to be walked. */
  method ValidateUsage(usage: Option<seq<Entry>>) returns (error: Option<UsageError>)
    ensures error.None? <==> usage.None? || Acceptable(usage.value)
    ensures usage.Some?
      ==> (error.None? <==>
            && Portable(Mapping(usage.value), 0) && Nodes(Mapping(usage.value)) <= 4096
            && |Encode(Mapping(usage.value))| + 1 <= 262144)
  {
    if usage.None? {
      return None;
    }
    var state := new UsageValidation();
    var result := state.Value(Mapping(usage.value), 0);
    if result.Err? {
      return Some(result.error);
    }
    if result.value.size + 1 > MAX_BYTES {
      return Some(TooLarge);
    }
    return None;
  }
}
