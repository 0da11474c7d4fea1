/**
  Index field names. A metadata field is written in dotted form when its names are
  plain and in bracket form otherwise; any other spelling is refused.
*/
module IndexFieldName {
  import opened Bytes
  import opened Results
  import opened QuotedText
  import opened Utf8
  import opened BracketSelector

  const DOT: byte := 46
  const MAX_NAME: int := 64

  // ----- names

  function Attribute(): bytes {
    Ascii("attribute")
  }

  function StateMeta(): bytes {
    Ascii("state_meta")
  }

  function IntegerFields(): set<bytes> {
    {Ascii("version"), Ascii("priority"), Ascii("created_at_ms"), Ascii("updated_at_ms"),
      Ascii("next_run_at_ms"), Ascii("lease_deadline_ms"), Ascii("attempts"), Ascii("max_active_ms")}
  }

  function KeywordFields(): set<bytes> {
    {Ascii("partition_key"), Ascii("run_id"), Ascii("event_id"), Ascii("type"), Ascii("state"),
      Ascii("run_state"), Ascii("parent_flow_id"), Ascii("root_flow_id"), Ascii("correlation_id")}
  }

  predicate Private(name: bytes) {
    |name| >= 2 && name[0] == UNDERSCORE && name[1] == UNDERSCORE
  }

  predicate Plain(name: bytes) {
    && 0 < |name| <= MAX_NAME && !Private(name)
    && forall i :: 0 <= i < |name| ==> WordContinue(name[i]) || name[i] == 45
  }

  predicate ValidName(name: bytes, rejectPrivate: bool) {
    name != [] && ValidUtf8(name) && |name| <= MAX_NAME && (!rejectPrivate || !Private(name))
  }

  lemma PlainIsValid(name: bytes)
    requires Plain(name)
    ensures ValidName(name, true) && ValidName(name, false) && DOT !in name && QUOTE !in name && OPEN !in name
  {
    AsciiIsUtf8(name);
  }

  // ----- the canonical spelling

  function Dotted(names: seq<bytes>): bytes {
    if names == [] then [] else [DOT] + names[0] + Dotted(names[1..])
  }

  predicate AllPlain(names: seq<bytes>) {
    forall i :: 0 <= i < |names| ==> Plain(names[i])
  }

  function External(root: bytes, names: seq<bytes>): bytes {
    if AllPlain(names) then root + Dotted(names) else Print(root, names)
  }

  /** Plain names have up to 64 letters, digits, underscores and hyphens, and do not begin with two underscores. */
  lemma PlainLetters(name: bytes)
    ensures Plain(name)
      <==> && 1 <= |name| <= 64 && !(Ascii("__") <= name)
           && forall i :: 0 <= i < |name| ==>
                var letter := name[i] as int as char;
                'a' <= letter <= 'z' || 'A' <= letter <= 'Z' || '0' <= letter <= '9' || letter in {'_', '-'}
  {
    var under: bytes := [95, 95];
    assert Ascii("__") == under;
    assert under <= name <==> |name| >= 2 && name[0] == 95 && name[1] == 95;
  }

  /** The spellings, letter by letter. */
  lemma SpelledOut(state: bytes, name: bytes)
    ensures External(Attribute(), [name]) ==
      if Plain(name) then Ascii("attribute.") + name else Ascii("attribute['") + Doubled(name) + Ascii("']")
    ensures External(StateMeta(), [state, name]) ==
      if Plain(state) && Plain(name) then Ascii("state_meta.") + state + Ascii(".") + name
      else Ascii("state_meta['") + Doubled(state) + Ascii("']['") + Doubled(name) + Ascii("']")
  {
    hide Plain, Doubled, Attribute, StateMeta;
    RootsAndMarks();
    OneSpelling(Attribute(), name);
    TwoSpellings(StateMeta(), state, name);
  }

  lemma RootsAndMarks()
    ensures Ascii("attribute.") == Attribute() + [DOT] && Ascii("attribute['") == Attribute() + [OPEN, QUOTE]
    ensures Ascii("state_meta.") == StateMeta() + [DOT] && Ascii("state_meta['") == StateMeta() + [OPEN, QUOTE]
    ensures Ascii(".") == [DOT] && Ascii("']") == [QUOTE, CLOSE] && Ascii("']['") == [QUOTE, CLOSE, OPEN, QUOTE]
  {
  }

  lemma OnlyName(name: bytes)
    ensures Dotted([name]) == [DOT] + name && Brackets([name]) == Bracket(name)
  {
    hide Bracket;
    var one := [name];
    assert one[0] == name && one[1..] == [];
    assert Brackets(one) == Bracket(one[0]) + Brackets(one[1..]);
    assert Dotted(one) == [DOT] + one[0] + Dotted(one[1..]);
  }

  lemma OneSpelling(root: bytes, name: bytes)
    ensures External(root, [name]) ==
      if Plain(name) then root + [DOT] + name else root + [OPEN, QUOTE] + Doubled(name) + [QUOTE, CLOSE]
  {
    hide Plain, Doubled;
    OnlyName(name);
    assert AllPlain([name]) <==> Plain([name][0]);
  }

  lemma TwoSpellings(root: bytes, state: bytes, name: bytes)
    ensures External(root, [state, name]) ==
      if Plain(state) && Plain(name) then root + [DOT] + state + [DOT] + name
      else root + [OPEN, QUOTE] + Doubled(state) + [QUOTE, CLOSE, OPEN, QUOTE] + Doubled(name) + [QUOTE, CLOSE]
  {
    hide Plain, Doubled;
    var both := [state, name];
    assert both[1..] == [name];
    OnlyName(name);
    assert Dotted(both) == [DOT] + state + Dotted([name]) && Brackets(both) == Bracket(state) + Brackets([name]);
    assert AllPlain(both) <==> Plain(both[0]) && Plain(both[1]);
    if !(Plain(state) && Plain(name)) {
      assert Print(root, both) == root + (Bracket(state) + Bracket(name));
      assert Bracket(state) + Bracket(name)
        == [OPEN, QUOTE] + Doubled(state) + [QUOTE, CLOSE, OPEN, QUOTE] + Doubled(name) + [QUOTE, CLOSE];
    } else {
      assert root + ([DOT] + state + ([DOT] + name)) == root + [DOT] + state + [DOT] + name;
    }
  }

  lemma FirstDot(a: bytes, x: bytes, b: bytes, y: bytes)
    requires DOT !in a && DOT !in b && a + x == b + y
    requires (x == [] || x[0] == DOT) && (y == [] || y[0] == DOT)
    ensures a == b && x == y
  {
    var all := a + x;
    assert all[|a|..] == x && (b + y)[|b|..] == y;
    assert |a| == |b|;
    assert all[..|a|] == a && (b + y)[..|b|] == b;
  }

  lemma {:induction false} DottedInjective(a: seq<bytes>, b: seq<bytes>)
    requires AllPlain(a) && AllPlain(b) && Dotted(a) == Dotted(b)
    ensures a == b
  {
    if a != [] && b != [] {
      PlainIsValid(a[0]);
      PlainIsValid(b[0]);
      assert Dotted(a)[1..] == a[0] + Dotted(a[1..]) && Dotted(b)[1..] == b[0] + Dotted(b[1..]);
      FirstDot(a[0], Dotted(a[1..]), b[0], Dotted(b[1..]));
      DottedInjective(a[1..], b[1..]);
      assert a == [a[0]] + a[1..] && b == [b[0]] + b[1..];
    }
  }

  /** No two selectors with the same root have the same spelling. */
  lemma SpellingIsUnambiguous(root: bytes, a: seq<bytes>, b: seq<bytes>)
    requires External(root, a) == External(root, b)
    ensures a == b
  {
    hide Brackets, Dotted, Print, Plain;
    if b != [] { FormsDiffer(root, a, b); }
    if a != [] { FormsDiffer(root, b, a); }
    if AllPlain(a) && AllPlain(b) {
      assert (root + Dotted(a))[|root|..] == Dotted(a) && (root + Dotted(b))[|root|..] == Dotted(b);
      DottedInjective(a, b);
    } else if !AllPlain(a) && !AllPlain(b) {
      PrintInjective(root, a, b);
    }
  }

  lemma FormsDiffer(root: bytes, a: seq<bytes>, b: seq<bytes>)
    requires b != []
    ensures root + Dotted(a) != Print(root, b)
  {
    hide Brackets;
    Leads(b);
    assert Print(root, b)[|root|] == OPEN;
    if a != [] { assert (root + Dotted(a))[|root|] == DOT; }
  }

  lemma Leads(names: seq<bytes>)
    requires names != []
    ensures |Dotted(names)| > 0 && Dotted(names)[0] == DOT && |Brackets(names)| > 0 && Brackets(names)[0] == OPEN
  {
    PrintStarts(names);
  }

  // ----- splitting at dots

  function Split(text: bytes): (parts: seq<bytes>)
    ensures |parts| > 0
  {
    if text == [] then [[]]
    else
      var rest := Split(text[1..]);
      if text[0] == DOT then [[]] + rest else [[text[0]] + rest[0]] + rest[1..]
  }

  function Joined(parts: seq<bytes>): bytes
    requires |parts| > 0
  {
    parts[0] + Dotted(parts[1..])
  }

  lemma {:induction false} SplitJoins(text: bytes)
    ensures Joined(Split(text)) == text
  {
    if text != [] {
      SplitJoins(text[1..]);
      var rest := Split(text[1..]);
      assert text == [text[0]] + text[1..];
      if text[0] == DOT {
        assert Split(text)[1..] == rest;
      } else {
        assert Split(text)[1..] == rest[1..];
        assert [text[0]] + rest[0] + Dotted(rest[1..]) == [text[0]] + (rest[0] + Dotted(rest[1..]));
      }
    }
  }

  lemma {:induction false} SplitPlain(part: bytes)
    requires DOT !in part
    ensures Split(part) == [part]
  {
    if part != [] {
      SplitPlain(part[1..]);
      assert part == [part[0]] + part[1..];
    }
  }

  lemma {:induction false} SplitAtDot(part: bytes, tail: bytes)
    requires DOT !in part
    ensures Split(part + [DOT] + tail) == [part] + Split(tail)
  {
    var text := part + [DOT] + tail;
    if part == [] {
      assert text[1..] == tail;
    } else {
      SplitAtDot(part[1..], tail);
      assert text[1..] == part[1..] + [DOT] + tail;
      assert part == [part[0]] + part[1..];
    }
  }

  lemma {:induction false} SplitDotted(first: bytes, names: seq<bytes>)
    requires DOT !in first && AllPlain(names)
    ensures Split(first + Dotted(names)) == [first] + names
    decreases |names|
  {
    if names == [] {
      assert first + Dotted(names) == first;
      SplitPlain(first);
    } else {
      PlainIsValid(names[0]);
      SplitDotted(names[0], names[1..]);
      SplitAtDot(first, names[0] + Dotted(names[1..]));
      assert first + Dotted(names) == first + [DOT] + (names[0] + Dotted(names[1..]));
      assert names == [names[0]] + names[1..];
    }
  }

  // ----- the kinds of field

  datatype Kind = Integer | Keyword | AttributeField | StateMetaField | NoField

  /** The name is the canonical spelling of an attribute. */
  predicate SpellsAttribute(name: bytes, attribute: bytes) {
    ValidName(attribute, true) && name == External(Attribute(), [attribute])
  }

  predicate SpellsStateMeta(name: bytes, state: bytes, field: bytes) {
    ValidName(state, false) && ValidName(field, true) && name == External(StateMeta(), [state, field])
  }

  method FieldKind(name: bytes) returns (kind: Kind)
    ensures kind == Integer <==> name in IntegerFields()
    ensures kind == Keyword <==> name in KeywordFields()
    ensures kind == AttributeField <==> exists attribute :: SpellsAttribute(name, attribute)
    ensures kind == StateMetaField <==> exists state, field :: SpellsStateMeta(name, state, field)
  {
    hide IntegerFields, KeywordFields, Attribute, StateMeta, External, ValidName, Split, Plain, Print;
    NamesApart(name);
    if name in IntegerFields() {
      return Integer;
    }
    if name in KeywordFields() {
      return Keyword;
    }
    var parts := Split(name);
    if |parts| == 2 && parts[0] == Attribute() && Plain(parts[1]) {
      DottedAttribute(name);
      return AttributeField;
    }
    if |parts| == 3 && parts[0] == StateMeta() && Plain(parts[1]) && Plain(parts[2]) {
      DottedStateMeta(name);
      return StateMetaField;
    }
    var one := Parse(name, Attribute(), 1);
    if one.Some? && ValidName(one.value[0], true) && name == External(Attribute(), one.value) {
      assert one.value == [one.value[0]];
      assert SpellsAttribute(name, one.value[0]);
      return AttributeField;
    }
    NoAttribute(name, one);
    var two := Parse(name, StateMeta(), 2);
    if two.Some? && ValidName(two.value[0], false) && ValidName(two.value[1], true) && name == External(StateMeta(), two.value) {
      assert two.value == [two.value[0], two.value[1]];
      assert SpellsStateMeta(name, two.value[0], two.value[1]);
      return StateMetaField;
    }
    NoStateMeta(name, two);
    return NoField;
  }

  lemma DottedAttribute(name: bytes)
    requires |Split(name)| == 2 && Split(name)[0] == Attribute() && Plain(Split(name)[1])
    ensures SpellsAttribute(name, Split(name)[1])
  {
    hide Plain, Attribute, Split;
    SplitJoins(name);
    PlainIsValid(Split(name)[1]);
    assert Split(name)[1..] == [Split(name)[1]];
  }

  lemma DottedStateMeta(name: bytes)
    requires |Split(name)| == 3 && Split(name)[0] == StateMeta() && Plain(Split(name)[1]) && Plain(Split(name)[2])
    ensures SpellsStateMeta(name, Split(name)[1], Split(name)[2])
  {
    hide Plain, StateMeta, Split;
    SplitJoins(name);
    PlainIsValid(Split(name)[1]);
    PlainIsValid(Split(name)[2]);
    assert Split(name)[1..] == [Split(name)[1], Split(name)[2]];
  }

  /** A canonical spelling is a printed one, or splits at its dots. */
  lemma SpellingForms(name: bytes, root: bytes, names: seq<bytes>)
    requires DOT !in root && name == External(root, names)
    ensures AllPlain(names) ==> Split(name) == [root] + names
    ensures !AllPlain(names) ==> name == Print(root, names)
  {
    if AllPlain(names) { SplitDotted(root, names); }
  }

  lemma RootsHaveNoDots()
    ensures DOT !in Attribute() && DOT !in StateMeta()
  {
  }

  lemma NoAttribute(name: bytes, parsed: Option<seq<bytes>>)
    requires parsed.None? ==> !Printable(name, Attribute(), 1)
    requires parsed.Some? ==> |parsed.value| == 1 && name == Print(Attribute(), parsed.value)
    requires !(|Split(name)| == 2 && Split(name)[0] == Attribute() && Plain(Split(name)[1]))
    requires !(parsed.Some? && ValidName(parsed.value[0], true) && name == External(Attribute(), parsed.value))
    ensures forall attribute :: !SpellsAttribute(name, attribute)
  {
    hide Attribute, External, ValidName, Split, Plain, Print;
    RootsHaveNoDots();
    forall attribute ensures !SpellsAttribute(name, attribute) {
      if SpellsAttribute(name, attribute) {
        SpellingForms(name, Attribute(), [attribute]);
        if !AllPlain([attribute]) {
          assert Printable(name, Attribute(), 1);
          PrintInjective(Attribute(), [attribute], parsed.value);
        }
        assert false;
      }
    }
  }

  lemma NoStateMeta(name: bytes, parsed: Option<seq<bytes>>)
    requires parsed.None? ==> !Printable(name, StateMeta(), 2)
    requires parsed.Some? ==> |parsed.value| == 2 && name == Print(StateMeta(), parsed.value)
    requires !(|Split(name)| == 3 && Split(name)[0] == StateMeta() && Plain(Split(name)[1]) && Plain(Split(name)[2]))
    requires !(parsed.Some? && ValidName(parsed.value[0], false) && ValidName(parsed.value[1], true)
      && name == External(StateMeta(), parsed.value))
    ensures forall state, field :: !SpellsStateMeta(name, state, field)
  {
    hide StateMeta, External, ValidName, Split, Plain, Print;
    RootsHaveNoDots();
    forall state, field ensures !SpellsStateMeta(name, state, field) {
      if SpellsStateMeta(name, state, field) {
        SpellingForms(name, StateMeta(), [state, field]);
        if !AllPlain([state, field]) {
          assert Printable(name, StateMeta(), 2);
          PrintInjective(StateMeta(), [state, field], parsed.value);
        }
        assert false;
      }
    }
  }

  // ----- the four kinds do not overlap

  lemma ExternalStarts(root: bytes, names: seq<bytes>)
    ensures root <= External(root, names)
  {
  }

  /** A name is a field of at most one kind. */
  lemma NamesApart(name: bytes)
    ensures name in IntegerFields() ==> name !in KeywordFields()
    ensures forall attribute :: SpellsAttribute(name, attribute) ==> name !in IntegerFields() && name !in KeywordFields()
    ensures forall state, field :: SpellsStateMeta(name, state, field) ==> name !in IntegerFields() && name !in KeywordFields()
    ensures forall attribute, state, field :: SpellsAttribute(name, attribute) ==> !SpellsStateMeta(name, state, field)
  {
    hide External, ValidName;
    if name in IntegerFields() || name in KeywordFields() { FixedNames(name); }
    forall attribute | SpellsAttribute(name, attribute) ensures Attribute() <= name {
      ExternalStarts(Attribute(), [attribute]);
    }
    forall state, field | SpellsStateMeta(name, state, field) ensures StateMeta() <= name {
      ExternalStarts(StateMeta(), [state, field]);
    }
    RootLetters(name);
  }

  lemma IntegerNames(name: bytes)
    requires name in IntegerFields()
    ensures name != [] && (|name|, name[0]) in {(7, 118), (8, 112), (13, 99), (13, 117), (14, 110), (17, 108), (8, 97), (13, 109)}
  {
  }

  lemma KeywordNames(name: bytes)
    requires name in KeywordFields()
    ensures name != []
    ensures (|name|, name[0]) in {(13, 112), (6, 114), (8, 101), (4, 116), (5, 115), (9, 114), (14, 112), (12, 114), (14, 99)}
  {
  }

  lemma FixedNames(name: bytes)
    requires name in IntegerFields() || name in KeywordFields()
    ensures !(Attribute() <= name) && !(StateMeta() <= name)
    ensures !(name in IntegerFields() && name in KeywordFields())
  {
    hide IntegerFields, KeywordFields;
    if name in IntegerFields() { IntegerNames(name); }
    if name in KeywordFields() { KeywordNames(name); }
    RootLetters(name);
  }

  lemma RootLetters(name: bytes)
    ensures Attribute() <= name ==> |name| >= 9 && name[0] == 97
    ensures StateMeta() <= name ==> |name| >= 10 && name[0] == 115
  {
  }
}
