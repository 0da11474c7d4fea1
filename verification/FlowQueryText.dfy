/** Building query text: the predicates of the collection query builder. */
module FlowQueryText {
  import opened Bytes
  import opened QuotedText
  import opened BracketSelector

  // ----- the builder

  class QueryBuilder<V> {
    var query: bytes
    var predicateCount: nat
    var parameters: map<bytes, V>

    constructor (start: bytes)
      ensures query == start && predicateCount == 0 && parameters == map[]
    {
      query, predicateCount, parameters := start, 0, map[];
    }

    method StartPredicate()
      modifies this`query, this`predicateCount
      ensures query == old(query) + Separator(old(predicateCount)) && predicateCount == old(predicateCount) + 1
    {
      if predicateCount > 0 {
        query := query + Ascii(" AND ");
      }
      predicateCount := predicateCount + 1;
    }

    /** Copies the name piece by piece, doubling each quote. */
    method WriteMetadataName(name: bytes)
      modifies this`query
      ensures query == old(query) + Doubled(name)
    {
      hide Doubled;
      var left := name;
      ghost var written: bytes := [];
      assert Doubled(written) == [] by { DoubledPlain(written); }
      while true
        invariant name == written + left && query == old(query) + Doubled(written)
        decreases |left|
      {
        var prefix, suffix, found := Cut(left);
        DoubledJoin(written, prefix);
        DoubledPlain(prefix);
        query := query + prefix;
        if !found {
          assert name == written + prefix;
          return;
        }
        DoubledJoin(written + prefix, [QUOTE]);
        QuoteDoubles();
        query := query + [QUOTE, QUOTE];
        written := written + prefix + [QUOTE];
        left := suffix;
      }
    }

    /** One predicate that compares a metadata field with a parameter. */
    method AddMetadataEquality(root: bytes, parameter: bytes, value: V, names: seq<bytes>)
      modifies this
      ensures query == old(query) + Separator(old(predicateCount)) + Print(root, names) + Ascii(" = @") + parameter
      ensures predicateCount == old(predicateCount) + 1 && parameters == old(parameters)[parameter := value]
    {
      hide Brackets, Doubled, Ascii;
      StartPredicate();
      query := query + root;
      ghost var base := query;
      var i := 0;
      NoBrackets(base, []);
      while i < |names|
        invariant i <= |names| && query == base + Brackets(names[..i])
        invariant predicateCount == old(predicateCount) + 1 && parameters == old(parameters)
      {
        ghost var before := query;
        query := query + [OPEN, QUOTE];
        WriteMetadataName(names[i]);
        query := query + [QUOTE, CLOSE];
        assert query == before + Bracket(names[i]);
        BracketsAppend(names[..i], names[i]);
        assert names[..i + 1] == names[..i] + [names[i]];
        i := i + 1;
      }
      assert names[..i] == names;
      query := query + Ascii(" = @");
      query := query + parameter;
      parameters := parameters[parameter := value];
    }
  }

  function Separator(predicates: nat): bytes {
    if predicates > 0 then Ascii(" AND ") else []
  }

  // ----- what the scanner sees of a selector

  /** A text that the scanner leaves outside quotes, having found no RETURN. */
  ghost predicate Clean(text: bytes) {
    Quotes(text) % 2 == 0 && !HasReturn(text)
  }

  /** Whatever the names are, a selector appended to a clean query leaves it clean. */
  lemma {:induction false} SelectorIsClean(text: bytes, names: seq<bytes>)
    requires Clean(text)
    ensures Clean(text + Brackets(names))
    decreases |names|
  {
    hide Clean, Bracket;
    if names == [] {
      assert text + Brackets(names) == text;
    } else {
      NameIsClean(text, names[0]);
      SelectorIsClean(text + Bracket(names[0]), names[1..]);
      assert text + Bracket(names[0]) + Brackets(names[1..]) == text + Brackets(names);
    }
  }

  lemma NameIsClean(text: bytes, name: bytes)
    requires Clean(text)
    ensures Clean(text + Bracket(name))
  {
    hide Doubled, ReturnAt, Quotes, HasReturn;
    var lead, rest: bytes := text + [OPEN], [] + [CLOSE];
    CloseIsClean(text, OPEN);
    EmptyIsClean();
    CloseIsClean([], CLOSE);
    QuotedNameIsInvisible(lead, name, rest);
    QuotesJoin(lead + Quoted(name), rest);
    assert lead + Quoted(name) + rest == text + Bracket(name);
  }

  lemma EmptyIsClean()
    ensures Clean([])
  {
  }

  lemma LastIsNotReturn(text: bytes, c: byte, i: nat)
    requires ReturnAt(text + [c], i) && c in {OPEN, CLOSE}
    ensures i + 6 <= |text|
  {
  }

  /** A bracket after clean text adds nothing that the scanner looks for. */
  lemma CloseIsClean(text: bytes, c: byte)
    requires Clean(text) && c in {OPEN, CLOSE}
    ensures Clean(text + [c])
  {
    QuotesJoin(text, [c]);
    QuotesOne(c);
    forall i: nat ensures !ReturnAt(text + [c], i) {
      if ReturnAt(text + [c], i) {
        LastIsNotReturn(text, c, i);
        FreshPrefix(text, [c], i);
        assert (text + [c])[..i] == text[..i];
        assert (text + [c])[i..i + 6] == text[i..i + 6];
        assert ReturnAt(text, i);
      }
    }
  }
}
