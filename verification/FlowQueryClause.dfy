/**
  The text of a projected query, letter by letter: which source a query names, what
  stripping leaves of it, and the clause that is appended.
*/
module FlowQueryClause {
  import opened Bytes
  import opened Results
  import opened QuotedText
  import opened FlowQueryProjection

  /** Blanks, tabs, carriage returns and line feeds. */
  predicate Blanks(text: bytes) {
    forall i :: 0 <= i < |text| ==> text[i] as int as char in {' ', '\t', '\r', '\n'}
  }

  // ----- stripping

  lemma {:induction false} StartTrimmed(text: bytes) returns (lead: bytes)
    ensures text == lead + TrimStart(text) && Blanks(lead)
    ensures TrimStart(text) != [] ==> !Blank(TrimStart(text)[0])
  {
    hide Blank, Blanks;
    lead := [];
    NothingBlank();
    if text != [] && Blank(text[0]) {
      var rest := StartTrimmed(text[1..]);
      lead := [text[0]] + rest;
      OneBlank(text[0]);
      BlanksJoin([text[0]], rest);
      assert text == [text[0]] + text[1..];
    }
  }

  lemma {:induction false} EndTrimmed(text: bytes) returns (tail: bytes)
    ensures text == TrimEnd(text) + tail && Blanks(tail)
    ensures TrimEnd(text) != [] ==> !Blank(TrimEnd(text)[|TrimEnd(text)| - 1])
    ensures TrimEnd(text) <= text
  {
    hide Blank, Blanks;
    tail := [];
    NothingBlank();
    if text != [] && Blank(text[|text| - 1]) {
      var init, last := text[..|text| - 1], [text[|text| - 1]];
      var rest := EndTrimmed(init);
      tail := rest + last;
      OneBlank(text[|text| - 1]);
      BlanksJoin(rest, last);
      assert text == init + last == (TrimEnd(init) + rest) + last == TrimEnd(init) + tail;
    } else {
      assert text + [] == text;
    }
  }

  lemma OneBlank(c: byte)
    ensures Blank(c) <==> Blanks([c])
  {
    assert [c][0] == c;
  }

  /** Nothing blank at either end. */
  predicate Trimmed(text: bytes) {
    text != [] ==> !Blank(text[0]) && !Blank(text[|text| - 1])
  }

  lemma BothTrimmed(text: bytes) returns (lead: bytes, tail: bytes)
    ensures text == lead + Trim(text) + tail && Blanks(lead) && Blanks(tail) && Trimmed(Trim(text))
  {
    hide TrimStart, TrimEnd, Blank;
    lead := StartTrimmed(text);
    tail := EndTrimmed(TrimStart(text));
    assert lead + (Trim(text) + tail) == lead + Trim(text) + tail;
  }

  /** The query is the base between blanks, with one semicolon after it or none. */
  ghost predicate StripsTo(query: bytes, base: bytes) {
    && Trimmed(base) && !EndsWithSemicolon(base)
    && exists lead, gap, end, tail ::
         query == lead + base + gap + end + tail && Blanks(lead) && Blanks(gap) && Blanks(tail) && (end == [] || end == Ascii(";"))
  }

  lemma OneSemicolon()
    ensures Ascii(";") == [SEMICOLON]
  {
  }

  lemma StrippedIs(query: bytes)
    requires Stripped(query).Some?
    ensures StripsTo(query, Stripped(query).value)
  {
    hide Trim, Blanks, Blank, Ascii, Trimmed;
    OneSemicolon();
    NothingBlank();
    var lead, tail := BothTrimmed(query);
    var trimmed, base := Trim(query), Stripped(query).value;
    if EndsWithSemicolon(trimmed) {
      var inner := trimmed[..|trimmed| - 1];
      var front, gap := BothTrimmed(inner);
      BlanksJoin(lead, front);
      assert trimmed == inner + Ascii(";");
      assert query == (lead + front) + base + gap + Ascii(";") + tail;
    } else {
      assert query == lead + base + [] + [] + tail;
    }
  }

  lemma NothingBlank()
    ensures Blanks([])
  {
  }

  lemma BlanksJoin(a: bytes, b: bytes)
    requires Blanks(a) && Blanks(b)
    ensures Blanks(a + b)
  {
  }

  // ----- the clause

  /** The name that follows RETURN, in capitals. */
  lemma ShapeText(shape: bytes)
    requires shape == Ascii("record") || shape == Ascii("records")
    ensures [SPACE] + ReturnWord() + [SPACE] + Uppers(shape) + [SPACE, 40]
      == if shape == Ascii("record") then Ascii(" RETURN RECORD (") else Ascii(" RETURN RECORDS (")
  {
    hide Ascii, Uppers, ReturnWord;
    if shape == Ascii("record") { RecordText(); } else { RecordsText(); }
  }

  lemma RecordText()
    ensures [SPACE] + ReturnWord() + [SPACE] + Uppers(Ascii("record")) + [SPACE, 40] == Ascii(" RETURN RECORD (")
  {
    assert |Ascii(" RETURN RECORD (")| == 16;
  }

  lemma RecordsText()
    ensures [SPACE] + ReturnWord() + [SPACE] + Uppers(Ascii("records")) + [SPACE, 40] == Ascii(" RETURN RECORDS (")
  {
    assert |Ascii(" RETURN RECORDS (")| == 17;
  }

  lemma ClosingText()
    ensures Ascii(")") == [41]
  {
  }

  /** A dynamic field's selector quotes its names. */
  lemma SelectorText(name: bytes, state: bytes)
    ensures Selector(AttributeName(name)) == Ascii("attribute['") + Doubled(name) + Ascii("']")
    ensures Selector(EventValue(name)) == Ascii("fields['") + Doubled(name) + Ascii("']")
    ensures Selector(StateMetaName(state, name))
      == Ascii("state_meta['") + Doubled(state) + Ascii("']['") + Doubled(name) + Ascii("']")
    ensures Selector(RunField(name)) == name && Selector(EventField(name)) == name
  {
    hide Doubled, Render, RenderOne;
    Marks();
    ThreePieces(Ascii("attribute["), name);
    ThreePieces(Ascii("fields["), name);
    FivePieces(Ascii("state_meta["), state, name);
    RenderSingle(Plain(name));
    RenderPlain(name);
  }

  lemma Marks()
    ensures Ascii("attribute['") == Ascii("attribute[") + [QUOTE] && Ascii("fields['") == Ascii("fields[") + [QUOTE]
    ensures Ascii("state_meta['") == Ascii("state_meta[") + [QUOTE]
    ensures Ascii("']") == [QUOTE] + Ascii("]") && Ascii("']['") == [QUOTE] + Ascii("][") + [QUOTE]
  {
  }

  lemma NamePiece(name: bytes)
    ensures RenderOne(Name(name)) == [QUOTE] + Doubled(name) + [QUOTE]
  {
    hide Doubled;
  }

  lemma ThreePieces(start: bytes, name: bytes)
    ensures Render([Plain(start), Name(name), Plain(Ascii("]"))])
      == start + [QUOTE] + Doubled(name) + ([QUOTE] + Ascii("]"))
  {
    hide Doubled, Render, RenderOne, Ascii;
    var end := Plain(Ascii("]"));
    RenderSingle(Plain(start));
    RenderPlain(start);
    RenderSingle(Name(name));
    NamePiece(name);
    RenderSingle(end);
    RenderPlain(Ascii("]"));
    RenderJoin([Plain(start)], [Name(name)]);
    RenderJoin([Plain(start)] + [Name(name)], [end]);
    assert [Plain(start), Name(name), end] == [Plain(start)] + [Name(name)] + [end];
    assert start + ([QUOTE] + Doubled(name) + [QUOTE]) + Ascii("]") == start + [QUOTE] + Doubled(name) + ([QUOTE] + Ascii("]"));
  }

  lemma FivePieces(start: bytes, state: bytes, name: bytes)
    ensures Render([Plain(start), Name(state), Plain(Ascii("][")), Name(name), Plain(Ascii("]"))])
      == start + [QUOTE] + Doubled(state) + ([QUOTE] + Ascii("][") + [QUOTE]) + Doubled(name) + ([QUOTE] + Ascii("]"))
  {
    hide Doubled, Render, RenderOne, Ascii;
    var pieces := [Plain(start), Name(state), Plain(Ascii("][")), Name(name), Plain(Ascii("]"))];
    RenderSingle(Plain(start));
    RenderPlain(start);
    RenderSingle(Name(state));
    NamePiece(state);
    RenderJoin([Plain(start)], [Name(state)]);
    ThreePieces(Ascii("]["), name);
    RenderJoin([Plain(start)] + [Name(state)], [Plain(Ascii("][")), Name(name), Plain(Ascii("]"))]);
    assert pieces == [Plain(start)] + [Name(state)] + [Plain(Ascii("][")), Name(name), Plain(Ascii("]"))];
    assert start + ([QUOTE] + Doubled(state) + [QUOTE]) + (Ascii("][") + [QUOTE] + Doubled(name) + ([QUOTE] + Ascii("]")))
      == start + [QUOTE] + Doubled(state) + ([QUOTE] + Ascii("][") + [QUOTE]) + Doubled(name) + ([QUOTE] + Ascii("]"));
  }

  // ----- the source

  /** FROM, in any case, blanks, and `runs` or `events`, in any case, up to a blank or the end. */
  ghost predicate NamesSource(query: bytes, source: bytes) {
    exists lead, from, gap, word, rest ::
      && query == lead + from + gap + word + rest && Blanks(lead) && Blanks(gap) && gap != []
      && Uppers(from) == Ascii("FROM") && Lowers(word) == source && source in {Ascii("runs"), Ascii("events")}
      && (rest == [] || Blanks(rest[..1]))
  }

  lemma FirstBlankIs(text: bytes)
    ensures var i := FirstBlank(text);
      (forall k :: 0 <= k < i ==> !Blank(text[k])) && (i < |text| ==> Blank(text[i]))
  {
  }

  lemma SourceIsNamed(query: bytes)
    requires QuerySource(query).Some?
    ensures NamesSource(query, QuerySource(query).value)
  {
    hide Ascii, Uppers, Lowers, Blanks, TrimStart;
    var text := TrimStart(query);
    var lead := StartTrimmed(query);
    var after := text[4..];
    var rest := TrimStart(after);
    var gap := StartTrimmed(after);
    var i := FirstBlank(rest);
    FirstBlankIs(rest);
    BlankIsBlanks(rest, i);
    assert after == gap + rest && Blank(after[0]);
    GapIsThere(after, gap, rest);
    Parts(query, lead, text, gap, rest, i);
  }

  lemma BlankIsBlanks(rest: bytes, i: nat)
    requires i <= |rest| && (i < |rest| ==> Blank(rest[i]))
    ensures rest[i..] == [] || Blanks(rest[i..][..1])
  {
  }

  lemma GapIsThere(after: bytes, gap: bytes, rest: bytes)
    requires after == gap + rest && after != [] && Blank(after[0]) && (rest != [] ==> !Blank(rest[0]))
    ensures gap != []
  {
  }

  lemma Parts(query: bytes, lead: bytes, text: bytes, gap: bytes, rest: bytes, i: nat)
    requires query == lead + text && |text| > 4 && text[4..] == gap + rest && i <= |rest|
    ensures query == lead + text[..4] + gap + rest[..i] + rest[i..]
  {
    assert text == text[..4] + text[4..] && rest == rest[..i] + rest[i..];
  }

  function ProjectionOf(base: bytes, shape: bytes, fields: seq<Field>): bytes {
    base + (if shape == Ascii("record") then Ascii(" RETURN RECORD (") else Ascii(" RETURN RECORDS ("))
    + Joined(Selectors(fields)) + Ascii(")")
  }

  /** What a projected query reads: the query without blanks and terminator, the shape and the selectors. */
  lemma ProjectedText(query: bytes, shape: bytes, fields: seq<Field>)
    requires Projection(query, shape, fields).Ok?
    ensures exists base :: StripsTo(query, base) && Projection(query, shape, fields).value == ProjectionOf(base, shape, fields)
    ensures exists source :: NamesSource(query, source)
  {
    hide Stripped, Clause, HasReturn, Quotes, Joined, Selectors, Ascii, StripsTo, QuerySource, NamesSource, Uppers, ReturnWord;
    FirstProjection(query, shape, fields);
    var base := Stripped(query).value;
    StrippedIs(query);
    ClauseIsJoined(shape, fields);
    ShapeText(shape);
    ClosingText();
    SourceFound(query, shape, fields);
    SourceIsNamed(query);
    var head := [SPACE] + ReturnWord() + [SPACE] + Uppers(shape) + [SPACE, 40];
    assert base + (head + Joined(Selectors(fields)) + [41]) == base + head + Joined(Selectors(fields)) + [41];
  }

  lemma SourceFound(query: bytes, shape: bytes, fields: seq<Field>)
    requires ArgumentError(query, shape, fields).None?
    ensures QuerySource(query).Some?
  {
    hide QuerySource, FieldsError, Ascii;
  }
}
