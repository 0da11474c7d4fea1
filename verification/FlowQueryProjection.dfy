/**
  The sparse projection of a query: a RETURN clause with validated selectors,
  appended to a query in which the scanner finds none.
*/
module FlowQueryProjection {
  import opened Bytes
  import opened Results
  import opened QuotedText
  import opened Utf8
  import opened FlowQueryRequest

  const SPACE: byte := 32
  const SEMICOLON: byte := 59
  const MAX_FIELDS: nat := 32

  datatype ProjectionError =
    | InvalidQuery(error: RequestError)
    | UnknownShape
    | FieldCount
    | UnknownSource
    | NotAField
    | WrongSource(selector: bytes)
    | DuplicateField
    | HasReturnClause
    | TooManySemicolons

  // ----- fields

  /**
    `AttributeName`, `StateMetaName` and `EventValue` quote their names. The client's constructors
    make them of valid names only; nothing here depends on that.
  */
  datatype Field =
    | RunField(name: bytes)
    | EventField(name: bytes)
    | AttributeName(name: bytes)
    | StateMetaName(state: bytes, name: bytes)
    | EventValue(name: bytes)
    | NilField
    | ForeignField(source: bytes, selector: bytes)

  /** A selector is made of plain text and quoted names. */
  datatype Piece = Plain(text: bytes) | Name(name: bytes)

  function RenderOne(p: Piece): bytes {
    if p.Plain? then p.text else Quoted(p.name)
  }

  function Render(pieces: seq<Piece>): bytes {
    if pieces == [] then [] else RenderOne(pieces[0]) + Render(pieces[1..])
  }

  function Pieces(f: Field): seq<Piece> {
    match f
    case RunField(name) => [Plain(name)]
    case EventField(name) => [Plain(name)]
    case AttributeName(name) => [Plain(Ascii("attribute[")), Name(name), Plain(Ascii("]"))]
    case StateMetaName(state, name) =>
      [Plain(Ascii("state_meta[")), Name(state), Plain(Ascii("][")), Name(name), Plain(Ascii("]"))]
    case EventValue(name) => [Plain(Ascii("fields[")), Name(name), Plain(Ascii("]"))]
    case NilField => []
    case ForeignField(_, selector) => [Plain(selector)]
  }

  function Selector(f: Field): bytes {
    Render(Pieces(f))
  }

  function Source(f: Field): bytes {
    match f
    case RunField(_) => Ascii("runs")
    case AttributeName(_) => Ascii("runs")
    case StateMetaName(_, _) => Ascii("runs")
    case ForeignField(source, _) => source
    case _ => Ascii("events")
  }

  function RunNames(): set<bytes> {
    {Ascii("run_id"), Ascii("type"), Ascii("state"), Ascii("version"), Ascii("priority"), Ascii("partition_key"),
      Ascii("created_at_ms"), Ascii("updated_at_ms"), Ascii("next_run_at_ms"), Ascii("lease_deadline_ms"),
      Ascii("attempts"), Ascii("run_state"), Ascii("max_active_ms"), Ascii("parent_flow_id"), Ascii("root_flow_id"),
      Ascii("correlation_id"), Ascii("attributes"), Ascii("state_meta")}
  }

  predicate Known(f: Field) {
    match f
    case RunField(name) => name in RunNames()
    case EventField(name) => name in {Ascii("event_id"), Ascii("fields")}
    case NilField => false
    case ForeignField(_, _) => false
    case _ => true
  }

  /** Why the fields from `i` on are refused, given the selectors before them. */
  function FieldsError(fields: seq<Field>, i: nat, seen: set<bytes>, source: bytes): Option<ProjectionError>
    requires i <= |fields|
    decreases |fields| - i
  {
    if i == |fields| then None
    else if fields[i].NilField? then Some(NotAField)
    else if !Known(fields[i]) || Source(fields[i]) != source then Some(WrongSource(Selector(fields[i])))
    else if Selector(fields[i]) in seen then Some(DuplicateField)
    else FieldsError(fields, i + 1, seen + {Selector(fields[i])}, source)
  }

  // ----- query text

  predicate Blank(c: byte) {
    c in {32, 9, 10, 13}
  }

  function TrimStart(text: bytes): bytes {
    if text != [] && Blank(text[0]) then TrimStart(text[1..]) else text
  }

  function TrimEnd(text: bytes): bytes {
    if text != [] && Blank(text[|text| - 1]) then TrimEnd(text[..|text| - 1]) else text
  }

  function Trim(text: bytes): bytes {
    TrimEnd(TrimStart(text))
  }

  predicate EndsWithSemicolon(text: bytes) {
    text != [] && text[|text| - 1] == SEMICOLON
  }

  /** The query without its one optional terminator. */
  function Stripped(query: bytes): Option<bytes> {
    var trimmed := Trim(query);
    if !EndsWithSemicolon(trimmed) then Some(trimmed)
    else
      var base := Trim(trimmed[..|trimmed| - 1]);
      if EndsWithSemicolon(base) then None else Some(base)
  }

  function FirstBlank(text: bytes): (i: nat)
    ensures i <= |text|
  {
    if text == [] || Blank(text[0]) then 0 else 1 + FirstBlank(text[1..])
  }

  function Lower(c: byte): byte {
    if 65 <= c <= 90 then c + 32 else c
  }

  function Uppers(text: bytes): bytes {
    seq(|text|, i requires 0 <= i < |text| => Upper(text[i]))
  }

  function Lowers(text: bytes): bytes {
    seq(|text|, i requires 0 <= i < |text| => Lower(text[i]))
  }

  /** The source that a query starts with. */
  function QuerySource(query: bytes): Option<bytes> {
    var text := TrimStart(query);
    if |text| <= 4 || Uppers(text[..4]) != Ascii("FROM") || !Blank(text[4]) then None
    else
      var rest := TrimStart(text[4..]);
      var source := Lowers(rest[..FirstBlank(rest)]);
      if source == Ascii("runs") || source == Ascii("events") then Some(source) else None
  }

  // ----- the projection

  /** The arguments, in the order in which they are checked. */
  function ArgumentError(query: bytes, shape: bytes, fields: seq<Field>): Option<ProjectionError> {
    if TextError(query).Some? then Some(InvalidQuery(TextError(query).value))
    else if shape != Ascii("record") && shape != Ascii("records") then Some(UnknownShape)
    else if |fields| == 0 || |fields| > MAX_FIELDS then Some(FieldCount)
    else if QuerySource(query).None? then Some(UnknownSource)
    else FieldsError(fields, 0, {}, QuerySource(query).value)
  }

  function ReturnWord(): bytes {
    [82, 69, 84, 85, 82, 78]
  }

  /** The selectors, each but the first after a comma. */
  function FieldPieces(fields: seq<Field>): seq<Piece> {
    if fields == [] then []
    else if |fields| == 1 then Pieces(fields[0])
    else Pieces(fields[0]) + [Plain(Ascii(", "))] + FieldPieces(fields[1..])
  }

  /** ` RETURN `, the shape, and the selectors in parentheses. */
  function ClausePieces(shape: bytes, fields: seq<Field>): seq<Piece> {
    [Plain([SPACE] + ReturnWord() + [SPACE]), Plain(Uppers(shape)), Plain([SPACE, 40])]
    + FieldPieces(fields) + [Plain([41])]
  }

  function Clause(shape: bytes, fields: seq<Field>): bytes {
    Render(ClausePieces(shape, fields))
  }

  function Checked(projected: bytes): Result<bytes, ProjectionError> {
    if TextError(projected).Some? then Err(InvalidQuery(TextError(projected).value)) else Ok(projected)
  }

  ghost function Projection(query: bytes, shape: bytes, fields: seq<Field>): Result<bytes, ProjectionError> {
    if ArgumentError(query, shape, fields).Some? then Err(ArgumentError(query, shape, fields).value)
    else if HasReturn(query) then Err(HasReturnClause)
    else if Stripped(query).None? then Err(TooManySemicolons)
    else Checked(Stripped(query).value + Clause(shape, fields))
  }

  /** The selectors joined with commas. */
  function Joined(selectors: seq<bytes>): bytes {
    if selectors == [] then []
    else if |selectors| == 1 then selectors[0]
    else selectors[0] + Ascii(", ") + Joined(selectors[1..])
  }

  function Selectors(fields: seq<Field>): seq<bytes> {
    seq(|fields|, i requires 0 <= i < |fields| => Selector(fields[i]))
  }

  method CollectSelectors(fields: seq<Field>, source: bytes) returns (result: Result<seq<bytes>, ProjectionError>)
    ensures match FieldsError(fields, 0, {}, source)
      case Some(e) => result == Err(e)
      case None => result == Ok(Selectors(fields))
  {
    hide Known, Source, Selector;
    var selectors: seq<bytes>, seen: set<bytes> := [], {};
    for i := 0 to |fields|
      invariant selectors == Selectors(fields[..i])
      invariant FieldsError(fields, i, seen, source) == FieldsError(fields, 0, {}, source)
    {
      var field := fields[i];
      if field.NilField? {
        return Err(NotAField);
      }
      var selector := Selector(field);
      if !Known(field) || Source(field) != source {
        return Err(WrongSource(selector));
      }
      if selector in seen {
        return Err(DuplicateField);
      }
      seen := seen + {selector};
      selectors := selectors + [selector];
    }
    assert fields[..|fields|] == fields;
    return Ok(selectors);
  }

  method Project(query: bytes, shape: bytes, fields: seq<Field>) returns (result: Result<bytes, ProjectionError>)
    ensures result == Projection(query, shape, fields)
  {
    hide TextError, HasReturn, Stripped, FieldsError, QuerySource, Clause, Joined, Selectors, Ascii, ReturnWord;
    var refused := TextError(query);
    if refused.Some? {
      return Err(InvalidQuery(refused.value));
    }
    if shape != Ascii("record") && shape != Ascii("records") {
      return Err(UnknownShape);
    }
    if |fields| == 0 || |fields| > MAX_FIELDS {
      return Err(FieldCount);
    }
    var source := QuerySource(query);
    if source.None? {
      return Err(UnknownSource);
    }
    var selectors := CollectSelectors(fields, source.value);
    if selectors.Err? {
      return Err(selectors.error);
    }
    var found := ContainsReturn(query);
    if found {
      return Err(HasReturnClause);
    }
    var base := Stripped(query);
    if base.None? {
      return Err(TooManySemicolons);
    }
    var projected := base.value
      + ([SPACE] + ReturnWord() + [SPACE] + Uppers(shape) + [SPACE, 40] + Joined(selectors.value) + [41]);
    ClauseIsJoined(shape, fields);
    return Checked(projected);
  }

  // ----- pieces

  lemma {:induction false} RenderJoin(a: seq<Piece>, b: seq<Piece>)
    ensures Render(a + b) == Render(a) + Render(b)
  {
    hide RenderOne;
    if a == [] {
      assert a + b == b;
    } else {
      RenderJoin(a[1..], b);
      assert (a + b)[1..] == a[1..] + b && (a + b)[0] == a[0];
      Regroup(RenderOne(a[0]), Render(a[1..]), Render(b));
    }
  }

  lemma Regroup(a: bytes, b: bytes, c: bytes)
    ensures a + (b + c) == a + b + c
  {
  }

  lemma RenderSingle(p: Piece)
    ensures Render([p]) == RenderOne(p)
  {
    assert [p][1..] == [];
    assert RenderOne(p) + [] == RenderOne(p);
  }

  lemma {:induction false} FieldsAreJoined(fields: seq<Field>)
    ensures Render(FieldPieces(fields)) == Joined(Selectors(fields))
  {
    hide RenderOne, Render, Pieces, Ascii;
    var selectors := Selectors(fields);
    if |fields| == 0 {
      RenderNothing();
    } else if |fields| > 1 {
      FieldsAreJoined(fields[1..]);
      assert selectors[1..] == Selectors(fields[1..]);
      RenderSingle(Plain(Ascii(", ")));
      RenderPlain(Ascii(", "));
      RenderJoin(Pieces(fields[0]), [Plain(Ascii(", "))]);
      RenderJoin(Pieces(fields[0]) + [Plain(Ascii(", "))], FieldPieces(fields[1..]));
    }
  }

  lemma RenderNothing()
    ensures Render([]) == []
  {
  }

  lemma RenderPlain(text: bytes)
    ensures RenderOne(Plain(text)) == text
  {
  }

  lemma ClauseIsJoined(shape: bytes, fields: seq<Field>)
    ensures Clause(shape, fields)
      == [SPACE] + ReturnWord() + [SPACE] + Uppers(shape) + [SPACE, 40] + Joined(Selectors(fields)) + [41]
  {
    hide RenderOne, Render, FieldPieces, Joined, Selectors, ReturnWord, Uppers;
    var a, b, c, d := [SPACE] + ReturnWord() + [SPACE], Uppers(shape), [SPACE, 40], [41];
    FieldsAreJoined(fields);
    RenderThree(a, b, c);
    RenderSingle(Plain(d));
    RenderPlain(d);
    RenderJoin([Plain(a), Plain(b), Plain(c)], FieldPieces(fields));
    RenderJoin([Plain(a), Plain(b), Plain(c)] + FieldPieces(fields), [Plain(d)]);
  }

  lemma RenderThree(a: bytes, b: bytes, c: bytes)
    ensures Render([Plain(a), Plain(b), Plain(c)]) == a + b + c
  {
    hide RenderOne, Render;
    RenderSingle(Plain(a));
    RenderSingle(Plain(b));
    RenderSingle(Plain(c));
    RenderPlain(a);
    RenderPlain(b);
    RenderPlain(c);
    RenderJoin([Plain(a)], [Plain(b)]);
    RenderJoin([Plain(a)] + [Plain(b)], [Plain(c)]);
    assert [Plain(a), Plain(b), Plain(c)] == [Plain(a)] + [Plain(b)] + [Plain(c)];
  }

  // ----- stripping hides and adds nothing

  /** Characters that neither belong to words nor are quotes. */
  predicate Break(c: byte) {
    !WordContinue(c) && c != QUOTE
  }

  lemma BreakBefore(c: byte, text: bytes)
    requires Break(c)
    ensures HasReturn([c] + text) <==> HasReturn(text)
    ensures Quotes([c] + text) == Quotes(text)
  {
    hide ReturnAt, Quotes, WordStart;
    QuotesOne(c);
    QuotesJoin([c], text);
    var all := [c] + text;
    NoReturnAtBreak(all);
    if i: nat :| ReturnAt(all, i) {
      AfterBreak([c], text, i - 1);
      assert ReturnAt(text, i - 1);
    }
    if i: nat :| ReturnAt(text, i) {
      AfterBreak([c], text, i);
      assert ReturnAt(all, 1 + i);
    }
  }

  lemma NoReturnAtBreak(text: bytes)
    requires text != [] && Break(text[0])
    ensures !ReturnAt(text, 0)
  {
    NoReturnHere(text, 0);
  }

  lemma BreakAfter(text: bytes, c: byte)
    requires Break(c)
    ensures HasReturn(text + [c]) <==> HasReturn(text)
    ensures Quotes(text + [c]) == Quotes(text)
  {
    hide ReturnAt, Quotes, WordContinue, WordStart;
    QuotesOne(c);
    QuotesJoin(text, [c]);
    forall i: nat ensures ReturnAt(text + [c], i) == ReturnAt(text, i) {
      if i < |text| {
        BeforeBreak(text, [c], i);
      } else {
        NoRoom(text, i);
        NoRoom(text + [c], i);
      }
    }
  }

  /** The scanner finds as much in one text as in the other, and ends inside quotes in both or in neither. */
  ghost predicate ReadsAlike(a: bytes, b: bytes) {
    (HasReturn(a) <==> HasReturn(b)) && Quotes(a) == Quotes(b)
  }

  lemma BlanksBreak(c: byte)
    ensures Blank(c) || c == SEMICOLON ==> Break(c)
  {
  }

  lemma {:induction false} TrimStartReads(text: bytes)
    ensures ReadsAlike(TrimStart(text), text)
  {
    hide HasReturn, Quotes, Break;
    if text != [] && Blank(text[0]) {
      TrimStartReads(text[1..]);
      BlanksBreak(text[0]);
      BreakBefore(text[0], text[1..]);
      assert text == [text[0]] + text[1..];
    }
  }

  lemma {:induction false} TrimEndReads(text: bytes)
    ensures ReadsAlike(TrimEnd(text), text)
  {
    hide HasReturn, Quotes, Break;
    if text != [] && Blank(text[|text| - 1]) {
      var init, last := text[..|text| - 1], text[|text| - 1];
      TrimEndReads(init);
      BlanksBreak(last);
      BreakAfter(init, last);
      assert text == init + [last];
    }
  }

  lemma TrimReads(text: bytes)
    ensures ReadsAlike(Trim(text), text)
  {
    hide HasReturn, Quotes, TrimStart, TrimEnd;
    TrimStartReads(text);
    TrimEndReads(TrimStart(text));
  }

  /** The terminator and the blanks that are stripped make no difference to the scanner. */
  lemma StrippedReads(query: bytes)
    requires Stripped(query).Some?
    ensures ReadsAlike(Stripped(query).value, query)
  {
    hide HasReturn, Quotes, Trim, Break;
    var trimmed := Trim(query);
    TrimReads(query);
    if EndsWithSemicolon(trimmed) {
      var base := trimmed[..|trimmed| - 1];
      BlanksBreak(SEMICOLON);
      BreakAfter(base, SEMICOLON);
      assert trimmed == base + [SEMICOLON];
      TrimReads(base);
    }
  }

  // ----- projecting a projected query

  /** The names that a selector quotes. */
  function QuotedNames(f: Field): seq<bytes> {
    match f
    case AttributeName(name) => [name]
    case StateMetaName(state, name) => [state, name]
    case EventValue(name) => [name]
    case _ => []
  }

  /** Some quoted name of the fields contains the whole word RETURN. */
  ghost predicate NamesReturn(fields: seq<Field>) {
    exists i, name :: 0 <= i < |fields| && name in QuotedNames(fields[i]) && HasReturnWord(name)
  }

  ghost predicate PieceReturns(pieces: seq<Piece>) {
    exists i :: 0 <= i < |pieces| && pieces[i].Name? && HasReturnWord(pieces[i].name)
  }

  predicate PlainIsUnquoted(pieces: seq<Piece>) {
    forall i :: 0 <= i < |pieces| && pieces[i].Plain? ==> QUOTE !in pieces[i].text
  }

  /** After an open quote the scanner sees the quoted names of a text, and nothing else of it. */
  lemma {:induction false} OpenPieces(lead: bytes, pieces: seq<Piece>)
    requires Quotes(lead) % 2 == 1 && PlainIsUnquoted(pieces)
    ensures HasReturn(lead + Render(pieces)) <==> HasReturn(lead) || PieceReturns(pieces)
    decreases |pieces|
  {
    hide HasReturn, Quotes, Quoted, HasReturnWord;
    if pieces == [] {
      assert lead + Render(pieces) == lead;
    } else {
      var first, rest := pieces[0], pieces[1..];
      var next := lead + RenderOne(first);
      if first.Plain? { OpenPlain(lead, first.text); } else { OpenName(lead, first.name); }
      OpenPieces(next, rest);
      Regroup(lead, RenderOne(first), Render(rest));
      FirstPiece(pieces);
    }
  }

  lemma FirstPiece(pieces: seq<Piece>)
    requires pieces != []
    ensures PieceReturns(pieces) <==> (pieces[0].Name? && HasReturnWord(pieces[0].name)) || PieceReturns(pieces[1..])
  {
    hide HasReturnWord;
    var rest := pieces[1..];
    if PieceReturns(rest) {
      var i :| 0 <= i < |rest| && rest[i].Name? && HasReturnWord(rest[i].name);
      assert pieces[i + 1] == rest[i];
    }
    if PieceReturns(pieces) && !(pieces[0].Name? && HasReturnWord(pieces[0].name)) {
      var i :| 0 <= i < |pieces| && pieces[i].Name? && HasReturnWord(pieces[i].name);
      assert rest[i - 1] == pieces[i];
    }
  }

  lemma PiecesJoin(a: seq<Piece>, b: seq<Piece>)
    ensures PieceReturns(a + b) <==> PieceReturns(a) || PieceReturns(b)
    ensures PlainIsUnquoted(a) && PlainIsUnquoted(b) ==> PlainIsUnquoted(a + b)
  {
    hide HasReturnWord;
    var all := a + b;
    if PieceReturns(a) {
      var i :| 0 <= i < |a| && a[i].Name? && HasReturnWord(a[i].name);
      assert all[i] == a[i];
    }
    if PieceReturns(b) {
      var i :| 0 <= i < |b| && b[i].Name? && HasReturnWord(b[i].name);
      assert all[|a| + i] == b[i];
    }
  }

  lemma {:induction false} FieldsReturn(fields: seq<Field>)
    requires forall i :: 0 <= i < |fields| ==> Known(fields[i])
    ensures PieceReturns(FieldPieces(fields)) <==> NamesReturn(fields)
    ensures PlainIsUnquoted(FieldPieces(fields))
  {
    hide HasReturnWord, Known, Pieces, PieceReturns, PlainIsUnquoted, Ascii;
    if |fields| == 0 {
      NoPieces();
    } else {
      FieldReturns(fields[0]);
      FirstField(fields);
      if |fields| == 1 {
        NothingNamed(fields[1..]);
      } else {
        FieldsReturn(fields[1..]);
        CommaIsPlain();
        PiecesJoin(Pieces(fields[0]), [Plain(Ascii(", "))]);
        PiecesJoin(Pieces(fields[0]) + [Plain(Ascii(", "))], FieldPieces(fields[1..]));
      }
    }
  }

  lemma NoPieces()
    ensures !PieceReturns([]) && PlainIsUnquoted([])
  {
  }

  lemma CommaIsPlain()
    ensures !PieceReturns([Plain(Ascii(", "))]) && PlainIsUnquoted([Plain(Ascii(", "))])
  {
  }

  lemma NothingNamed(fields: seq<Field>)
    requires fields == []
    ensures !NamesReturn(fields)
  {
  }

  lemma FirstField(fields: seq<Field>)
    requires fields != []
    ensures NamesReturn(fields)
      <==> (exists name :: name in QuotedNames(fields[0]) && HasReturnWord(name)) || NamesReturn(fields[1..])
  {
    hide HasReturnWord, QuotedNames;
    var rest := fields[1..];
    if NamesReturn(rest) {
      var i, name :| 0 <= i < |rest| && name in QuotedNames(rest[i]) && HasReturnWord(name);
      assert fields[i + 1] == rest[i];
    }
    if NamesReturn(fields) {
      var i, name :| 0 <= i < |fields| && name in QuotedNames(fields[i]) && HasReturnWord(name);
      if i > 0 { assert rest[i - 1] == fields[i]; }
    }
  }

  lemma FieldReturns(f: Field)
    requires Known(f)
    ensures PieceReturns(Pieces(f)) <==> exists name :: name in QuotedNames(f) && HasReturnWord(name)
    ensures PlainIsUnquoted(Pieces(f))
  {
    hide HasReturnWord, Ascii, Known;
    var pieces := Pieces(f);
    KnownIsOurs(f);
    if f.RunField? || f.EventField? { ConstantsAreUnquoted(f); }
    Unquoted("attribute[");
    Unquoted("state_meta[");
    Unquoted("fields[");
    Unquoted("][");
    Unquoted("]");
    if name :| name in QuotedNames(f) && HasReturnWord(name) {
      assert pieces[1].Name? && (f.StateMetaName? ==> pieces[3].Name?);
    }
    if PieceReturns(pieces) {
      var i :| 0 <= i < |pieces| && pieces[i].Name? && HasReturnWord(pieces[i].name);
      assert pieces[i].name in QuotedNames(f);
    }
  }

  lemma KnownIsOurs(f: Field)
    requires Known(f)
    ensures !f.NilField? && !f.ForeignField?
  {
  }

  lemma ConstantsAreUnquoted(f: Field)
    requires Known(f) && (f.RunField? || f.EventField?)
    ensures QUOTE !in f.name
  {
    hide Ascii, Unquotes;
    FirstConstants();
    MoreConstants();
    FurtherConstants();
    OtherConstants();
    LastConstants();
    UnquotedName(f.name);
  }

  predicate Unquotes(name: bytes) {
    QUOTE !in name
  }

  lemma UnquotedName(name: bytes)
    requires Unquotes(name)
    ensures QUOTE !in name
  {
  }

  lemma FirstConstants()
    ensures Unquotes(Ascii("run_id")) && Unquotes(Ascii("type")) && Unquotes(Ascii("state")) && Unquotes(Ascii("version"))
  {
    hide Ascii;
    Unquoted("run_id");
    Unquoted("type");
    Unquoted("state");
    Unquoted("version");
  }

  lemma MoreConstants()
    ensures Unquotes(Ascii("priority")) && Unquotes(Ascii("partition_key")) && Unquotes(Ascii("created_at_ms")) && Unquotes(Ascii("updated_at_ms"))
  {
    hide Ascii;
    Unquoted("priority");
    Unquoted("partition_key");
    Unquoted("created_at_ms");
    Unquoted("updated_at_ms");
  }

  lemma FurtherConstants()
    ensures Unquotes(Ascii("next_run_at_ms")) && Unquotes(Ascii("lease_deadline_ms")) && Unquotes(Ascii("attempts")) && Unquotes(Ascii("run_state"))
  {
    hide Ascii;
    Unquoted("next_run_at_ms");
    Unquoted("lease_deadline_ms");
    Unquoted("attempts");
    Unquoted("run_state");
  }

  lemma OtherConstants()
    ensures Unquotes(Ascii("max_active_ms")) && Unquotes(Ascii("parent_flow_id")) && Unquotes(Ascii("root_flow_id")) && Unquotes(Ascii("correlation_id"))
  {
    hide Ascii;
    Unquoted("max_active_ms");
    Unquoted("parent_flow_id");
    Unquoted("root_flow_id");
    Unquoted("correlation_id");
  }

  lemma LastConstants()
    ensures Unquotes(Ascii("attributes")) && Unquotes(Ascii("state_meta")) && Unquotes(Ascii("event_id")) && Unquotes(Ascii("fields"))
  {
    hide Ascii;
    Unquoted("attributes");
    Unquoted("state_meta");
    Unquoted("event_id");
    Unquoted("fields");
  }

  lemma Unquoted(text: string)
    requires forall i :: 0 <= i < |text| ==> text[i] != '\'' && text[i] < 128 as char
    ensures QUOTE !in Ascii(text)
  {
  }

  lemma {:induction false} FieldsAreKnown(fields: seq<Field>, i: nat, seen: set<bytes>, source: bytes)
    requires i <= |fields| && FieldsError(fields, i, seen, source).None?
    ensures forall j :: i <= j < |fields| ==> Known(fields[j])
    decreases |fields| - i
  {
    hide Known, Selector, Source;
    if i < |fields| { FieldsAreKnown(fields, i + 1, seen + {Selector(fields[i])}, source); }
  }

  lemma ShapeIsUnquoted(shape: bytes)
    requires shape == Ascii("record") || shape == Ascii("records")
    ensures QUOTE !in Uppers(shape) && QUOTE !in [SPACE] + ReturnWord() + [SPACE]
  {
    hide Ascii;
    Unquoted("record");
    Unquoted("records");
    forall i | 0 <= i < |shape| ensures Upper(shape[i]) != QUOTE { assert shape[i] in shape; }
  }

  lemma ClauseReturns(shape: bytes, fields: seq<Field>)
    requires shape == Ascii("record") || shape == Ascii("records")
    requires forall i :: 0 <= i < |fields| ==> Known(fields[i])
    ensures PieceReturns(ClausePieces(shape, fields)) <==> NamesReturn(fields)
    ensures PlainIsUnquoted(ClausePieces(shape, fields))
  {
    hide HasReturnWord, Known, NamesReturn, FieldPieces, Ascii, Uppers, ReturnWord;
    var start := [Plain([SPACE] + ReturnWord() + [SPACE]), Plain(Uppers(shape)), Plain([SPACE, 40])];
    ShapeIsUnquoted(shape);
    FieldsReturn(fields);
    assert !PieceReturns(start) && PlainIsUnquoted(start);
    assert !PieceReturns([Plain([41])]) && PlainIsUnquoted([Plain([41])]);
    PiecesJoin(start, FieldPieces(fields));
    PiecesJoin(start + FieldPieces(fields), [Plain([41])]);
  }

  lemma BlankIsPlain()
    ensures !WordContinue(SPACE) && SPACE != QUOTE && IsReturn(ReturnWord()) && |ReturnWord()| == 6
  {
  }

  /** A RETURN after a blank is seen exactly when the text before it has closed its quotes. */
  lemma ReturnAfterBlank(base: bytes, rest: bytes)
    requires rest != [] && !WordContinue(rest[0])
    ensures ReturnAt(base + [SPACE] + ReturnWord() + rest, |base| + 1) <==> Quotes(base) % 2 == 0
  {
    hide Quotes, WordContinue, IsReturn, ReturnWord;
    var text := base + [SPACE] + ReturnWord() + rest;
    BlankIsPlain();
    assert text[..|base| + 1] == base + [SPACE];
    QuotesJoin(base, [SPACE]);
    QuotesOne(SPACE);
    assert text[|base| + 1..|base| + 1 + 6] == ReturnWord();
    assert text[|base|] == SPACE && text[|base| + 7] == rest[0];
  }

  /** The clause after a text with its quotes closed is seen, whatever its selectors quote. */
  lemma ClosedClause(base: bytes, shape: bytes, fields: seq<Field>)
    requires Quotes(base) % 2 == 0
    ensures HasReturn(base + Clause(shape, fields))
  {
    hide Quotes, ReturnAt, Joined, Selectors, Uppers, Clause, ReturnWord;
    var rest := [SPACE] + Uppers(shape) + [SPACE, 40] + Joined(Selectors(fields)) + [41];
    ClauseIsJoined(shape, fields);
    BlankIsPlain();
    ReturnAfterBlank(base, rest);
    assert base + Clause(shape, fields) == base + [SPACE] + ReturnWord() + rest;
  }

  // ----- what stripping leaves of a projected query

  lemma {:induction false} TrimEndHead(text: bytes)
    requires text != [] && !Blank(text[0])
    ensures TrimEnd(text) != [] && TrimEnd(text)[0] == text[0]
  {
    if Blank(text[|text| - 1]) { TrimEndHead(text[..|text| - 1]); }
  }

  lemma StrippedStarts(query: bytes)
    requires QuerySource(query).Some? && Stripped(query).Some?
    ensures var base := Stripped(query).value; base != [] && !Blank(base[0])
  {
    hide TrimEnd, Ascii;
    var text := TrimStart(query);
    SourceStarts(query);
    TrimEndHead(text);
    var trimmed := Trim(query);
    if EndsWithSemicolon(trimmed) {
      var inner := trimmed[..|trimmed| - 1];
      assert inner != [] && inner[0] == text[0];
      TrimEndHead(inner);
    }
  }

  lemma SourceStarts(query: bytes)
    requires QuerySource(query).Some?
    ensures TrimStart(query) != [] && Upper(TrimStart(query)[0]) == 70
    ensures !Blank(TrimStart(query)[0]) && TrimStart(query)[0] != SEMICOLON
  {
    hide TrimStart, FirstBlank;
    assert Uppers(TrimStart(query)[..4])[0] == Ascii("FROM")[0];
  }

  lemma ClauseEnds(base: bytes, shape: bytes, fields: seq<Field>)
    requires base != [] && !Blank(base[0])
    ensures Stripped(base + Clause(shape, fields)) == Some(base + Clause(shape, fields))
  {
    hide Clause, Joined, Selectors, Uppers, ReturnWord;
    ClauseIsJoined(shape, fields);
    var clause := Clause(shape, fields);
    assert clause[|clause| - 1] == 41;
  }

  /** A first projection that is accepted has appended the clause to a text the scanner reads like the query. */
  lemma FirstProjection(query: bytes, shape: bytes, fields: seq<Field>)
    requires Projection(query, shape, fields).Ok?
    ensures ArgumentError(query, shape, fields).None? && Stripped(query).Some?
    ensures Projection(query, shape, fields).value == Stripped(query).value + Clause(shape, fields)
    ensures !HasReturn(Stripped(query).value) && Quotes(Stripped(query).value) == Quotes(query)
    ensures Stripped(Projection(query, shape, fields).value) == Some(Projection(query, shape, fields).value)
    ensures (shape == Ascii("record") || shape == Ascii("records")) && forall i :: 0 <= i < |fields| ==> Known(fields[i])
  {
    hide HasReturn, Quotes, Clause, Stripped, TextError, FieldsError, Known, Ascii, QuerySource;
    StrippedReads(query);
    StrippedStarts(query);
    ClauseEnds(Stripped(query).value, shape, fields);
    FieldsAreKnown(fields, 0, {}, QuerySource(query).value);
  }

  /**
    Projecting a projected query, with any arguments it takes: it is refused for its
    RETURN clause exactly when the query had closed its quotes or a quoted name of
    its fields contains the whole word RETURN; otherwise a second clause is appended.
  */
  lemma ProjectedAgain(query: bytes, shape: bytes, fields: seq<Field>, shape2: bytes, fields2: seq<Field>)
    requires Projection(query, shape, fields).Ok?
    requires ArgumentError(Projection(query, shape, fields).value, shape2, fields2).None?
    ensures var projected := Projection(query, shape, fields).value;
      Projection(projected, shape2, fields2) ==
      if Quotes(query) % 2 == 0 || NamesReturn(fields) then Err(HasReturnClause)
      else Checked(projected + Clause(shape2, fields2))
  {
    ProjectedReads(query, shape, fields);
    hide HasReturn, Quotes, Clause, Stripped, TextError, NamesReturn, ArgumentError, Ascii;
    FirstProjection(query, shape, fields);
  }

  /** What the scanner finds in a projected query. */
  lemma ProjectedReads(query: bytes, shape: bytes, fields: seq<Field>)
    requires Projection(query, shape, fields).Ok?
    ensures HasReturn(Projection(query, shape, fields).value) <==> Quotes(query) % 2 == 0 || NamesReturn(fields)
  {
    hide HasReturn, Quotes, Clause, ClausePieces, Stripped, ArgumentError, Checked, NamesReturn, Render, PieceReturns, PlainIsUnquoted, Known, Ascii,
      Projection;
    FirstProjection(query, shape, fields);
    var base := Stripped(query).value;
    if Quotes(query) % 2 == 0 {
      ClosedClause(base, shape, fields);
    } else {
      ClauseReturns(shape, fields);
      OpenPieces(base, ClausePieces(shape, fields));
      ClauseIsRendered(shape, fields);
    }
  }

  lemma ClauseIsRendered(shape: bytes, fields: seq<Field>)
    ensures Clause(shape, fields) == Render(ClausePieces(shape, fields))
  {
  }

  // ----- a query that is projected twice

  lemma PlainTextIsFine(text: bytes)
    requires text != [] && text[0] == 70 && |text| <= MAX_QUERY && forall i :: 0 <= i < |text| ==> text[i] < 0x80
    ensures TextError(text).None?
  {
    AsciiIsUtf8(text);
  }

  lemma FromRuns(text: bytes)
    requires |text| >= 10 && text[..10] == [70, 82, 79, 77, 32, 114, 117, 110, 115, 32]
    ensures QuerySource(text) == Some(Ascii("runs"))
  {
    assert text[0] == 70 && text[4] == text[..10][4] == 32;
    assert TrimStart(text) == text;
    assert text[..4] == text[..10][..4] == [70, 82, 79, 77];
    assert Uppers(text[..4]) == Ascii("FROM");
    var gap, rest := text[4..], text[5..];
    assert gap[0] == 32 && gap[1..] == rest && rest[0] == text[..10][5] == 114;
    assert TrimStart(gap) == TrimStart(rest) == rest;
    BlankAtFour(rest, text);
    RunsInLetters();
  }

  lemma RunsInLetters()
    ensures Lowers([114, 117, 110, 115]) == Ascii("runs")
  {
  }

  lemma BlankAtFour(rest: bytes, text: bytes)
    requires |text| >= 10 && text[..10] == [70, 82, 79, 77, 32, 114, 117, 110, 115, 32] && rest == text[5..]
    ensures FirstBlank(rest) == 4 && rest[..4] == [114, 117, 110, 115]
  {
    assert rest[0] == text[..10][5] && rest[1] == text[..10][6] && rest[2] == text[..10][7] && rest[3] == text[..10][8];
    assert rest[4] == text[..10][9];
    var a, b, c, d := rest[1..], rest[2..], rest[3..], rest[4..];
    assert a[1..] == b && b[1..] == c && c[1..] == d;
    assert FirstBlank(d) == 0;
    assert FirstBlank(c) == 1;
    assert FirstBlank(b) == 2;
    assert FirstBlank(a) == 3;
  }

  /** `FROM runs WHERE type = 'x`, which ends inside a quote. */
  function OpenQuery(): bytes {
    [70, 82, 79, 77, 32, 114, 117, 110, 115, 32, 87, 72, 69, 82, 69, 32, 116, 121, 112, 101, 32, 61, 32, 39, 120]
  }

  lemma OpenQueryIsText()
    ensures OpenQuery() == Ascii("FROM runs WHERE type = 'x")
  {
  }

  lemma OpenQueryReads()
    ensures !HasReturn(OpenQuery()) && Quotes(OpenQuery()) == 1 && Stripped(OpenQuery()) == Some(OpenQuery())
  {
    var lead, rest := OpenQuery()[..23], [120];
    var quote: bytes := [QUOTE];
    assert OpenQuery() == lead + quote + rest;
    NoQuotes(lead);
    NoQuotes(rest);
    QuotesOne(QUOTE);
    QuotesJoin(lead, quote);
    QuotesJoin(lead + quote, rest);
    forall i: nat ensures !ReturnAt(OpenQuery(), i) {
      if i + 6 <= |OpenQuery()| { NoReturnLetters(i); }
    }
  }

  lemma NoReturnLetters(i: nat)
    requires i + 6 <= |OpenQuery()|
    ensures !IsReturn(OpenQuery()[i..i + 6])
  {
    var word := OpenQuery()[i..i + 6];
    assert word[0] == OpenQuery()[i] && word[1] == OpenQuery()[i + 1] && word[2] == OpenQuery()[i + 2];
  }

  function RunIdOnly(): seq<Field> {
    [RunField(Ascii("run_id"))]
  }

  lemma RunIdIsFine()
    ensures FieldsError(RunIdOnly(), 0, {}, Ascii("runs")).None? && !NamesReturn(RunIdOnly())
    ensures Joined(Selectors(RunIdOnly())) == Ascii("run_id")
  {
    hide Ascii;
    assert Selector(RunField(Ascii("run_id"))) == Ascii("run_id") by { RenderSingle(Plain(Ascii("run_id"))); }
  }

  lemma RunIdClause()
    ensures var clause := Clause(Ascii("record"), RunIdOnly());
      |clause| == 23 && forall i :: 0 <= i < |clause| ==> clause[i] < 0x80
  {
    hide Joined, Selectors, RunIdOnly, Clause, Uppers, Ascii;
    ClauseIsJoined(Ascii("record"), RunIdOnly());
    RunIdIsFine();
    RecordInLetters();
  }

  lemma RecordInLetters()
    ensures Uppers(Ascii("record")) == [82, 69, 67, 79, 82, 68]
    ensures Ascii("run_id") == [114, 117, 110, 95, 105, 100]
  {
  }

  /** The query is projected, and what results is projected once more. */
  lemma OpenQuoteProjected()
    ensures var first := Projection(OpenQuery(), Ascii("record"), RunIdOnly());
      first.Ok? && Projection(first.value, Ascii("record"), RunIdOnly()).Ok?
  {
    hide HasReturn, Quotes, Clause, Stripped, NamesReturn, TextError, QuerySource, FieldsError, RunIdOnly, Ascii;
    var query, clause := OpenQuery(), Clause(Ascii("record"), RunIdOnly());
    var once, twice := query + clause, query + clause + clause;
    OpenQueryReads();
    RunIdIsFine();
    RunIdClause();
    OneField();
    FromRuns(query);
    FromRuns(once);
    PlainTextIsFine(query);
    PlainTextIsFine(once);
    PlainTextIsFine(twice);
    ProjectedAgain(query, Ascii("record"), RunIdOnly(), Ascii("record"), RunIdOnly());
  }

  lemma OneField()
    ensures |RunIdOnly()| == 1
  {
  }
}
