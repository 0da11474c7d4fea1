/**
  Quoted names in query text, and the scanner that looks for a RETURN clause.

  A name is quoted by doubling its quotes, so a position is outside quotes exactly
  when an even number of quotes comes before it. The scanner, which works with a
  flag and looks ahead at doubled quotes, is proved against that definition.
*/
module QuotedText {
  import opened Bytes

  const QUOTE: byte := 39
  const UNDERSCORE: byte := 95

  // ----- quoting

  function Doubled(name: bytes): bytes {
    if name == [] then []
    else (if name[0] == QUOTE then [QUOTE, QUOTE] else [name[0]]) + Doubled(name[1..])
  }

  function Quoted(name: bytes): bytes {
    [QUOTE] + Doubled(name) + [QUOTE]
  }

  lemma {:induction false} DoubledJoin(a: bytes, b: bytes)
    ensures Doubled(a + b) == Doubled(a) + Doubled(b)
  {
    if a == [] {
      assert a + b == b;
    } else {
      DoubledJoin(a[1..], b);
      assert (a + b)[1..] == a[1..] + b && (a + b)[0] == a[0];
      var first: bytes := if a[0] == QUOTE then [QUOTE, QUOTE] else [a[0]];
      assert first + (Doubled(a[1..]) + Doubled(b)) == first + Doubled(a[1..]) + Doubled(b);
    }
  }

  lemma {:induction false} DoubledPlain(a: bytes)
    requires QUOTE !in a
    ensures Doubled(a) == a
  {
    if a != [] { DoubledPlain(a[1..]); }
  }

  /** The part before the first quote, the part after it, and whether there is one. */
  method Cut(text: bytes) returns (prefix: bytes, suffix: bytes, found: bool)
    ensures QUOTE !in prefix
    ensures found ==> text == prefix + [QUOTE] + suffix
    ensures !found ==> text == prefix
  {
    var i := 0;
    while i < |text| && text[i] != QUOTE
      invariant i <= |text| && QUOTE !in text[..i]
    {
      i := i + 1;
    }
    if i == |text| {
      return text, [], false;
    }
    return text[..i], text[i + 1..], true;
  }

  // ----- words and quotes

  predicate WordStart(c: byte) {
    c == UNDERSCORE || 65 <= c <= 90 || 97 <= c <= 122
  }

  predicate WordContinue(c: byte) {
    WordStart(c) || 48 <= c <= 57
  }

  function Upper(c: byte): byte {
    if 97 <= c <= 122 then c - 32 else c
  }

  /** RETURN, in any case. */
  predicate IsReturn(word: bytes) {
    && |word| == 6
    && Upper(word[0]) == 82 && Upper(word[1]) == 69 && Upper(word[2]) == 84
    && Upper(word[3]) == 85 && Upper(word[4]) == 82 && Upper(word[5]) == 78
  }

  /** A word is letters, digits and underscores, not beginning with a digit. */
  lemma WordLetters(c: byte)
    ensures var letter := c as int as char;
      && (WordStart(c) <==> 'a' <= letter <= 'z' || 'A' <= letter <= 'Z' || letter == '_')
      && (WordContinue(c) <==> WordStart(c) || '0' <= letter <= '9')
  {
  }

  lemma ReturnLetters(word: bytes)
    ensures IsReturn(word)
      <==> |word| == 6 && forall i :: 0 <= i < 6 ==> word[i] as int as char in {"RETURN"[i], "return"[i]}
  {
  }

  ghost function Quotes(text: bytes): nat {
    if text == [] then 0
    else Quotes(text[..|text| - 1]) + if text[|text| - 1] == QUOTE then 1 else 0
  }

  ghost predicate Outside(text: bytes, i: nat)
    requires i <= |text|
  {
    Quotes(text[..i]) % 2 == 0
  }

  /** No word reaches to position `i`: what touches it from the left is at most digits. */
  ghost predicate Fresh(text: bytes, i: nat)
    requires i <= |text|
  {
    i == 0 || !WordContinue(text[i - 1]) || (!WordStart(text[i - 1]) && Fresh(text, i - 1))
  }

  /** A whole word RETURN stands at position `i`, outside quotes. */
  ghost predicate ReturnAt(text: bytes, i: nat) {
    && i + 6 <= |text|
    && Outside(text, i)
    && Fresh(text, i)
    && IsReturn(text[i..i + 6])
    && (i + 6 < |text| ==> !WordContinue(text[i + 6]))
  }

  /** A whole word RETURN stands at position `i`, wherever quotes are. */
  ghost predicate ReturnWordAt(text: bytes, i: nat) {
    && i + 6 <= |text|
    && Fresh(text, i)
    && IsReturn(text[i..i + 6])
    && (i + 6 < |text| ==> !WordContinue(text[i + 6]))
  }

  ghost predicate HasReturnWord(text: bytes) {
    exists i :: ReturnWordAt(text, i)
  }

  ghost predicate HasReturn(text: bytes) {
    exists i :: ReturnAt(text, i)
  }

  lemma QuotesNext(text: bytes, i: nat)
    requires i < |text|
    ensures Quotes(text[..i + 1]) == Quotes(text[..i]) + if text[i] == QUOTE then 1 else 0
  {
    assert text[..i + 1][..i] == text[..i];
  }

  // ----- the scanner

  /** Nothing in the middle of a word is a word of its own. */
  lemma {:induction false} InsideWord(text: bytes, i: nat, j: nat)
    requires i < j <= |text| && WordStart(text[i]) && forall k :: i <= k < j ==> WordContinue(text[k])
    ensures !Fresh(text, j)
    decreases j
  {
    if i + 1 < j { InsideWord(text, i, j - 1); }
  }

  lemma NoReturnHere(text: bytes, i: nat)
    requires i < |text| && (!Outside(text, i) || !WordStart(text[i]) || !Fresh(text, i))
    ensures !ReturnAt(text, i)
  {
    if i + 6 <= |text| { assert text[i..i + 6][0] == text[i]; }
  }

  /** The word from `i` to `end` is a RETURN or hides none. */
  lemma WordIsReturn(text: bytes, i: nat, end: nat)
    requires i < end <= |text| && WordStart(text[i]) && forall k :: i <= k < end ==> WordContinue(text[k])
    requires end < |text| ==> !WordContinue(text[end])
    requires Outside(text, i) && (Fresh(text, i) || !WordContinue(text[i]))
    ensures ReturnAt(text, i) <==> IsReturn(text[i..end])
    ensures forall j :: i < j < end ==> !ReturnAt(text, j)
  {
    if i + 6 <= |text| && end != i + 6 {
      assert end < i + 6 ==> text[i..i + 6][end - i] == text[end];
    }
    forall j | i < j < end ensures !ReturnAt(text, j) { InsideWord(text, i, j); }
  }

  /** Words have no quotes, so a word does not move the scanner in or out of them. */
  lemma {:induction false} WordHasNoQuotes(text: bytes, i: nat, end: nat)
    requires i <= end <= |text| && forall k :: i <= k < end ==> WordContinue(text[k])
    ensures Quotes(text[..end]) == Quotes(text[..i])
    decreases end
  {
    if i < end {
      QuotesNext(text, end - 1);
      WordHasNoQuotes(text, i, end - 1);
    }
  }

  /** Where the scanner stands between two tokens: its flag is right and no word is cut in two. */
  ghost predicate Between(text: bytes, index: nat, quoted: bool) {
    && index <= |text|
    && (quoted <==> !Outside(text, index))
    && (!quoted && index < |text| && WordContinue(text[index]) ==> Fresh(text, index))
    && forall j :: 0 <= j < index ==> !ReturnAt(text, j)
  }

  lemma PassQuote(text: bytes, index: nat, quoted: bool)
    requires Between(text, index, quoted) && index < |text| && text[index] == QUOTE
    ensures quoted && index + 1 < |text| && text[index + 1] == QUOTE ==> Between(text, index + 2, quoted)
    ensures Between(text, index + 1, !quoted)
  {
    QuotesNext(text, index);
    NoReturnHere(text, index);
    if index + 1 < |text| && text[index + 1] == QUOTE {
      QuotesNext(text, index + 1);
      NoReturnHere(text, index + 1);
    }
  }

  lemma PassOther(text: bytes, index: nat, quoted: bool)
    requires Between(text, index, quoted) && index < |text| && text[index] != QUOTE && (quoted || !WordStart(text[index]))
    ensures Between(text, index + 1, quoted)
  {
    QuotesNext(text, index);
    NoReturnHere(text, index);
  }

  lemma PassWord(text: bytes, index: nat, end: nat)
    requires Between(text, index, false) && index < end <= |text| && WordStart(text[index])
    requires forall k :: index <= k < end ==> WordContinue(text[k])
    requires end < |text| ==> !WordContinue(text[end])
    ensures ReturnAt(text, index) <==> IsReturn(text[index..end])
    ensures !IsReturn(text[index..end]) ==> Between(text, end, false)
  {
    WordIsReturn(text, index, end);
    WordHasNoQuotes(text, index, end);
  }

  /** The scanner finds a RETURN exactly when there is one outside quotes. */
  method ContainsReturn(query: bytes) returns (found: bool)
    ensures found <==> HasReturn(query)
  {
    hide ReturnAt, Outside, Fresh, Quotes, IsReturn, WordContinue, WordStart;
    var quoted, index := false, 0;
    StartsBetween(query);
    while index < |query|
      invariant Between(query, index, quoted)
      decreases |query| - index
    {
      if query[index] == QUOTE {
        PassQuote(query, index, quoted);
        if quoted && index + 1 < |query| && query[index + 1] == QUOTE {
          index := index + 2;
          continue;
        }
        quoted := !quoted;
        index := index + 1;
        continue;
      }
      if !quoted && WordStart(query[index]) {
        var end := EndOfWord(query, index);
        PassWord(query, index, end);
        if IsReturn(query[index..end]) {
          return true;
        }
        index := end;
        continue;
      }
      PassOther(query, index, quoted);
      index := index + 1;
    }
    NothingAfter(query);
    return false;
  }

  method EndOfWord(query: bytes, index: nat) returns (end: nat)
    requires index < |query| && WordStart(query[index])
    ensures index < end <= |query| && forall k :: index <= k < end ==> WordContinue(query[k])
    ensures end < |query| ==> !WordContinue(query[end])
  {
    end := index + 1;
    while end < |query| && WordContinue(query[end])
      invariant index < end <= |query| && forall k :: index <= k < end ==> WordContinue(query[k])
    {
      end := end + 1;
    }
  }

  lemma StartsBetween(query: bytes)
    ensures Between(query, 0, false)
  {
  }

  lemma NothingAfter(query: bytes)
    ensures forall j :: |query| <= j ==> !ReturnAt(query, j)
  {
  }

  // ----- quoted names are invisible to the scanner

  lemma {:induction false} QuotesJoin(a: bytes, b: bytes)
    ensures Quotes(a + b) == Quotes(a) + Quotes(b)
    decreases |b|
  {
    if b == [] {
      assert a + b == a;
    } else {
      QuotesJoin(a, b[..|b| - 1]);
      assert (a + b)[..|a + b| - 1] == a + b[..|b| - 1];
    }
  }

  lemma QuotesOne(c: byte)
    ensures Quotes([c]) == if c == QUOTE then 1 else 0
  {
    assert [c][..0] == [];
  }

  lemma {:induction false} DoubledIsEven(name: bytes)
    ensures Quotes(Doubled(name)) % 2 == 0
  {
    if name != [] {
      DoubledIsEven(name[1..]);
      var first := if name[0] == QUOTE then [QUOTE, QUOTE] else [name[0]];
      QuotesJoin(first, Doubled(name[1..]));
      QuotesJoin([QUOTE], [QUOTE]);
      QuotesOne(QUOTE);
      QuotesOne(name[0]);
    }
  }

  lemma QuotedIsEven(name: bytes)
    ensures Quotes(Quoted(name)) % 2 == 0
  {
    DoubledIsEven(name);
    QuotesOne(QUOTE);
    QuotesJoin([QUOTE], Doubled(name));
    QuotesJoin([QUOTE] + Doubled(name), [QUOTE]);
  }

  /** After an even number of quotes of a quoted name, another quote follows. */
  lemma {:induction false} EvenIsQuote(name: bytes, k: nat)
    requires k < |Doubled(name)| && Quotes(Doubled(name)[..k]) % 2 == 1
    ensures Doubled(name)[k] == QUOTE
    decreases |name|
  {
    var first := if name[0] == QUOTE then [QUOTE, QUOTE] else [name[0]];
    var rest := Doubled(name[1..]);
    assert Doubled(name) == first + rest;
    QuotesOne(name[0]);
    QuotesJoin([QUOTE], [QUOTE]);
    QuotesOne(QUOTE);
    if k < |first| {
      assert Doubled(name)[..k] == first[..k];
    } else {
      assert Doubled(name)[..k] == first + rest[..k - |first|];
      QuotesJoin(first, rest[..k - |first|]);
      EvenIsQuote(name[1..], k - |first|);
    }
  }

  lemma InsideQuoted(name: bytes, k: nat)
    requires k < |Quoted(name)| && Quotes(Quoted(name)[..k]) % 2 == 0
    ensures Quoted(name)[k] == QUOTE
  {
    if 0 < k < |Quoted(name)| - 1 {
      assert Quoted(name)[..k] == [QUOTE] + Doubled(name)[..k - 1];
      QuotesJoin([QUOTE], Doubled(name)[..k - 1]);
      QuotesOne(QUOTE);
      EvenIsQuote(name, k - 1);
    }
  }

  lemma {:induction false} FreshPrefix(a: bytes, b: bytes, i: nat)
    requires i <= |a|
    ensures Fresh(a + b, i) == Fresh(a, i)
  {
    if i > 0 { FreshPrefix(a, b, i - 1); }
  }

  lemma {:induction false} FreshSuffix(a: bytes, b: bytes, i: nat)
    requires a != [] && !WordContinue(a[|a| - 1]) && i <= |b|
    ensures Fresh(a + b, |a| + i) == Fresh(b, i)
  {
    if i > 0 { FreshSuffix(a, b, i - 1); }
  }

  /** What follows a break between words does not change what comes before it. */
  lemma BeforeBreak(a: bytes, b: bytes, i: nat)
    requires b != [] && !WordContinue(b[0]) && i < |a|
    ensures ReturnAt(a + b, i) == ReturnAt(a, i)
    ensures ReturnWordAt(a + b, i) == ReturnWordAt(a, i)
  {
    FreshPrefix(a, b, i);
    assert (a + b)[..i] == a[..i];
    if i + 6 <= |a| {
      assert (a + b)[i..i + 6] == a[i..i + 6];
    } else if i + 6 <= |a + b| {
      assert (a + b)[i..i + 6][|a| - i] == b[0];
    }
  }

  lemma OutsideAfter(a: bytes, b: bytes, i: nat)
    requires Quotes(a) % 2 == 0 && i <= |b|
    ensures Outside(a + b, |a| + i) == Outside(b, i)
  {
    hide Quotes;
    JoinedSlice(a, b, i);
    QuotesJoin(a, b[..i]);
  }

  lemma JoinedSlice(a: bytes, b: bytes, i: nat)
    requires i <= |b|
    ensures (a + b)[..|a| + i] == a + b[..i]
  {
  }

  lemma SliceAfter(a: bytes, b: bytes, i: nat, k: nat)
    requires i + k <= |b|
    ensures (a + b)[|a| + i..|a| + i + k] == b[i..i + k]
    ensures i + k < |b| ==> (a + b)[|a| + i + k] == b[i + k]
  {
  }

  /** What comes before a break between words, with its quotes closed, does not change what follows. */
  lemma AfterBreak(a: bytes, b: bytes, i: nat)
    requires a != [] && !WordContinue(a[|a| - 1]) && Quotes(a) % 2 == 0
    ensures ReturnAt(a + b, |a| + i) == ReturnAt(b, i)
  {
    hide Fresh, Quotes, IsReturn, WordContinue, Outside, ReturnAt;
    if i + 6 > |b| {
      NoRoom(a + b, |a| + i);
      NoRoom(b, i);
    } else {
      FreshSuffix(a, b, i);
      OutsideAfter(a, b, i);
      SliceAfter(a, b, i, 6);
      SameReturn(a + b, |a| + i, b, i);
    }
  }

  lemma NoRoom(text: bytes, i: nat)
    requires i + 6 > |text|
    ensures !ReturnAt(text, i)
  {
  }

  lemma SameReturn(a: bytes, i: nat, b: bytes, k: nat)
    requires i + 6 <= |a| && k + 6 <= |b| && Outside(a, i) == Outside(b, k) && Fresh(a, i) == Fresh(b, k)
    requires a[i..i + 6] == b[k..k + 6]
    requires (i + 6 < |a| <==> k + 6 < |b|) && (i + 6 < |a| ==> a[i + 6] == b[k + 6])
    ensures ReturnAt(a, i) == ReturnAt(b, k)
  {
    hide Fresh, IsReturn, WordContinue, Outside;
  }

  lemma EndsWord(c: byte)
    requires c == QUOTE
    ensures !WordContinue(c) && !WordStart(c)
  {
  }

  lemma WithinQuoted(query: bytes, name: bytes, rest: bytes, k: nat)
    requires Quotes(query) % 2 == 0 && k < |Quoted(name)|
    ensures !ReturnAt(query + Quoted(name) + rest, |query| + k)
  {
    hide Fresh, Quotes, IsReturn, WordContinue, WordStart, Quoted, ReturnAt;
    var all, i := query + Quoted(name) + rest, |query| + k;
    EndsWord(QUOTE);
    assert all[..i] == query + Quoted(name)[..k];
    QuotesJoin(query, Quoted(name)[..k]);
    assert all[i] == Quoted(name)[k];
    if Outside(all, i) { InsideQuoted(name, k); }
    NoReturnHere(all, i);
  }

  /** Put between any two texts, the first with its quotes closed, a quoted name neither hides nor adds a RETURN. */
  lemma QuotedNameIsInvisible(query: bytes, name: bytes, rest: bytes)
    requires Quotes(query) % 2 == 0
    ensures HasReturn(query + Quoted(name) + rest) <==> HasReturn(query) || HasReturn(rest)
    ensures Quotes(query + Quoted(name)) % 2 == 0
  {
    hide ReturnAt, Quotes, Quoted;
    var all, front := query + Quoted(name) + rest, query + Quoted(name);
    QuotedIsEven(name);
    QuotesJoin(query, Quoted(name));
    forall i: nat ensures ReturnAt(all, i) <==> (ReturnAt(query, i) || (i >= |front| && ReturnAt(rest, i - |front|))) {
      ReturnsApart(query, name, rest, i);
    }
    if i: nat :| ReturnAt(query, i) { assert ReturnAt(all, i); }
    if i: nat :| ReturnAt(rest, i) { assert i + |front| >= |front| && ReturnAt(rest, (i + |front|) - |front|) && ReturnAt(all, i + |front|); }
  }

  lemma ReturnsApart(query: bytes, name: bytes, rest: bytes, i: nat)
    requires Quotes(query) % 2 == 0
    ensures var front := query + Quoted(name);
      ReturnAt(front + rest, i) <==> (ReturnAt(query, i) || (i >= |front| && ReturnAt(rest, i - |front|)))
  {
    hide ReturnAt, Quotes;
    var front := query + Quoted(name);
    NothingAfter(query);
    QuotedIsEven(name);
    QuotesJoin(query, Quoted(name));
    if i < |query| {
      EndsWord(QUOTE);
      BeforeBreak(query, Quoted(name) + rest, i);
      assert query + (Quoted(name) + rest) == front + rest;
    } else if i < |front| {
      WithinQuoted(query, name, rest, i - |query|);
    } else {
      EndsWord(QUOTE);
      AfterBreak(front, rest, i - |front|);
    }
  }

  // ----- what an open quote turns outward

  lemma {:induction false} NoQuotes(text: bytes)
    requires QUOTE !in text
    ensures Quotes(text) == 0
  {
    if text != [] { NoQuotes(text[..|text| - 1]); }
  }

  lemma QuoteInWord(text: bytes, i: nat, k: nat)
    requires i <= k < i + 6 && k < |text| && text[k] == QUOTE
    ensures !ReturnAt(text, i)
  {
    hide Fresh, Outside;
    if i + 6 <= |text| { assert text[i..i + 6][k - i] == QUOTE; }
  }

  /** A text that ends inside quotes is read alike whatever follows it. */
  lemma OpenPrefix(lead: bytes, rest: bytes, i: nat)
    requires Quotes(lead) % 2 == 1 && i < |lead|
    ensures ReturnAt(lead + rest, i) == ReturnAt(lead, i)
  {
    hide Quotes, Fresh, IsReturn, WordContinue;
    FreshPrefix(lead, rest, i);
    assert (lead + rest)[..i] == lead[..i];
    if i + 6 < |lead| {
      assert (lead + rest)[i..i + 6] == lead[i..i + 6];
    } else if Outside(lead, i) {
      OpensLater(lead, i);
      var k :| i <= k < |lead| && lead[k] == QUOTE;
      assert (lead + rest)[k] == QUOTE;
      QuoteInWord(lead + rest, i, k);
      QuoteInWord(lead, i, k);
    }
  }

  lemma OpensLater(lead: bytes, i: nat)
    requires Quotes(lead) % 2 == 1 && i < |lead| && Outside(lead, i)
    ensures exists k :: i <= k < |lead| && lead[k] == QUOTE
  {
    hide Quotes;
    assert lead == lead[..i] + lead[i..];
    QuotesJoin(lead[..i], lead[i..]);
    if QUOTE !in lead[i..] {
      NoQuotes(lead[i..]);
    } else {
      var k :| 0 <= k < |lead[i..]| && lead[i..][k] == QUOTE;
      assert lead[i + k] == QUOTE;
    }
  }

  /** Inside an open quote plain text is not looked at. */
  lemma OpenPlain(lead: bytes, plain: bytes)
    requires Quotes(lead) % 2 == 1 && QUOTE !in plain
    ensures Quotes(lead + plain) % 2 == 1
    ensures HasReturn(lead + plain) <==> HasReturn(lead)
  {
    hide Quotes, ReturnAt;
    QuotesJoin(lead, plain);
    NoQuotes(plain);
    forall i: nat ensures ReturnAt(lead + plain, i) == ReturnAt(lead, i) {
      if i < |lead| {
        OpenPrefix(lead, plain, i);
      } else {
        NoRoom(lead, i);
        InsideOpenQuote(lead, plain, i);
      }
    }
  }

  lemma InsideOpenQuote(lead: bytes, plain: bytes, i: nat)
    requires Quotes(lead) % 2 == 1 && QUOTE !in plain && i >= |lead|
    ensures !ReturnAt(lead + plain, i)
  {
    hide Quotes, Fresh, IsReturn;
    if i + 6 <= |lead + plain| {
      assert (lead + plain)[..i] == lead + plain[..i - |lead|];
      QuotesJoin(lead, plain[..i - |lead|]);
      NoQuotes(plain[..i - |lead|]);
    }
  }

  /** After an open quote a quoted name lies outside: the scanner sees exactly the words of the name. */
  lemma OpenName(lead: bytes, name: bytes)
    requires Quotes(lead) % 2 == 1
    ensures Quotes(lead + Quoted(name)) % 2 == 1
    ensures HasReturn(lead + Quoted(name)) <==> HasReturn(lead) || HasReturnWord(name)
  {
    hide Quotes, ReturnAt, ReturnWordAt, Doubled, HasReturnWord;
    QuotedIsEven(name);
    QuotesJoin(lead, Quoted(name));
    QuotesJoin(lead, [QUOTE]);
    QuotesOne(QUOTE);
    DoubledWords(name);
    var closed, rest, all := lead + [QUOTE], Doubled(name) + [QUOTE], lead + Quoted(name);
    assert all == closed + rest;
    forall i: nat ensures ReturnAt(all, i) <==> ReturnAt(lead, i) || (i >= |closed| && ReturnAt(rest, i - |closed|)) {
      OpenNameAt(lead, rest, i);
    }
    if i: nat :| ReturnAt(lead, i) { assert ReturnAt(all, i); }
    if k: nat :| ReturnAt(rest, k) { assert k + |closed| >= |closed| && ReturnAt(rest, (k + |closed|) - |closed|) && ReturnAt(all, k + |closed|); }
  }

  lemma OpenNameAt(lead: bytes, rest: bytes, i: nat)
    requires Quotes(lead) % 2 == 1
    ensures var closed := lead + [QUOTE];
      ReturnAt(closed + rest, i) <==> (ReturnAt(lead, i) || (i >= |closed| && ReturnAt(rest, i - |closed|)))
  {
    hide Quotes, ReturnAt, WordContinue, WordStart, Fresh;
    var closed := lead + [QUOTE];
    QuotesJoin(lead, [QUOTE]);
    QuotesOne(QUOTE);
    EndsWord(QUOTE);
    assert closed + rest == lead + ([QUOTE] + rest);
    if i < |lead| {
      OpenPrefix(lead, [QUOTE] + rest, i);
    } else {
      NoRoom(lead, i);
      if i == |lead| {
        NoReturnHere(closed + rest, i);
      } else {
        AfterBreak(closed, rest, i - |closed|);
      }
    }
  }

  lemma FirstQuote(name: bytes) returns (k: nat)
    requires QUOTE in name
    ensures k < |name| && name[k] == QUOTE && QUOTE !in name[..k]
  {
    k := 0;
    while name[k] != QUOTE
      invariant k < |name| && QUOTE !in name[..k] && QUOTE in name
      decreases |name| - k
    {
      k := k + 1;
    }
  }

  lemma DoubledAt(name: bytes, k: nat)
    requires k < |name| && name[k] == QUOTE && QUOTE !in name[..k]
    ensures name == name[..k] + [QUOTE] + name[k + 1..]
    ensures Doubled(name) == name[..k] + [QUOTE, QUOTE] + Doubled(name[k + 1..])
  {
    hide Doubled;
    var quote: bytes := [QUOTE];
    assert name == name[..k] + quote + name[k + 1..];
    DoubledJoin(name[..k] + quote, name[k + 1..]);
    DoubledJoin(name[..k], quote);
    DoubledPlain(name[..k]);
    QuoteDoubles();
    assert name[..k] + Doubled(quote) == name[..k] + [QUOTE, QUOTE];
  }

  lemma QuoteDoubles()
    ensures Doubled([QUOTE]) == [QUOTE, QUOTE]
  {
    assert [QUOTE][1..] == [];
  }

  /** Without quotes every whole word is outside them. */
  lemma PlainAt(plain: bytes, i: nat)
    requires QUOTE !in plain
    ensures ReturnAt(plain, i) == ReturnWordAt(plain, i)
  {
    hide Fresh, Quotes, IsReturn, WordContinue;
    if i <= |plain| { NoQuotes(plain[..i]); }
  }

  lemma PlainWords(plain: bytes)
    requires QUOTE !in plain
    ensures HasReturn(plain + [QUOTE]) <==> HasReturnWord(plain)
  {
    hide ReturnAt, ReturnWordAt;
    EndsWord(QUOTE);
    forall i: nat ensures ReturnAt(plain + [QUOTE], i) == ReturnWordAt(plain, i) {
      PlainAt(plain, i);
      if i < |plain| {
        BeforeBreak(plain, [QUOTE], i);
      } else {
        NoRoom(plain, i);
        NoRoom(plain + [QUOTE], i);
      }
    }
  }

  lemma ReturnsSplit(plain: bytes, rest: bytes)
    requires QUOTE !in plain
    ensures HasReturn(plain + [QUOTE, QUOTE] + rest) <==> HasReturnWord(plain) || HasReturn(rest)
  {
    hide ReturnAt, ReturnWordAt;
    var front := plain + [QUOTE, QUOTE];
    forall i: nat
      ensures ReturnAt(front + rest, i) <==> ReturnWordAt(plain, i) || (i >= |front| && ReturnAt(rest, i - |front|))
    {
      ReturnsSplitAt(plain, rest, i);
    }
    if i: nat :| ReturnWordAt(plain, i) { assert ReturnAt(front + rest, i); }
    if k: nat :| ReturnAt(rest, k) { assert k + |front| >= |front| && ReturnAt(rest, (k + |front|) - |front|) && ReturnAt(front + rest, k + |front|); }
  }

  lemma ReturnsSplitAt(plain: bytes, rest: bytes, i: nat)
    requires QUOTE !in plain
    ensures var front := plain + [QUOTE, QUOTE];
      ReturnAt(front + rest, i) <==> (ReturnWordAt(plain, i) || (i >= |front| && ReturnAt(rest, i - |front|)))
  {
    hide ReturnAt, ReturnWordAt, Quotes, WordContinue, WordStart;
    var front, pair: bytes := plain + [QUOTE, QUOTE], [QUOTE, QUOTE];
    TwoQuotes(plain);
    EndsWord(QUOTE);
    PlainAt(plain, i);
    assert front + rest == plain + (pair + rest);
    if i < |plain| {
      BeforeBreak(plain, pair + rest, i);
    } else {
      NoRoom(plain, i);
      if i < |front| {
        assert (front + rest)[i] == QUOTE;
        NoReturnHere(front + rest, i);
      } else {
        AfterBreak(front, rest, i - |front|);
      }
    }
  }

  lemma TwoQuotes(plain: bytes)
    requires QUOTE !in plain
    ensures Quotes(plain + [QUOTE, QUOTE]) % 2 == 0
  {
    QuotesJoin(plain, [QUOTE, QUOTE]);
    QuotesJoin([QUOTE], [QUOTE]);
    QuotesOne(QUOTE);
    NoQuotes(plain);
  }

  lemma WordAfter(a: bytes, b: bytes, i: nat)
    requires a != [] && !WordContinue(a[|a| - 1])
    ensures ReturnWordAt(a + b, |a| + i) == ReturnWordAt(b, i)
  {
    hide Fresh, IsReturn, WordContinue;
    if i + 6 <= |b| {
      FreshSuffix(a, b, i);
      SliceAfter(a, b, i, 6);
    }
  }

  lemma WordsApart(a: bytes, b: bytes)
    ensures HasReturnWord(a + [QUOTE] + b) <==> HasReturnWord(a) || HasReturnWord(b)
  {
    hide ReturnWordAt;
    var front := a + [QUOTE];
    forall i: nat
      ensures ReturnWordAt(front + b, i) <==> ReturnWordAt(a, i) || (i >= |front| && ReturnWordAt(b, i - |front|))
    {
      WordsApartAt(a, b, i);
    }
    if i: nat :| ReturnWordAt(a, i) { assert ReturnWordAt(front + b, i); }
    if k: nat :| ReturnWordAt(b, k) { assert k + |front| >= |front| && ReturnWordAt(b, (k + |front|) - |front|) && ReturnWordAt(front + b, k + |front|); }
  }

  lemma WordsApartAt(a: bytes, b: bytes, i: nat)
    ensures var front := a + [QUOTE];
      ReturnWordAt(front + b, i) <==> (ReturnWordAt(a, i) || (i >= |front| && ReturnWordAt(b, i - |front|)))
  {
    hide ReturnWordAt, WordContinue, WordStart;
    var front := a + [QUOTE];
    EndsWord(QUOTE);
    assert front + b == a + ([QUOTE] + b);
    if i < |a| {
      BeforeBreak(a, [QUOTE] + b, i);
    } else {
      NoRoomForWord(a, i);
      if i == |a| {
        assert (front + b)[i] == QUOTE;
        NoWordHere(front + b, i);
      } else {
        WordAfter(front, b, i - |front|);
      }
    }
  }

  lemma NoRoomForWord(text: bytes, i: nat)
    requires i + 6 > |text|
    ensures !ReturnWordAt(text, i)
  {
  }

  lemma NoWordHere(text: bytes, i: nat)
    requires i < |text| && !WordStart(text[i])
    ensures !ReturnWordAt(text, i)
  {
    if i + 6 <= |text| { assert text[i..i + 6][0] == text[i]; }
  }

  /** The words between the doubled quotes of a name are the words of the name. */
  lemma {:induction false} DoubledWords(name: bytes)
    ensures HasReturn(Doubled(name) + [QUOTE]) <==> HasReturnWord(name)
    decreases |name|
  {
    hide ReturnAt, ReturnWordAt, Doubled, HasReturn, HasReturnWord;
    if QUOTE !in name {
      DoubledPlain(name);
      PlainWords(name);
    } else {
      var k := FirstQuote(name);
      DoubledWords(name[k + 1..]);
      DoubledAt(name, k);
      WordsApart(name[..k], name[k + 1..]);
      ReturnsSplit(name[..k], Doubled(name[k + 1..]) + [QUOTE]);
      assert Doubled(name) + [QUOTE] == name[..k] + [QUOTE, QUOTE] + (Doubled(name[k + 1..]) + [QUOTE]);
    }
  }
}
