/**
  Metadata selectors: `attribute['name']` and `state_meta['state']['name']`, or the
  dotted form when every name is plain. Parsing is proved the exact inverse of
  printing, for names that contain quotes and closing brackets too.
*/
module BracketSelector {
  import opened Bytes
  import opened Results
  import opened QuotedText

  const OPEN: byte := 91
  const CLOSE: byte := 93

  function Bracket(name: bytes): bytes {
    [OPEN, QUOTE] + Doubled(name) + [QUOTE, CLOSE]
  }

  function Brackets(names: seq<bytes>): bytes {
    if names == [] then [] else Bracket(names[0]) + Brackets(names[1..])
  }

  /** The bracket form of a selector. */
  function Print(root: bytes, names: seq<bytes>): bytes {
    root + Brackets(names)
  }

  // ----- where a printed name ends

  lemma DoubledStep(name: bytes)
    requires name != []
    ensures Doubled(name) == Escaped(name[0]) + Doubled(name[1..])
  {
  }

  /** A text that a name's doubled form begins, and that is a name's doubled form up to `']`, agrees with it. */
  lemma {:induction false} DoubledAligned(read: bytes, left: bytes, name: bytes, tail: bytes)
    requires Doubled(read) + left == Doubled(name) + ([QUOTE, CLOSE] + tail)
    ensures read <= name && left == Doubled(name[|read|..]) + ([QUOTE, CLOSE] + tail)
    decreases |read|
  {
    hide Doubled;
    if read == [] {
      DoubledNothing(left);
      assert name[0..] == name;
    } else {
      var end: bytes := [QUOTE, CLOSE] + tail;
      NotEnded(read, left, tail);
      DoubledNothing(end);
      HeadsAgree(read, left, name, end);
      DoubledAligned(read[1..], left, name[1..], tail);
      TailOf(read, name);
    }
  }

  lemma DoubledNothing(rest: bytes)
    ensures Doubled([]) + rest == rest
  {
  }

  lemma TailOf<T>(read: seq<T>, name: seq<T>)
    requires read != [] && name != [] && read[0] == name[0] && read[1..] <= name[1..]
    ensures read <= name && name[1..][|read| - 1..] == name[|read|..]
  {
    assert read == [read[0]] + read[1..] && name == [name[0]] + name[1..];
  }

  lemma NotEnded(read: bytes, left: bytes, tail: bytes)
    requires read != []
    ensures Doubled(read) + left != [QUOTE, CLOSE] + tail
  {
    DoubledStep(read);
    var all, end := Doubled(read) + left, [QUOTE, CLOSE] + tail;
    assert end[0] == QUOTE && end[1] == CLOSE && all[0] == read[0];
    assert read[0] == QUOTE ==> all[1] == QUOTE;
  }

  lemma HeadsAgree(read: bytes, left: bytes, name: bytes, end: bytes)
    requires read != [] && name != [] && Doubled(read) + left == Doubled(name) + end
    ensures read[0] == name[0] && Doubled(read[1..]) + left == Doubled(name[1..]) + end
  {
    hide Doubled;
    DoubledStep(read);
    DoubledStep(name);
    var first, other := Escaped(read[0]), Escaped(name[0]);
    Regroup(first, Doubled(read[1..]), left);
    Regroup(other, Doubled(name[1..]), end);
    Peel(read[0], Doubled(read[1..]) + left, name[0], Doubled(name[1..]) + end);
  }

  function Escaped(c: byte): bytes {
    if c == QUOTE then [QUOTE, QUOTE] else [c]
  }

  lemma Regroup(a: bytes, b: bytes, c: bytes)
    ensures a + b + c == a + (b + c)
  {
  }

  lemma Peel(c: byte, x: bytes, d: byte, y: bytes)
    requires Escaped(c) + x == Escaped(d) + y
    ensures c == d && x == y
  {
    assert (Escaped(c) + x)[0] == c && (Escaped(d) + y)[0] == d;
    CancelFront(Escaped(c), x, y);
  }

  lemma CancelFront(a: bytes, x: bytes, y: bytes)
    requires a + x == a + y
    ensures x == y
  {
    assert (a + x)[|a|..] == x && (a + y)[|a|..] == y;
  }

  lemma {:induction false} NextByte(name: bytes, tail: bytes, left: bytes)
    requires left == Doubled(name) + ([QUOTE, CLOSE] + tail)
    ensures |left| >= 2
    ensures left[0] == QUOTE ==> left[1] == QUOTE || left[1] == CLOSE
    ensures left[0] == QUOTE && left[1] == CLOSE ==> name == [] && left[2..] == tail
  {
    if name != [] { DoubledStep(name); }
  }

  /** Read one name up to its closing `']`. Nothing is found exactly when there is no such name. */
  method TakeName(rest: bytes) returns (result: Option<(bytes, bytes)>)
    ensures result.Some? ==> rest == Doubled(result.value.0) + ([QUOTE, CLOSE] + result.value.1)
    ensures result.None? ==> forall name: bytes, tail: bytes :: rest != Doubled(name) + ([QUOTE, CLOSE] + tail)
  {
    var name: bytes, index := [], 0;
    while index < |rest|
      invariant index <= |rest| && rest[..index] == Doubled(name)
    {
      assert rest == Doubled(name) + rest[index..];
      if rest[index] != QUOTE {
        ReadOne(rest, index, name);
        name := name + [rest[index]];
        index := index + 1;
        continue;
      }
      if index + 1 < |rest| && rest[index + 1] == QUOTE {
        ReadTwo(rest, index, name);
        name := name + [QUOTE];
        index := index + 2;
        continue;
      }
      if index + 1 >= |rest| || rest[index + 1] != CLOSE {
        NotClosed(rest, index, name);
        return None;
      }
      assert rest[index..] == [QUOTE, CLOSE] + rest[index + 2..];
      return Some((name, rest[index + 2..]));
    }
    NotClosed(rest, index, name);
    return None;
  }

  lemma ReadOne(rest: bytes, index: nat, name: bytes)
    requires index < |rest| && rest[..index] == Doubled(name) && rest[index] != QUOTE
    ensures rest[..index + 1] == Doubled(name + [rest[index]])
  {
    DoubledJoin(name, [rest[index]]);
    DoubledPlain([rest[index]]);
  }

  lemma ReadTwo(rest: bytes, index: nat, name: bytes)
    requires index + 1 < |rest| && rest[..index] == Doubled(name) && rest[index] == rest[index + 1] == QUOTE
    ensures rest[..index + 2] == Doubled(name + [QUOTE])
  {
    DoubledJoin(name, [QUOTE]);
    DoubledStep([QUOTE]);
    assert [QUOTE][1..] == [];
    assert rest[..index + 2] == rest[..index] + [QUOTE, QUOTE];
  }

  lemma NotClosed(rest: bytes, index: nat, name: bytes)
    requires index <= |rest| && rest[..index] == Doubled(name)
    requires index < |rest| ==> rest[index] == QUOTE && (index + 1 >= |rest| || rest[index + 1] !in {QUOTE, CLOSE})
    ensures forall other: bytes, tail: bytes :: rest != Doubled(other) + ([QUOTE, CLOSE] + tail)
  {
    forall other: bytes, tail: bytes ensures rest != Doubled(other) + ([QUOTE, CLOSE] + tail) {
      if rest == Doubled(other) + ([QUOTE, CLOSE] + tail) {
        assert rest == Doubled(name) + rest[index..];
        DoubledAligned(name, rest[index..], other, tail);
        NextByte(other[|name|..], tail, rest[index..]);
        assert false;
      }
    }
  }

  // ----- whole selectors

  lemma BracketSplit(name: bytes, tail: bytes)
    ensures Bracket(name) + tail == [OPEN, QUOTE] + (Doubled(name) + ([QUOTE, CLOSE] + tail))
  {
  }

  /** Two texts that begin with a bracketed name begin with the same one. */
  lemma BracketUnique(a: bytes, x: bytes, b: bytes, y: bytes)
    requires Bracket(a) + x == Bracket(b) + y
    ensures a == b && x == y
  {
    BracketSplit(a, x);
    BracketSplit(b, y);
    var all := Bracket(a) + x;
    assert all[2..] == Doubled(a) + ([QUOTE, CLOSE] + x) == Doubled(b) + ([QUOTE, CLOSE] + y);
    DoubledAligned(a, [QUOTE, CLOSE] + x, b, y);
    NextByte(b[|a|..], y, [QUOTE, CLOSE] + x);
    assert ([QUOTE, CLOSE] + x)[2..] == x;
  }

  /** Names read so far, when the text is a printed list of at least as many, are its first. */
  lemma {:induction false} BracketsAligned(read: seq<bytes>, left: bytes, names: seq<bytes>)
    requires |read| <= |names| && Brackets(read) + left == Brackets(names)
    ensures read <= names && left == Brackets(names[|read|..])
    decreases |read|
  {
    hide Bracket;
    if read == [] {
      assert Brackets(read) + left == left && names[0..] == names;
    } else {
      Regroup(Bracket(read[0]), Brackets(read[1..]), left);
      BracketUnique(read[0], Brackets(read[1..]) + left, names[0], Brackets(names[1..]));
      BracketsAligned(read[1..], left, names[1..]);
      TailOf(read, names);
    }
  }

  lemma {:induction false} BracketsAppend(names: seq<bytes>, name: bytes)
    ensures Brackets(names + [name]) == Brackets(names) + Bracket(name)
  {
    if names == [] {
      assert names + [name] == [name] && [name][1..] == [];
    } else {
      BracketsAppend(names[1..], name);
      assert (names + [name])[1..] == names[1..] + [name];
    }
  }

  lemma PrintStarts(names: seq<bytes>)
    requires names != []
    ensures var text := Brackets(names);
      |text| >= 2 && text[..2] == [OPEN, QUOTE] && text[2..] == Doubled(names[0]) + ([QUOTE, CLOSE] + Brackets(names[1..]))
  {
    BracketSplit(names[0], Brackets(names[1..]));
  }

  /** What is left to read of a printed selector is the printing of its other names. */
  lemma LeftToRead(value: bytes, root: bytes, count: nat, read: seq<bytes>, rest: bytes, names: seq<bytes>)
    requires value == root + Brackets(read) + rest && |read| <= count == |names| && value == Print(root, names)
    ensures read <= names && rest == Brackets(names[|read|..])
  {
    hide Brackets;
    Regroup(root, Brackets(read), rest);
    CancelFront(root, Brackets(read) + rest, Brackets(names));
    BracketsAligned(read, rest, names);
  }

  ghost predicate Printable(value: bytes, root: bytes, count: nat) {
    exists names :: |names| == count && value == Print(root, names)
  }

  lemma Stuck(value: bytes, root: bytes, count: nat, read: seq<bytes>, rest: bytes)
    requires value == root + Brackets(read) + rest && |read| <= count
    requires |read| == count ==> rest != []
    requires |read| == count || |rest| < 2 || rest[..2] != [OPEN, QUOTE]
      || forall name: bytes, tail: bytes :: rest[2..] != Doubled(name) + ([QUOTE, CLOSE] + tail)
    ensures !Printable(value, root, count)
  {
    if names :| |names| == count && value == Print(root, names) {
      LeftToRead(value, root, count, read, rest, names);
      if |read| < count {
        PrintStarts(names[|read|..]);
      }
      assert false;
    }
  }

  /**
    The parser: it accepts exactly the printed selectors with the root and the number
    of names asked for, and returns their names.
  */
  method Parse(value: bytes, root: bytes, count: nat) returns (result: Option<seq<bytes>>)
    ensures result.Some? ==> |result.value| == count && value == Print(root, result.value)
    ensures result.None? ==> !Printable(value, root, count)
  {
    hide Brackets, Doubled;
    if !(root <= value) {
      NotPrintable(value, root, count);
      return None;
    }
    var rest, names: seq<bytes> := value[|root|..], [];
    NoBrackets(root, rest);
    while |rest| > 0 && |names| < count
      invariant |names| <= count && value == root + Brackets(names) + rest
      decreases count - |names|
    {
      if |rest| < 2 || rest[..2] != [OPEN, QUOTE] {
        Stuck(value, root, count, names, rest);
        return None;
      }
      var taken := TakeName(rest[2..]);
      if taken.None? {
        Stuck(value, root, count, names, rest);
        return None;
      }
      TookName(value, root, names, rest, taken.value.0, taken.value.1);
      names := names + [taken.value.0];
      rest := taken.value.1;
    }
    if |rest| == 0 && |names| == count {
      assert value == Print(root, names);
      return Some(names);
    }
    Stuck(value, root, count, names, rest);
    return None;
  }

  lemma NotPrintable(value: bytes, root: bytes, count: nat)
    requires !(root <= value)
    ensures !Printable(value, root, count)
  {
  }

  lemma NoBrackets(root: bytes, rest: bytes)
    ensures root + Brackets([]) + rest == root + rest
  {
  }

  lemma TookName(value: bytes, root: bytes, names: seq<bytes>, rest: bytes, name: bytes, tail: bytes)
    requires value == root + Brackets(names) + rest && |rest| >= 2 && rest[..2] == [OPEN, QUOTE]
    requires rest[2..] == Doubled(name) + ([QUOTE, CLOSE] + tail)
    ensures value == root + Brackets(names + [name]) + tail
  {
    BracketsAppend(names, name);
    BracketSplit(name, tail);
    assert rest == [OPEN, QUOTE] + rest[2..] == Bracket(name) + tail;
  }

  /** Parsing what was printed gives the names back. */
  method RoundTrip(root: bytes, names: seq<bytes>) returns (result: Option<seq<bytes>>)
    ensures result == Some(names)
  {
    result := Parse(Print(root, names), root, |names|);
    if result.Some? {
      PrintInjective(root, names, result.value);
    }
  }

  /** Different lists of names, of whatever lengths, print differently. */
  lemma PrintInjective(root: bytes, a: seq<bytes>, b: seq<bytes>)
    requires Print(root, a) == Print(root, b)
    ensures a == b
  {
    hide Brackets;
    if |a| <= |b| { ReadsTheSame(root, a, b); } else { ReadsTheSame(root, b, a); }
  }

  lemma ReadsTheSame(root: bytes, a: seq<bytes>, b: seq<bytes>)
    requires Print(root, a) == Print(root, b) && |a| <= |b|
    ensures a == b
  {
    hide Brackets;
    assert Print(root, a) == root + Brackets(a) + [];
    LeftToRead(Print(root, a), root, |b|, a, [], b);
    if b[|a|..] != [] { PrintStarts(b[|a|..]); }
  }
}
