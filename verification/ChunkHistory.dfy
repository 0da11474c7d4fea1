/**
  Reassembly over whole runs: what comes out is determined by each response's
  own chunks, however the chunks of different responses interleave.
*/
module ChunkHistory {
  import opened Bytes
  import opened ChunkSpec

  datatype Arrival = Arrival(frame: Frame, mode: DecodeMode)

  // ----- what should happen, told from the arrivals alone

  /** The frames of the key since the last one that was not marked as chunked, newest last. */
  ghost function Open(arrivals: seq<Arrival>, key: Key): seq<Arrival> {
    if arrivals == [] then []
    else
      var before, last := arrivals[..|arrivals| - 1], arrivals[|arrivals| - 1];
      if last.frame.key != key then Open(before, key)
      else if last.frame.More() then Open(before, key) + [last]
      else []
  }

  ghost function Join(arrivals: seq<Arrival>): bytes {
    if arrivals == [] then [] else Join(arrivals[..|arrivals| - 1]) + arrivals[|arrivals| - 1].frame.body
  }

  ghost function AllFlags(arrivals: seq<Arrival>): bv8 {
    if arrivals == [] then 0 else Merged(AllFlags(arrivals[..|arrivals| - 1]), arrivals[|arrivals| - 1].frame.flags)
  }

  /** The key's frames, in arrival order. */
  ghost function Of(arrivals: seq<Arrival>, key: Key): seq<Arrival> {
    if arrivals == [] then []
    else
      var before, last := arrivals[..|arrivals| - 1], arrivals[|arrivals| - 1];
      Of(before, key) + if last.frame.key == key then [last] else []
  }

  // ----- what does happen

  ghost function After(start: Assembly, arrivals: seq<Arrival>): Assembly {
    if arrivals == [] then start
    else
      var last := arrivals[|arrivals| - 1];
      After(start, arrivals[..|arrivals| - 1]).Receive(last.frame, last.mode).assembly
  }

  ghost function OutcomeOf(start: Assembly, arrivals: seq<Arrival>): Outcome
    requires arrivals != []
  {
    var last := arrivals[|arrivals| - 1];
    After(start, arrivals[..|arrivals| - 1]).Receive(last.frame, last.mode).outcome
  }

  /** No frame was refused: a refusal ends the connection. */
  ghost predicate Accepted(start: Assembly, arrivals: seq<Arrival>) {
    arrivals != [] ==> Accepted(start, arrivals[..|arrivals| - 1]) && !OutcomeOf(start, arrivals).Refused?
  }

  /** The bodies of the key's completed responses, in order of completion, end to end. */
  ghost function Delivered(start: Assembly, arrivals: seq<Arrival>, key: Key): bytes {
    if arrivals == [] then []
    else
      var outcome := OutcomeOf(start, arrivals);
      Delivered(start, arrivals[..|arrivals| - 1], key)
      + if outcome.Complete? && outcome.key == key then outcome.body else []
  }

  // ----- refinement

  ghost predicate StreamIs(s: Stream, chunks: seq<Arrival>) {
    && chunks != [] && s.data == Join(chunks) && s.frames == |chunks| && s.flags == AllFlags(chunks)
    && (forall i :: 0 <= i < |chunks| ==> chunks[i].mode == s.mode)
    && forall i :: 0 <= i < |chunks| ==> Stable(chunks[i].frame.flags) == Stable(s.flags)
  }

  ghost predicate Tracks(a: Assembly, arrivals: seq<Arrival>) {
    forall k :: if k in a.streams then StreamIs(a.streams[k], Open(arrivals, k)) else Open(arrivals, k) == []
  }

  lemma StableOr(a: bv8, b: bv8)
    requires Stable(a) == Stable(b)
    ensures Stable(Merged(a, b)) == Stable(a) == Stable(Merged(a, b) & !MORE_CHUNKS)
  {
  }

  lemma OrLaws(a: bv8)
    ensures Merged(0, a) == a && Merged(a, a) == a
  {
  }

  lemma Appended<T>(s: seq<T>, x: T)
    ensures (s + [x])[..|s + [x]| - 1] == s && (s + [x])[|s + [x]| - 1] == x
  {
  }

  lemma StreamBegins(first: Arrival)
    ensures StreamIs(Stream(first.frame.flags, [], 0, first.mode).Grown(first.frame), [] + [first])
  {
    hide Stable;
    var none: seq<Arrival> := [];
    Appended(none, first);
    OrLaws(first.frame.flags);
    assert Join(none) == [] && AllFlags(none) == 0;
  }

  lemma StreamGrows(s: Stream, chunks: seq<Arrival>, last: Arrival)
    requires StreamIs(s, chunks) && Stable(s.flags) == Stable(last.frame.flags) && s.mode == last.mode
    ensures StreamIs(s.Grown(last.frame), chunks + [last])
  {
    hide Stable, Join, AllFlags, Merged;
    StableOr(s.flags, last.frame.flags);
    JoinedNext(chunks, last);
    var grown, t := chunks + [last], s.Grown(last.frame);
    forall i | 0 <= i < |grown| ensures grown[i].mode == t.mode && Stable(grown[i].frame.flags) == Stable(t.flags) {
      if i < |chunks| { assert grown[i] == chunks[i]; }
    }
  }

  lemma JoinedNext(chunks: seq<Arrival>, last: Arrival)
    ensures Join(chunks + [last]) == Join(chunks) + last.frame.body
    ensures AllFlags(chunks + [last]) == Merged(AllFlags(chunks), last.frame.flags)
  {
    Appended(chunks, last);
  }

  /** A chunk that its stream does not refuse extends it. */
  lemma ChunkExtends(a: Assembly, arrivals: seq<Arrival>, last: Arrival)
    requires Tracks(a, arrivals)
    requires !a.ChunkRefusal(last.frame, last.mode, a.StreamFor(last.frame, last.mode)).Refused?
    ensures var s, f := a.StreamFor(last.frame, last.mode), last.frame;
      StreamIs(s.Grown(f), Open(arrivals, f.key) + [last])
  {
    hide Open, StreamIs, Stable, Join, AllFlags;
    if last.frame.key in a.streams {
      StreamGrows(a.streams[last.frame.key], Open(arrivals, last.frame.key), last);
    } else {
      StreamBegins(last);
    }
  }

  /** The response that the last frame completes, as told from the arrivals alone. */
  ghost predicate CompletesOwn(outcome: Outcome, arrivals: seq<Arrival>, last: Arrival) {
    var chunks := Open(arrivals, last.frame.key) + [last];
    && outcome == Complete(last.frame.key, AllFlags(chunks) & !MORE_CHUNKS, Join(chunks), last.mode)
    && (forall i :: 0 <= i < |chunks| ==> chunks[i].mode == last.mode)
    && forall i :: 0 <= i < |chunks| ==> Stable(chunks[i].frame.flags) == Stable(outcome.flags)
  }

  predicate OneBit(m: bv8) {
    m in {0x01, 0x02, 0x04, 0x08, 0x10, 0x20, 0x40, 0x80}
  }

  predicate Has(flags: bv8, m: bv8) {
    flags & m != 0
  }

  ghost predicate SomeHas(chunks: seq<Arrival>, m: bv8) {
    exists i :: 0 <= i < |chunks| && Has(chunks[i].frame.flags, m)
  }

  lemma BitOfOr(a: bv8, b: bv8, m: bv8)
    requires OneBit(m)
    ensures Has(Merged(a, b), m) <==> Has(a, m) || Has(b, m)
    ensures Has(a & !MORE_CHUNKS, m) <==> m != 0x20 && Has(a, m)
  {
    if m == 0x01 || m == 0x02 {
    } else if m == 0x04 || m == 0x08 {
    } else if m == 0x10 || m == 0x20 {
    }
  }

  /** A bit is set among all flags exactly when it is set in one of the frames. */
  lemma {:induction false} AnyHasBit(chunks: seq<Arrival>, m: bv8)
    requires OneBit(m)
    ensures Has(AllFlags(chunks), m) <==> SomeHas(chunks, m)
  {
    hide Merged, OneBit, AllFlags, Has;
    if chunks == [] {
      NoFlags(m);
    } else {
      var before, last := chunks[..|chunks| - 1], chunks[|chunks| - 1];
      assert chunks == before + [last];
      AnyHasBit(before, m);
      JoinedNext(before, last);
      BitOfOr(AllFlags(before), last.frame.flags, m);
      if i :| 0 <= i < |before| && Has(before[i].frame.flags, m) { assert chunks[i] == before[i]; }
      if i :| 0 <= i < |chunks| && Has(chunks[i].frame.flags, m) && i < |before| { assert before[i] == chunks[i]; }
    }
  }

  lemma NoFlags(m: bv8)
    ensures !Has(AllFlags([]), m)
  {
  }

  /**
    A completed response has every flag that one of its frames has, more-chunks
    excepted; trace, custom payload and warning are those of each of its frames.
  */
  lemma CompletedFlags(outcome: Outcome, arrivals: seq<Arrival>, last: Arrival, m: bv8)
    requires CompletesOwn(outcome, arrivals, last) && OneBit(m)
    ensures var chunks := Open(arrivals, last.frame.key) + [last];
      && (Has(outcome.flags, m) <==> m != 0x20 && SomeHas(chunks, m))
      && forall i :: 0 <= i < |chunks| ==> SameBits(chunks[i].frame.flags, outcome.flags)
  {
    hide Open, Join, AllFlags, Stable, SameBits, OneBit, Has, Merged, SomeHas;
    var chunks := Open(arrivals, last.frame.key) + [last];
    AnyHasBit(chunks, m);
    BitOfOr(AllFlags(chunks), 0, m);
    assert outcome.flags == AllFlags(chunks) & !MORE_CHUNKS;
    assert Has(outcome.flags, m) <==> m != 0x20 && Has(AllFlags(chunks), m);
    forall i | 0 <= i < |chunks| ensures SameBits(chunks[i].frame.flags, outcome.flags) {
      FlagsAreBits(chunks[i].frame.flags, outcome.flags);
    }
  }

  lemma WholeCompletes(arrivals: seq<Arrival>, last: Arrival)
    requires Open(arrivals, last.frame.key) == [] && !last.frame.More()
    ensures CompletesOwn(Complete(last.frame.key, last.frame.flags, last.frame.body, last.mode), arrivals, last)
  {
    var chunks := [last];
    Appended([], last);
    assert Open(arrivals, last.frame.key) + [last] == chunks;
    assert Join([]) == [] && Join(chunks) == last.frame.body;
    OrLaws(last.frame.flags);
    NotMore(last.frame.flags);
    assert AllFlags(chunks) == last.frame.flags;
  }

  lemma NotMore(flags: bv8)
    requires flags & MORE_CHUNKS == 0
    ensures flags & !MORE_CHUNKS == flags
  {
  }

  lemma Step(a: Assembly, arrivals: seq<Arrival>, last: Arrival)
    requires Tracks(a, arrivals)
    ensures var r := a.Receive(last.frame, last.mode);
      !r.outcome.Refused?
      ==> && Tracks(r.assembly, arrivals + [last])
          && (last.frame.More() <==> r.outcome == Waiting)
          && (!last.frame.More() ==> CompletesOwn(r.outcome, arrivals, last))
  {
    hide StreamIs, Join, AllFlags, CompletesOwn;
    var f, r := last.frame, a.Receive(last.frame, last.mode);
    Appended(arrivals, last);
    if !r.outcome.Refused? {
      if f.key !in a.streams && !f.More() {
        WholeCompletes(arrivals, last);
      } else {
        ChunkExtends(a, arrivals, last);
        if !f.More() { ChunksComplete(a, arrivals, last); }
      }
    }
  }

  lemma ChunksComplete(a: Assembly, arrivals: seq<Arrival>, last: Arrival)
    requires Tracks(a, arrivals) && !last.frame.More()
    requires !a.ChunkRefusal(last.frame, last.mode, a.StreamFor(last.frame, last.mode)).Refused?
    ensures var s := a.StreamFor(last.frame, last.mode);
      CompletesOwn(
        Complete(last.frame.key, s.Grown(last.frame).flags & !MORE_CHUNKS, s.Grown(last.frame).data, last.mode), arrivals, last)
  {
    hide Open, Join, AllFlags;
    var s := a.StreamFor(last.frame, last.mode);
    ChunkExtends(a, arrivals, last);
    StableOr(s.flags, last.frame.flags);
  }

  /**
    In every run without a refusal, the open streams are those chunks that have not
    been completed, and a frame that ends a response completes it with exactly the
    chunks of its own key since the last completion, in arrival order.
  */
  lemma {:induction false} Reassembly(maxBytes: int, maxFrames: int, arrivals: seq<Arrival>)
    requires Accepted(NewAssembly(maxBytes, maxFrames), arrivals)
    ensures Tracks(After(NewAssembly(maxBytes, maxFrames), arrivals), arrivals)
    ensures arrivals != []
      ==> var before, last := arrivals[..|arrivals| - 1], arrivals[|arrivals| - 1];
          var outcome := OutcomeOf(NewAssembly(maxBytes, maxFrames), arrivals);
          && (last.frame.More() <==> outcome == Waiting)
          && (!last.frame.More() ==> CompletesOwn(outcome, before, last))
  {
    hide StreamIs, CompletesOwn, Assembly.Receive;
    if arrivals != [] {
      var before, last := arrivals[..|arrivals| - 1], arrivals[|arrivals| - 1];
      Reassembly(maxBytes, maxFrames, before);
      Step(After(NewAssembly(maxBytes, maxFrames), before), before, last);
      assert before + [last] == arrivals;
    }
  }

  /** What one frame adds to the key's delivered and open bytes. */
  ghost predicate Balanced(arrivals: seq<Arrival>, outcome: Outcome, key: Key)
    requires arrivals != []
  {
    var before, last := arrivals[..|arrivals| - 1], arrivals[|arrivals| - 1];
    (if outcome.Complete? && outcome.key == key then outcome.body else []) + Join(Open(arrivals, key))
    == Join(Open(before, key)) + if last.frame.key == key then last.frame.body else []
  }

  lemma StepBalances(arrivals: seq<Arrival>, outcome: Outcome, key: Key)
    requires arrivals != []
    requires var before, last := arrivals[..|arrivals| - 1], arrivals[|arrivals| - 1];
      && (last.frame.More() <==> outcome == Waiting)
      && (!last.frame.More() ==> CompletesOwn(outcome, before, last))
    ensures Balanced(arrivals, outcome, key)
  {
    hide AllFlags;
    var before, last := arrivals[..|arrivals| - 1], arrivals[|arrivals| - 1];
    Appended(Open(before, key), last);
  }

  lemma OfGrows(arrivals: seq<Arrival>, key: Key)
    requires arrivals != []
    ensures var before, last := arrivals[..|arrivals| - 1], arrivals[|arrivals| - 1];
      Join(Of(arrivals, key)) == Join(Of(before, key)) + if last.frame.key == key then last.frame.body else []
  {
    var before, last := arrivals[..|arrivals| - 1], arrivals[|arrivals| - 1];
    Appended(Of(before, key), last);
    assert Of(before, key) + [] == Of(before, key);
  }

  /** Nothing is lost, repeated or mixed in: what was delivered and what is open are the key's own bytes. */
  lemma {:induction false} Conservation(maxBytes: int, maxFrames: int, arrivals: seq<Arrival>, key: Key)
    requires Accepted(NewAssembly(maxBytes, maxFrames), arrivals)
    ensures Delivered(NewAssembly(maxBytes, maxFrames), arrivals, key) + Join(Open(arrivals, key)) == Join(Of(arrivals, key))
  {
    hide StreamIs, Assembly.Receive, CompletesOwn, Tracks, After, Open, Of, Join, Accepted, OutcomeOf;
    var start := NewAssembly(maxBytes, maxFrames);
    if arrivals == [] {
      NothingYet(key);
    } else {
      var before := arrivals[..|arrivals| - 1];
      AcceptedBefore(start, arrivals);
      Reassembly(maxBytes, maxFrames, arrivals);
      StepBalances(arrivals, OutcomeOf(start, arrivals), key);
      OfGrows(arrivals, key);
      Conservation(maxBytes, maxFrames, before, key);
      var outcome, delivered := OutcomeOf(start, arrivals), Delivered(start, before, key);
      var now: bytes := if outcome.Complete? && outcome.key == key then outcome.body else [];
      assert delivered + now + Join(Open(arrivals, key)) == delivered + (now + Join(Open(arrivals, key)));
    }
  }

  lemma NothingYet(key: Key)
    ensures Join(Open([], key)) == [] && Join(Of([], key)) == []
  {
  }

  lemma AcceptedBefore(start: Assembly, arrivals: seq<Arrival>)
    requires arrivals != [] && Accepted(start, arrivals)
    ensures Accepted(start, arrivals[..|arrivals| - 1])
  {
  }

  /** The frames of other responses make no difference to a response. */
  lemma {:induction false} OthersDoNotMatter(arrivals: seq<Arrival>, key: Key)
    ensures Open(Of(arrivals, key), key) == Open(arrivals, key)
  {
    if arrivals != [] {
      var before, last := arrivals[..|arrivals| - 1], arrivals[|arrivals| - 1];
      OthersDoNotMatter(before, key);
      Appended(Of(before, key), last);
      assert Of(before, key) + [] == Of(before, key);
    }
  }

  /** Throughout a run the buffered totals are the sums over the open streams and within the maxima. */
  lemma {:induction false} Accounting(maxBytes: int, maxFrames: int, arrivals: seq<Arrival>)
    ensures After(NewAssembly(maxBytes, maxFrames), arrivals).WF()
  {
    hide Assembly.Receive;
    if arrivals == [] {
      assert Sizes(map[]) == map[] && Counts(map[]) == map[];
    } else {
      var before, last := arrivals[..|arrivals| - 1], arrivals[|arrivals| - 1];
      Accounting(maxBytes, maxFrames, before);
      ReceiveKeeps(After(NewAssembly(maxBytes, maxFrames), before), last.frame, last.mode);
    }
  }
}
