/**
  Reassembly of chunked responses, as values.

  A response may arrive in several frames that share a request, an opcode and a
  lane; chunks of different responses interleave freely. `Receive` is what one
  frame does to the responses being assembled.
*/
module ChunkSpec {
  import opened Bytes
  import opened MapSums

  const NO_REPLY: bv8 := 0x10
  const MORE_CHUNKS: bv8 := 0x20

  /** Trace, custom payload and warning: what every chunk of a response must agree on. */
  const STABLE_FLAGS: bv8 := 0x07

  /** Those, compression and more-chunks. */
  const WIRE_FLAGS: bv8 := 0x2F

  datatype Key = Key(requestID: uint64, opcode: nat, lane: nat)

  datatype DecodeMode = Generic | FlowQuery

  datatype Frame = Frame(flags: bv8, key: Key, body: bytes) {
    predicate More() {
      flags & MORE_CHUNKS != 0
    }
  }

  datatype ChunkError =
    | UnsupportedFlags
    | FlagsChanged
    | ModeChanged
    | BodyTooLarge
    | FrameLimitInvalid
    | TooManyFrames
    | BufferedTooLarge
    | BufferedTooMany

  /** A completed response is handed to the decoder with its flags, body and mode. */
  datatype Outcome =
    | Refused(error: ChunkError)
    | Waiting
    | Complete(key: Key, flags: bv8, body: bytes, mode: DecodeMode)

  datatype Stream = Stream(flags: bv8, data: bytes, frames: nat, mode: DecodeMode) {
    /** The stream with one more chunk. */
    function Grown(frame: Frame): Stream {
      Stream(Merged(flags, frame.flags), data + frame.body, frames + 1, mode)
    }
  }

  function Merged(a: bv8, b: bv8): bv8 {
    a | b
  }

  function Stable(flags: bv8): bv8 {
    flags & STABLE_FLAGS
  }

  predicate ResponseFlagsOk(flags: bv8) {
    flags & !WIRE_FLAGS == 0 && flags & NO_REPLY == 0
  }

  datatype Received = Received(assembly: Assembly, outcome: Outcome)

  datatype Assembly = Assembly(
    maxBytes: int,
    maxFrames: int,
    streams: map<Key, Stream>,
    bufferedBytes: int,
    bufferedFrames: int)
  {
    /** The counters are the sums over the open streams, and within the maxima. */
    ghost predicate WF() {
      && bufferedBytes == Sum(Sizes(streams)) && bufferedFrames == Sum(Counts(streams))
      && (streams != map[] ==> bufferedBytes <= maxBytes && bufferedFrames <= maxFrames)
      && forall k :: k in streams ==> streams[k].frames > 0
    }

    function StreamFor(frame: Frame, mode: DecodeMode): Stream {
      if frame.key in streams then streams[frame.key] else Stream(frame.flags, [], 0, mode)
    }

    function Refuse(error: ChunkError): Received {
      Received(this, Refused(error))
    }

    function Receive(frame: Frame, mode: DecodeMode): Received {
      if !ResponseFlagsOk(frame.flags) then Refuse(UnsupportedFlags)
      else if maxBytes <= 0 || |frame.body| > maxBytes then Refuse(BodyTooLarge)
      else if maxFrames <= 0 then Refuse(FrameLimitInvalid)
      else if frame.key !in streams && !frame.More() then ReceiveWhole(frame, mode)
      else ReceiveChunk(frame, mode, StreamFor(frame, mode))
    }

    function ReceiveWhole(frame: Frame, mode: DecodeMode): Received {
      if |frame.body| > maxBytes - bufferedBytes then Refuse(BufferedTooLarge)
      else if bufferedFrames >= maxFrames then Refuse(BufferedTooMany)
      else Received(this, Complete(frame.key, frame.flags, frame.body, mode))
    }

    function ReceiveChunk(frame: Frame, mode: DecodeMode, s: Stream): Received {
      var error := ChunkRefusal(frame, mode, s);
      if error.Refused? then Received(this, error)
      else
        var grown := s.Grown(frame);
        if frame.More() then
          Received(
            this.(
              streams := streams[frame.key := grown],
              bufferedBytes := bufferedBytes + |frame.body|,
              bufferedFrames := bufferedFrames + 1),
            Waiting)
        else
          Received(
            this.(
              streams := streams - {frame.key},
              bufferedBytes := bufferedBytes - |s.data|,
              bufferedFrames := bufferedFrames - s.frames),
            Complete(frame.key, grown.flags & !MORE_CHUNKS, grown.data, mode))
    }

    /** `Waiting` when the chunk fits. */
    function ChunkRefusal(frame: Frame, mode: DecodeMode, s: Stream): Outcome {
      if Stable(s.flags) != Stable(frame.flags) then Refused(FlagsChanged)
      else if s.mode != mode then Refused(ModeChanged)
      else if |frame.body| > maxBytes - |s.data| then Refused(BodyTooLarge)
      else if s.frames >= maxFrames then Refused(TooManyFrames)
      else if |frame.body| > maxBytes - bufferedBytes then Refused(BufferedTooLarge)
      else if bufferedFrames >= maxFrames then Refused(BufferedTooMany)
      else Waiting
    }
  }

  function NewAssembly(maxBytes: int, maxFrames: int): Assembly {
    Assembly(maxBytes, maxFrames, map[], 0, 0)
  }

  ghost function Sizes(streams: map<Key, Stream>): map<Key, nat> {
    map k | k in streams :: |streams[k].data|
  }

  ghost function Counts(streams: map<Key, Stream>): map<Key, nat> {
    map k | k in streams :: streams[k].frames
  }

  // ----- what a frame keeps

  /** Neither a stream's bytes nor its frames exceed those of all streams together. */
  lemma StreamWithin(a: Assembly, k: Key)
    requires a.WF() && k in a.streams
    ensures |a.streams[k].data| <= a.bufferedBytes && a.streams[k].frames <= a.bufferedFrames
  {
    SumAtLeast(Sizes(a.streams), k);
    SumAtLeast(Counts(a.streams), k);
  }

  lemma SumsSet(streams: map<Key, Stream>, k: Key, s: Stream)
    ensures Sum(Sizes(streams[k := s])) == Sum(Sizes(streams)) - (if k in streams then |streams[k].data| else 0) + |s.data|
    ensures Sum(Counts(streams[k := s])) == Sum(Counts(streams)) - (if k in streams then streams[k].frames else 0) + s.frames
  {
    hide Sum;
    SumUpdate(Sizes(streams), k, |s.data|);
    SumUpdate(Counts(streams), k, s.frames);
    assert Sizes(streams[k := s]) == Sizes(streams)[k := |s.data|];
    assert Counts(streams[k := s]) == Counts(streams)[k := s.frames];
  }

  lemma SumsDrop(streams: map<Key, Stream>, k: Key)
    ensures Sum(Sizes(streams - {k})) == Sum(Sizes(streams)) - (if k in streams then |streams[k].data| else 0)
    ensures Sum(Counts(streams - {k})) == Sum(Counts(streams)) - (if k in streams then streams[k].frames else 0)
  {
    hide Sum;
    SumWithout(Sizes(streams), k);
    SumWithout(Counts(streams), k);
    assert Sizes(streams - {k}) == Sizes(streams) - {k};
    assert Counts(streams - {k}) == Counts(streams) - {k};
  }

  /** Whatever arrives, the counters stay the sums over the open streams and within the maxima. */
  lemma ReceiveKeeps(a: Assembly, frame: Frame, mode: DecodeMode)
    requires a.WF()
    ensures a.Receive(frame, mode).assembly.WF()
  {
    hide Sum, Sizes, Counts;
    var s := a.StreamFor(frame, mode);
    SumsSet(a.streams, frame.key, s.Grown(frame));
    SumsDrop(a.streams, frame.key);
  }

  // ----- the flags, bit by bit

  /**
    Trace (0x01), custom payload (0x02), warning (0x04), compressed (0x08) and
    more-chunks (0x20) may be set in any combination, and no other bit.
  */
  predicate LegalBits(flags: bv8) {
    flags & 0x10 == 0 && flags & 0x40 == 0 && flags & 0x80 == 0
  }

  /** Alike in trace, custom payload and warning. */
  predicate SameBits(a: bv8, b: bv8) {
    a & 0x01 == b & 0x01 && a & 0x02 == b & 0x02 && a & 0x04 == b & 0x04
  }

  lemma FlagsAreBits(a: bv8, b: bv8)
    ensures ResponseFlagsOk(a) <==> LegalBits(a)
    ensures Stable(a) == Stable(b) <==> SameBits(a, b)
  {
  }

  lemma MoreIsABit(frame: Frame)
    ensures frame.More() <==> frame.flags & 0x20 != 0
  {
  }

  /**
    A frame is accepted exactly when its flags are legal, it agrees with its own
    stream in mode and in the flags that may not change, and everything buffered
    together with it is within the maxima: the limits on a single stream never
    refuse more.
  */
  lemma AcceptedWhen(a: Assembly, frame: Frame, mode: DecodeMode)
    requires a.WF()
    ensures !a.Receive(frame, mode).outcome.Refused?
      <==> && LegalBits(frame.flags)
           && (frame.key in a.streams
               ==> SameBits(a.streams[frame.key].flags, frame.flags) && a.streams[frame.key].mode == mode)
           && a.maxBytes > 0 && a.bufferedBytes + |frame.body| <= a.maxBytes
           && a.bufferedFrames < a.maxFrames
  {
    hide Sum, Sizes, Counts, ResponseFlagsOk, Stable, LegalBits, SameBits;
    FlagsAreBits(frame.flags, 0);
    if frame.key in a.streams { FlagsAreBits(a.streams[frame.key].flags, frame.flags); }
    if frame.key in a.streams { StreamWithin(a, frame.key); }
    BufferedIsNatural(a);
  }

  lemma BufferedIsNatural(a: Assembly)
    requires a.WF()
    ensures a.bufferedBytes >= 0 && a.bufferedFrames >= 0
  {
  }
}
