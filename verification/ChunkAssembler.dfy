/**
  The response assembler in place: a list of parts per open response, which gives
  way to one growing buffer when the response gets large.
*/
module ChunkAssembler {
  import opened Bytes
  import opened ChunkSpec

  function Threshold(maxBytes: int): int {
    if maxBytes / 2 < 1 then 1 else maxBytes / 2
  }

  ghost function Concat(parts: seq<bytes>): bytes {
    if parts == [] then [] else Concat(parts[..|parts| - 1]) + parts[|parts| - 1]
  }

  lemma ConcatAppend(parts: seq<bytes>, part: bytes)
    ensures Concat(parts + [part]) == Concat(parts) + part
  {
    assert (parts + [part])[..|parts|] == parts;
  }

  lemma {:induction false} ConcatPrefix(parts: seq<bytes>, k: nat)
    requires k <= |parts|
    ensures Concat(parts[..k]) <= Concat(parts)
  {
    if k < |parts| {
      ConcatPrefix(parts[..|parts| - 1], k);
      assert parts[..|parts| - 1][..k] == parts[..k];
    } else {
      assert parts[..k] == parts;
    }
  }

  /** A copy of the parts end to end, in a buffer with some room to spare. */
  method Assembled(parts: seq<bytes>, size: nat, capacity: nat) returns (body: array<byte>)
    requires size == |Concat(parts)| <= capacity
    ensures fresh(body) && body.Length == capacity && body[..size] == Concat(parts)
  {
    body := new byte[capacity](_ => 0);
    var offset, k := 0, 0;
    while k < |parts|
      invariant k <= |parts| && offset == |Concat(parts[..k])| <= size
      invariant body[..offset] == Concat(parts[..k])
    {
      ghost var before := body[..offset];
      ConcatPrefix(parts, k + 1);
      assert parts[..k + 1] == parts[..k] + [parts[k]];
      ConcatAppend(parts[..k], parts[k]);
      WriteAt(body, offset, parts[k]);
      offset := offset + |parts[k]|;
      k := k + 1;
    }
    assert parts[..k] == parts;
  }

  method WriteAt(a: array<byte>, offset: nat, part: bytes)
    requires offset + |part| <= a.Length
    modifies a
    ensures a[..offset + |part|] == old(a[..offset]) + part
  {
    forall i | 0 <= i < |part| { a[offset + i] := part[i]; }
  }

  /**
    One response being received. Until the buffer exists, `parts` holds its chunks;
    `allocations` counts the buffers made for it.
  */
  class ChunkState {
    var flags: bv8
    var mode: DecodeMode
    var parts: seq<bytes>
    var body: array?<byte>
    var used: nat
    var size: nat
    var frames: nat
    ghost var allocations: nat

    constructor (flags: bv8, mode: DecodeMode)
      ensures this.flags == flags && this.mode == mode && parts == [] && body == null
      ensures size == 0 && frames == 0 && allocations == 0
    {
      this.flags, this.mode, parts, body, used, size, frames, allocations := flags, mode, [], null, 0, 0, 0, 0;
    }

    /** The state holds this stream, in a buffer no larger than a response may be. */
    ghost predicate Holds(s: Stream, maxBytes: int)
      reads this, body
    {
      && flags == s.flags && mode == s.mode && frames == s.frames && size == |s.data| <= maxBytes
      && Stores(s.data, maxBytes)
      && (body == null <==> size < Threshold(maxBytes))
    }

    ghost predicate Stores(data: bytes, maxBytes: int)
      reads this, body
    {
      && (body == null ==> Concat(parts) == data && allocations == 0)
      && (body != null ==> used == |data| && BufferOk(data, maxBytes))
    }

    /** A second buffer is as large as a response may be, so there is no third. */
    ghost predicate BufferOk(data: bytes, maxBytes: int)
      requires body != null
      reads this, body
    {
      && |data| <= body.Length <= maxBytes && body[..|data|] == data
      && 1 <= allocations <= 2
      && (allocations == 1 ==> body.Length >= maxBytes - 1 && body.Length > 0)
      && (allocations == 2 ==> body.Length == maxBytes)
    }

    /** The parts give way to a buffer of twice their size, or of the largest size. */
    method Compact(maxBytes: int, ghost data: bytes)
      requires body == null && Concat(parts) == data && size == |data| <= maxBytes && allocations == 0
      requires size >= Threshold(maxBytes)
      modifies this`body, this`used, this`parts, this`allocations
      ensures body != null && fresh(body) && used == size && BufferOk(data, maxBytes)
    {
      var capacity := size;
      if capacity <= maxBytes / 2 {
        capacity := capacity * 2;
      } else {
        capacity := maxBytes;
      }
      body := Assembled(parts, size, capacity);
      used := size;
      parts := [];
      allocations := 1;
    }

    /** Append to the buffer, moving to a larger one when it is full. */
    method Extend(next: bytes, maxBytes: int, ghost data: bytes)
      requires body != null && used == |data| && BufferOk(data, maxBytes) && |next| <= maxBytes - |data|
      modifies this`body, this`used, this`allocations, body
      ensures body != null && (body == old(body) || fresh(body))
      ensures used == |data + next| && BufferOk(data + next, maxBytes)
      ensures allocations == old(allocations) <==> body == old(body)
    {
      var required := used + |next|;
      if required > body.Length {
        var capacity := maxBytes;
        if body.Length <= maxBytes / 2 {
          capacity := body.Length * 2;
        }
        if capacity < required {
          capacity := required;
        }
        if capacity > maxBytes {
          capacity := maxBytes;
        }
        Grow(capacity);
      }
      WriteAt(body, used, next);
      used := required;
    }

    method Grow(capacity: nat)
      requires body != null && used <= body.Length <= capacity
      modifies this`body, this`allocations
      ensures body != null && fresh(body) && body.Length == capacity
      ensures body[..used] == old(body[..used]) && allocations == old(allocations) + 1
    {
      var grown := new byte[capacity](_ => 0);
      forall i | 0 <= i < used { grown[i] := body[i]; }
      body := grown;
      allocations := allocations + 1;
    }

    method Store(next: bytes, maxBytes: int, ghost data: bytes)
      requires Stores(data, maxBytes) && |next| <= maxBytes - |data|
      modifies this`body, this`used, this`parts, this`allocations, body
      ensures Stores(data + next, maxBytes) && (body == null <==> old(body) == null)
      ensures body == old(body) || (body != null && fresh(body))
    {
      hide ChunkState.BufferOk;
      if body != null {
        Extend(next, maxBytes, data);
      } else {
        ConcatAppend(parts, next);
        parts := parts + [next];
      }
    }

    method Count(frame: Frame, maxBytes: int, ghost data: bytes)
      requires Stores(data, maxBytes)
      modifies this`flags, this`size, this`frames
      ensures Stores(data, maxBytes)
      ensures flags == Merged(old(flags), frame.flags) && size == old(size) + |frame.body| && frames == old(frames) + 1
    {
      flags := Merged(flags, frame.flags);
      size := size + |frame.body|;
      frames := frames + 1;
    }

    method CompactLarge(maxBytes: int, ghost data: bytes)
      requires Stores(data, maxBytes) && size == |data| <= maxBytes
      requires body != null ==> size >= Threshold(maxBytes)
      modifies this`body, this`used, this`parts, this`allocations
      ensures Stores(data, maxBytes) && (body == null <==> size < Threshold(maxBytes))
      ensures body == old(body) || (body != null && fresh(body))
    {
      hide ChunkState.BufferOk;
      if body == null && size >= Threshold(maxBytes) {
        Compact(maxBytes, data);
      }
    }

    method TakeBytes(frame: Frame, maxBytes: int, ghost s: Stream)
      requires Stores(s.data, maxBytes) && size == |s.data| && |frame.body| <= maxBytes - |s.data|
      requires flags == s.flags && frames == s.frames
      requires body != null ==> size >= Threshold(maxBytes)
      modifies this`body, this`used, this`parts, this`allocations, this`flags, this`size, this`frames, body
      ensures var t := s.Grown(frame);
        && Stores(t.data, maxBytes) && (body == null <==> size < Threshold(maxBytes))
        && size == |t.data| <= maxBytes && flags == t.flags && frames == t.frames && t.mode == s.mode
      ensures body == old(body) || (body != null && fresh(body))
    {
      hide ChunkState.Stores, ChunkState.BufferOk, Threshold;
      Store(frame.body, maxBytes, s.data);
      Count(frame, maxBytes, s.data + frame.body);
      CompactLarge(maxBytes, s.data + frame.body);
    }

    /** One more chunk, which the caller found to fit. */
    method Take(frame: Frame, maxBytes: int, ghost s: Stream)
      requires Holds(s, maxBytes) && |frame.body| <= maxBytes - |s.data|
      modifies this`body, this`used, this`parts, this`allocations, this`flags, this`size, this`frames, body
      ensures Holds(s.Grown(frame), maxBytes)
      ensures body == old(body) || (body != null && fresh(body))
    {
      hide ChunkState.Holds, ChunkState.Stores, Threshold, Stream.Grown;
      HeldParts(s, maxBytes);
      TakeBytes(frame, maxBytes, s);
      IsHeld(s.Grown(frame), maxBytes);
    }

    lemma HeldParts(s: Stream, maxBytes: int)
      requires Holds(s, maxBytes)
      ensures flags == s.flags && mode == s.mode && frames == s.frames && size == |s.data|
      ensures Stores(s.data, maxBytes) && (body != null ==> size >= Threshold(maxBytes))
    {
      hide ChunkState.Stores, Threshold;
    }

    lemma IsHeld(s: Stream, maxBytes: int)
      requires flags == s.flags && mode == s.mode && frames == s.frames && size == |s.data| <= maxBytes
      requires Stores(s.data, maxBytes) && (body == null <==> size < Threshold(maxBytes))
      ensures Holds(s, maxBytes)
    {
      hide ChunkState.Stores, Threshold;
    }

    /** The whole body, copied out of the parts if there is no buffer yet. */
    method Finish(maxBytes: int, ghost s: Stream) returns (whole: bytes)
      requires Holds(s, maxBytes)
      ensures whole == s.data
    {
      if body != null {
        whole := body[..used];
      } else {
        var joined := Assembled(parts, size, size);
        whole := joined[..];
      }
    }
  }
  // ----- all open responses

  ghost function StateSet(chunks: map<Key, ChunkState>): set<ChunkState> {
    set k | k in chunks :: chunks[k]
  }

  ghost function Buffers(chunks: map<Key, ChunkState>): set<array<byte>>
    reads StateSet(chunks)
  {
    set k | k in chunks && (assert chunks[k] in StateSet(chunks); chunks[k].body != null) :: chunks[k].body
  }

  /** Every open response is held by a state, and no two share a state or a buffer. */
  ghost predicate HoldsAll(chunks: map<Key, ChunkState>, streams: map<Key, Stream>, maxBytes: int)
    reads StateSet(chunks), Buffers(chunks)
  {
    && chunks.Keys == streams.Keys
    && (forall k :: k in chunks ==>
          assert chunks[k] in StateSet(chunks);
          assert chunks[k].body != null ==> chunks[k].body in Buffers(chunks);
          chunks[k].Holds(streams[k], maxBytes))
    && (forall k, l :: k in chunks && l in chunks && k != l ==>
          assert chunks[k] in StateSet(chunks) && chunks[l] in StateSet(chunks);
          && chunks[k] != chunks[l]
          && (chunks[k].body != null ==> chunks[k].body != chunks[l].body))
  }

  /** A chunk for one open response; the others are as they were. */
  method TakeOne(chunks: map<Key, ChunkState>, key: Key, frame: Frame, maxBytes: int, ghost streams: map<Key, Stream>)
    requires HoldsAll(chunks, streams, maxBytes) && key in chunks
    requires |frame.body| <= maxBytes - |streams[key].data|
    modifies chunks[key], chunks[key].body
    ensures var s := streams[key];
      chunks[key].Holds(s.Grown(frame), maxBytes)
    ensures chunks[key].body == old(chunks[key].body) || (chunks[key].body != null && fresh(chunks[key].body))
    ensures forall k :: k in chunks && k != key ==> chunks[k].Holds(streams[k], maxBytes)
    ensures forall k :: k in chunks && k != key ==> chunks[k] != chunks[key] && chunks[k].body == old(chunks[k].body)
  {
    hide ChunkState.BufferOk, Concat, Threshold;
    chunks[key].Take(frame, maxBytes, streams[key]);
  }

  method TakeChunk(chunks: map<Key, ChunkState>, key: Key, frame: Frame, maxBytes: int, ghost streams: map<Key, Stream>)
    requires HoldsAll(chunks, streams, maxBytes) && key in chunks
    requires |frame.body| <= maxBytes - |streams[key].data|
    modifies chunks[key], chunks[key].body
    ensures chunks[key].body == old(chunks[key].body) || (chunks[key].body != null && fresh(chunks[key].body))
    ensures var s := streams[key];
      HoldsAll(
        chunks,
        streams[key := s.Grown(frame)],
        maxBytes)
  {
    hide ChunkState.Holds;
    TakeOne(chunks, key, frame, maxBytes, streams);
  }
  /** A response's first chunk opens an empty state for it. */
  method OpenFor(chunks: map<Key, ChunkState>, frame: Frame, mode: DecodeMode, maxBytes: int, ghost streams: map<Key, Stream>)
    returns (after: map<Key, ChunkState>)
    requires HoldsAll(chunks, streams, maxBytes) && frame.key !in chunks && maxBytes > 0
    ensures frame.key in after && fresh(after[frame.key]) && after[frame.key].body == null
    ensures after == chunks[frame.key := after[frame.key]]
    ensures HoldsAll(after, streams[frame.key := Stream(frame.flags, [], 0, mode)], maxBytes)
  {
    hide ChunkState.BufferOk;
    var state := new ChunkState(frame.flags, mode);
    after := chunks[frame.key := state];
  }

  lemma HeldStream(chunks: map<Key, ChunkState>, streams: map<Key, Stream>, maxBytes: int, key: Key)
    requires HoldsAll(chunks, streams, maxBytes)
    ensures key in chunks <==> key in streams
    ensures key in chunks
      ==> var state := chunks[key];
          && state.Holds(streams[key], maxBytes) && state in StateSet(chunks)
          && (state.body != null ==> state.body in Buffers(chunks))
          && state.flags == streams[key].flags && state.mode == streams[key].mode
          && state.size == |streams[key].data| <= maxBytes && state.frames == streams[key].frames
          && HoldsAll(chunks - {key}, streams - {key}, maxBytes)
  {
  }

  /** Each open response has used at most two buffers, none larger than a response may be. */
  lemma BuffersBounded(chunks: map<Key, ChunkState>, streams: map<Key, Stream>, maxBytes: int, key: Key)
    requires HoldsAll(chunks, streams, maxBytes) && key in chunks
    ensures chunks[key].allocations <= 2
    ensures chunks[key].body != null <==> |streams[key].data| >= Threshold(maxBytes)
    ensures chunks[key].body != null ==> chunks[key].body.Length <= maxBytes
  {
    assert chunks[key].Holds(streams[key], maxBytes);
  }

  /** Open the response if this is its first chunk, and take the chunk in. */
  method Admit(chunks: map<Key, ChunkState>, frame: Frame, mode: DecodeMode, maxBytes: int, ghost streams: map<Key, Stream>, ghost s: Stream)
    returns (after: map<Key, ChunkState>)
    requires HoldsAll(chunks, streams, maxBytes) && maxBytes > 0
    requires s == if frame.key in streams then streams[frame.key] else Stream(frame.flags, [], 0, mode)
    requires s.mode == mode && |frame.body| <= maxBytes - |s.data|
    modifies StateSet(chunks), Buffers(chunks)
    ensures HoldsAll(after, streams[frame.key := s.Grown(frame)], maxBytes)
  {
    hide HoldsAll, StateSet, Buffers;
    HeldStream(chunks, streams, maxBytes, frame.key);
    after := chunks;
    if frame.key !in chunks {
      after := OpenFor(chunks, frame, mode, maxBytes, streams);
    }
    ghost var begun := streams[frame.key := s];
    assert frame.key in streams ==> begun == streams;
    TakeChunk(after, frame.key, frame, maxBytes, begun);
    ghost var grown := s.Grown(frame);
    assert begun[frame.key := grown] == streams[frame.key := grown];
  }

  /** The response is complete: its body, and the responses that are still open. */
  method FinishIn(chunks: map<Key, ChunkState>, key: Key, maxBytes: int, ghost streams: map<Key, Stream>)
    returns (whole: bytes, left: map<Key, ChunkState>)
    requires HoldsAll(chunks, streams, maxBytes) && key in chunks
    ensures whole == streams[key].data && HoldsAll(left, streams - {key}, maxBytes)
  {
    hide ChunkState.BufferOk;
    whole := chunks[key].Finish(maxBytes, streams[key]);
    left := chunks - {key};
  }

  class Assembler {
    const maxBytes: int
    const maxFrames: int
    var chunks: map<Key, ChunkState>
    var bufferedBytes: int
    var bufferedFrames: int
    ghost var assembly: Assembly

    ghost predicate Mirrors()
      reads this
    {
      assembly.WF() && assembly == Assembly(maxBytes, maxFrames, assembly.streams, bufferedBytes, bufferedFrames)
    }

    ghost predicate Valid()
      reads this, StateSet(chunks), Buffers(chunks)
    {
      Mirrors() && HoldsAll(chunks, assembly.streams, maxBytes)
    }

    constructor (maxBytes: int, maxFrames: int)
      ensures Valid() && assembly == NewAssembly(maxBytes, maxFrames)
    {
      this.maxBytes, this.maxFrames, chunks, bufferedBytes, bufferedFrames := maxBytes, maxFrames, map[], 0, 0;
      assembly := NewAssembly(maxBytes, maxFrames);
      new;
      assert Sizes(map[]) == map[] && Counts(map[]) == map[];
    }

    /** Why a chunk is turned away, or `Waiting`. */
    method Refusal(frame: Frame, mode: DecodeMode) returns (refusal: Outcome)
      requires Valid()
      ensures Valid()
      ensures refusal == assembly.ChunkRefusal(frame, mode, assembly.StreamFor(frame, mode))
    {
      hide HoldsAll, Assembly.WF, Stable;
      HeldStream(chunks, assembly.streams, maxBytes, frame.key);
      var size, frames := 0, 0;
      if frame.key in chunks {
        var state := chunks[frame.key];
        if Stable(state.flags) != Stable(frame.flags) {
          return Refused(FlagsChanged);
        } else if state.mode != mode {
          return Refused(ModeChanged);
        }
        size, frames := state.size, state.frames;
      }
      if |frame.body| > maxBytes - size {
        return Refused(BodyTooLarge);
      }
      if frames >= maxFrames {
        return Refused(TooManyFrames);
      }
      if |frame.body| > maxBytes - bufferedBytes {
        return Refused(BufferedTooLarge);
      }
      if bufferedFrames >= maxFrames {
        return Refused(BufferedTooMany);
      }
      return Waiting;
    }

    ghost predicate Fits(frame: Frame, mode: DecodeMode)
      reads this
    {
      && ResponseFlagsOk(frame.flags) && 0 < maxBytes && |frame.body| <= maxBytes && 0 < maxFrames
      && !assembly.ChunkRefusal(frame, mode, assembly.StreamFor(frame, mode)).Refused?
    }

    /** The counters after a chunk that leaves its response open. */
    method CountIn(frame: Frame, mode: DecodeMode, after: map<Key, ChunkState>)
      requires Mirrors() && Fits(frame, mode) && frame.More()
      modifies this`chunks, this`bufferedBytes, this`bufferedFrames, this`assembly
      ensures Mirrors() && chunks == after && assembly == old(assembly).Receive(frame, mode).assembly
    {
      hide Assembly.WF, HoldsAll, Stable;
      ReceiveKeeps(assembly, frame, mode);
      assembly := assembly.Receive(frame, mode).assembly;
      chunks := after;
      bufferedBytes := bufferedBytes + |frame.body|;
      bufferedFrames := bufferedFrames + 1;
    }

    method EnterChunk(frame: Frame, mode: DecodeMode, after: map<Key, ChunkState>)
      requires Mirrors() && Fits(frame, mode) && frame.More()
      requires HoldsAll(after, assembly.Receive(frame, mode).assembly.streams, maxBytes)
      modifies this`chunks, this`bufferedBytes, this`bufferedFrames, this`assembly
      ensures Valid() && assembly == old(assembly).Receive(frame, mode).assembly
    {
      hide Assembler.Mirrors, Assembly.Receive, Assembler.Fits;
      CountIn(frame, mode, after);
    }

    /** The counters after the last chunk of a response that had `size` bytes in `frames` frames. */
    method CountOut(frame: Frame, mode: DecodeMode, left: map<Key, ChunkState>, size: nat, frames: nat)
      requires Mirrors() && Fits(frame, mode) && !frame.More() && frame.key in assembly.streams
      requires var s := assembly.StreamFor(frame, mode); size == |s.data| + |frame.body| && frames == s.frames + 1
      modifies this`chunks, this`bufferedBytes, this`bufferedFrames, this`assembly
      ensures Mirrors() && chunks == left && assembly == old(assembly).Receive(frame, mode).assembly
    {
      hide Assembly.WF, HoldsAll, Stable;
      ReceiveKeeps(assembly, frame, mode);
      assembly := assembly.Receive(frame, mode).assembly;
      chunks := left;
      bufferedBytes := bufferedBytes + |frame.body|;
      bufferedFrames := bufferedFrames + 1;
      bufferedBytes := bufferedBytes - size;
      bufferedFrames := bufferedFrames - frames;
    }

    method DropResponse(frame: Frame, mode: DecodeMode, left: map<Key, ChunkState>, size: nat, frames: nat)
      requires Mirrors() && Fits(frame, mode) && !frame.More() && frame.key in assembly.streams
      requires var s := assembly.StreamFor(frame, mode); size == |s.data| + |frame.body| && frames == s.frames + 1
      requires HoldsAll(left, assembly.streams - {frame.key}, maxBytes)
      modifies this`chunks, this`bufferedBytes, this`bufferedFrames, this`assembly
      ensures Valid() && assembly == old(assembly).Receive(frame, mode).assembly
    {
      hide Assembler.Mirrors, Assembler.Fits, Assembly.WF, Stable, Assembly.Receive;
      Receiving(frame, mode);
      CountOut(frame, mode, left, size, frames);
    }

    lemma Receiving(frame: Frame, mode: DecodeMode)
      requires Fits(frame, mode) && (frame.key in assembly.streams || frame.More())
      requires Mirrors()
      ensures var s, r := assembly.StreamFor(frame, mode), assembly.Receive(frame, mode);
        && maxBytes > 0 && s.mode == mode && |frame.body| <= maxBytes - |s.data|
        && s == (if frame.key in assembly.streams then assembly.streams[frame.key] else Stream(frame.flags, [], 0, mode))
        && assembly.streams[frame.key := s.Grown(frame)] - {frame.key}
           == assembly.streams - {frame.key}
        && r.outcome == (
             if frame.More() then Waiting
             else Complete(frame.key, s.Grown(frame).flags & !MORE_CHUNKS, s.Grown(frame).data, mode))
        && r.assembly.streams == (
             if frame.More() then
               assembly.streams[frame.key := s.Grown(frame)]
             else assembly.streams - {frame.key})
    {
      hide Assembly.WF, Stable;
    }

    /** A chunk that fits, and the response that it completes, if it is the last. */
    method AddChunk(frame: Frame, mode: DecodeMode) returns (outcome: Outcome)
      requires Valid() && Fits(frame, mode) && (frame.key in assembly.streams || frame.More())
      modifies this, StateSet(chunks), Buffers(chunks)
      ensures Valid() && Received(assembly, outcome) == old(assembly).Receive(frame, mode)
    {
      hide HoldsAll, Assembler.Fits, Assembly.WF, Stable, Assembly.Receive, Assembly.StreamFor, StateSet, Buffers;
      Receiving(frame, mode);
      ghost var streams, s := assembly.streams, assembly.StreamFor(frame, mode);
      ghost var grown := s.Grown(frame);
      var after := Admit(chunks, frame, mode, maxBytes, streams, s);
      if frame.More() {
        EnterChunk(frame, mode, after);
        return Waiting;
      }
      HeldStream(after, streams[frame.key := grown], maxBytes, frame.key);
      var state := after[frame.key];
      var whole, left := FinishIn(after, frame.key, maxBytes, streams[frame.key := grown]);
      outcome := Complete(frame.key, Merged(state.flags, frame.flags) & !MORE_CHUNKS, whole, state.mode);
      DropResponse(frame, mode, left, state.size, state.frames);
    }

    /** A response in one frame, alone under its key. */
    method AddWhole(frame: Frame, mode: DecodeMode) returns (outcome: Outcome)
      requires Valid()
      ensures Valid() && Received(assembly, outcome) == assembly.ReceiveWhole(frame, mode)
    {
      if |frame.body| > maxBytes - bufferedBytes {
        return Refused(BufferedTooLarge);
      }
      if bufferedFrames >= maxFrames {
        return Refused(BufferedTooMany);
      }
      return Complete(frame.key, frame.flags, frame.body, mode);
    }

    /** One frame. A refusal ends the connection, so nothing is said of the assembler after one. */
    method Add(frame: Frame, mode: DecodeMode) returns (outcome: Outcome)
      requires Valid()
      modifies this, StateSet(chunks), Buffers(chunks)
      ensures outcome == old(assembly).Receive(frame, mode).outcome
      ensures !outcome.Refused? ==> Valid() && assembly == old(assembly).Receive(frame, mode).assembly
    {
      hide HoldsAll, Assembly.WF, Stable, Assembly.ReceiveWhole, Assembly.ChunkRefusal, Assembly.StreamFor, ResponseFlagsOk, Frame.More;
      if !ResponseFlagsOk(frame.flags) {
        return Refused(UnsupportedFlags);
      }
      if maxBytes <= 0 || |frame.body| > maxBytes {
        return Refused(BodyTooLarge);
      }
      if maxFrames <= 0 {
        return Refused(FrameLimitInvalid);
      }
      HeldStream(chunks, assembly.streams, maxBytes, frame.key);
      if frame.key !in chunks && !frame.More() {
        outcome := AddWhole(frame, mode);
        return;
      }
      var refusal := Refusal(frame, mode);
      if refusal.Refused? {
        return refusal;
      }
      outcome := AddChunk(frame, mode);
    }
  }
}
