/**
  LoRa end to end (`lora_transport.py` over `protocol.py`): queued frames, drained chunk by chunk with
  any number of interrupted attempts, cut into arbitrary reads, deframed and reassembled.
 */
module LoraDelivery {
  import opened Common
  import opened Bytes
  import opened Frames
  import opened Reassembly
  import opened Assembler
  import opened Interleaving
  import opened SerialPipe
  import opened Deframing
  import opened ReadBoundaries
  import opened LoraTrips
  import opened LoraAirtime

  const MAX_PENDING := 8
  const TTL := 30.0

  /** What the receiver's `_handle_frame` gets out of its assembler, frame by frame. */
  ghost function Handled(s: Slots, chunks: seq<Frame>, times: seq<real>): (r: (Slots, seq<Frame>))
    requires |times| == |chunks| && Bounded(s, MAX_PENDING)
    ensures Bounded(r.0, MAX_PENDING)
  {
    if chunks == [] then (s, [])
    else
      var n := |chunks| - 1;
      var before := Handled(s, chunks[..n], times[..n]);
      AddedBounded(before.0, chunks[n], times[n], MAX_PENDING, TTL);
      var after := Added(before.0, chunks[n], times[n], MAX_PENDING, TTL);
      (after.0, before.1 + if after.1.Ok? && after.1.value.Some? then [after.1.value.value] else [])
  }

  lemma HandledNext(s: Slots, chunks: seq<Frame>, times: seq<real>, f: Frame, t: real)
    requires |times| == |chunks| && Bounded(s, MAX_PENDING)
    ensures var before := Handled(s, chunks, times);
      var after := Added(before.0, f, t, MAX_PENDING, TTL);
      Handled(s, chunks + [f], times + [t])
      == (after.0, before.1 + if after.1.Ok? && after.1.value.Some? then [after.1.value.value] else [])
  {
    hide Added, Bounded;
    assert (chunks + [f])[..|chunks|] == chunks && (times + [t])[..|times|] == times;
  }

  lemma {:induction false} HandledConcat(s: Slots, a: seq<Frame>, b: seq<Frame>, ta: seq<real>, tb: seq<real>)
    requires |ta| == |a| && |tb| == |b| && Bounded(s, MAX_PENDING)
    ensures var first := Handled(s, a, ta);
      var second := Handled(first.0, b, tb);
      Handled(s, a + b, ta + tb) == (second.0, first.1 + second.1)
    decreases |b|
  {
    hide Added, Bounded;
    var first := Handled(s, a, ta);
    if b == [] {
      assert a + b == a && ta + tb == ta;
      assert first.1 + [] == first.1;
    } else {
      var n := |b| - 1;
      assert (a + b)[..|a| + n] == a + b[..n] && (ta + tb)[..|a| + n] == ta + tb[..n];
      HandledConcat(s, a, b[..n], ta, tb[..n]);
      var mid := Handled(first.0, b[..n], tb[..n]);
      var last := Handled(first.0, b, tb);
      assert last.1 == mid.1 + last.1[|mid.1|..];
      assert first.1 + (mid.1 + last.1[|mid.1|..]) == (first.1 + mid.1) + last.1[|mid.1|..];
    }
  }

  // ----- one frame, with interrupted attempts ------------------------------------------------------------------

  /** Chunks of the frame, complete only with the last one: any mixture of partial attempts, then a full one. */
  ghost predicate CompletesLast(list: seq<Frame>, parts: seq<Frame>) {
    && list != []
    && (forall k :: 0 <= k < |list| ==> list[k] in parts)
    && Covers(list, parts)
    && (forall n :: 0 <= n < |list| ==> !Covers(list[..n], parts))
  }

  ghost predicate Prompt(times: seq<real>) {
    forall i :: 0 <= i < |times| ==> times[i] - times[0] <= TTL
  }

  /** Filing one more chunk of the only frame in flight. */
  lemma AdmitOnly(key: MessageKey, list: seq<Frame>, since: real, f: Frame, now: real)
    ensures var s := if list == [] then EMPTY else Slots(map[key := Slot(since, list)], [key]);
      && Bounded(s, MAX_PENDING)
      && Admit(s, key, f, now, MAX_PENDING)
         == Slots(map[key := Slot(if list == [] then now else since, list + [f])], [key])
  {
  }

  lemma SettleOnly(key: MessageKey, slot: Slot)
    ensures Settle(Slots(map[key := slot], [key]), key) == EMPTY
  {
  }

  lemma PruneOnly(key: MessageKey, slot: Slot, now: real)
    ensures Prune(Slots(map[key := slot], [key]), [key], now, TTL)
         == if now - slot.since > TTL then EMPTY else Slots(map[key := slot], [key])
  {
    SettleOnly(key, slot);
  }

  /** One chunk of a split frame that is alone in the assembler. */
  lemma AddOnly(job: Job, chunkSize: int, list: seq<Frame>, since: real, f: Frame, now: real)
    requires Made(job, chunkSize) && job.split && f in job.chunks
    requires forall k :: 0 <= k < |list| ==> list[k] in job.chunks
    ensures var s := if list == [] then EMPTY else Slots(map[job.key := Slot(since, list)], [job.key]);
      var slot := Slot(if list == [] then now else since, list + [f]);
      && Bounded(s, MAX_PENDING)
      && Added(s, f, now, MAX_PENDING, TTL)
         == if Covers(list + [f], job.chunks) then (EMPTY, Ok(Some(job.frame)))
            else (if now - slot.since > TTL then EMPTY else Slots(map[job.key := slot], [job.key]), Ok(None))
  {
    hide Admit, Settle, Prune, Reassembled, Covers, Segments, PeekHeader, Bounded;
    var i :| 0 <= i < |job.chunks| && job.chunks[i] == f;
    MadeHeader(job, chunkSize, i);
    AdmitOnly(job.key, list, since, f, now);
    MadeReassembles(job, chunkSize, list + [f]);
    var slot := Slot(if list == [] then now else since, list + [f]);
    SettleOnly(job.key, slot);
    PruneOnly(job.key, slot, now);
  }

  lemma MadeReassembles(job: Job, chunkSize: int, list: seq<Frame>)
    requires Made(job, chunkSize) && forall k :: 0 <= k < |list| ==> list[k] in job.chunks
    ensures Reassembled(list) == if Covers(list, job.chunks) then Ok(Some(job.frame)) else Ok(None)
  {
    hide Reassembled, Covers;
    SplitReassemble(job.frame, chunkSize, list);
  }

  /** Until it is complete, the frame waits in its slot. */
  lemma {:induction false} Waiting(job: Job, chunkSize: int, list: seq<Frame>, times: seq<real>)
    requires Made(job, chunkSize) && job.split && |times| == |list|
    requires forall k :: 0 <= k < |list| ==> list[k] in job.chunks
    requires forall n :: 0 <= n <= |list| ==> !Covers(list[..n], job.chunks)
    requires Prompt(times)
    ensures Handled(EMPTY, list, times)
         == (if list == [] then EMPTY else Slots(map[job.key := Slot(times[0], list)], [job.key]), [])
    decreases |list|
  {
    hide Added, Made, Covers, Bounded;
    NothingHandled();
    if list != [] {
      var n := |list| - 1;
      Snoc(list);
      Snoc(times);
      assert list[..n + 1] == list;
      forall m | 0 <= m <= n ensures !Covers(list[..n][..m], job.chunks) { assert list[..n][..m] == list[..m]; }
      Waiting(job, chunkSize, list[..n], times[..n]);
      AddOnly(job, chunkSize, list[..n], times[0], list[n], times[n]);
      HandledNext(EMPTY, list[..n], times[..n], list[n], times[n]);
      assert times[n] - times[0] <= TTL;
      var none: seq<Frame> := [];
      assert none + [] == [];
    }
  }

  /** The frame comes out, once and unchanged, and leaves the assembler as it was. */
  lemma OneFrame(job: Job, chunkSize: int, list: seq<Frame>, times: seq<real>)
    requires Made(job, chunkSize) && |times| == |list| && Prompt(times)
    requires CompletesLast(list, job.chunks)
    ensures Handled(EMPTY, list, times) == (EMPTY, [job.frame])
  {
    hide Added, Covers, Bounded;
    var n := |list| - 1;
    Snoc(list);
    MadeChunks(job, chunkSize);
    if job.split {
      forall m | 0 <= m <= n ensures !Covers(list[..n][..m], job.chunks) { assert list[..n][..m] == list[..m]; }
      Waiting(job, chunkSize, list[..n], times[..n]);
      AddOnly(job, chunkSize, list[..n], times[0], list[n], times[n]);
      assert list[..n] + [list[n]] == list;
    } else {
      WholeFrame(job, chunkSize, list, times);
    }
    assert [] + [job.frame] == [job.frame];
  }

  lemma WholeFrame(job: Job, chunkSize: int, list: seq<Frame>, times: seq<real>)
    requires Made(job, chunkSize) && !job.split && |times| == |list| && CompletesLast(list, job.chunks)
    ensures Handled(EMPTY, list, times) == (EMPTY, [job.frame])
  {
    hide Added, Made, Bounded;
    MadeChunks(job, chunkSize);
    assert list[0] in job.chunks && list[0] == job.frame;
    assert list[..1] == [job.frame];
    assert Covers(list[..1], job.chunks);
    assert |list| == 1 && list == [] + [job.frame] && times == [] + [times[0]];
    AddWhole(job, chunkSize, times[0]);
    HandledNext(EMPTY, [], [], job.frame, times[0]);
  }

  lemma AddWhole(job: Job, chunkSize: int, now: real)
    requires Made(job, chunkSize) && !job.split
    ensures Bounded(EMPTY, MAX_PENDING)
    ensures Added(EMPTY, job.frame, now, MAX_PENDING, TTL) == (EMPTY, Ok(Some(job.frame)))
  {
    hide PeekHeader, Admit, Segments;
  }

  // ----- the queue, in order ---------------------------------------------------------------------------------------

  /** A frame as `encode` makes it: a good header, not marked as a segment. */
  predicate Clear(f: Frame) { PeekHeader(f).Ok? && !PeekHeader(f).value.Segmented() }

  ghost function JobOf(f: Frame, chunkSize: int): (job: Job)
    requires Clear(f) && Segments(f, chunkSize).Ok?
    ensures Made(job, chunkSize) && job.frame == f && job.chunks == Segments(f, chunkSize).value
  {
    Job(f, PeekHeader(f).value.Key(), Segments(f, chunkSize).value, chunkSize < |f|)
  }

  /** Interrupted drains never write the last chunk. */
  lemma {:induction false} TriedMembers(parts: seq<Frame>, cutoffs: seq<nat>)
    requires Distinct(parts) && parts != [] && forall i :: 0 <= i < |cutoffs| ==> cutoffs[i] < |parts|
    ensures forall f :: f in Tried(parts, cutoffs) ==> f in parts && f != parts[|parts| - 1]
  {
    if cutoffs != [] {
      var n := |cutoffs| - 1;
      TriedMembers(parts, cutoffs[..n]);
      forall f | f in parts[..cutoffs[n]] ensures f in parts && f != parts[|parts| - 1] {
        var i :| 0 <= i < cutoffs[n] && parts[i] == f;
      }
    }
  }

  /** ... so the frame completes only with the last chunk of the drain that sends it. */
  lemma TriesComplete(before: seq<Frame>, parts: seq<Frame>)
    requires parts != [] && Distinct(parts)
    requires forall f :: f in before ==> f in parts && f != parts[|parts| - 1]
    ensures CompletesLast(before + parts, parts)
  {
    var list, last := before + parts, parts[|parts| - 1];
    forall i | 0 <= i < |parts| ensures parts[i] in list { assert list[|before| + i] == parts[i]; }
    forall n | 0 <= n < |list| ensures !Covers(list[..n], parts) {
      forall k | 0 <= k < n ensures list[k] != last {
        assert k < |before| ==> list[k] in before;
        assert k >= |before| ==> list[k] == parts[k - |before|];
      }
      assert last !in list[..n];
    }
  }

  lemma TripCompletes(t: Trip, chunkSize: int)
    requires Cutoffs(t.frame, t.cutoffs, chunkSize) && Clear(t.frame)
    ensures CompletesLast(TripWritten(t, chunkSize), Segments(t.frame, chunkSize).value)
  {
    hide Made, CompletesLast, Segments, Tried;
    var job := JobOf(t.frame, chunkSize);
    MadeChunks(job, chunkSize);
    TriedMembers(job.chunks, t.cutoffs);
    TriesComplete(Tried(job.chunks, t.cutoffs), job.chunks);
  }

  /** Chunks that lack one of the frame's leave no prefix complete. */
  lemma NeverComplete(list: seq<Frame>, parts: seq<Frame>, missing: Frame)
    requires missing in parts && missing !in list
    ensures forall n :: 0 <= n <= |list| ==> !Covers(list[..n], parts)
  {
    forall n | 0 <= n <= |list| ensures !Covers(list[..n], parts) { assert missing !in list[..n]; }
  }

  /** For each frame, all its chunks -- of every drain -- are handled within the assembler's time to live. */
  ghost predicate AllPrompt(trips: seq<Trip>, chunkSize: int, times: seq<real>)
    requires GoodTrips(trips, chunkSize)
  {
    if trips == [] then times == []
    else
      var n := |trips| - 1;
      var k := |times| - |TripWritten(trips[n], chunkSize)|;
      k >= 0 && Prompt(times[k..]) && AllPrompt(trips[..n], chunkSize, times[..k])
  }

  ghost predicate AllClear(fs: seq<Frame>) { forall i :: 0 <= i < |fs| ==> Clear(fs[i]) }

  lemma {:induction false} TripsComeOut(trips: seq<Trip>, chunkSize: int, times: seq<real>)
    requires GoodTrips(trips, chunkSize) && AllClear(FramesSent(trips)) && AllPrompt(trips, chunkSize, times)
    ensures |times| == |TripsWritten(trips, chunkSize)|
    ensures Bounded(EMPTY, MAX_PENDING)
    ensures Handled(EMPTY, TripsWritten(trips, chunkSize), times) == (EMPTY, FramesSent(trips))
    decreases |trips|
  {
    hide Made, Prompt, Handled, Bounded, CompletesLast, TripWritten, Segments, Clear;
    NothingHandled();
    if trips != [] {
      var n := |trips| - 1;
      var t, list := trips[n], TripWritten(trips[n], chunkSize);
      var k := |times| - |list|;
      AllClearInit(FramesSent(trips[..n]), t.frame);
      TripCompletes(t, chunkSize);
      var job := JobOf(t.frame, chunkSize);
      OneFrame(job, chunkSize, list, times[k..]);
      TripsComeOut(trips[..n], chunkSize, times[..k]);
      HandledConcat(EMPTY, TripsWritten(trips[..n], chunkSize), list, times[..k], times[k..]);
      assert times[..k] + times[k..] == times;
    }
  }

  lemma AllClearInit(fs: seq<Frame>, f: Frame)
    requires AllClear(fs + [f])
    ensures AllClear(fs) && Clear(f)
  {
    hide Clear;
    assert (fs + [f])[|fs|] == f && forall i :: 0 <= i < |fs| ==> (fs + [f])[i] == fs[i];
  }

  lemma NothingHandled()
    ensures Bounded(EMPTY, MAX_PENDING) && Handled(EMPTY, [], []) == (EMPTY, [])
  {
  }

  /** What interrupted drains of the head have written emits nothing yet. */
  lemma TriesEmitNothing(f: Frame, tries: seq<nat>, chunkSize: int, times: seq<real>)
    requires Cutoffs(f, tries, chunkSize) && Clear(f)
    requires |times| == |Tried(Segments(f, chunkSize).value, tries)| && Prompt(times)
    ensures Bounded(EMPTY, MAX_PENDING)
    ensures Handled(EMPTY, Tried(Segments(f, chunkSize).value, tries), times).1 == []
  {
    hide Made, Covers, Segments, Tried, Handled, Bounded, Prompt;
    var job := JobOf(f, chunkSize);
    NothingHandled();
    MadeChunks(job, chunkSize);
    var list, last := Tried(job.chunks, tries), job.chunks[|job.chunks| - 1];
    TriedMembers(job.chunks, tries);
    if list != [] {
      assert list[0] in list && list[0] in job.chunks && list[0] != last;
      assert job.split;
      NeverComplete(list, job.chunks, last);
      Waiting(job, chunkSize, list, times);
    }
  }

  /** Every chunk written is short enough for the length prefix. */
  lemma {:induction false} TripsFit(trips: seq<Trip>, chunkSize: int)
    requires GoodTrips(trips, chunkSize) && AllClear(FramesSent(trips)) && chunkSize <= MAX_FRAME
    ensures AllFit(TripsWritten(trips, chunkSize))
    decreases |trips|
  {
    hide Segments, TripWritten, Clear;
    if trips != [] {
      var n := |trips| - 1;
      AllClearInit(FramesSent(trips[..n]), trips[n].frame);
      TripsFit(trips[..n], chunkSize);
      TripCompletes(trips[n], chunkSize);
      PartsFit(trips[n].frame, TripWritten(trips[n], chunkSize), chunkSize);
    }
  }

  lemma PartsFit(f: Frame, list: seq<Frame>, chunkSize: int)
    requires Clear(f) && Segments(f, chunkSize).Ok? && chunkSize <= MAX_FRAME
    requires forall k :: 0 <= k < |list| ==> list[k] in Segments(f, chunkSize).value
    ensures AllFit(list)
  {
    hide Segments;
    var parts := Segments(f, chunkSize).value;
    forall k | 0 <= k < |list| ensures |list[k]| <= MAX_FRAME {
      assert list[k] in parts;
      var i :| 0 <= i < |parts| && parts[i] == list[k];
      SegmentsAreFrames(f, chunkSize, i);
    }
  }

  /** The handling times of everything a transport wrote: the trips, then the drains of the head. */
  ghost predicate PromptlyHandled(written: seq<Frame>, trips: seq<Trip>, chunkSize: int, times: seq<real>)
    requires GoodTrips(trips, chunkSize)
  {
    var k := |TripsWritten(trips, chunkSize)|;
    k <= |times| == |written| && AllPrompt(trips, chunkSize, times[..k]) && Prompt(times[k..])
  }

  lemma TracedComesOut(written: seq<Frame>, accepted: seq<Frame>, trips: seq<Trip>, tries: seq<nat>,
                       queue: seq<Queued>, chunkSize: int, times: seq<real>)
    requires Traced(written, accepted, trips, tries, queue, chunkSize) && AllClear(accepted) && chunkSize <= MAX_FRAME
    requires PromptlyHandled(written, trips, chunkSize, times)
    ensures AllFit(written) && |times| == |written| && Bounded(EMPTY, MAX_PENDING)
    ensures Handled(EMPTY, written, times).1 == FramesSent(trips)
    ensures |FramesSent(trips)| == |trips| && accepted[..|trips|] == FramesSent(trips)
    ensures accepted[|trips|..] == FramesQueued(queue)
  {
    hide Segments, Handled, Bounded, Prompt, Clear, TripsWritten, Tried, FramesSent, AllPrompt;
    SentCount(trips);
    var sent := FramesSent(trips);
    assert forall i :: 0 <= i < |sent| ==> accepted[i] == sent[i];
    var w := TripsWritten(trips, chunkSize);
    var k := |w|;
    TripsComeOut(trips, chunkSize, times[..k]);
    TripsFit(trips, chunkSize);
    assert times[..k] + times[k..] == times;
    if tries == [] {
      assert times[..k] == times;
    } else {
      assert accepted[|sent|] == queue[0].frame;
      var tail := Tried(Segments(queue[0].frame, chunkSize).value, tries);
      TriesEmitNothing(queue[0].frame, tries, chunkSize, times[k..]);
      var job := JobOf(queue[0].frame, chunkSize);
      MadeChunks(job, chunkSize);
      TriedMembers(job.chunks, tries);
      PartsFit(queue[0].frame, tail, chunkSize);
      HandledConcat(EMPTY, w, tail, times[..k], times[k..]);
      assert sent + [] == sent;
    }
  }

  lemma {:induction false} SentCount(trips: seq<Trip>)
    ensures |FramesSent(trips)| == |trips|
  {
    if trips != [] { SentCount(trips[..|trips| - 1]); }
  }

  /**
    The whole path, for a transport in any reachable state. Of the frames it accepted, those that have
    left its queue come out at the other end whole, unchanged, once each and in order, and no others --
    however the budget or the port interrupted its drains, and however the byte stream was cut into reads
    -- as long as each frame's chunks are handled within the time to live.
   */
  lemma EndToEnd(t: LoraTransport, cuts: seq<seq<Byte>>, limits: seq<nat>, times: seq<real>)
    requires t.Valid() && t.chunkSize <= MAX_FRAME && AllClear(t.accepted)
    requires PromptlyHandled(ChunksOf(t.written), t.trips, t.chunkSize, times)
    requires AllFit(ChunksOf(t.written)) ==> Flat(cuts) == Wire(ChunksOf(t.written))
    requires Undisturbed(cuts, limits)
    ensures Fed(START, cuts, limits) == Deframed(ChunksOf(t.written), [])
    ensures |times| == |ChunksOf(t.written)| && Bounded(EMPTY, MAX_PENDING)
    ensures |t.trips| <= |t.accepted|
    ensures Handled(EMPTY, Fed(START, cuts, limits).handed, times).1 == t.accepted[..|t.trips|]
    ensures t.accepted[|t.trips|..] == FramesQueued(t.outbox)
  {
    hide Sane, Parse, Handled, Bounded, Fully, Fed, Wire, Clear, GoodHistory, Accounted, ChunksOf;
    var w := ChunksOf(t.written);
    TracedComesOut(w, t.accepted, t.trips, t.tries, t.outbox, t.chunkSize, times);
    ParseWire(w);
    SaneFully(cuts);
    FullyIsFed(cuts, limits);
  }

  // ----- the time limit is real ----------------------------------------------------------------------------------------

  function Times(n: nat, at: real): seq<real> { seq(n, _ => at) }

  /** After a retry that came too late: the first chunk again was filed in the old slot and pruned with it. */
  lemma TooLate(job: Job, chunkSize: int, c: nat, gap: real)
    requires Made(job, chunkSize) && job.split && 1 <= c < |job.chunks| && gap > TTL
    ensures Bounded(EMPTY, MAX_PENDING)
    ensures Handled(EMPTY, job.chunks[..c] + job.chunks[..1], Times(c, 0.0) + Times(1, gap)) == (EMPTY, [])
  {
    hide Added, Made, Handled, Bounded, Covers;
    var parts, first := job.chunks, job.chunks[..c];
    NothingHandled();
    MadeChunks(job, chunkSize);
    NeverComplete(first, parts, parts[|parts| - 1]);
    Waiting(job, chunkSize, first, Times(c, 0.0));
    NeverComplete(first + [parts[0]], parts, parts[|parts| - 1]);
    assert (first + [parts[0]])[..c + 1] == first + [parts[0]];
    AddOnly(job, chunkSize, first, 0.0, parts[0], gap);
    HandledNext(EMPTY, first, Times(c, 0.0), parts[0], gap);
    assert parts[..1] == [parts[0]] && Times(1, gap) == [gap];
    var none: seq<Frame> := [];
    assert none + [] == none;
  }

  /**
    When a drain of a split frame was interrupted after its first c chunks, and the retry of all of them
    comes `gap` seconds later, the frame is delivered if and only if the gap is within the time to live.
   */
  lemma RetryDeliversExactly(job: Job, chunkSize: int, c: nat, gap: real)
    requires Made(job, chunkSize) && job.split && 1 <= c < |job.chunks| && gap >= 0.0
    ensures Bounded(EMPTY, MAX_PENDING)
    ensures Handled(EMPTY, job.chunks[..c] + job.chunks, Times(c, 0.0) + Times(|job.chunks|, gap)).1
         == if gap <= TTL then [job.frame] else []
  {
    hide Added, Made, Handled, Bounded, Covers;
    var parts, n := job.chunks, |job.chunks|;
    var list, times := parts[..c] + parts, Times(c, 0.0) + Times(n, gap);
    MadeChunks(job, chunkSize);
    NothingHandled();
    if gap <= TTL {
      TriesComplete(parts[..c], parts);
      OneFrame(job, chunkSize, list, times);
    } else {
      TooLate(job, chunkSize, c, gap);
      NeverComplete(parts[1..], parts, parts[0]);
      Waiting(job, chunkSize, parts[1..], Times(n - 1, gap));
      var early, late := parts[..c] + parts[..1], parts[1..];
      HandledConcat(EMPTY, early, late, Times(c, 0.0) + Times(1, gap), Times(n - 1, gap));
      assert early + late == list;
      assert Times(c, 0.0) + Times(1, gap) + Times(n - 1, gap) == times;
    }
  }
}
