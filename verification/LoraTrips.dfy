/**
  What a run of drains in `lora_transport.py` has written: for every frame that left the queue, how far
  the interrupted drains of it got, and then all of its chunks.
 */
module LoraTrips {
  import opened Common
  import opened Bytes
  import opened Frames

  datatype Queued = Queued(frame: Frame, at: real)

  /** A frame that was sent, and how many chunks each interrupted drain of it had written before. */
  datatype Trip = Trip(frame: Frame, cutoffs: seq<nat>)

  /** Interrupted drains of a frame: each wrote some first chunks, but not all. */
  ghost predicate Cutoffs(frame: Frame, cutoffs: seq<nat>, chunkSize: int) {
    Segments(frame, chunkSize).Ok? && forall i :: 0 <= i < |cutoffs| ==> cutoffs[i] < |Segments(frame, chunkSize).value|
  }

  ghost predicate GoodTrips(trips: seq<Trip>, chunkSize: int) {
    forall i :: 0 <= i < |trips| ==> Cutoffs(trips[i].frame, trips[i].cutoffs, chunkSize)
  }

  /** What the interrupted drains wrote. */
  ghost function Tried(parts: seq<Frame>, cutoffs: seq<nat>): seq<Frame>
    requires forall i :: 0 <= i < |cutoffs| ==> cutoffs[i] < |parts|
  {
    if cutoffs == [] then [] else Tried(parts, cutoffs[..|cutoffs| - 1]) + parts[..cutoffs[|cutoffs| - 1]]
  }

  /** Everything written for one frame. */
  ghost function TripWritten(t: Trip, chunkSize: int): seq<Frame>
    requires Cutoffs(t.frame, t.cutoffs, chunkSize)
  {
    var parts := Segments(t.frame, chunkSize).value;
    Tried(parts, t.cutoffs) + parts
  }

  ghost function TripsWritten(trips: seq<Trip>, chunkSize: int): seq<Frame>
    requires GoodTrips(trips, chunkSize)
  {
    if trips == [] then []
    else TripsWritten(trips[..|trips| - 1], chunkSize) + TripWritten(trips[|trips| - 1], chunkSize)
  }

  ghost function FramesSent(trips: seq<Trip>): seq<Frame> {
    if trips == [] then [] else FramesSent(trips[..|trips| - 1]) + [trips[|trips| - 1].frame]
  }

  function FramesQueued(q: seq<Queued>): (fs: seq<Frame>)
    ensures |fs| == |q| && forall i :: 0 <= i < |q| ==> fs[i] == q[i].frame
  {
    seq(|q|, i requires 0 <= i < |q| => q[i].frame)
  }

  /**
    The whole of what was written, chunk by chunk: the finished trips, then the interrupted drains of the
    head of the queue. The frames accepted are those sent followed by those still queued.
   */
  ghost predicate Traced(written: seq<Frame>, accepted: seq<Frame>, trips: seq<Trip>, tries: seq<nat>,
                         queue: seq<Queued>, chunkSize: int)
  {
    && GoodTrips(trips, chunkSize)
    && accepted == FramesSent(trips) + FramesQueued(queue)
    && (tries == [] ==> written == TripsWritten(trips, chunkSize))
    && (tries != [] ==>
          && queue != [] && Cutoffs(queue[0].frame, tries, chunkSize)
          && written == TripsWritten(trips, chunkSize) + Tried(Segments(queue[0].frame, chunkSize).value, tries))
  }

  lemma NothingTraced(chunkSize: int)
    ensures Traced([], [], [], [], [], chunkSize)
  {
  }

  lemma TracedQueue(written: seq<Frame>, accepted: seq<Frame>, trips: seq<Trip>, tries: seq<nat>,
                    queue: seq<Queued>, chunkSize: int, q: Queued)
    requires Traced(written, accepted, trips, tries, queue, chunkSize)
    ensures Traced(written, accepted + [q.frame], trips, tries, queue + [q], chunkSize)
  {
    hide GoodTrips, Cutoffs, TripsWritten, Tried, FramesSent;
    assert FramesQueued(queue + [q]) == FramesQueued(queue) + [q.frame];
  }

  /** One more interrupted drain of the head. */
  lemma TracedStop(written: seq<Frame>, accepted: seq<Frame>, trips: seq<Trip>, tries: seq<nat>,
                   queue: seq<Queued>, chunkSize: int, k: nat)
    requires Traced(written, accepted, trips, tries, queue, chunkSize)
    requires queue != [] && Segments(queue[0].frame, chunkSize).Ok? && k < |Segments(queue[0].frame, chunkSize).value|
    ensures Traced(written + Segments(queue[0].frame, chunkSize).value[..k], accepted, trips, tries + [k], queue, chunkSize)
  {
    hide GoodTrips, TripsWritten, FramesSent, Segments;
    var parts := Segments(queue[0].frame, chunkSize).value;
    assert (tries + [k])[..|tries|] == tries;
    TriedNone(parts);
    TriedNext(parts, tries, k);
    if tries == [] {
      assert [] + parts[..k] == parts[..k];
    } else {
      var w, t := TripsWritten(trips, chunkSize), Tried(parts, tries);
      assert (w + t) + parts[..k] == w + (t + parts[..k]);
    }
  }

  lemma TriedNone(parts: seq<Frame>)
    ensures Tried(parts, []) == []
  {
  }

  lemma TriedNext(parts: seq<Frame>, tries: seq<nat>, k: nat)
    requires k < |parts| && forall i :: 0 <= i < |tries| ==> tries[i] < |parts|
    ensures Tried(parts, tries + [k]) == Tried(parts, tries) + parts[..k]
  {
    assert (tries + [k])[..|tries|] == tries;
  }

  /** The head is sent and leaves. */
  lemma TracedSent(written: seq<Frame>, accepted: seq<Frame>, trips: seq<Trip>, tries: seq<nat>,
                   queue: seq<Queued>, chunkSize: int)
    requires Traced(written, accepted, trips, tries, queue, chunkSize)
    requires queue != [] && Segments(queue[0].frame, chunkSize).Ok?
    ensures Traced(written + Segments(queue[0].frame, chunkSize).value, accepted,
                   trips + [Trip(queue[0].frame, tries)], [], queue[1..], chunkSize)
  {
    hide Segments, Tried, GoodTrips, FramesSent, TripsWritten, TripWritten;
    var parts, t := Segments(queue[0].frame, chunkSize).value, Trip(queue[0].frame, tries);
    TriedNone(parts);
    TripsNext(trips, t, chunkSize);
    HeadApart(queue);
    Regrouped(FramesSent(trips), [t.frame], FramesQueued(queue[1..]));
    TripIs(t, chunkSize);
    var none: seq<Frame> := [];
    assert tries == [] ==> none + parts == parts;
    Regrouped(TripsWritten(trips, chunkSize), Tried(parts, tries), parts);
  }

  lemma TripIs(t: Trip, chunkSize: int)
    requires Cutoffs(t.frame, t.cutoffs, chunkSize)
    ensures TripWritten(t, chunkSize)
         == Tried(Segments(t.frame, chunkSize).value, t.cutoffs) + Segments(t.frame, chunkSize).value
  {
  }

  lemma HeadApart(queue: seq<Queued>)
    requires queue != []
    ensures FramesQueued(queue) == [queue[0].frame] + FramesQueued(queue[1..])
  {
  }

  lemma Regrouped<T>(a: seq<T>, b: seq<T>, c: seq<T>)
    ensures (a + b) + c == a + (b + c)
  {
  }

  lemma TripsNext(trips: seq<Trip>, t: Trip, chunkSize: int)
    requires GoodTrips(trips, chunkSize) && Cutoffs(t.frame, t.cutoffs, chunkSize)
    ensures GoodTrips(trips + [t], chunkSize)
    ensures TripsWritten(trips + [t], chunkSize) == TripsWritten(trips, chunkSize) + TripWritten(t, chunkSize)
    ensures FramesSent(trips + [t]) == FramesSent(trips) + [t.frame]
  {
    hide Cutoffs, TripWritten;
    assert (trips + [t])[..|trips|] == trips;
  }

  // ----- when the queue moves ------------------------------------------------------------------------------

  /** What any call can do to the queue: nothing, add one at the end, or send a head that can be split. */
  ghost predicate QueueStep(q: seq<Queued>, q': seq<Queued>, chunkSize: int) {
    || q' == q
    || (|q'| == |q| + 1 && q <= q')
    || (q != [] && Segments(q[0].frame, chunkSize).Ok? && q' == q[1..])
  }

  /** A frame cannot be split exactly when its header is bad or it needs more than 255 segments. */
  lemma UnsplittableExactly(frame: Frame, chunkSize: int)
    requires chunkSize >= 40
    ensures Segments(frame, chunkSize).Err? <==>
            PeekHeader(frame).Err?
            || (|frame| > chunkSize && CeilDiv(|frame| - HEADER_LEN, chunkSize - SEG_OVERHEAD) > MAX_SEGMENTS)
  {
  }

  /** Once such a frame is at the head, everything behind it stays where it is for good. */
  lemma {:induction false} HeadBlocksForGood(qs: seq<seq<Queued>>, chunkSize: int, n: nat)
    requires n < |qs| && qs[0] != [] && Segments(qs[0][0].frame, chunkSize).Err?
    requires forall i :: 0 <= i < |qs| - 1 ==> QueueStep(qs[i], qs[i + 1], chunkSize)
    ensures qs[0] <= qs[n]
  {
    hide Segments;
    if n > 0 {
      HeadBlocksForGood(qs, chunkSize, n - 1);
      assert QueueStep(qs[n - 1], qs[n - 1 + 1], chunkSize);
    }
  }
}
