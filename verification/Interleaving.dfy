/**
  The assembler over whole runs: segments of several frames, mixed arbitrarily, come out as exactly
  those frames.

  The argument has two layers. `Scenario` follows only which segments are filed in which slot;
  `RealRun` then shows that the calls of `add` do just that to the segments of real frames.
 */
module Interleaving {
  import opened Common
  import opened Frames
  import opened Assembler
  import opened Reassembly

  /** A frame on its way through a medium: its key, its segments, and whether it had to be split at all. */
  datatype Job = Job(frame: Frame, key: MessageKey, chunks: seq<Frame>, split: bool)

  /** Segment `idx` of job `job`, handed to `add` when the clock reads `at`. */
  datatype Arrival = Arrival(job: nat, idx: nat, at: real)

  datatype Scenario = Scenario(jobs: seq<Job>, arrivals: seq<Arrival>, maxPending: nat, ttl: real) {

    /** At most `max_pending` frames, with distinct keys and distinguishable segments. */
    ghost predicate GoodJobs() {
      && 1 <= maxPending && |jobs| <= maxPending
      && (forall j, i :: 0 <= j < i < |jobs| ==> jobs[j].key != jobs[i].key)
      && (forall j :: 0 <= j < |jobs| ==> jobs[j].chunks != [] && Distinct(jobs[j].chunks))
    }

    /**
      Every segment arrives at most once, in any order and any mix; the clock never runs backwards
      and no segment is more than `ttl` behind an earlier one of its frame.
     */
    ghost predicate GoodArrivals() {
      && (forall t :: 0 <= t < |arrivals| ==>
            arrivals[t].job < |jobs| && arrivals[t].idx < |jobs[arrivals[t].job].chunks|)
      && (forall t, u :: 0 <= t < u < |arrivals| ==> arrivals[t].at <= arrivals[u].at)
      && (forall t, u :: 0 <= t < u < |arrivals| && arrivals[t].job == arrivals[u].job ==>
            arrivals[t].idx != arrivals[u].idx && arrivals[u].at - arrivals[t].at <= ttl)
    }

    ghost predicate Valid() { GoodJobs() && GoodArrivals() }

    ghost function JobOf(t: nat): Job
      requires Valid() && t < |arrivals|
    {
      jobs[arrivals[t].job]
    }

    ghost function FrameAt(t: nat): Frame
      requires Valid() && t < |arrivals|
    {
      jobs[arrivals[t].job].chunks[arrivals[t].idx]
    }

    /** What arrival t does to the slots: file the segment, then settle the frame or prune. */
    ghost function Step(s: Slots, t: nat): (s': Slots)
      requires Valid() && t < |arrivals| && Bounded(s, maxPending)
      ensures Bounded(s', maxPending)
    {
      if !JobOf(t).split then s
      else
        AdmitBounded(s, JobOf(t).key, FrameAt(t), arrivals[t].at, maxPending);
        var s1 := Admit(s, JobOf(t).key, FrameAt(t), arrivals[t].at, maxPending);
        SettleBounded(s1, JobOf(t).key, maxPending);
        PruneMeans(s1, s1.order, arrivals[t].at, ttl, maxPending);
        if Covers(s1.pending[JobOf(t).key].chunks, JobOf(t).chunks) then Settle(s1, JobOf(t).key)
        else Prune(s1, s1.order, arrivals[t].at, ttl)
    }

    /** The slots after the first n arrivals. */
    ghost function After(n: nat): (s: Slots)
      requires Valid() && n <= |arrivals|
      ensures Bounded(s, maxPending)
    {
      if n == 0 then EMPTY else Step(After(n - 1), n - 1)
    }

    /** The segments of job j among the first n arrivals, in arrival order. */
    ghost function Received(n: nat, j: nat): seq<Frame>
      requires Valid() && n <= |arrivals|
    {
      if n == 0 then []
      else if arrivals[n - 1].job == j then Received(n - 1, j) + [FrameAt(n - 1)]
      else Received(n - 1, j)
    }

    /** Segment i of job j is among the first n arrivals. */
    ghost predicate Has(n: nat, j: nat, i: nat) {
      exists t: nat :: t < n && t < |arrivals| && arrivals[t].job == j && arrivals[t].idx == i
    }

    /** All segments of job j are among the first n arrivals. */
    ghost predicate HasAll(n: nat, j: nat)
      requires j < |jobs|
    {
      forall i: nat :: i < |jobs[j].chunks| ==> Has(n, j, i)
    }

    ghost predicate Awaited(n: nat, j: nat) {
      exists t :: n <= t < |arrivals| && arrivals[t].job == j
    }
  }

  // ----- what has been received ---------------------------------------------------------------------

  lemma {:induction false} ReceivedMembers(sc: Scenario, n: nat, j: nat, f: Frame)
    requires sc.Valid() && n <= |sc.arrivals|
    ensures f in sc.Received(n, j) <==> exists t: nat :: t < n && sc.arrivals[t].job == j && f == sc.FrameAt(t)
  {
    if n > 0 {
      ReceivedMembers(sc, n - 1, j, f);
    }
  }

  lemma ReceivedCovers(sc: Scenario, n: nat, j: nat)
    requires sc.Valid() && n <= |sc.arrivals| && j < |sc.jobs|
    ensures Covers(sc.Received(n, j), sc.jobs[j].chunks) <==> sc.HasAll(n, j)
  {
    var all := sc.jobs[j].chunks;
    forall i: nat | i < |all| ensures all[i] in sc.Received(n, j) <==> sc.Has(n, j, i) {
      ReceivedMembers(sc, n, j, all[i]);
      if sc.Has(n, j, i) {
        var t: nat :| t < n && t < |sc.arrivals| && sc.arrivals[t].job == j && sc.arrivals[t].idx == i;
        assert all[i] == sc.FrameAt(t);
      }
    }
  }

  lemma ReceivedAreSegments(sc: Scenario, n: nat, j: nat)
    requires sc.Valid() && n <= |sc.arrivals| && j < |sc.jobs|
    ensures forall k :: 0 <= k < |sc.Received(n, j)| ==> sc.Received(n, j)[k] in sc.jobs[j].chunks
  {
    var got := sc.Received(n, j);
    forall k | 0 <= k < |got| ensures got[k] in sc.jobs[j].chunks {
      ReceivedMembers(sc, n, j, got[k]);
    }
  }

  // ----- the invariant of a run ----------------------------------------------------------------------

  /** The slot was opened by an arrival of job j and holds what has arrived of it. */
  ghost predicate Holds(sc: Scenario, n: nat, j: nat, k: MessageKey, slot: Slot)
    requires sc.Valid() && n <= |sc.arrivals|
  {
    && j < |sc.jobs| && sc.jobs[j].split && sc.jobs[j].key == k
    && slot.chunks == sc.Received(n, j)
    && OpenedBy(sc, n, j, slot)
  }

  ghost predicate OpenedBy(sc: Scenario, n: nat, j: nat, slot: Slot) {
    exists t: nat :: t < n && t < |sc.arrivals| && sc.arrivals[t].job == j && slot.since == sc.arrivals[t].at
  }

  ghost predicate Known(sc: Scenario, n: nat, k: MessageKey, slot: Slot)
    requires sc.Valid() && n <= |sc.arrivals|
  {
    exists j: nat :: Holds(sc, n, j, k, slot)
  }

  ghost predicate Tracks(sc: Scenario, n: nat, s: Slots)
    requires sc.Valid() && n <= |sc.arrivals|
  {
    && (forall k :: k in s.pending ==> Known(sc, n, k, s.pending[k]))
    && (forall j: nat :: j < |sc.jobs| && sc.jobs[j].split && sc.Awaited(n, j) && sc.Received(n, j) != [] ==>
          sc.jobs[j].key in s.pending)
  }

  lemma SubsetCount<T>(a: set<T>, b: set<T>)
    requires a <= b
    ensures |a| <= |b|
  {
    assert b == a + (b - a);
  }

  lemma {:induction false} ImageCount<T>(s: seq<T>)
    ensures |set x | x in s| <= |s|
  {
    if s == [] {
      assert (set x | x in s) == {};
    } else {
      Snoc(s);
      var n := |s| - 1;
      ImageCount(s[..n]);
      assert (set x | x in s) == (set x | x in s[..n]) + {s[n]};
    }
  }

  /** With at most `max_pending` frames in play there is always room: nothing is evicted. */
  lemma RoomLeft(sc: Scenario, n: nat, j: nat, s: Slots)
    requires sc.Valid() && n <= |sc.arrivals| && j < |sc.jobs|
    requires Bounded(s, sc.maxPending) && Tracks(sc, n, s)
    requires sc.jobs[j].key !in s.pending
    ensures |s.order| < sc.maxPending
  {
    var wide := s.order + [sc.jobs[j].key];
    var keys := seq(|sc.jobs|, i requires 0 <= i < |sc.jobs| => sc.jobs[i].key);
    forall k | k in wide ensures k in keys {
      if k in s.order {
        assert Known(sc, n, k, s.pending[k]);
        var i: nat :| Holds(sc, n, i, k, s.pending[k]);
        assert keys[i] == k;
      } else {
        assert keys[j] == k;
      }
    }
    assert Distinct(wide);
    DistinctCount(wide);
    ImageCount(keys);
    SubsetCount(set k | k in wide, set k | k in keys);
  }

  /** Filing a segment of a split frame: its slot now holds everything that has arrived of it. */
  lemma AdmitSegment(sc: Scenario, n: nat, s: Slots) returns (s1: Slots)
    requires sc.Valid() && n < |sc.arrivals| && sc.JobOf(n).split
    requires Bounded(s, sc.maxPending) && Tracks(sc, n, s)
    ensures s1 == Admit(s, sc.JobOf(n).key, sc.FrameAt(n), sc.arrivals[n].at, sc.maxPending)
    ensures s1.pending.Keys == s.pending.Keys + {sc.JobOf(n).key}
    ensures forall k :: k in s.pending && k != sc.JobOf(n).key ==> s1.pending[k] == s.pending[k]
    ensures Holds(sc, n + 1, sc.arrivals[n].job, sc.JobOf(n).key, s1.pending[sc.JobOf(n).key])
    ensures Bounded(s1, sc.maxPending)
  {
    var j := sc.arrivals[n].job;
    var key := sc.jobs[j].key;
    AdmitBounded(s, key, sc.FrameAt(n), sc.arrivals[n].at, sc.maxPending);
    s1 := Admit(s, key, sc.FrameAt(n), sc.arrivals[n].at, sc.maxPending);
    if key in s.pending {
      assert Known(sc, n, key, s.pending[key]);
      var i: nat :| Holds(sc, n, i, key, s.pending[key]);
      assert i == j;
    } else {
      assert sc.Awaited(n, j);
      RoomLeft(sc, n, j, s);
      assert sc.Received(n, j) == [];
    }
  }

  lemma NotTwice(sc: Scenario, n: nat, t: nat)
    requires sc.Valid() && n <= t < |sc.arrivals|
    ensures !sc.Has(n, sc.arrivals[t].job, sc.arrivals[t].idx)
  {
  }

  /** Once all segments of a frame are in, none of them comes again. */
  lemma CompleteNotAwaited(sc: Scenario, n: nat, j: nat)
    requires sc.Valid() && n <= |sc.arrivals| && j < |sc.jobs| && sc.HasAll(n, j)
    ensures !sc.Awaited(n, j)
  {
    forall t | n <= t < |sc.arrivals| ensures sc.arrivals[t].job != j {
      NotTwice(sc, n, t);
    }
  }

  /** Filing a segment leaves every slot explained, one arrival later. */
  lemma FiledKnown(sc: Scenario, n: nat, s: Slots, s1: Slots, k: MessageKey)
    requires sc.Valid() && n < |sc.arrivals| && sc.JobOf(n).split
    requires Tracks(sc, n, s)
    requires s1.pending.Keys == s.pending.Keys + {sc.JobOf(n).key} && k in s1.pending
    requires forall k :: k in s.pending && k != sc.JobOf(n).key ==> s1.pending[k] == s.pending[k]
    requires Holds(sc, n + 1, sc.arrivals[n].job, sc.JobOf(n).key, s1.pending[sc.JobOf(n).key])
    ensures Known(sc, n + 1, k, s1.pending[k])
  {
    if k != sc.JobOf(n).key {
      assert Known(sc, n, k, s.pending[k]);
      var i: nat :| Holds(sc, n, i, k, s.pending[k]);
      LaterHolds(sc, n, i, k, s.pending[k]);
    }
  }

  lemma LaterHolds(sc: Scenario, n: nat, i: nat, k: MessageKey, slot: Slot)
    requires sc.Valid() && n < |sc.arrivals| && sc.arrivals[n].job != i && Holds(sc, n, i, k, slot)
    ensures Holds(sc, n + 1, i, k, slot)
  {
  }

  /** A frame that is still awaited is not stale. */
  lemma AwaitedNotStale(sc: Scenario, n: nat, j: nat, s1: Slots)
    requires sc.Valid() && n < |sc.arrivals| && j < |sc.jobs| && sc.Awaited(n + 1, j)
    requires sc.jobs[j].key in s1.pending
    requires OpenedBy(sc, n + 1, j, s1.pending[sc.jobs[j].key])
    ensures !Stale(s1, sc.jobs[j].key, sc.arrivals[n].at, sc.ttl)
  {
    var u :| n + 1 <= u < |sc.arrivals| && sc.arrivals[u].job == j;
    var slot := s1.pending[sc.jobs[j].key];
    var t: nat :| t < n + 1 && t < |sc.arrivals| && sc.arrivals[t].job == j && slot.since == sc.arrivals[t].at;
  }

  /** The slots that survive an arrival: those it filed, minus a completed one, minus stale ones. */
  lemma StepSlots(sc: Scenario, n: nat, s: Slots, s1: Slots)
    requires sc.Valid() && n < |sc.arrivals| && sc.JobOf(n).split
    requires Bounded(s, sc.maxPending) && Bounded(s1, sc.maxPending)
    requires s1 == Admit(s, sc.JobOf(n).key, sc.FrameAt(n), sc.arrivals[n].at, sc.maxPending)
    requires sc.JobOf(n).key in s1.pending
    requires s1.pending[sc.JobOf(n).key].chunks == sc.Received(n + 1, sc.arrivals[n].job)
    ensures var s' := sc.Step(s, n);
      && (forall k :: k in s'.pending ==> k in s1.pending && s'.pending[k] == s1.pending[k])
      && (forall k :: k in s1.pending && k !in s'.pending ==>
            (k == sc.JobOf(n).key && sc.HasAll(n + 1, sc.arrivals[n].job)) || Stale(s1, k, sc.arrivals[n].at, sc.ttl))
  {
    ReceivedCovers(sc, n + 1, sc.arrivals[n].job);
    PruneMeans(s1, s1.order, sc.arrivals[n].at, sc.ttl, sc.maxPending);
  }

  lemma StepTracks(sc: Scenario, n: nat, s: Slots)
    requires sc.Valid() && n < |sc.arrivals| && Bounded(s, sc.maxPending) && Tracks(sc, n, s)
    ensures Tracks(sc, n + 1, sc.Step(s, n))
  {
    var s' := sc.Step(s, n);
    if sc.JobOf(n).split {
      var s1 := AdmitSegment(sc, n, s);
      StepSlots(sc, n, s, s1);
      forall k | k in s'.pending ensures Known(sc, n + 1, k, s'.pending[k]) { FiledKnown(sc, n, s, s1, k); }
      forall j: nat | j < |sc.jobs| && sc.jobs[j].split && sc.Awaited(n + 1, j) && sc.Received(n + 1, j) != []
        ensures sc.jobs[j].key in s'.pending
      {
        AwaitedStays(sc, n, s, s1, j);
      }
    } else {
      forall k | k in s'.pending ensures Known(sc, n + 1, k, s'.pending[k]) {
        assert Known(sc, n, k, s.pending[k]);
        var i: nat :| Holds(sc, n, i, k, s.pending[k]);
        LaterHolds(sc, n, i, k, s.pending[k]);
      }
      forall j: nat | j < |sc.jobs| && sc.jobs[j].split && sc.Awaited(n + 1, j) && sc.Received(n + 1, j) != []
        ensures sc.jobs[j].key in s'.pending
      {
        assert sc.Awaited(n, j);
      }
    }
  }

  lemma AwaitedStays(sc: Scenario, n: nat, s: Slots, s1: Slots, j: nat)
    requires sc.Valid() && n < |sc.arrivals| && sc.JobOf(n).split
    requires Bounded(s, sc.maxPending) && Tracks(sc, n, s) && Bounded(s1, sc.maxPending)
    requires s1.pending.Keys == s.pending.Keys + {sc.JobOf(n).key}
    requires forall k :: k in s.pending && k != sc.JobOf(n).key ==> s1.pending[k] == s.pending[k]
    requires Holds(sc, n + 1, sc.arrivals[n].job, sc.JobOf(n).key, s1.pending[sc.JobOf(n).key])
    requires forall k :: k in s1.pending && k !in sc.Step(s, n).pending ==>
               (k == sc.JobOf(n).key && sc.HasAll(n + 1, sc.arrivals[n].job)) || Stale(s1, k, sc.arrivals[n].at, sc.ttl)
    requires j < |sc.jobs| && sc.jobs[j].split && sc.Awaited(n + 1, j) && sc.Received(n + 1, j) != []
    ensures sc.jobs[j].key in sc.Step(s, n).pending
  {
    if j == sc.arrivals[n].job {
      if sc.HasAll(n + 1, j) { CompleteNotAwaited(sc, n + 1, j); }
    } else {
      assert sc.Awaited(n, j);
      assert sc.jobs[j].key in s.pending;
      assert Known(sc, n, sc.jobs[j].key, s.pending[sc.jobs[j].key]);
      var i: nat :| Holds(sc, n, i, sc.jobs[j].key, s.pending[sc.jobs[j].key]);
      LaterHolds(sc, n, i, sc.jobs[j].key, s.pending[sc.jobs[j].key]);
    }
    AwaitedNotStale(sc, n, j, s1);
  }

  lemma TracksStart(sc: Scenario)
    requires sc.Valid()
    ensures Tracks(sc, 0, EMPTY)
  {
  }

  lemma {:induction false} AlwaysTracks(sc: Scenario, n: nat)
    requires sc.Valid() && n <= |sc.arrivals|
    ensures Tracks(sc, n, sc.After(n))
  {
    hide Scenario.Step, Tracks;
    if n == 0 {
      TracksStart(sc);
    } else {
      AlwaysTracks(sc, n - 1);
      StepTracks(sc, n - 1, sc.After(n - 1));
    }
  }

  // ----- the calls of `add` ---------------------------------------------------------------------------

  /** The job is what `segment_frame` makes of an unsegmented frame. */
  ghost predicate Made(job: Job, chunkSize: int) {
    && Segments(job.frame, chunkSize) == Ok(job.chunks)
    && PeekHeader(job.frame).Ok? && !PeekHeader(job.frame).value.Segmented()
    && job.key == PeekHeader(job.frame).value.Key()
    && job.split == (chunkSize < |job.frame|)
  }

  lemma MadeChunks(job: Job, chunkSize: int)
    requires Made(job, chunkSize)
    ensures job.chunks != [] && Distinct(job.chunks)
    ensures !job.split ==> job.chunks == [job.frame]
  {
    if job.split {
      var c := SegmentsCut(job.frame, chunkSize);
      forall i, k | 0 <= i < k < |job.chunks| ensures job.chunks[i] != job.chunks[k] {
        SegmentIsFrame(c, i);
        SegmentIsFrame(c, k);
      }
    }
  }

  lemma MadeHeader(job: Job, chunkSize: int, i: nat)
    requires Made(job, chunkSize) && i < |job.chunks|
    ensures PeekHeader(job.chunks[i]).Ok?
    ensures var h := PeekHeader(job.chunks[i]).value; h.Key() == job.key && (h.Segmented() <==> job.split)
  {
    if job.split {
      var c := SegmentsCut(job.frame, chunkSize);
      SegmentIsFrame(c, i);
    } else {
      MadeChunks(job, chunkSize);
    }
  }

  /** All jobs of the scenario come out of `segment_frame`, each with its own chunk size. */
  ghost predicate AllMade(sc: Scenario, sizes: seq<int>) {
    |sizes| == |sc.jobs| && forall j :: 0 <= j < |sc.jobs| ==> Made(sc.jobs[j], sizes[j])
  }

  /** One call of `add` is one step of the scenario, and returns the frame exactly when it is complete. */
  lemma AddIsStep(sc: Scenario, sizes: seq<int>, n: nat, s: Slots)
    requires sc.Valid() && AllMade(sc, sizes) && n < |sc.arrivals|
    requires Bounded(s, sc.maxPending) && Tracks(sc, n, s)
    ensures Added(s, sc.FrameAt(n), sc.arrivals[n].at, sc.maxPending, sc.ttl)
         == (sc.Step(s, n), Ok(if sc.HasAll(n + 1, sc.arrivals[n].job) then Some(sc.JobOf(n).frame) else None))
  {
    var j := sc.arrivals[n].job;
    var job := sc.jobs[j];
    MadeHeader(job, sizes[j], sc.arrivals[n].idx);
    if job.split {
      var s1 := AdmitSegment(sc, n, s);
      ReceivedCovers(sc, n + 1, j);
      ReceivedAreSegments(sc, n + 1, j);
      SplitReassemble(job.frame, sizes[j], sc.Received(n + 1, j));
    } else {
      MadeChunks(job, sizes[j]);
      assert sc.Has(n + 1, j, 0);
    }
  }

  /** The assembler's state before arrival n, and what it returned so far. */
  ghost function Run(sc: Scenario, n: nat): (r: (Slots, seq<Result<Option<Frame>, WireError>>))
    requires sc.Valid() && n <= |sc.arrivals|
    ensures Bounded(r.0, sc.maxPending) && |r.1| == n
  {
    if n == 0 then (EMPTY, [])
    else
      var (s, out) := Run(sc, n - 1);
      AddedBounded(s, sc.FrameAt(n - 1), sc.arrivals[n - 1].at, sc.maxPending, sc.ttl);
      var (s', r) := Added(s, sc.FrameAt(n - 1), sc.arrivals[n - 1].at, sc.maxPending, sc.ttl);
      (s', out + [r])
  }

  /**
    However the segments of up to `max_pending` frames are mixed -- and even when some never arrive
    -- each call returns the original frame when it supplies the last missing segment, and nothing
    otherwise. No call raises.
   */
  lemma {:induction false} MixedFramesComeOut(sc: Scenario, sizes: seq<int>, n: nat)
    requires sc.Valid() && AllMade(sc, sizes) && n <= |sc.arrivals|
    ensures Run(sc, n).0 == sc.After(n)
    ensures forall t: nat :: t < n ==>
              Run(sc, n).1[t] == Ok(if sc.HasAll(t + 1, sc.arrivals[t].job) then Some(sc.JobOf(t).frame) else None)
  {
    hide Scenario.Step, Tracks, Added, AllMade;
    if n > 0 {
      MixedFramesComeOut(sc, sizes, n - 1);
      AlwaysTracks(sc, n - 1);
      AddIsStep(sc, sizes, n - 1, sc.After(n - 1));
    }
  }

  lemma {:induction false} LastOf(sc: Scenario, j: nat, n: nat) returns (t: nat)
    requires n <= |sc.arrivals|
    requires exists u: nat :: u < n && sc.arrivals[u].job == j
    ensures t < n && sc.arrivals[t].job == j
    ensures forall u: nat :: t < u < n ==> sc.arrivals[u].job != j
    decreases n
  {
    if sc.arrivals[n - 1].job == j {
      t := n - 1;
    } else {
      t := LastOf(sc, j, n - 1);
    }
  }

  /** A frame all of whose segments arrive is emitted, unchanged, at exactly one arrival. */
  lemma EmittedExactlyOnce(sc: Scenario, sizes: seq<int>, j: nat) returns (t: nat)
    requires sc.Valid() && AllMade(sc, sizes) && j < |sc.jobs| && sc.HasAll(|sc.arrivals|, j)
    ensures t < |sc.arrivals| && sc.arrivals[t].job == j
    ensures Run(sc, |sc.arrivals|).1[t] == Ok(Some(sc.jobs[j].frame))
    ensures forall u: nat :: u < |sc.arrivals| && u != t && sc.arrivals[u].job == j ==>
              Run(sc, |sc.arrivals|).1[u] == Ok(None)
  {
    hide Run, AllMade, Scenario.After, Scenario.Step, Scenario.GoodArrivals;
    var n := |sc.arrivals|;
    assert sc.Has(n, j, 0);
    t := LastOf(sc, j, n);
    MixedFramesComeOut(sc, sizes, n);
    var m := t + 1;
    forall i: nat | i < |sc.jobs[j].chunks| ensures sc.Has(m, j, i) {
      assert sc.Has(n, j, i);
    }
    forall u: nat | u < n && u != t && sc.arrivals[u].job == j ensures !sc.HasAll(u + 1, j) {
      if sc.HasAll(u + 1, j) {
        CompleteNotAwaited(sc, u + 1, j);
      }
    }
  }
}
