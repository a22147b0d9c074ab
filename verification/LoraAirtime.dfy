/**
  The sending side of `lora_transport.py`: a bounded queue drained chunk by chunk under a fixed-window
  airtime budget.
 */
module LoraAirtime {
  import opened Common
  import opened Bytes
  import opened Frames
  import opened Deframing
  import opened LoraTrips

  const CLASS_TASK: Byte := 2

  /** One chunk's airtime, charged when the clock read `at`. */
  datatype Charge = Charge(at: real, seconds: real)

  /** The charges made between two resets of the counter. */
  datatype Span = Span(start: real, charges: seq<Charge>)

  function Sum(cs: seq<Charge>): real {
    if cs == [] then 0.0 else Sum(cs[..|cs| - 1]) + cs[|cs| - 1].seconds
  }

  /** The airtime charged at moments in [lo, hi). */
  function Within(cs: seq<Charge>, lo: real, hi: real): real {
    if cs == [] then 0.0
    else
      var last := cs[|cs| - 1];
      Within(cs[..|cs| - 1], lo, hi) + (if lo <= last.at < hi then last.seconds else 0.0)
  }

  function Total(spans: seq<Span>, lo: real, hi: real): real {
    if spans == [] then 0.0 else Within(spans[0].charges, lo, hi) + Total(spans[1..], lo, hi)
  }

  /** A span stays within the budget and its charges lie between its start and the present. */
  ghost predicate GoodSpan(s: Span, budget: real, now: real) {
    && s.start <= now
    && Sum(s.charges) <= budget
    && forall i :: 0 <= i < |s.charges| ==> s.start <= s.charges[i].at <= now && s.charges[i].seconds >= 0.0
  }

  /** A reset happens a full window after the previous one, and after everything charged so far. */
  ghost predicate Follows(s: Span, next: Span, window: real) {
    && s.start + window <= next.start
    && forall i :: 0 <= i < |s.charges| ==> s.charges[i].at <= next.start
  }

  ghost predicate GoodHistory(spans: seq<Span>, window: real, budget: real, now: real) {
    && (forall i :: 0 <= i < |spans| ==> GoodSpan(spans[i], budget, now))
    && (forall i :: 0 <= i < |spans| - 1 ==> Follows(spans[i], spans[i + 1], window))
  }

  // ----- any interval of one window's length --------------------------------------------------------------

  lemma {:induction false} WithinSum(cs: seq<Charge>, lo: real, hi: real)
    requires forall i :: 0 <= i < |cs| ==> cs[i].seconds >= 0.0
    ensures 0.0 <= Within(cs, lo, hi) <= Sum(cs)
    ensures Within(cs, lo, hi) != 0.0 ==> exists i :: 0 <= i < |cs| && lo <= cs[i].at < hi
    ensures (forall i :: 0 <= i < |cs| ==> cs[i].at >= hi) ==> Within(cs, lo, hi) == 0.0
  {
    if cs != [] {
      var n := |cs| - 1;
      WithinSum(cs[..n], lo, hi);
      if lo <= cs[n].at < hi {
      } else if Within(cs[..n], lo, hi) != 0.0 {
        var i :| 0 <= i < n && lo <= cs[..n][i].at < hi;
        assert cs[i].at == cs[..n][i].at;
      }
    }
  }

  lemma {:induction false} LateSpans(spans: seq<Span>, window: real, budget: real, now: real, lo: real, hi: real)
    requires GoodHistory(spans, window, budget, now) && window >= 0.0
    requires spans != [] ==> spans[0].start >= hi
    ensures Total(spans, lo, hi) == 0.0
    decreases |spans|
  {
    if spans != [] {
      assert GoodSpan(spans[0], budget, now);
      WithinSum(spans[0].charges, lo, hi);
      TailHistory(spans, window, budget, now);
      if |spans| > 1 { assert Follows(spans[0], spans[1], window); }
      LateSpans(spans[1..], window, budget, now, lo, hi);
    }
  }

  lemma TailHistory(spans: seq<Span>, window: real, budget: real, now: real)
    requires GoodHistory(spans, window, budget, now) && spans != []
    ensures GoodHistory(spans[1..], window, budget, now)
  {
    hide GoodSpan, Follows;
    var rest := spans[1..];
    forall i | 0 <= i < |rest| - 1 ensures Follows(rest[i], rest[i + 1], window) {
      assert Follows(spans[i + 1], spans[i + 2], window);
    }
  }

  /** An interval as long as a window meets at most two spans. */
  lemma {:induction false} TwoSpansAtMost(spans: seq<Span>, window: real, budget: real, now: real, lo: real)
    requires GoodHistory(spans, window, budget, now) && window >= 0.0 && budget >= 0.0
    ensures Total(spans, lo, lo + window) <= 2.0 * budget
    decreases |spans|
  {
    if spans != [] {
      var hi := lo + window;
      var rest := spans[1..];
      TailHistory(spans, window, budget, now);
      assert GoodSpan(spans[0], budget, now);
      WithinSum(spans[0].charges, lo, hi);
      if Within(spans[0].charges, lo, hi) == 0.0 {
        TwoSpansAtMost(rest, window, budget, now, lo);
      } else if rest != [] {
        var i :| 0 <= i < |spans[0].charges| && lo <= spans[0].charges[i].at < hi;
        assert Follows(spans[0], spans[1], window);
        assert GoodSpan(rest[0], budget, now);
        WithinSum(rest[0].charges, lo, hi);
        TailHistory(rest, window, budget, now);
        if |rest| > 1 { assert Follows(rest[0], rest[1], window); }
        LateSpans(rest[1..], window, budget, now, lo, hi);
      }
    }
  }

  // ----- how the history grows -------------------------------------------------------------------------------

  lemma LaterHistory(spans: seq<Span>, window: real, budget: real, now: real, later: real)
    requires GoodHistory(spans, window, budget, now) && now <= later
    ensures GoodHistory(spans, window, budget, later)
  {
    hide Follows;
    assert forall i :: 0 <= i < |spans| ==> GoodSpan(spans[i], budget, now) && GoodSpan(spans[i], budget, later);
  }

  /** The counter is reset once a full window has passed. */
  lemma ResetHistory(spans: seq<Span>, window: real, budget: real, now: real)
    requires GoodHistory(spans, window, budget, now) && spans != [] && budget >= 0.0
    requires now - spans[|spans| - 1].start >= window
    ensures GoodHistory(spans + [Span(now, [])], window, budget, now)
  {
    var n := |spans| - 1;
    assert GoodSpan(spans[n], budget, now);
    var all := spans + [Span(now, [])];
    assert Follows(all[n], all[n + 1], window);
    forall i | 0 <= i < n ensures Follows(all[i], all[i + 1], window) { assert Follows(spans[i], spans[i + 1], window); }
    forall i | 0 <= i < |all| ensures GoodSpan(all[i], budget, now) {
      if i <= n { assert GoodSpan(spans[i], budget, now); }
    }
  }

  function Charged(spans: seq<Span>, c: Charge): seq<Span>
    requires spans != []
  {
    var n := |spans| - 1;
    spans[n := Span(spans[n].start, spans[n].charges + [c])]
  }

  lemma ChargeHistory(spans: seq<Span>, window: real, budget: real, c: Charge)
    requires GoodHistory(spans, window, budget, c.at) && spans != [] && c.seconds >= 0.0
    requires Sum(spans[|spans| - 1].charges) + c.seconds <= budget
    ensures GoodHistory(Charged(spans, c), window, budget, c.at)
    ensures Sum(Charged(spans, c)[|spans| - 1].charges) == Sum(spans[|spans| - 1].charges) + c.seconds
  {
    var n := |spans| - 1;
    var all := Charged(spans, c);
    var cs := spans[n].charges;
    assert (cs + [c])[..|cs|] == cs;
    assert GoodSpan(spans[n], budget, c.at);
    forall i | 0 <= i < |all| ensures GoodSpan(all[i], budget, c.at) {
      if i < n { assert GoodSpan(spans[i], budget, c.at); }
    }
    forall i | 0 <= i < |all| - 1 ensures Follows(all[i], all[i + 1], window) {
      assert Follows(spans[i], spans[i + 1], window);
    }
  }

  lemma {:induction false} TotalCharged(spans: seq<Span>, c: Charge, lo: real, hi: real)
    requires spans != []
    ensures Total(Charged(spans, c), lo, hi) == Total(spans, lo, hi) + (if lo <= c.at < hi then c.seconds else 0.0)
    decreases |spans|
  {
    if |spans| == 1 {
      var cs := spans[0].charges;
      assert (cs + [c])[..|cs|] == cs;
      assert Charged(spans, c)[1..] == [] && spans[1..] == [];
    } else {
      assert Charged(spans, c)[1..] == Charged(spans[1..], c);
      TotalCharged(spans[1..], c, lo, hi);
    }
  }

  lemma {:induction false} TotalReset(spans: seq<Span>, start: real, lo: real, hi: real)
    ensures Total(spans + [Span(start, [])], lo, hi) == Total(spans, lo, hi)
  {
    var all := spans + [Span(start, [])];
    if spans != [] {
      assert all[1..] == spans[1..] + [Span(start, [])];
      TotalReset(spans[1..], start, lo, hi);
    } else {
      assert all[1..] == [];
    }
  }

  // ----- what is really on the air ---------------------------------------------------------------------------

  /** A chunk written to the port, and when. */
  datatype Transmission = Transmission(chunk: Frame, at: real)

  function ChunksOf(ts: seq<Transmission>): seq<Frame> {
    seq(|ts|, i requires 0 <= i < |ts| => ts[i].chunk)
  }

  /** Airtime of one chunk with its length prefix, at `rate` kbit/s. */
  function AirSeconds(chunk: Frame, rate: real): (s: real)
    requires rate > 0.0
    ensures s > 0.0
  {
    ((|chunk| + LEN_SIZE) * 8) as real / (rate * 1000.0)
  }

  /** Airtime of what was written at moments in [lo, hi). */
  function OnAir(ts: seq<Transmission>, rate: real, lo: real, hi: real): real
    requires rate > 0.0
  {
    if ts == [] then 0.0
    else
      var last := ts[|ts| - 1];
      OnAir(ts[..|ts| - 1], rate, lo, hi) + (if lo <= last.at < hi then AirSeconds(last.chunk, rate) else 0.0)
  }

  /** Everything on the air has been charged. */
  ghost predicate Accounted(ts: seq<Transmission>, rate: real, spans: seq<Span>)
    requires rate > 0.0
  {
    forall lo, hi :: OnAir(ts, rate, lo, hi) <= Total(spans, lo, hi)
  }

  lemma AccountedReset(ts: seq<Transmission>, rate: real, spans: seq<Span>, start: real)
    requires rate > 0.0 && Accounted(ts, rate, spans)
    ensures Accounted(ts, rate, spans + [Span(start, [])])
  {
    hide OnAir, Total;
    forall lo, hi ensures OnAir(ts, rate, lo, hi) <= Total(spans + [Span(start, [])], lo, hi) {
      TotalReset(spans, start, lo, hi);
    }
  }

  /** Charging keeps the books, whether or not the chunk then reaches the port. */
  lemma AccountedCharge(ts: seq<Transmission>, rate: real, spans: seq<Span>, t: Transmission)
    requires rate > 0.0 && spans != [] && Accounted(ts, rate, spans)
    ensures Accounted(ts, rate, Charged(spans, Charge(t.at, AirSeconds(t.chunk, rate))))
    ensures Accounted(ts + [t], rate, Charged(spans, Charge(t.at, AirSeconds(t.chunk, rate))))
  {
    hide Total, AirSeconds, Charged;
    var c := Charge(t.at, AirSeconds(t.chunk, rate));
    assert (ts + [t])[..|ts|] == ts;
    forall lo, hi
      ensures OnAir(ts, rate, lo, hi) <= Total(Charged(spans, c), lo, hi)
      ensures OnAir(ts + [t], rate, lo, hi) <= Total(Charged(spans, c), lo, hi)
    {
      TotalCharged(spans, c, lo, hi);
    }
  }

  // ----- the transport -----------------------------------------------------------------------------------------

  /** How a drain ended; `Stopped(k)` after k whole chunks were written. */
  datatype Drained = Idle | Unsplittable(error: WireError) | Stopped(k: nat) | Sent

  class LoraTransport {
    var outbox: seq<Queued>
    var airtimeUsed: real
    var windowStart: real
    const chunkSize: int
    const maxQueue: int
    const dutyWindow: real
    const maxAirtime: real
    const kbps: real
    /** All spans so far, the latest clock reading, and the chunks written to the port. */
    ghost var spans: seq<Span>
    ghost var latest: real
    ghost var written: seq<Transmission>
    /** The frames accepted, those of them that were sent, and the interrupted drains of the head. */
    ghost var accepted: seq<Frame>
    ghost var trips: seq<Trip>
    ghost var tries: seq<nat>

    function Budget(): real { MaxR(0.0, maxAirtime * dutyWindow) }

    function Rate(): (r: real)
      ensures r > 0.0
    {
      if kbps > 0.0 then kbps else 5.0
    }

    function Seconds(byteCount: nat): (s: real)
      ensures s >= 0.0
    {
      (byteCount * 8) as real / (Rate() * 1000.0)
    }

    /** Airtime of several chunks with their length prefixes. */
    function AllSeconds(chunks: seq<Frame>): real {
      if chunks == [] then 0.0 else AllSeconds(chunks[..|chunks| - 1]) + Seconds(|chunks[|chunks| - 1]| + LEN_SIZE)
    }

    /** The window and the airtime counted in it once the clock has been read. */
    function StartAt(now: real): real
      reads `windowStart
    {
      if now - windowStart >= dutyWindow then now else windowStart
    }

    function UsedAt(now: real): real
      reads `windowStart, `airtimeUsed
    {
      if now - windowStart >= dutyWindow then 0.0 else airtimeUsed
    }

    /** The port takes the first n chunks, and their readings of the clock all fall into one window. */
    ghost predicate OneWindow(n: nat, clock: nat -> real, portOk: nat -> bool)
      reads `windowStart
    {
      forall i: nat :: i < n ==> portOk(i) && clock(i) - StartAt(clock(0)) < dutyWindow
    }

    ghost predicate Valid()
      reads this
    {
      BooksValid() && Logged()
    }

    /** The airtime counters agree with the history of charges. */
    ghost predicate BooksValid()
      reads this`spans, this`windowStart, this`airtimeUsed, this`written, this`latest
    {
      && spans != []
      && GoodHistory(spans, dutyWindow, Budget(), latest)
      && spans[|spans| - 1].start == windowStart
      && Sum(spans[|spans| - 1].charges) == airtimeUsed
      && Accounted(written, Rate(), spans)
    }

    /** What was written is the trips of the frames that left, in order, and the drains of the head. */
    ghost predicate Logged()
      reads this`written, this`accepted, this`trips, this`tries, this`outbox
    {
      Traced(ChunksOf(written), accepted, trips, tries, outbox, chunkSize)
    }

    constructor (chunkSize: int, maxQueue: int, dutyWindow: real, maxAirtime: real, kbps: real, now: real)
      requires chunkSize >= 40
      ensures Valid() && outbox == [] && written == [] && latest == now && accepted == [] && trips == []
      ensures this.chunkSize == chunkSize && this.maxQueue == maxQueue && this.kbps == kbps
      ensures this.dutyWindow == dutyWindow && this.maxAirtime == maxAirtime
    {
      this.chunkSize, this.maxQueue, this.kbps := chunkSize, maxQueue, kbps;
      this.dutyWindow, this.maxAirtime := dutyWindow, maxAirtime;
      outbox, airtimeUsed, windowStart := [], 0.0, now;
      spans, latest, written := [Span(now, [])], now, [];
      accepted, trips, tries := [], [], [];
      new;
      NothingTraced(chunkSize);
    }

    /** Only control and memory frames are queued, and only while there is room. */
    method SendFrame(frame: Frame, now: real) returns (ok: bool)
      requires Valid()
      modifies `outbox, `accepted
      ensures Valid() && QueueStep(old(outbox), outbox, chunkSize)
      ensures accepted == if ok then old(accepted) + [frame] else old(accepted)
      ensures ok <==> |frame| >= HEADER_LEN && frame[5] < CLASS_TASK && |old(outbox)| < maxQueue
      ensures outbox == if ok then old(outbox) + [Queued(frame, now)] else old(outbox)
    {
      if |frame| < HEADER_LEN || frame[5] >= CLASS_TASK || |outbox| >= maxQueue { return false; }
      TracedQueue(ChunksOf(written), accepted, trips, tries, outbox, chunkSize, Queued(frame, now));
      hide GoodHistory, Accounted, Traced;
      outbox, accepted := outbox + [Queued(frame, now)], accepted + [frame];
      return true;
    }

    method ResetWindowIfNeeded(now: real)
      requires BooksValid() && latest <= now
      modifies `windowStart, `airtimeUsed, `spans, `latest
      ensures BooksValid() && latest == now
      ensures now - old(windowStart) >= dutyWindow ==> windowStart == now && airtimeUsed == 0.0
      ensures now - old(windowStart) < dutyWindow ==> windowStart == old(windowStart) && airtimeUsed == old(airtimeUsed)
    {
      LaterHistory(spans, dutyWindow, Budget(), latest, now);
      latest := now;
      if now - windowStart >= dutyWindow {
        ResetHistory(spans, dutyWindow, Budget(), now);
        AccountedReset(written, Rate(), spans, now);
        spans := spans + [Span(now, [])];
        windowStart := now;
        airtimeUsed := 0.0;
      }
    }

    method AirtimeBudgetRemaining(now: real) returns (budget: real)
      requires BooksValid() && latest <= now
      modifies `windowStart, `airtimeUsed, `spans, `latest
      ensures BooksValid() && latest == now
      ensures windowStart == old(StartAt(now)) && airtimeUsed == old(UsedAt(now))
      ensures 0.0 <= budget && airtimeUsed + budget <= Budget()
      ensures budget == MaxR(0.0, maxAirtime * dutyWindow - airtimeUsed)
    {
      ResetWindowIfNeeded(now);
      assert GoodSpan(spans[|spans| - 1], Budget(), latest);
      budget := MaxR(0.0, maxAirtime * dutyWindow - airtimeUsed);
    }

    /** The chunk about to be written is given so that the books can be kept. */
    method ConsumeAirtime(byteCount: nat, ghost chunk: Frame)
      requires BooksValid() && byteCount == |chunk| + LEN_SIZE && airtimeUsed + Seconds(byteCount) <= Budget()
      modifies `airtimeUsed, `spans
      ensures BooksValid() && airtimeUsed == old(airtimeUsed) + Seconds(byteCount)
      ensures Accounted(written + [Transmission(chunk, latest)], Rate(), spans)
    {
      hide GoodHistory, Accounted, Charged, Rate;
      var c := Charge(latest, Seconds(byteCount));
      ChargeHistory(spans, dutyWindow, Budget(), c);
      AccountedCharge(written, Rate(), spans, Transmission(chunk, latest));
      ChargedShape(spans, c);
      spans := Charged(spans, c);
      airtimeUsed := airtimeUsed + Seconds(byteCount);
    }

    /**
      `_drain_outbox`: the head frame's chunks, each if the budget still covers it; the frame leaves the
      queue only when all were written. `clock(i)` is read before chunk i; the port refuses chunk i when
      `!portOk(i)`. A drain stops at chunk k only because the budget does not cover it or the port refused.
      Every drain starts again at the first chunk: one that stays within a window, on a port that takes
      everything, sends the frame exactly when the budget still covers all of its chunks together.
     */
    method DrainOutbox(clock: nat -> real, portOk: nat -> bool) returns (r: Drained)
      requires Valid()
      requires forall i, j :: i <= j ==> latest <= clock(i) <= clock(j)
      modifies this
      ensures Valid() && QueueStep(old(outbox), outbox, chunkSize) && accepted == old(accepted)
      ensures r == Sent <==> outbox != old(outbox)
      ensures r != Sent ==> trips == old(trips)
      ensures r == Idle <==> old(outbox) == []
      ensures r == Idle || r.Unsplittable? ==> outbox == old(outbox) && written == old(written)
      ensures old(outbox) != [] ==>
                var parts := Segments(old(outbox)[0].frame, chunkSize);
                && (r.Unsplittable? <==> parts.Err?)
                && (r == Sent ==> parts.Ok? && outbox == old(outbox)[1..]
                                  && trips == old(trips) + [Trip(old(outbox)[0].frame, old(tries))]
                                  && ChunksOf(written) == ChunksOf(old(written)) + parts.value)
                && (parts.Ok? && old(OneWindow(|parts.value|, clock, portOk)) ==>
                      (r == Sent <==> old(UsedAt(clock(0))) + AllSeconds(parts.value) <= maxAirtime * dutyWindow))
                && (r.Stopped? ==> parts.Ok? && r.k < |parts.value| && outbox == old(outbox)
                                   && ChunksOf(written) == ChunksOf(old(written)) + parts.value[..r.k]
                                   && (portOk(r.k) ==> airtimeUsed + Seconds(|parts.value[r.k]| + LEN_SIZE)
                                                       > maxAirtime * dutyWindow))
    {
      hide Segments, Seconds, Budget, GoodHistory, Accounted, Sum, ChunksOf, Traced;
      if outbox == [] { return Idle; }
      var parts := SegmentFrame(outbox[0].frame, chunkSize);
      if parts.Err? { return Unsplittable(parts.error); }
      ghost var before := ChunksOf(written);
      SegmentsSome(outbox[0].frame, chunkSize);
      var k := WriteChunks(parts.value, clock, portOk);
      if k < |parts.value| {
        TracedStop(before, accepted, trips, tries, outbox, chunkSize, k);
        tries := tries + [k];
        return Stopped(k);
      }
      assert parts.value[..k] == parts.value;
      TracedSent(before, accepted, trips, tries, outbox, chunkSize);
      trips, tries := trips + [Trip(outbox[0].frame, tries)], [];
      outbox := outbox[1..];
      return Sent;
    }

    /** One turn of the loop: the chunk is written if the budget still covers it and the port takes it. */
    method WriteChunk(chunk: Frame, now: real, portOk: bool) returns (done: bool)
      requires BooksValid() && latest <= now
      modifies `windowStart, `airtimeUsed, `spans, `latest, `written
      ensures BooksValid() && latest == now && windowStart == old(StartAt(now))
      ensures done ==>
                && ChunksOf(written) == ChunksOf(old(written)) + [chunk]
                && airtimeUsed == old(UsedAt(now)) + Seconds(|chunk| + LEN_SIZE) <= maxAirtime * dutyWindow
      ensures !done ==> written == old(written)
      ensures !done && portOk ==>
                airtimeUsed == old(UsedAt(now)) && airtimeUsed + Seconds(|chunk| + LEN_SIZE) > maxAirtime * dutyWindow
    {
      hide Seconds, GoodHistory, Accounted, Sum, ChunksOf;
      var budget := AirtimeBudgetRemaining(now);
      var needed := Seconds(|chunk| + LEN_SIZE);
      if needed > budget { return false; }
      SecondsPositive(|chunk| + LEN_SIZE);
      ConsumeAirtime(|chunk| + LEN_SIZE, chunk);
      if !portOk { return false; }
      ChunksNext(written, Transmission(chunk, latest));
      written := written + [Transmission(chunk, latest)];
      return true;
    }

    lemma SecondsPositive(byteCount: nat)
      ensures byteCount > 0 ==> Seconds(byteCount) > 0.0
    {
    }

    /** The loop over the chunks: how many were written before the budget or the port stopped it. */
    method WriteChunks(chunks: seq<Frame>, clock: nat -> real, portOk: nat -> bool) returns (k: nat)
      requires BooksValid()
      requires forall i, j :: i <= j ==> latest <= clock(i) <= clock(j)
      modifies `windowStart, `airtimeUsed, `spans, `latest, `written
      ensures BooksValid()
      ensures k <= |chunks| && ChunksOf(written) == ChunksOf(old(written)) + chunks[..k]
      ensures k < |chunks| && portOk(k) ==> airtimeUsed + Seconds(|chunks[k]| + LEN_SIZE) > maxAirtime * dutyWindow
      ensures chunks != [] && old(OneWindow(|chunks|, clock, portOk)) ==>
                (k == |chunks| <==> old(UsedAt(clock(0))) + AllSeconds(chunks) <= maxAirtime * dutyWindow)
    {
      hide Seconds, Budget, GoodHistory, Accounted, Sum, ChunksOf, LoraTransport.BooksValid;
      ghost var start, used := StartAt(clock(0)), UsedAt(clock(0));
      ghost var oneWindow := OneWindow(|chunks|, clock, portOk);
      for i := 0 to |chunks|
        invariant BooksValid()
        invariant ChunksOf(written) == ChunksOf(old(written)) + chunks[..i]
        invariant latest == if i == 0 then old(latest) else clock(i - 1)
        invariant i == 0 ==> windowStart == old(windowStart) && airtimeUsed == old(airtimeUsed)
        invariant oneWindow && i > 0 ==>
                    windowStart == start && airtimeUsed == used + AllSeconds(chunks[..i]) <= maxAirtime * dutyWindow
      {
        assert chunks[..i + 1][..i] == chunks[..i] && chunks[..i + 1] == chunks[..i] + [chunks[i]];
        var done := WriteChunk(chunks[i], clock(i), portOk(i));
        if !done {
          AllSecondsGrow(chunks, i + 1);
          return i;
        }
      }
      assert chunks[..|chunks|] == chunks;
      return |chunks|;
    }

    lemma {:induction false} AllSecondsGrow(chunks: seq<Frame>, k: nat)
      requires k <= |chunks|
      ensures AllSeconds(chunks[..k]) <= AllSeconds(chunks)
      decreases |chunks|
    {
      hide Seconds;
      var n := |chunks| - 1;
      if k == |chunks| {
        assert chunks[..k] == chunks;
      } else {
        assert chunks[..n][..k] == chunks[..k];
        AllSecondsGrow(chunks[..n], k);
      }
    }

    /**
      In every reachable state: what was written in any stretch of `duty_window` seconds, wherever it
      starts, takes at most twice the airtime budget of one window.
     */
    lemma AnyStretch(lo: real)
      requires Valid() && dutyWindow >= 0.0
      ensures OnAir(written, Rate(), lo, lo + dutyWindow) <= 2.0 * Budget()
    {
      TwoSpansAtMost(spans, dutyWindow, Budget(), latest, lo);
    }
  }

  lemma ChunksNext(ts: seq<Transmission>, t: Transmission)
    ensures ChunksOf(ts + [t]) == ChunksOf(ts) + [t.chunk]
  {
  }

  lemma ChargedShape(spans: seq<Span>, c: Charge)
    requires spans != []
    ensures |Charged(spans, c)| == |spans| && Charged(spans, c)[|spans| - 1].start == spans[|spans| - 1].start
  {
  }
}
