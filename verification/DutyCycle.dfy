/** The rolling one-hour airtime budget of `SimulatedEther` in `link_simulator.py`, over exact reals. */
module DutyCycle {
  import opened Common

  const WINDOW := 3600.0
  const EPSILON := 0.000000001

  /** One transmission on the air. */
  datatype Slot = Slot(start: real, end: real)

  /** The part of a slot inside [lo, hi]. */
  function Overlap(s: Slot, lo: real, hi: real): (r: real)
    ensures r >= 0.0
  {
    MaxR(0.0, MinR(s.end, hi) - MaxR(s.start, lo))
  }

  /** Airtime inside [lo, hi]. */
  function Used(slots: seq<Slot>, lo: real, hi: real): (r: real)
    ensures r >= 0.0
  {
    if slots == [] then 0.0
    else Used(slots[..|slots| - 1], lo, hi) + Overlap(slots[|slots| - 1], lo, hi)
  }

  /** `_duty_allows` on a given record of transmissions. */
  predicate Allows(slots: seq<Slot>, dutyCycle: Option<real>, start: real, airtime: real) {
    dutyCycle.Some? ==>
      Used(slots, start + airtime - WINDOW, start + airtime) + airtime <= dutyCycle.value * WINDOW + EPSILON
  }

  /**
    A transmission of at most an hour is let through exactly when the hour that ends with it then holds no
    more airtime than the budget, itself included.
   */
  lemma AllowsExactly(slots: seq<Slot>, dutyCycle: real, start: real, airtime: real)
    requires 0.0 <= airtime <= WINDOW
    ensures Allows(slots, Some(dutyCycle), start, airtime)
       <==> var end := start + airtime;
            Used(slots + [Slot(start, end)], end - WINDOW, end) <= dutyCycle * WINDOW + EPSILON
    ensures Allows(slots, None, start, airtime)
  {
    assert (slots + [Slot(start, start + airtime)])[..|slots|] == slots;
  }

  /** Dropping old slots from the front, as `submit` does after recording one. */
  function Trimmed(slots: seq<Slot>, now: real): seq<Slot> {
    if slots != [] && slots[0].end < now - WINDOW then Trimmed(slots[1..], now) else slots
  }

  // ----- discarding never changes a later decision -------------------------------------------------------

  lemma {:induction false} UsedConcat(a: seq<Slot>, b: seq<Slot>, lo: real, hi: real)
    ensures Used(a + b, lo, hi) == Used(a, lo, hi) + Used(b, lo, hi)
  {
    if b == [] {
      assert a + b == a;
    } else {
      var n := |b| - 1;
      assert (a + b)[..|a| + n] == a + b[..n];
      UsedConcat(a, b[..n], lo, hi);
    }
  }

  lemma {:induction false} OldUnused(slots: seq<Slot>, lo: real, hi: real)
    requires forall i :: 0 <= i < |slots| ==> slots[i].end <= lo
    ensures Used(slots, lo, hi) == 0.0
  {
    if slots != [] {
      OldUnused(slots[..|slots| - 1], lo, hi);
    }
  }

  /** `kept` is what is left of `all` when slots that ended before `since` have gone. */
  ghost predicate Remains(all: seq<Slot>, kept: seq<Slot>, since: real) {
    |kept| <= |all| && kept == all[|all| - |kept|..]
    && forall i :: 0 <= i < |all| - |kept| ==> all[i].end < since
  }

  /** The kept slots give the same answer as the full record, for any window that starts late enough. */
  lemma RemainsAllows(all: seq<Slot>, kept: seq<Slot>, dutyCycle: Option<real>, since: real, start: real, airtime: real)
    requires Remains(all, kept, since) && since <= start - WINDOW && airtime >= 0.0
    ensures Allows(kept, dutyCycle, start, airtime) <==> Allows(all, dutyCycle, start, airtime)
  {
    var k := |all| - |kept|;
    assert all == all[..k] + kept;
    UsedConcat(all[..k], kept, start + airtime - WINDOW, start + airtime);
    OldUnused(all[..k], start + airtime - WINDOW, start + airtime);
  }

  lemma {:induction false} TrimmedRemains(all: seq<Slot>, kept: seq<Slot>, since: real, now: real)
    requires Remains(all, kept, since) && since <= now - WINDOW
    ensures Remains(all, Trimmed(kept, now), now - WINDOW)
    decreases |kept|
  {
    if kept != [] && kept[0].end < now - WINDOW {
      assert kept[0] == all[|all| - |kept|];
      assert kept[1..] == all[|all| - |kept[1..]|..];
      TrimmedRemains(all, kept[1..], now - WINDOW, now);
    }
  }

  // ----- every window, not only the checked ones -----------------------------------------------------------

  /** Every recorded slot was allowed, given the ones before it. */
  ghost predicate AllAllowed(slots: seq<Slot>, dutyCycle: Option<real>) {
    forall i :: 0 <= i < |slots| ==>
      slots[i].start <= slots[i].end && Allows(slots[..i], dutyCycle, slots[i].start, slots[i].end - slots[i].start)
  }

  /** Each transmission starts when the previous one is over. */
  ghost predicate OneAtATime(slots: seq<Slot>) {
    forall i, j :: 0 <= i < j < |slots| ==> slots[i].end <= slots[j].start
  }

  lemma {:induction false} UsedWider(slots: seq<Slot>, lo: real, hi: real, lo': real, hi': real)
    requires lo' <= lo && hi <= hi'
    ensures Used(slots, lo, hi) <= Used(slots, lo', hi')
  {
    if slots != [] {
      UsedWider(slots[..|slots| - 1], lo, hi, lo', hi');
    }
  }

  lemma {:induction false} UsedSplit(slots: seq<Slot>, lo: real, mid: real, hi: real)
    requires lo <= mid
    ensures Used(slots, lo, hi) <= Used(slots, lo, mid) + Used(slots, mid, hi)
  {
    if slots != [] {
      UsedSplit(slots[..|slots| - 1], lo, mid, hi);
    }
  }

  /** Nothing is on the air after the last slot has ended. */
  lemma {:induction false} UsedUntil(slots: seq<Slot>, lo: real, hi: real, end: real)
    requires forall i :: 0 <= i < |slots| ==> slots[i].end <= end
    ensures Used(slots, lo, hi) == Used(slots, lo, MinR(hi, end))
  {
    if slots != [] {
      UsedUntil(slots[..|slots| - 1], lo, hi, end);
    }
  }

  lemma {:induction false} UsedWithin(slots: seq<Slot>, lo: real, hi: real)
    requires OneAtATime(slots) && forall i :: 0 <= i < |slots| ==> slots[i].start <= slots[i].end
    ensures Used(slots, lo, hi) <= MaxR(0.0, hi - lo)
    decreases |slots|
  {
    if slots != [] {
      var init, last := slots[..|slots| - 1], slots[|slots| - 1];
      UsedUntil(init, lo, hi, last.start);
      UsedWithin(init, lo, MinR(hi, last.start));
    }
  }

  /** The last slot of a record, seen through a window that it enters. */
  lemma LastWindow(prev: seq<Slot>, last: Slot, budget: real, w: real)
    requires OneAtATime(prev) && forall i :: 0 <= i < |prev| ==> prev[i].start <= prev[i].end <= last.start
    requires last.start <= last.end && last.start < w + WINDOW
    requires Used(prev, last.end - WINDOW, last.end) + (last.end - last.start) <= budget
    ensures Used(prev, w, w + WINDOW) + Overlap(last, w, w + WINDOW) <= budget
  {
    var c := last.end - WINDOW;
    UsedUntil(prev, w, w + WINDOW, last.end);
    if c <= w {
      UsedWider(prev, w, last.end, c, last.end);
    } else {
      UsedSplit(prev, w, c, w + WINDOW);
      UsedWithin(prev, w, c);
      UsedWider(prev, c, w + WINDOW, c, last.end);
    }
  }

  lemma LateUnused(s: Slot, lo: real, hi: real)
    requires s.start >= hi
    ensures Overlap(s, lo, hi) == 0.0
  {
  }

  lemma LastAllowed(slots: seq<Slot>, dutyCycle: real)
    requires AllAllowed(slots, Some(dutyCycle)) && OneAtATime(slots) && slots != []
    ensures var prev, last := slots[..|slots| - 1], slots[|slots| - 1];
      && AllAllowed(prev, Some(dutyCycle)) && OneAtATime(prev)
      && last.start <= last.end
      && (forall i :: 0 <= i < |prev| ==> prev[i].start <= prev[i].end <= last.start)
      && Used(prev, last.end - WINDOW, last.end) + (last.end - last.start) <= dutyCycle * WINDOW + EPSILON
  {
    hide Used;
    var n := |slots| - 1;
    assert forall i :: 0 <= i < n ==> slots[..n][..i] == slots[..i];
    assert Allows(slots[..n], Some(dutyCycle), slots[n].start, slots[n].end - slots[n].start);
    assert slots[n].start + (slots[n].end - slots[n].start) == slots[n].end;
  }

  /**
    When transmissions follow one another, the airtime inside every one-hour window -- wherever it
    starts, not only where a check was made -- is within the budget.
   */
  lemma {:induction false} RollingHour(slots: seq<Slot>, dutyCycle: real, w: real)
    requires AllAllowed(slots, Some(dutyCycle)) && OneAtATime(slots) && dutyCycle >= 0.0
    ensures Used(slots, w, w + WINDOW) <= dutyCycle * WINDOW + EPSILON
    decreases |slots|
  {
    hide Overlap, AllAllowed, Allows, OneAtATime;
    if slots != [] {
      var n := |slots| - 1;
      var prev, last := slots[..n], slots[n];
      LastAllowed(slots, dutyCycle);
      if last.start >= w + WINDOW {
        RollingHour(prev, dutyCycle, w);
        LateUnused(last, w, w + WINDOW);
      } else {
        LastWindow(prev, last, dutyCycle * WINDOW + EPSILON, w);
      }
    }
  }

  // ----- overlapping transmissions ---------------------------------------------------------------------------

  /** `_airtime_s` */
  function Airtime(kbps: real, frameLen: nat): (s: real)
    ensures s >= 0.0 && (s > 0.0 <==> kbps > 0.0 && frameLen > 0)
  {
    if kbps <= 0.0 then 0.0 else (frameLen as real * 8.0) / (kbps * 1000.0)
  }

  datatype Medium = Medium(kbps: real, dutyCycle: Option<real>, maxPayload: nat)

  datatype Submission = Submission(frameLen: nat, now: real)

  /** What `submit` records: a transmission that the medium and the budget take, and that takes time. */
  function Recorded(m: Medium, history: seq<Slot>, s: Submission): seq<Slot> {
    var t := Airtime(m.kbps, s.frameLen);
    if s.frameLen <= m.maxPayload && Allows(history, m.dutyCycle, s.now, t) && t > 0.0
    then history + [Slot(s.now, s.now + t)] else history
  }

  function RecordedAll(m: Medium, subs: seq<Submission>): seq<Slot> {
    if subs == [] then [] else Recorded(m, RecordedAll(m, subs[..|subs| - 1]), subs[|subs| - 1])
  }

  /** Whatever is submitted, every recorded transmission was allowed given the ones before it. */
  lemma {:induction false} RecordedAllowed(m: Medium, subs: seq<Submission>)
    ensures AllAllowed(RecordedAll(m, subs), m.dutyCycle)
  {
    hide Allows, AllAllowed, Airtime;
    if subs == [] {
      NoneAllowed(m.dutyCycle);
    } else {
      var n := |subs| - 1;
      RecordedAllowed(m, subs[..n]);
      var t := Airtime(m.kbps, subs[n].frameLen);
      var slot := Slot(subs[n].now, subs[n].now + t);
      assert slot.end - slot.start == t;
      if Allows(RecordedAll(m, subs[..n]), m.dutyCycle, subs[n].now, t) {
        AllowedNext(RecordedAll(m, subs[..n]), m.dutyCycle, slot);
      }
    }
  }

  /** So what is recorded keeps the budget in every window as long as transmissions do not overlap. */
  lemma RecordedWithinBudget(m: Medium, subs: seq<Submission>, w: real)
    requires m.dutyCycle.Some? && m.dutyCycle.value >= 0.0 && OneAtATime(RecordedAll(m, subs))
    ensures Used(RecordedAll(m, subs), w, w + WINDOW) <= m.dutyCycle.value * WINDOW + EPSILON
  {
    hide Used, AllAllowed, OneAtATime, RecordedAll;
    RecordedAllowed(m, subs);
    RollingHour(RecordedAll(m, subs), m.dutyCycle.value, w);
  }

  lemma NoneAllowed(dutyCycle: Option<real>)
    ensures AllAllowed([], dutyCycle)
  {
  }

  lemma FramesFit(e: real)
    requires e > 0.0
    ensures var kbps := 128.0 / (1000.0 * e); kbps > 0.0 && Airtime(kbps, 16) == e && Airtime(kbps, 64) == 4.0 * e
  {
    var kbps := 128.0 / (1000.0 * e);
    assert kbps * (1000.0 * e) == 128.0;
    assert (kbps * 1000.0) * e == 128.0;
    assert kbps * 1000.0 > 0.0;
    QuotientIs(128.0, kbps * 1000.0, e);
    QuotientIs(512.0, kbps * 1000.0, 4.0 * e);
  }

  lemma QuotientIs(m: real, w: real, q: real)
    requires w > 0.0 && w * q == m
    ensures m / w == q
  {
  }

  /** Two frames of a bare header at once, and one four times as long within the hour. */
  function Burst(e: real): seq<Submission> {
    [Submission(16, 0.0), Submission(16, 0.0), Submission(64, WINDOW - 3.0 * e)]
  }

  lemma BurstRecorded(m: Medium, e: real)
    requires EPSILON < e <= 899.0 && m.maxPayload >= 64 && m.dutyCycle == Some(4.0 * e / WINDOW)
    requires Airtime(m.kbps, 16) == e && Airtime(m.kbps, 64) == 4.0 * e
    ensures RecordedAll(m, Burst(e)) == [Slot(0.0, e), Slot(0.0, e), Slot(WINDOW - 3.0 * e, WINDOW + e)]
  {
    hide Airtime, Used, Overlap;
    var a, subs := Slot(0.0, e), Burst(e);
    assert m.dutyCycle.value * WINDOW == 4.0 * e;
    var s1, s2 := [subs[0]], [subs[0], subs[1]];
    assert subs[..2] == s2 && s2[..1] == s1 && s1[..0] == [];
    var none: seq<Slot> := [];
    UsedNone(e - WINDOW, e);
    assert none + [a] == [a] && [a] + [a] == [a, a];
    assert RecordedAll(m, s1) == [a];
    UsedTwo(a, a, e - WINDOW, e);
    UsedTwo(a, a, e, e + WINDOW);
    OverlapOf(e);
    assert Allows([a], m.dutyCycle, 0.0, e);
    assert RecordedAll(m, s2) == [a, a];
    assert WINDOW - 3.0 * e + 4.0 * e == WINDOW + e && WINDOW - 3.0 * e + 4.0 * e - WINDOW == e;
    assert Allows([a, a], m.dutyCycle, WINDOW - 3.0 * e, 4.0 * e);
  }

  lemma UsedNone(lo: real, hi: real)
    ensures Used([], lo, hi) == 0.0
  {
  }

  lemma OverlapOf(e: real)
    requires 0.0 < e <= 899.0
    ensures Overlap(Slot(0.0, e), e - WINDOW, e) == e && Overlap(Slot(0.0, e), e, e + WINDOW) == 0.0
    ensures Overlap(Slot(0.0, e), 0.0, WINDOW) == e && Overlap(Slot(WINDOW - 3.0 * e, WINDOW + e), 0.0, WINDOW) == 3.0 * e
  {
  }

  /**
    However small the overlap, above the tolerance: there is a medium and three frames that `submit`
    records on it, only two of them overlapping, and by that much, whose airtime in a window that was not
    checked exceeds the budget.
   */
  lemma OverlappingExceeds(overlap: real) returns (m: Medium, subs: seq<Submission>, w: real)
    requires EPSILON < overlap <= 899.0
    ensures m.kbps > 0.0 && m.dutyCycle.Some? && 0.0 <= m.dutyCycle.value <= 1.0
    ensures var slots := RecordedAll(m, subs);
      && |slots| == |subs| == 3 && slots[0].start <= slots[1].start <= slots[1].end <= slots[2].start
      && Overlap(slots[0], slots[1].start, slots[1].end) == overlap
      && Used(slots, w, w + WINDOW) > m.dutyCycle.value * WINDOW + EPSILON
  {
    hide Airtime, Used, RecordedAll;
    var e := overlap;
    m, subs, w := Medium(128.0 / (1000.0 * e), Some(4.0 * e / WINDOW), 64), Burst(e), 0.0;
    FramesFit(e);
    BurstRecorded(m, e);
    assert m.dutyCycle.value * WINDOW == 4.0 * e;
    var a, b := Slot(0.0, e), Slot(WINDOW - 3.0 * e, WINDOW + e);
    UsedThird(a, b, 0.0, WINDOW);
    OverlapOf(e);
  }

  lemma UsedThird(a: Slot, b: Slot, lo: real, hi: real)
    ensures Used([a, a, b], lo, hi) == Overlap(a, lo, hi) + Overlap(a, lo, hi) + Overlap(b, lo, hi)
  {
    hide Overlap;
    UsedTwo(a, a, lo, hi);
    assert [a, a, b][..2] == [a, a];
  }

  lemma UsedTwo(a: Slot, b: Slot, lo: real, hi: real)
    ensures Used([a], lo, hi) == Overlap(a, lo, hi)
    ensures Used([a, b], lo, hi) == Overlap(a, lo, hi) + Overlap(b, lo, hi)
  {
    hide Overlap;
    assert [a, b][..1] == [a] && [a][..0] == [];
  }

  datatype Outcome = TooLong | OverBudget | OnAir

  class SimulatedEther {
    var airtime: seq<Slot>
    const kbps: real
    const dutyCycle: Option<real>
    const maxPayload: nat
    /** Everything ever recorded, and the latest clock reading. */
    ghost var history: seq<Slot>
    ghost var latest: real

    ghost predicate Valid()
      reads this
    {
      && Remains(history, airtime, latest - WINDOW)
      && AllAllowed(history, dutyCycle)
    }

    constructor (kbps: real, dutyCycle: Option<real>, maxPayload: nat, now: real)
      ensures Valid() && history == [] && latest == now
      ensures this.kbps == kbps && this.dutyCycle == dutyCycle && this.maxPayload == maxPayload
    {
      this.kbps, this.dutyCycle, this.maxPayload := kbps, dutyCycle, maxPayload;
      airtime, history, latest := [], [], now;
    }

    function AirtimeS(frameLen: nat): (s: real)
      ensures s >= 0.0 && (s > 0.0 <==> kbps > 0.0 && frameLen > 0)
    {
      Airtime(kbps, frameLen)
    }

    function OnMedium(): Medium { Medium(kbps, dutyCycle, maxPayload) }

    method DutyAllows(start: real, duration: real) returns (ok: bool)
      ensures ok == Allows(airtime, dutyCycle, start, duration)
    {
      if dutyCycle.None? { return true; }
      var budget := dutyCycle.value * WINDOW;
      var windowEnd := start + duration;
      var windowStart := windowEnd - WINDOW;
      var used := 0.0;
      for k := 0 to |airtime|
        invariant used == Used(airtime[..k], windowStart, windowEnd)
      {
        assert airtime[..k + 1][..k] == airtime[..k];
        var overlap := MinR(airtime[k].end, windowEnd) - MaxR(airtime[k].start, windowStart);
        if overlap > 0.0 { used := used + overlap; }
      }
      assert airtime[..|airtime|] == airtime;
      return used + duration <= budget + EPSILON;
    }

    /** The airtime part of `submit`: refuse, or record the transmission and forget old ones. */
    method SubmitAirtime(frameLen: nat, now: real) returns (r: Outcome)
      requires Valid() && now >= latest
      modifies this
      ensures Valid() && latest == now
      ensures var t := AirtimeS(frameLen);
        && (r == TooLong <==> frameLen > maxPayload)
        && (frameLen <= maxPayload ==> (r == OnAir <==> Allows(old(history), dutyCycle, now, t)))
        && history == if r == OnAir && t > 0.0 then old(history) + [Slot(now, now + t)] else old(history)
      ensures history == Recorded(OnMedium(), old(history), Submission(frameLen, now))
    {
      hide Remains, AllAllowed, Allows, Airtime;
      RemainsLater(history, airtime, latest - WINDOW, now - WINDOW);
      latest := now;
      if frameLen > maxPayload { return TooLong; }
      var t := AirtimeS(frameLen);
      RemainsAllows(history, airtime, dutyCycle, now - WINDOW, now, t);
      var ok := DutyAllows(now, t);
      if !ok { return OverBudget; }
      if t > 0.0 { Transmit(Slot(now, now + t)); }
      return OnAir;
    }

    /** Record a transmission, then drop what ended more than an hour before it started. */
    method Transmit(s: Slot)
      requires Valid() && latest == s.start <= s.end && Allows(history, dutyCycle, s.start, s.end - s.start)
      modifies this
      ensures Valid() && latest == old(latest) && history == old(history) + [s]
    {
      hide AllAllowed, Allows;
      AllowedNext(history, dutyCycle, s);
      RemainsAppend(history, airtime, latest - WINDOW, s);
      airtime, history := airtime + [s], history + [s];
      TrimmedRemains(history, airtime, latest - WINDOW, s.start);
      Trim(s.start);
    }

    method Trim(now: real)
      modifies `airtime
      ensures airtime == Trimmed(old(airtime), now)
    {
      while airtime != [] && airtime[0].end < now - WINDOW
        invariant Trimmed(airtime, now) == Trimmed(old(airtime), now)
        decreases |airtime|
      {
        airtime := airtime[1..];
      }
    }
  }

  lemma RemainsAppend(all: seq<Slot>, kept: seq<Slot>, since: real, s: Slot)
    requires Remains(all, kept, since)
    ensures Remains(all + [s], kept + [s], since)
  {
  }

  lemma RemainsLater(all: seq<Slot>, kept: seq<Slot>, since: real, since': real)
    requires Remains(all, kept, since) && since <= since'
    ensures Remains(all, kept, since')
  {
  }

  lemma AllowedNext(slots: seq<Slot>, dutyCycle: Option<real>, s: Slot)
    requires AllAllowed(slots, dutyCycle) && s.start <= s.end && Allows(slots, dutyCycle, s.start, s.end - s.start)
    ensures AllAllowed(slots + [s], dutyCycle)
  {
    var all := slots + [s];
    assert all[..|slots|] == slots && forall i :: 0 <= i < |slots| ==> all[..i] == slots[..i];
  }
}
