/**
  What the walks of `transport_fallback.py` report and count, what becomes of the latencies, and what a
  transport is handed.
 */
module ChainCounts {
  import opened Common
  import opened Bytes
  import opened Frames
  import opened Breaker
  import opened ChainWalk
  import opened ChainSafety
  import Reassembly

  // ----- the ranking keys --------------------------------------------------------------------------------

  /** `send` asks closed breakers first, then by latency, one that was never measured counting as 10^12. */
  lemma SendOrder(a: Circuit, b: Circuit, now: real)
    ensures NoWorse(SendRank(a, now), SendRank(b, now)) <==>
      var openA, openB := a.openUntil > now, b.openUntil > now;
      || (!openA && openB)
      || (openA == openB &&
          match (a.latency, b.latency)
          case (Some(x), Some(y)) => x <= y
          case (Some(x), None) => x <= 1000000000000.0
          case (None, Some(y)) => 1000000000000.0 <= y
          case (None, None) => true)
  {
  }

  predicate Unmeasured(c: Circuit) { c.latency.None? || c.latency.value == 0.0 }

  /** `send_raw` puts one that was never measured, or measured as zero, behind all others of its kind. */
  lemma RawOrder(a: Circuit, b: Circuit, now: real)
    ensures NoWorse(RawRank(a, now), RawRank(b, now)) <==>
      var openA, openB := a.openUntil > now, b.openUntil > now;
      || (!openA && openB)
      || (openA == openB &&
          (Unmeasured(b) || (!Unmeasured(a) && a.latency.value <= b.latency.value)))
  {
  }

  // ----- one turn ------------------------------------------------------------------------------------------

  /** The latency half a second worse; half a second stands for one that was never measured, or measured as zero. */
  ghost predicate HalfWorse(before: Option<real>, after: Option<real>) {
    after.Some? && (before.Some? && before.value != 0.0 ==> after.value == before.value + 0.5)
    && (before.None? || before.value == 0.0 ==> after.value == 1.0)
  }

  /** The latency a fifth of the way from what it was to the sample; the sample itself if there was none. */
  ghost predicate Drawn(before: Option<real>, after: Option<real>, sample: real) {
    after.Some? && (before.None? ==> after.value == sample)
    && (before.Some? ==> 5.0 * (after.value - before.value) == sample - before.value)
  }

  /**
    What a turn does to its transport's latency and to the events. A turn without an attempt changes nothing;
    a refusal makes the latency worse, and is announced exactly when it opens the breaker; a success draws
    the latency towards the time between the readings around the handing over; a raised exception leaves it.
   */
  lemma TurnRates(l: Link, ch: Chain, rep: Report, mail: Mail, lim: Limits, clock: Clock, tick: nat, port: Port, call: nat)
    requires HasLink(ch, l) && !rep.ok
    ensures match Turn(l, ch, rep, mail, lim, clock, tick, port, call)
      case On(ch', _, _, rep') =>
        if rep'.skipped != rep.skipped
        then ch' == ch && rep' == rep.(skipped := rep.skipped + [l.name])
        else
          && rep' == rep.(attempts := rep.attempts + 1)
          && l.name in ch'.circuits && HalfWorse(ch.circuits[l.name].latency, ch'.circuits[l.name].latency)
          && ch'.events == ch.events + (if ch'.circuits[l.name].failures >= lim.threshold then [BreakerOpened(l.name)] else [])
          && ch'.sent == ch.sent && ch'.sendFailed == ch.sendFailed
      case Stop(w) =>
        && w.chain.sendFailed == ch.sendFailed && w.chain.events == ch.events
        && if w.result.Ok? && w.result.value.ok
           then && l.name in w.chain.circuits
                && Drawn(ch.circuits[l.name].latency, w.chain.circuits[l.name].latency, clock(tick + 2) - clock(tick + 1))
                && w.chain.sent == ch.sent + 1
                && w.result.value.skipped == rep.skipped && w.result.value.attempts == rep.attempts + 1
           else w.chain.circuits == ch.circuits && w.chain.attempts == ch.attempts && w.chain.sent == ch.sent
                && (w.result.Ok? ==> w.result.value == rep && mail.For(l.Codec()) == ProtocolFailure)
  {
    hide Judged, Pushed;
    if Judged(l, ch.circuits[l.name], mail, clock(tick)).GiveUp? { GaveUp(l, ch.circuits[l.name], mail, clock(tick)); }
  }

  lemma GaveUp(l: Link, c: Circuit, mail: Mail, now: real)
    requires Judged(l, c, mail, now).GiveUp?
    ensures mail.For(l.Codec()) == ProtocolFailure
  {
    hide Segments;
  }

  // ----- whole walks -----------------------------------------------------------------------------------------

  function Told(rep: Report): nat { |rep.skipped| + rep.attempts }

  /**
    A call of `send` is counted once: as sent if some transport took the mail, as failed if all of them were
    asked in vain, and as neither if encoding failed or a transport raised. Every transport whose turn came is
    reported as skipped or as an attempt, and nobody else.
   */
  lemma {:induction false} WalkAccounts(links: seq<Link>, k: nat, ch: Chain, rep: Report, mail: Mail, lim: Limits,
                                        clock: Clock, tick: nat, port: Port, call: nat)
    returns (i: nat)
    requires k <= |links| && Known(links, ch) && !rep.ok
    ensures k <= i <= |links|
    ensures var w := Walk(links, k, ch, rep, mail, lim, clock, tick, port, call);
      if w.result.Err? then w.chain.sent == ch.sent && w.chain.sendFailed == ch.sendFailed
      else if w.result.value.ok
      then w.chain.sent == ch.sent + 1 && w.chain.sendFailed == ch.sendFailed
           && i < |links| && Told(w.result.value) == Told(rep) + (i - k) + 1
      else w.chain.sent == ch.sent && Told(w.result.value) == Told(rep) + (i - k)
           && (i == |links| ==> w.chain.sendFailed == ch.sendFailed + 1)
           && (i < |links| ==> w.chain.sendFailed == ch.sendFailed && mail.For(links[i].Codec()) == ProtocolFailure)
    decreases |links| - k
  {
    hide Turn, HalfWorse, Drawn, Link.Codec;
    i := k;
    if k < |links| {
      TurnRates(links[k], ch, rep, mail, lim, clock, tick, port, call);
      TurnKeeps(links[k], ch, rep, mail, lim, clock, tick, port, call);
      match Turn(links[k], ch, rep, mail, lim, clock, tick, port, call)
      case Stop(_) =>
      case On(ch', tick', call', rep') =>
        i := WalkAccounts(links, k + 1, ch', rep', mail, lim, clock, tick', port, call');
    }
  }

  lemma TurnKeeps(l: Link, ch: Chain, rep: Report, mail: Mail, lim: Limits, clock: Clock, tick: nat, port: Port, call: nat)
    requires HasLink(ch, l)
    ensures match Turn(l, ch, rep, mail, lim, clock, tick, port, call)
            case On(ch', _, _, rep') => rep'.ok == rep.ok && ch'.sent == ch.sent && ch'.sendFailed == ch.sendFailed
            case Stop(_) => true
  {
    hide Judged, Pushed, Noted, Faster, Slower;
  }

  /** Names of the transports from k on, up to but not including j. */
  function Names(links: seq<Link>, k: nat, j: nat): seq<string>
    requires k <= j <= |links|
    decreases j - k
  {
    if k == j then [] else [links[k].name] + Names(links, k + 1, j)
  }

  /**
    `send_raw` hands the frame to at most one acceptor, and reports everyone asked or passed over before as
    skipped, those that failed included. Attempts are the calls of transports, and a breaker that opens is
    counted and announced.
   */
  lemma {:induction false} RawWalkAccounts(links: seq<Link>, k: nat, ch: Chain, rep: Report, peer: string, frame: Frame,
                                           lim: Limits, now: real, port: Port, call: nat)
    returns (i: nat)
    requires k <= |links| && Known(links, ch) && !rep.ok
    ensures k <= i <= |links|
    ensures var w := RawWalk(links, k, ch, rep, peer, frame, lim, now, port, call);
      && w.result.Ok? && w.result.value.ok == (i < |links|)
      && w.result.value.skipped == rep.skipped + Names(links, k, i)
      && w.result.value.attempts - rep.attempts == |w.chain.wire| - |ch.wire| == w.call - call
      && (i < |links| ==> w.result.value.via == Some(links[i].name))
      && w.chain.sent == ch.sent + (if i < |links| then 1 else 0)
      && w.chain.sendFailed == ch.sendFailed + (if i < |links| then 0 else 1)
      && w.chain.breakerOpened - ch.breakerOpened == |w.chain.events| - |ch.events|
      && (forall n :: n in ch.circuits ==> n in w.chain.circuits && w.chain.circuits[n].latency == ch.circuits[n].latency)
    decreases |links| - k
  {
    hide RawTurn;
    i := k;
    if k == |links| {
      assert rep.skipped + Names(links, k, i) == rep.skipped;
    } else {
      RawTurnAccounts(links[k], ch, rep, peer, frame, lim, now, port, call);
      match RawTurn(links[k], ch, rep, peer, frame, lim, now, port, call)
      case Stop(_) =>
        assert rep.skipped + Names(links, k, i) == rep.skipped;
      case On(ch', _, call', rep') =>
        i := RawWalkAccounts(links, k + 1, ch', rep', peer, frame, lim, now, port, call');
        assert rep.skipped + ([links[k].name] + Names(links, k + 1, i)) == rep'.skipped + Names(links, k + 1, i);
    }
  }

  lemma RawTurnAccounts(l: Link, ch: Chain, rep: Report, peer: string, frame: Frame, lim: Limits, now: real, port: Port, call: nat)
    requires HasLink(ch, l) && !rep.ok
    ensures match RawTurn(l, ch, rep, peer, frame, lim, now, port, call)
      case On(ch', _, call', rep') =>
        && rep'.skipped == rep.skipped + [l.name] && !rep'.ok
        && rep'.attempts - rep.attempts == |ch'.wire| - |ch.wire| == call' - call
        && ch'.sent == ch.sent && ch'.sendFailed == ch.sendFailed
        && ch'.breakerOpened - ch.breakerOpened == |ch'.events| - |ch.events|
        && (forall n :: n in ch.circuits ==> n in ch'.circuits && ch'.circuits[n].latency == ch.circuits[n].latency)
      case Stop(w) =>
        && w.result.Ok? && w.result.value.ok && w.result.value.skipped == rep.skipped && w.result.value.via == Some(l.name)
        && w.result.value.attempts - rep.attempts == |w.chain.wire| - |ch.wire| == w.call - call
        && w.chain.sent == ch.sent + 1 && w.chain.sendFailed == ch.sendFailed
        && w.chain.breakerOpened == ch.breakerOpened && w.chain.events == ch.events
        && (forall n :: n in ch.circuits ==> n in w.chain.circuits && w.chain.circuits[n].latency == ch.circuits[n].latency)
  {
  }

  // ----- what is handed over -------------------------------------------------------------------------------

  /**
    A transport that takes the mail gets it in the compact codec if it holds at most 1024 bytes a frame, and as
    JSON otherwise; no piece is larger than it can hold, nor than 65535 bytes.
   */
  lemma CarriedFits(l: Link, mid: Chain, w: Walked, mail: Mail, pieces: seq<Frame>)
    requires CarriedBy(l, mid, w, mail, pieces)
    requires mail.compact.Encoded? ==> PeekHeader(mail.compact.frame).Ok? && !PeekHeader(mail.compact.frame).value.Segmented()
    requires mail.json.Encoded? ==> PeekHeader(mail.json.frame).Ok? && !PeekHeader(mail.json.frame).value.Segmented()
    ensures l.maxPayload <= 1024 ==> w.result.value.codec == Some(1) && mail.compact.Encoded?
    ensures l.maxPayload > 1024 ==> w.result.value.codec == Some(0) && mail.json.Encoded?
    ensures forall i :: 0 <= i < |pieces| ==> |pieces[i]| <= l.maxPayload && |pieces[i]| <= 65535
    ensures var frame := if l.maxPayload <= 1024 then mail.compact.frame else mail.json.frame;
      |frame| <= Min(l.maxPayload, 65535) ==> pieces == [frame]
  {
    hide PeekHeader, Segments, AllHanded;
    var frame := mail.For(l.Codec()).frame;
    if |frame| > l.ChunkSize() {
      forall i | 0 <= i < |pieces| ensures |pieces[i]| <= l.ChunkSize() { Reassembly.SegmentsAreFrames(frame, l.ChunkSize(), i); }
    }
  }
}
