/** What every chain walk keeps, and what it achieves. */
module ChainSafety {
  import opened Common
  import opened Bytes
  import opened Frames
  import opened Breaker
  import opened ChainWalk
  import Sorting

  ghost predicate Steady(clock: Clock) {
    forall i: nat, j: nat :: i <= j ==> clock(i) <= clock(j)
  }

  /** Every breaker says what the attempts on its transport say, and no attempt was made while it was open. */
  ghost predicate Sound(ch: Chain, lim: Limits, now: real) {
    && ch.circuits.Keys == ch.attempts.Keys
    && forall n :: n in ch.circuits ==> SoundAt(ch, lim, now, n)
  }

  ghost predicate SoundAt(ch: Chain, lim: Limits, now: real, n: string)
    requires n in ch.circuits && n in ch.attempts
  {
    Reflects(ch.circuits[n], ch.attempts[n], lim) && Gated(ch.attempts[n], lim, now)
  }

  lemma SoundLater(ch: Chain, lim: Limits, now: real, later: real)
    requires Sound(ch, lim, now) && now <= later
    ensures Sound(ch, lim, later)
  {
    hide Gated, Reflects;
    forall n | n in ch.circuits ensures SoundAt(ch, lim, later, n) {
      assert SoundAt(ch, lim, now, n);
      GatedLater(ch.attempts[n], lim, now, later);
    }
  }

  lemma ReflectsAnyLatency(c: Circuit, as_: seq<Attempt>, lim: Limits, latency: Option<real>)
    requires Reflects(c, as_, lim)
    ensures Reflects(c.(latency := latency), as_, lim)
  {
    hide Trailing, OpenUntil;
  }

  lemma OpenUntilIs(c: Circuit, as_: seq<Attempt>, lim: Limits)
    requires Reflects(c, as_, lim)
    ensures c.openUntil == OpenUntil(as_, lim)
  {
    hide Trailing, OpenUntil;
  }

  lemma WithAttemptAt(ch: Chain, name: string, a: Attempt, lim: Limits, latency: Option<real>, now: real, later: real)
    requires Sound(ch, lim, now) && name in ch.circuits
    requires now <= a.at <= a.failedAt <= later && a.at >= ch.circuits[name].openUntil
    ensures name in ch.attempts
    ensures var noted := Noted(ch.circuits[name], a, lim).(latency := latency);
      Reflects(noted, ch.attempts[name] + [a], lim) && Gated(ch.attempts[name] + [a], lim, later)
  {
    hide Gated, Reflects, Noted, OpenUntil;
    assert SoundAt(ch, lim, now, name);
    OpenUntilIs(ch.circuits[name], ch.attempts[name], lim);
    NotedReflects(ch.circuits[name], ch.attempts[name], a, lim);
    NotedGated(ch.attempts[name], a, lim, now, later);
    ReflectsAnyLatency(Noted(ch.circuits[name], a, lim), ch.attempts[name] + [a], lim, latency);
  }

  lemma WithAttemptSound(ch: Chain, name: string, a: Attempt, lim: Limits, latency: Option<real>, now: real, later: real)
    requires Sound(ch, lim, now) && name in ch.circuits
    requires now <= a.at <= a.failedAt <= later && a.at >= ch.circuits[name].openUntil
    ensures Sound(WithAttempt(ch, name, a, lim, latency), lim, later)
  {
    hide Gated, Reflects, Noted, OpenUntil;
    WithAttemptAt(ch, name, a, lim, latency, now, later);
    SoundLater(ch, lim, now, later);
    var ch' := WithAttempt(ch, name, a, lim, latency);
    forall n | n in ch'.circuits ensures SoundAt(ch', lim, later, n) {
      assert n != name ==> SoundAt(ch, lim, later, n);
    }
  }

  lemma SoundSame(ch: Chain, ch': Chain, lim: Limits, now: real)
    requires Sound(ch, lim, now) && ch.circuits == ch'.circuits && ch.attempts == ch'.attempts
    ensures Sound(ch', lim, now)
  {
    hide Gated, Reflects;
    forall n | n in ch'.circuits ensures SoundAt(ch', lim, now, n) { assert SoundAt(ch, lim, now, n); }
  }

  lemma Readings(clock: Clock, tick: nat)
    requires Steady(clock)
    ensures clock(tick) <= clock(tick + 1) <= clock(tick + 2) <= clock(tick + 3) <= clock(tick + 4)
  {
  }

  lemma TurnSound(l: Link, ch: Chain, rep: Report, mail: Mail, lim: Limits, clock: Clock, tick: nat, port: Port, call: nat,
                  now: real)
    requires HasLink(ch, l) && Steady(clock) && Sound(ch, lim, now) && now <= clock(tick)
    ensures match Turn(l, ch, rep, mail, lim, clock, tick, port, call)
            case On(ch', tick', _, _) => tick' >= tick && Sound(ch', lim, clock(tick'))
            case Stop(w) => w.tick >= tick && Sound(w.chain, lim, clock(w.tick))
  {
    hide Sound, Gated, Reflects, Noted, Pushed, Steady;
    Readings(clock, tick);
    SoundLater(ch, lim, now, clock(tick + 1));
    var c := ch.circuits[l.name];
    match Judged(l, c, mail, clock(tick))
    case PassOver =>
    case GiveUp =>
    case Fail(_) =>
    case Try(pieces) =>
      var p := Pushed(pieces, l.name, mail.recipient, ch.wire, call, port);
      var ch1 := ch.(wire := p.0);
      SoundSame(ch, ch1, lim, now);
      match p.2 {
        case Raised => SoundLater(ch1, lim, now, clock(tick + 2));
        case Accepted =>
          var a, latency := Attempt(clock(tick), clock(tick + 2), Accepted), clock(tick + 2) - clock(tick + 1);
          WithAttemptSound(ch1, l.name, a, lim, Faster(c.latency, latency), now, clock(tick + 3));
          SoundSame(WithAttempt(ch1, l.name, a, lim, Faster(c.latency, latency)),
                    AfterSuccess(ch1, l.name, a, lim, latency), lim, clock(tick + 3));
        case Refused =>
          var tick' := if Trips(c, lim) then tick + 4 else tick + 3;
          var a := Attempt(clock(tick), clock(tick' - 1), Refused);
          WithAttemptSound(ch1, l.name, a, lim, Slower(c.latency), now, clock(tick'));
          SoundSame(WithAttempt(ch1, l.name, a, lim, Slower(c.latency)), AfterRefusal(ch1, l.name, a, lim), lim, clock(tick'));
      }
  }

  /** A call of `send` keeps the breakers sound, up to the last reading of the clock it took. */
  lemma {:induction false} WalkSound(links: seq<Link>, k: nat, ch: Chain, rep: Report, mail: Mail, lim: Limits,
                                     clock: Clock, tick: nat, port: Port, call: nat, now: real)
    requires k <= |links| && Known(links, ch) && Steady(clock)
    requires Sound(ch, lim, now) && now <= clock(tick)
    ensures var w := Walk(links, k, ch, rep, mail, lim, clock, tick, port, call);
      w.tick >= tick && Sound(w.chain, lim, clock(w.tick))
    decreases |links| - k
  {
    hide Sound, Turn, Steady;
    if k == |links| {
      SoundLater(ch, lim, now, clock(tick));
      SoundSame(ch, ch.(sendFailed := ch.sendFailed + 1), lim, clock(tick));
    } else {
      TurnSound(links[k], ch, rep, mail, lim, clock, tick, port, call, now);
      match Turn(links[k], ch, rep, mail, lim, clock, tick, port, call)
      case Stop(_) =>
      case On(ch', tick', call', rep') =>
        WalkSound(links, k + 1, ch', rep', mail, lim, clock, tick', port, call', clock(tick'));
    }
  }

  lemma TurnKeys(l: Link, ch: Chain, rep: Report, mail: Mail, lim: Limits, clock: Clock, tick: nat, port: Port, call: nat)
    requires HasLink(ch, l)
    ensures match Turn(l, ch, rep, mail, lim, clock, tick, port, call)
            case On(_, _, _, _) => true
            case Stop(w) => w.chain.circuits.Keys == ch.circuits.Keys == w.chain.attempts.Keys
  {
    hide Judged, Noted, Pushed, Faster, Slower;
  }

  /** The set of known transports is the same after a walk. */
  lemma {:induction false} WalkKnown(links: seq<Link>, k: nat, ch: Chain, rep: Report, mail: Mail, lim: Limits,
                                     clock: Clock, tick: nat, port: Port, call: nat)
    requires k <= |links| && Known(links, ch)
    ensures var w := Walk(links, k, ch, rep, mail, lim, clock, tick, port, call);
      w.chain.circuits.Keys == ch.circuits.Keys == w.chain.attempts.Keys
    decreases |links| - k
  {
    hide Turn;
    if k < |links| {
      TurnKeys(links[k], ch, rep, mail, lim, clock, tick, port, call);
      match Turn(links[k], ch, rep, mail, lim, clock, tick, port, call)
      case Stop(_) =>
      case On(ch', tick', call', rep') => WalkKnown(links, k + 1, ch', rep', mail, lim, clock, tick', port, call');
    }
  }

  lemma {:induction false} RawWalkKnown(links: seq<Link>, k: nat, ch: Chain, rep: Report, peer: string, frame: Frame,
                                        lim: Limits, now: real, port: Port, call: nat)
    requires k <= |links| && Known(links, ch)
    ensures var w := RawWalk(links, k, ch, rep, peer, frame, lim, now, port, call);
      w.chain.circuits.Keys == ch.circuits.Keys == w.chain.attempts.Keys
    decreases |links| - k
  {
    hide Noted;
    if k < |links| {
      match RawTurn(links[k], ch, rep, peer, frame, lim, now, port, call)
      case Stop(_) =>
      case On(ch', _, call', rep') => RawWalkKnown(links, k + 1, ch', rep', peer, frame, lim, now, port, call');
    }
  }

  lemma RawTurnSound(l: Link, ch: Chain, rep: Report, peer: string, frame: Frame, lim: Limits, now: real, port: Port, call: nat)
    requires HasLink(ch, l) && Sound(ch, lim, now)
    ensures match RawTurn(l, ch, rep, peer, frame, lim, now, port, call)
            case On(ch', _, _, _) => Sound(ch', lim, now)
            case Stop(w) => Sound(w.chain, lim, now)
  {
    hide Sound, Gated, Reflects, Noted;
    var c := ch.circuits[l.name];
    if c.openUntil <= now && l.AcceptsClass(0) {
      var a := Attempt(now, now, port(call, l.name));
      var noted := WithAttempt(ch, l.name, a, lim, c.latency);
      WithAttemptSound(ch, l.name, a, lim, c.latency, now, now);
      var ch1 := noted.(wire := ch.wire + [Handed(l.name, peer, frame)]);
      SoundSame(noted, ch1, lim, now);
      SoundSame(noted, ch1.(sent := ch.sent + 1), lim, now);
      SoundSame(noted, ch1.(breakerOpened := ch.breakerOpened + 1,
                            events := ch.events + [Exhausted(l.name, c.failures + 1)]), lim, now);
    }
  }

  /** So does a call of `send_raw`. */
  lemma {:induction false} RawWalkSound(links: seq<Link>, k: nat, ch: Chain, rep: Report, peer: string, frame: Frame,
                                        lim: Limits, now: real, port: Port, call: nat)
    requires k <= |links| && Known(links, ch) && Sound(ch, lim, now)
    ensures Sound(RawWalk(links, k, ch, rep, peer, frame, lim, now, port, call).chain, lim, now)
    decreases |links| - k
  {
    hide Sound, RawTurn;
    if k == |links| {
      SoundSame(ch, ch.(sendFailed := ch.sendFailed + 1), lim, now);
    } else {
      RawTurnSound(links[k], ch, rep, peer, frame, lim, now, port, call);
      match RawTurn(links[k], ch, rep, peer, frame, lim, now, port, call)
      case Stop(_) =>
      case On(ch', _, call', rep') =>
        RawWalkSound(links, k + 1, ch', rep', peer, frame, lim, now, port, call');
    }
  }

  // ----- broadcasts ------------------------------------------------------------------------------------

  ghost predicate OnlyAddressed(links: seq<Link>, name: string) {
    forall k :: 0 <= k < |links| && links[k].name == name ==> !links[k].broadcast
  }

  /** What the chain knows about one transport. */
  ghost predicate Untouched(ch: Chain, ch': Chain, name: string) {
    && name in ch.circuits && name in ch.attempts && name in ch'.circuits && name in ch'.attempts
    && ch.circuits[name] == ch'.circuits[name] && ch.attempts[name] == ch'.attempts[name]
  }

  /** A turn that passes the transport over, or that is another transport's, leaves it alone. */
  lemma TurnSpares(l: Link, ch: Chain, rep: Report, mail: Mail, lim: Limits, clock: Clock, tick: nat, port: Port, call: nat,
                   name: string)
    requires HasLink(ch, l) && name in ch.circuits
    requires l.name != name || !Judged(l, ch.circuits[l.name], mail, clock(tick)).Try?
    ensures match Turn(l, ch, rep, mail, lim, clock, tick, port, call)
            case On(ch', _, _, _) => Untouched(ch, ch', name)
            case Stop(w) => Untouched(ch, w.chain, name)
  {
    hide Judged, Noted, Pushed, Faster, Slower;
  }

  /** A broadcast never counts for or against an addressed-only transport: nothing about it changes. */
  lemma {:induction false} BroadcastSpares(links: seq<Link>, k: nat, ch: Chain, rep: Report, mail: Mail, lim: Limits,
                                           clock: Clock, tick: nat, port: Port, call: nat, name: string)
    requires k <= |links| && Known(links, ch) && name in ch.circuits
    requires mail.recipient == "*" && OnlyAddressed(links, name)
    ensures Untouched(ch, Walk(links, k, ch, rep, mail, lim, clock, tick, port, call).chain, name)
    decreases |links| - k
  {
    hide Turn;
    if k < |links| {
      TurnSpares(links[k], ch, rep, mail, lim, clock, tick, port, call, name);
      match Turn(links[k], ch, rep, mail, lim, clock, tick, port, call)
      case Stop(_) =>
      case On(ch', tick', call', rep') =>
        BroadcastSpares(links, k + 1, ch', rep', mail, lim, clock, tick', port, call', name);
    }
  }

  /** A turn of `send_raw` is a failure or a success of that transport, and touches no other. */
  lemma RawTurnTouches(l: Link, ch: Chain, rep: Report, peer: string, frame: Frame, lim: Limits, now: real, port: Port,
                       call: nat, name: string)
    requires HasLink(ch, l) && name in ch.circuits
    ensures match RawTurn(l, ch, rep, peer, frame, lim, now, port, call)
            case On(ch', _, _, _) => RawTouched(ch, ch', name, l.name, lim, now, port(call, l.name))
            case Stop(w) =>
              port(call, l.name) == Accepted && RawTouched(ch, w.chain, name, l.name, lim, now, port(call, l.name))
  {
  }

  /** What a turn of the transport called `turn` leaves of the one called `name`. */
  ghost predicate RawTouched(ch: Chain, ch': Chain, name: string, turn: string, lim: Limits, now: real, answer: Outcome) {
    && name in ch.circuits && name in ch.attempts && name in ch'.circuits && name in ch'.attempts
    && if name != turn || ch.circuits[name].openUntil > now
      then ch'.circuits[name] == ch.circuits[name] && ch'.attempts[name] == ch.attempts[name]
      else
        var a := Attempt(now, now, answer);
        ch'.circuits[name] == Noted(ch.circuits[name], a, lim) && ch'.attempts[name] == ch.attempts[name] + [a]
  }

  lemma {:induction false} RawSparesAbsent(links: seq<Link>, k: nat, ch: Chain, rep: Report, peer: string, frame: Frame,
                                           lim: Limits, now: real, port: Port, call: nat, name: string)
    requires k <= |links| && Known(links, ch) && name in ch.circuits
    requires forall i :: k <= i < |links| ==> links[i].name != name
    ensures Untouched(ch, RawWalk(links, k, ch, rep, peer, frame, lim, now, port, call).chain, name)
    decreases |links| - k
  {
    hide RawTurn, Noted;
    if k < |links| {
      RawTurnTouches(links[k], ch, rep, peer, frame, lim, now, port, call, name);
      match RawTurn(links[k], ch, rep, peer, frame, lim, now, port, call)
      case Stop(_) =>
      case On(ch', _, call', rep') =>
        RawSparesAbsent(links, k + 1, ch', rep', peer, frame, lim, now, port, call', name);
    }
  }

  lemma {:induction false} RawReaches(links: seq<Link>, k: nat, j: nat, ch: Chain, rep: Report, peer: string, frame: Frame,
                                      lim: Limits, now: real, port: Port, call: nat)
    returns (at: nat)
    requires k <= j < |links| && Known(links, ch)
    requires forall i :: k <= i < |links| && i != j ==> links[i].name != links[j].name
    requires forall i, c :: k <= i < j ==> port(c, links[i].name) != Accepted
    ensures var w := RawWalk(links, k, ch, rep, peer, frame, lim, now, port, call);
      RawTouched(ch, w.chain, links[j].name, links[j].name, lim, now, port(at, links[j].name))
    decreases |links| - k
  {
    hide RawTurn, Noted;
    var name := links[j].name;
    RawTurnTouches(links[k], ch, rep, peer, frame, lim, now, port, call, name);
    at := call;
    match RawTurn(links[k], ch, rep, peer, frame, lim, now, port, call)
    case Stop(_) =>
    case On(ch', _, call', rep') =>
      if k == j {
        RawSparesAbsent(links, k + 1, ch', rep', peer, frame, lim, now, port, call', name);
      } else {
        at := RawReaches(links, k + 1, j, ch', rep', peer, frame, lim, now, port, call');
      }
  }

  /**
    `send_raw` has no such guard. Whoever the recipient, a transport that no earlier one spares an attempt
    is left alone exactly when its breaker is open; otherwise the attempt counts, whether or not the
    transport is addressed-only, and its breaker opens exactly when it refuses and the failures reach the
    threshold.
   */
  lemma RawCountsExactly(links: seq<Link>, k: nat, j: nat, ch: Chain, rep: Report, peer: string, frame: Frame,
                         lim: Limits, now: real, port: Port, call: nat)
    returns (at: nat)
    requires lim.Valid() && k <= j < |links| && Known(links, ch)
    requires forall i :: k <= i < |links| && i != j ==> links[i].name != links[j].name
    requires forall i, c :: k <= i < j ==> port(c, links[i].name) != Accepted
    ensures var w := RawWalk(links, k, ch, rep, peer, frame, lim, now, port, call);
      var name, answer := links[j].name, port(at, links[j].name);
      && name in ch.circuits && name in w.chain.circuits
      && var c, c' := ch.circuits[name], w.chain.circuits[name];
        && (Untouched(ch, w.chain, name) <==> c.openUntil > now)
        && (c'.failures > c.failures <==> c.openUntil <= now && answer != Accepted)
        && (c'.openUntil > now <==>
              c.openUntil > now || (answer == Refused && c.failures + 1 >= lim.threshold))
  {
    hide RawWalk;
    at := RawReaches(links, k, j, ch, rep, peer, frame, lim, now, port, call);
  }

  /** An instance: a forwarded broadcast that the only, addressed-only transport refuses opens its breaker. */
  lemma RawBroadcastCounts(name: string, frame: Frame, lim: Limits, now: real)
    requires lim.Valid() && lim.threshold == 1 && now >= 0.0
    ensures var l := Link(name, 65535, true, false, false);
      var ch := Chain(map[name := Circuit(0, 0.0, None)], 0, 0, 0, [], map[name := []], []);
      var w := RawWalk([l], 0, ch, NO_REPORT, "*", frame, lim, now, (_, _) => Refused, 0);
      name in w.chain.circuits && w.chain.circuits[name].openUntil == now + lim.cooldown
  {
  }

  // ----- the order of the walk ---------------------------------------------------------------------------

  lemma {:induction false} EligibleMembers(links: seq<Link>, cls: nat)
    ensures forall l :: l in Eligible(links, cls) <==> l in links && l.AcceptsClass(cls)
  {
    if links != [] {
      var n := |links| - 1;
      Snoc(links);
      EligibleMembers(links[..n], cls);
    }
  }

  lemma OrderIsTotal(circuits: map<string, Circuit>, now: real, raw: bool)
    ensures Sorting.TotalPreorder(Order(circuits, now, raw))
  {
    hide RankOf;
  }

  /** The walk visits exactly the links that take the class: closed breakers first, then the faster ones, ties in order. */
  lemma RankedInOrder(links: seq<Link>, circuits: map<string, Circuit>, cls: nat, now: real)
    ensures var q := Ranked(links, circuits, cls, now);
      && (forall l :: l in q <==> l in links && (cls <= 1 || l.supportsIp || l.segmented || l.maxPayload >= 1024))
      && multiset(q) == multiset(Eligible(links, cls))
      && (Distinct(Eligible(links, cls)) ==> Distinct(q))
      && (forall i, j :: 0 <= i < j < |q| ==>
            NoWorse(RankOf(circuits, q[i], now, false), RankOf(circuits, q[j], now, false)))
      && (forall p :: Sorting.Ties(q, p, Order(circuits, now, false))
                   == Sorting.Ties(Eligible(links, cls), p, Order(circuits, now, false)))
  {
    hide RankOf, NoWorse;
    var le := Order(circuits, now, false);
    EligibleMembers(links, cls);
    OrderIsTotal(circuits, now, false);
    Sorting.SortSorts(Eligible(links, cls), le);
    Sorting.SortMembers(Eligible(links, cls), le);
    var q := Ranked(links, circuits, cls, now);
    forall p ensures Sorting.Ties(q, p, le) == Sorting.Ties(Eligible(links, cls), p, le) {
      Sorting.SortStable(Eligible(links, cls), p, le);
    }
    forall i, j | 0 <= i < j < |q|
      ensures NoWorse(RankOf(circuits, q[i], now, false), RankOf(circuits, q[j], now, false))
    {
      assert le(q[i], q[j]);
    }
  }

  /** Strictly behind in the order of `send`. */
  predicate Behind(a: Rank, b: Rank) { NoWorse(a, b) && !NoWorse(b, a) }

  /**
    While its breaker stays closed, a refusal moves a transport back exactly when its latency was known
    before. One that was never measured moves forward instead: its first failure gives it a latency.
   */
  lemma RefusalDemotes(c: Circuit, a: Attempt, lim: Limits, now: real)
    requires a.outcome == Refused
    ensures var c' := Noted(c, a, lim).(latency := Slower(c.latency));
      c.openUntil <= now && c'.openUntil <= now ==>
        && (c.latency.Some? <==> Behind(SendRank(c, now), SendRank(c', now)))
        && (c.latency.None? <==> Behind(SendRank(c', now), SendRank(c, now)))
  {
  }

  /** A success draws the latency towards the new sample, a fifth of the way. */
  lemma SuccessAverages(latency: real, sample: real)
    ensures var l := Faster(Some(latency), sample);
      && l.Some? && 5.0 * (l.value - latency) == sample - latency
      && MinR(latency, sample) <= l.value <= MaxR(latency, sample)
    ensures Faster(None, sample) == Some(sample)
  {
  }

  /** So does `send_raw`, over all transports. */
  lemma RawRankedInOrder(links: seq<Link>, circuits: map<string, Circuit>, now: real)
    ensures var q := RawRanked(links, circuits, now);
      && (forall l :: l in q <==> l in links)
      && multiset(q) == multiset(links)
      && (forall i, j :: 0 <= i < j < |q| ==>
            NoWorse(RankOf(circuits, q[i], now, true), RankOf(circuits, q[j], now, true)))
      && (forall p :: Sorting.Ties(q, p, Order(circuits, now, true)) == Sorting.Ties(links, p, Order(circuits, now, true)))
  {
    hide RankOf, NoWorse;
    var le := Order(circuits, now, true);
    OrderIsTotal(circuits, now, true);
    Sorting.SortSorts(links, le);
    Sorting.SortMembers(links, le);
    var q := RawRanked(links, circuits, now);
    forall p ensures Sorting.Ties(q, p, le) == Sorting.Ties(links, p, le) { Sorting.SortStable(links, p, le); }
    forall i, j | 0 <= i < j < |q|
      ensures NoWorse(RankOf(circuits, q[i], now, true), RankOf(circuits, q[j], now, true))
    {
      assert le(q[i], q[j]);
    }
  }

  // ----- the outcome of the walk -------------------------------------------------------------------------

  ghost predicate AddsRefusals(old_: seq<Attempt>, new_: seq<Attempt>) {
    old_ <= new_ && forall i :: |old_| <= i < |new_| ==> new_[i].outcome == Refused
  }

  /** Between two states transports have only been passed over or have refused. */
  ghost predicate OnlyRefused(ch: Chain, ch': Chain) {
    && ch.circuits.Keys == ch.attempts.Keys == ch'.circuits.Keys == ch'.attempts.Keys
    && forall n :: n in ch.attempts ==> AddsRefusals(ch.attempts[n], ch'.attempts[n])
  }

  ghost predicate IsCut(l: Link, frame: Frame, pieces: seq<Frame>) {
    if |frame| <= l.ChunkSize() then pieces == [frame] else l.segmented && Segments(frame, l.ChunkSize()) == Ok(pieces)
  }

  function AllHanded(pieces: seq<Frame>, name: string, peer: string): seq<Handed> {
    if pieces == [] then [] else [Handed(name, peer, pieces[0])] + AllHanded(pieces[1..], name, peer)
  }

  /** l took the mail: every piece of its frame was handed over behind what was handed over before, and accepted. */
  ghost predicate CarriedBy(l: Link, mid: Chain, w: Walked, mail: Mail, pieces: seq<Frame>) {
    && HasLink(mid, l) && HasLink(w.chain, l)
    && w.result.Ok? && w.result.value.ok && w.result.value.via == Some(l.name) && w.result.value.codec == Some(l.Codec())
    && w.result.value.segmented == (|pieces| > 1)
    && w.chain.sent == mid.sent + 1 && w.chain.circuits[l.name].failures == 0
    && mid.circuits[l.name].openUntil == w.chain.circuits[l.name].openUntil
    && (mail.recipient == "*" ==> l.broadcast)
    && mail.For(l.Codec()).Encoded? && IsCut(l, mail.For(l.Codec()).frame, pieces)
    && w.chain.wire == mid.wire + AllHanded(pieces, l.name, mail.recipient)
    && (exists a: Attempt :: a.outcome == Accepted && w.chain.attempts == mid.attempts[l.name := mid.attempts[l.name] + [a]])
  }

  lemma {:induction false} PushedAll(pieces: seq<Frame>, name: string, peer: string, wire: seq<Handed>, call: nat, port: Port)
    ensures var p := Pushed(pieces, name, peer, wire, call, port);
      p.2 == Accepted ==> p.0 == wire + AllHanded(pieces, name, peer)
    decreases |pieces|
  {
    if pieces == [] {
      assert wire + AllHanded(pieces, name, peer) == wire;
    } else {
      var h := [Handed(name, peer, pieces[0])];
      PushedAll(pieces[1..], name, peer, wire + h, call + 1, port);
      assert (wire + h) + AllHanded(pieces[1..], name, peer) == wire + (h + AllHanded(pieces[1..], name, peer));
    }
  }

  lemma TurnOn(l: Link, ch: Chain, rep: Report, mail: Mail, lim: Limits, clock: Clock, tick: nat, port: Port, call: nat)
    requires HasLink(ch, l)
    ensures match Turn(l, ch, rep, mail, lim, clock, tick, port, call)
            case On(ch', _, _, rep') => OnlyRefused(ch, ch') && rep'.ok == rep.ok
            case Stop(w) => w.result.Err? || w.result == Ok(rep) ==> OnlyRefused(ch, w.chain)
  {
    hide Judged, Noted, Pushed, Faster, Slower;
  }

  lemma TurnCarries(l: Link, ch: Chain, rep: Report, mail: Mail, lim: Limits, clock: Clock, tick: nat, port: Port, call: nat)
    returns (pieces: seq<Frame>)
    requires HasLink(ch, l) && !rep.ok
    requires var t := Turn(l, ch, rep, mail, lim, clock, tick, port, call); t.Stop? && t.walked.result.Ok? && t.walked.result.value.ok
    ensures CarriedBy(l, ch, Turn(l, ch, rep, mail, lim, clock, tick, port, call).walked, mail, pieces)
  {
    var j := Judged(l, ch.circuits[l.name], mail, clock(tick));
    pieces := j.pieces;
    JudgedCut(l, ch.circuits[l.name], mail, clock(tick));
    hide Judged, Pushed, IsCut;
    PushedAll(pieces, l.name, mail.recipient, ch.wire, call, port);
    var a := Attempt(clock(tick), clock(tick + 2), Accepted);
    assert a.outcome == Accepted;
  }

  lemma JudgedCut(l: Link, c: Circuit, mail: Mail, now: real)
    requires Judged(l, c, mail, now).Try?
    ensures mail.For(l.Codec()).Encoded? && IsCut(l, mail.For(l.Codec()).frame, Judged(l, c, mail, now).pieces)
    ensures c.openUntil <= now && (mail.recipient == "*" ==> l.broadcast)
  {
  }

  lemma RefusedTwice(a: Chain, b: Chain, c: Chain)
    requires OnlyRefused(a, b) && OnlyRefused(b, c)
    ensures OnlyRefused(a, c)
  {
    forall n | n in a.attempts ensures AddsRefusals(a.attempts[n], c.attempts[n]) {
      var x, y, z := a.attempts[n], b.attempts[n], c.attempts[n];
      assert AddsRefusals(x, y) && AddsRefusals(y, z);
      assert forall i :: 0 <= i < |y| ==> z[i] == y[i];
    }
  }

  /**
    The mail goes out at most once, on the first transport of the ranking that accepts all of its
    pieces: everyone asked before was passed over or refused, and nobody is asked after.
   */
  lemma {:induction false} WalkOutcome(links: seq<Link>, k: nat, ch: Chain, rep: Report, mail: Mail, lim: Limits,
                                       clock: Clock, tick: nat, port: Port, call: nat)
    returns (j: nat, mid: Chain, pieces: seq<Frame>)
    requires k <= |links| && Known(links, ch) && !rep.ok
    ensures var w := Walk(links, k, ch, rep, mail, lim, clock, tick, port, call);
      if w.result.Ok? && w.result.value.ok
      then k <= j < |links| && OnlyRefused(ch, mid) && CarriedBy(links[j], mid, w, mail, pieces)
        && forall n :: n in ch.circuits && (forall i :: k <= i < j ==> links[i].name != n) ==> Untouched(ch, mid, n)
      else OnlyRefused(ch, w.chain)
    decreases |links| - k
  {
    hide Turn, OnlyRefused, CarriedBy;
    j, mid, pieces := k, ch, [];
    Unchanged(ch);
    if k < |links| {
      var l := links[k];
      TurnOn(l, ch, rep, mail, lim, clock, tick, port, call);
      match Turn(l, ch, rep, mail, lim, clock, tick, port, call)
      case Stop(w) =>
        StopCases(l, ch, rep, mail, lim, clock, tick, port, call);
        if w.result.Ok? && w.result.value.ok {
          pieces := TurnCarries(l, ch, rep, mail, lim, clock, tick, port, call);
        }
      case On(ch', tick', call', rep') =>
        j, mid, pieces := WalkOutcome(links, k + 1, ch', rep', mail, lim, clock, tick', port, call');
        if OnlyRefused(ch', mid) { RefusedTwice(ch, ch', mid); }
        var w := Walk(links, k + 1, ch', rep', mail, lim, clock, tick', port, call');
        if OnlyRefused(ch', w.chain) { RefusedTwice(ch, ch', w.chain); }
        forall n | n in ch.circuits && n != l.name ensures Untouched(ch, ch', n) {
          TurnSpares(l, ch, rep, mail, lim, clock, tick, port, call, n);
        }
    } else {
      UnchangedBy(ch, ch.(sendFailed := ch.sendFailed + 1));
    }
  }

  lemma StopCases(l: Link, ch: Chain, rep: Report, mail: Mail, lim: Limits, clock: Clock, tick: nat, port: Port, call: nat)
    requires HasLink(ch, l)
    ensures match Turn(l, ch, rep, mail, lim, clock, tick, port, call)
            case On(_, _, _, _) => true
            case Stop(w) => w.result.Err? || w.result == Ok(rep) || w.result.value.ok
  {
    hide Judged, Noted, Pushed, Faster, Slower;
  }

  lemma Unchanged(ch: Chain)
    requires ch.circuits.Keys == ch.attempts.Keys
    ensures OnlyRefused(ch, ch)
  {
  }

  lemma UnchangedBy(ch: Chain, ch': Chain)
    requires ch.circuits.Keys == ch.attempts.Keys && ch'.circuits == ch.circuits && ch'.attempts == ch.attempts
    ensures OnlyRefused(ch, ch')
  {
  }

  // ----- one working transport is enough, unless an earlier turn ends the walk -----------------------------

  /** The transport can be given the mail once its breaker is closed. */
  predicate Fits(l: Link, mail: Mail) {
    && (mail.recipient == "*" ==> l.broadcast)
    && Harmless(l, mail)
    && (|mail.For(l.Codec()).frame| <= l.ChunkSize() || l.segmented)
  }

  /** Encoding for the transport, and splitting where it would be split, both succeed. */
  predicate Harmless(l: Link, mail: Mail) {
    && mail.For(l.Codec()).Encoded?
    && var frame := mail.For(l.Codec()).frame;
      (|frame| > l.ChunkSize() && l.segmented ==> Segments(frame, l.ChunkSize()).Ok?)
  }

  /** The breaker stays open for the rest of the walk. */
  ghost predicate OpenThroughout(c: Circuit, clock: Clock, tick: nat) {
    forall t: nat :: t >= tick ==> c.openUntil > clock(t)
  }

  /** A transport whose turn cannot end the walk: skipped for its breaker or its addressing mode, or harmless. */
  ghost predicate LetsPass(l: Link, c: Circuit, mail: Mail, clock: Clock, tick: nat) {
    OpenThroughout(c, clock, tick) || (mail.recipient == "*" && !l.broadcast) || Harmless(l, mail)
  }

  lemma {:induction false} PushedAccepted(pieces: seq<Frame>, name: string, peer: string, wire: seq<Handed>, call: nat, port: Port)
    ensures var p := Pushed(pieces, name, peer, wire, call, port);
      && ((forall i :: port(i, name) == Accepted) ==> p.2 == Accepted)
      && ((forall i :: port(i, name) == Refused) && pieces != [] ==> p.2 == Refused)
      && ((forall i :: port(i, name) != Raised) ==> p.2 != Raised)
    decreases |pieces|
  {
    if pieces != [] && port(call, name) == Accepted {
      PushedAccepted(pieces[1..], name, peer, wire + [Handed(name, peer, pieces[0])], call + 1, port);
    }
  }

  lemma WorkingTurn(l: Link, ch: Chain, rep: Report, mail: Mail, lim: Limits, clock: Clock, tick: nat, port: Port, call: nat)
    requires HasLink(ch, l) && Fits(l, mail) && ch.circuits[l.name].openUntil <= clock(tick)
    requires forall i :: port(i, l.name) == Accepted
    ensures match Turn(l, ch, rep, mail, lim, clock, tick, port, call)
            case On(_, _, _, _) => false
            case Stop(w) => w.result.Ok? && w.result.value.ok
  {
    hide Segments, Noted, Faster, Slower;
    var j := Judged(l, ch.circuits[l.name], mail, clock(tick));
    assert j.Try?;
    PushedAccepted(j.pieces, l.name, mail.recipient, ch.wire, call, port);
  }

  /** There is always a piece to hand over. */
  lemma TriedSomething(l: Link, c: Circuit, mail: Mail, now: real)
    requires Judged(l, c, mail, now).Try?
    ensures Judged(l, c, mail, now).pieces != []
  {
    hide Segments;
    var frame, chunk := mail.For(l.Codec()).frame, l.ChunkSize();
    if |frame| > chunk { SegmentsSome(frame, chunk); }
  }

  /** The turn of a transport that refuses passes the walk on exactly when it is skipped or harmless. */
  lemma RefusingTurn(l: Link, ch: Chain, rep: Report, mail: Mail, lim: Limits, clock: Clock, tick: nat, port: Port, call: nat)
    requires HasLink(ch, l) && !rep.ok && forall i :: port(i, l.name) == Refused
    requires ch.circuits[l.name].openUntil <= clock(tick) || OpenThroughout(ch.circuits[l.name], clock, tick)
    ensures match Turn(l, ch, rep, mail, lim, clock, tick, port, call)
            case On(_, tick', _, rep') => LetsPass(l, ch.circuits[l.name], mail, clock, tick) && tick' > tick && !rep'.ok
            case Stop(w) => !LetsPass(l, ch.circuits[l.name], mail, clock, tick) && (w.result.Ok? ==> !w.result.value.ok)
  {
    hide Segments, Noted, Faster, Slower;
    var c := ch.circuits[l.name];
    var j := Judged(l, c, mail, clock(tick));
    if j.Try? {
      TriedSomething(l, c, mail, clock(tick));
      PushedAccepted(j.pieces, l.name, mail.recipient, ch.wire, call, port);
    }
  }

  /** A turn that is skipped or harmless, on a transport that never raises, passes the walk on or succeeds. */
  lemma PassingTurn(l: Link, ch: Chain, rep: Report, mail: Mail, lim: Limits, clock: Clock, tick: nat, port: Port, call: nat)
    requires HasLink(ch, l) && LetsPass(l, ch.circuits[l.name], mail, clock, tick) && forall i :: port(i, l.name) != Raised
    ensures match Turn(l, ch, rep, mail, lim, clock, tick, port, call)
            case On(_, tick', _, _) => tick' > tick
            case Stop(w) => w.result.Ok? && w.result.value.ok
  {
    hide Segments, Noted, Faster, Slower;
    var j := Judged(l, ch.circuits[l.name], mail, clock(tick));
    if j.Try? {
      PushedAccepted(j.pieces, l.name, mail.recipient, ch.wire, call, port);
    }
  }

  /** Waiting does not close a breaker that is open for good, nor does a turn of another transport or its own. */
  lemma LetsPassLater(l: Link, turn: Link, ch: Chain, rep: Report, mail: Mail, lim: Limits, clock: Clock, tick: nat,
                      port: Port, call: nat)
    requires HasLink(ch, turn) && HasLink(ch, l) && LetsPass(l, ch.circuits[l.name], mail, clock, tick)
    ensures match Turn(turn, ch, rep, mail, lim, clock, tick, port, call)
            case On(ch', tick', _, _) => tick' >= tick ==> LetsPass(l, ch'.circuits[l.name], mail, clock, tick')
            case Stop(_) => true
  {
    hide Turn, Harmless;
    if OpenThroughout(ch.circuits[l.name], clock, tick) {
      assert ch.circuits[l.name].openUntil > clock(tick);
      TurnSpares(turn, ch, rep, mail, lim, clock, tick, port, call, l.name);
    }
  }

  /**
    However the transports ranked before it answer, short of raising: one transport with a closed breaker
    that can carry the mail and accepts it gets the mail out, if every earlier turn lets the walk pass.
   */
  lemma {:induction false} OneIsEnough(links: seq<Link>, k: nat, j: nat, ch: Chain, rep: Report, mail: Mail, lim: Limits,
                                       clock: Clock, tick: nat, port: Port, call: nat)
    requires k <= j < |links| && Known(links, ch) && Steady(clock)
    requires forall i :: k <= i < j ==> links[i].name != links[j].name
    requires Fits(links[j], mail) && ch.circuits[links[j].name].openUntil <= clock(tick)
    requires forall i :: port(i, links[j].name) == Accepted
    requires forall i :: k <= i < j ==>
               LetsPass(links[i], ch.circuits[links[i].name], mail, clock, tick) && forall c :: port(c, links[i].name) != Raised
    ensures var w := Walk(links, k, ch, rep, mail, lim, clock, tick, port, call); w.result.Ok? && w.result.value.ok
    decreases |links| - k
  {
    hide Turn, Fits, LetsPass;
    var l := links[k];
    if k == j {
      WorkingTurn(l, ch, rep, mail, lim, clock, tick, port, call);
    } else {
      PassingTurn(l, ch, rep, mail, lim, clock, tick, port, call);
      TurnSpares(l, ch, rep, mail, lim, clock, tick, port, call, links[j].name);
      match Turn(l, ch, rep, mail, lim, clock, tick, port, call)
      case Stop(_) =>
      case On(ch', tick', call', rep') =>
        assert clock(tick) <= clock(tick');
        forall i | k < i < j ensures LetsPass(links[i], ch'.circuits[links[i].name], mail, clock, tick') {
          LetsPassLater(links[i], l, ch, rep, mail, lim, clock, tick, port, call);
        }
        OneIsEnough(links, k + 1, j, ch', rep', mail, lim, clock, tick', port, call');
    }
  }

  /** Up to j, each breaker is closed now or open for good, and nobody shares a name. */
  ghost predicate Settled(links: seq<Link>, k: nat, j: nat, ch: Chain, clock: Clock, tick: nat)
    requires k <= j < |links| && Known(links, ch)
  {
    && (forall a, b :: k <= a < b <= j ==> links[a].name != links[b].name)
    && ch.circuits[links[j].name].openUntil <= clock(tick)
    && (forall i :: k <= i < j ==>
          var c := ch.circuits[links[i].name]; c.openUntil <= clock(tick) || OpenThroughout(c, clock, tick))
  }

  lemma SettledNext(links: seq<Link>, k: nat, j: nat, ch: Chain, ch': Chain, clock: Clock, tick: nat, tick': nat)
    requires k < j < |links| && Known(links, ch) && Known(links, ch') && Steady(clock) && tick <= tick'
    requires Settled(links, k, j, ch, clock, tick)
    requires forall n :: n in ch.circuits && n != links[k].name ==> Untouched(ch, ch', n)
    ensures Settled(links, k + 1, j, ch', clock, tick')
    ensures forall i :: k < i < j ==> ch'.circuits[links[i].name] == ch.circuits[links[i].name]
  {
    assert clock(tick) <= clock(tick');
    forall i | k < i <= j ensures ch'.circuits[links[i].name] == ch.circuits[links[i].name] {
      assert Untouched(ch, ch', links[i].name);
    }
  }

  /**
    A transport with a closed breaker that can carry the mail and accepts it gets the mail out, past
    earlier ones that refuse -- exactly when the turn of each of these lets the walk pass: it is skipped
    for its open breaker or its addressing mode, or the mail can be encoded for it and split where it
    would have to be. An encoding or splitting failure on one of them ends the walk.
   */
  lemma {:induction false} SendsExactly(links: seq<Link>, k: nat, j: nat, ch: Chain, rep: Report, mail: Mail, lim: Limits,
                                        clock: Clock, tick: nat, port: Port, call: nat)
    requires k <= j < |links| && Known(links, ch) && Steady(clock) && !rep.ok
    requires Settled(links, k, j, ch, clock, tick)
    requires Fits(links[j], mail) && forall c :: port(c, links[j].name) == Accepted
    requires forall i, c :: k <= i < j ==> port(c, links[i].name) == Refused
    ensures var w := Walk(links, k, ch, rep, mail, lim, clock, tick, port, call);
      w.result.Ok? && w.result.value.ok <==>
      forall i :: k <= i < j ==> LetsPass(links[i], ch.circuits[links[i].name], mail, clock, tick)
    decreases |links| - k
  {
    hide Turn, Fits, Harmless, Settled, OpenThroughout, Steady;
    var l := links[k];
    ClosedAtJ(links, k, j, ch, clock, tick);
    if k == j {
      WorkingTurn(l, ch, rep, mail, lim, clock, tick, port, call);
    } else {
      RefusingTurn(l, ch, rep, mail, lim, clock, tick, port, call);
      match Turn(l, ch, rep, mail, lim, clock, tick, port, call)
      case Stop(_) =>
      case On(ch', tick', call', rep') =>
        forall n | n in ch.circuits && n != l.name ensures Untouched(ch, ch', n) {
          TurnSpares(l, ch, rep, mail, lim, clock, tick, port, call, n);
        }
        SettledNext(links, k, j, ch, ch', clock, tick, tick');
        SendsExactly(links, k + 1, j, ch', rep', mail, lim, clock, tick', port, call');
        forall i | k < i < j
          ensures LetsPass(links[i], ch'.circuits[links[i].name], mail, clock, tick')
             <==> LetsPass(links[i], ch.circuits[links[i].name], mail, clock, tick)
        {
          StillOpen(links, k, j, i, ch, clock, tick, tick');
        }
    }
  }

  lemma ClosedAtJ(links: seq<Link>, k: nat, j: nat, ch: Chain, clock: Clock, tick: nat)
    requires k <= j < |links| && Known(links, ch) && Settled(links, k, j, ch, clock, tick)
    ensures ch.circuits[links[j].name].openUntil <= clock(tick)
    ensures k < j ==> var c := ch.circuits[links[k].name]; c.openUntil <= clock(tick) || OpenThroughout(c, clock, tick)
  {
  }

  /** An open breaker stays open and a closed one closed, so waiting does not change which it is. */
  lemma StillOpen(links: seq<Link>, k: nat, j: nat, i: nat, ch: Chain, clock: Clock, tick: nat, tick': nat)
    requires k < i < j < |links| && Known(links, ch) && Settled(links, k, j, ch, clock, tick)
    requires Steady(clock) && tick <= tick'
    ensures var c := ch.circuits[links[i].name]; OpenThroughout(c, clock, tick) <==> OpenThroughout(c, clock, tick')
  {
    assert clock(tick) <= clock(tick');
  }
}
