/**
  The chain walk of `transport_fallback.py` as a function: who is asked, in which order, what is
  handed over, and what becomes of the breakers.

  The monotonic clock is a sequence of readings and a transport's answers are an oracle indexed by
  the number of the call; both are read in the order in which the code reads them.
 */
module ChainWalk {
  import opened Common
  import opened Bytes
  import opened Frames
  import opened Breaker
  import Sorting

  const MAX_ENVELOPE_BYTES := 65535

  /** A transport, by the parts of its profile that the chain looks at. */
  datatype Link = Link(name: string, maxPayload: int, supportsIp: bool, segmented: bool, broadcast: bool) {
    function ChunkSize(): int { Min(maxPayload, MAX_ENVELOPE_BYTES) }

    predicate AcceptsClass(cls: nat) {
      supportsIp || segmented || maxPayload >= 1024 || cls <= 1
    }

    function Codec(): Byte { if ChunkSize() <= 1024 then CODEC_COMPACT else CODEC_JSON }
  }

  datatype Encoding = Encoded(frame: Frame) | ProtocolFailure | OtherFailure

  /** An envelope: its id, its recipient, its priority class and what each codec makes of it. */
  datatype Mail = Mail(msgId: int, recipient: string, cls: nat, compact: Encoding, json: Encoding) {
    function For(codec: Byte): Encoding { if codec == CODEC_COMPACT then compact else json }
  }

  /** A piece given to a transport's `send_frame`. */
  datatype Handed = Handed(link: string, peer: string, piece: Frame)

  datatype Event = BreakerOpened(link: string) | Exhausted(link: string, failures: nat)

  /** The chain's breakers and counters, with everything attempted and handed over so far. */
  datatype Chain = Chain(circuits: map<string, Circuit>, sent: nat, sendFailed: nat, breakerOpened: nat,
                         events: seq<Event>, attempts: map<string, seq<Attempt>>, wire: seq<Handed>)

  datatype Report = Report(ok: bool, via: Option<string>, attempts: nat, skipped: seq<string>,
                           codec: Option<Byte>, segmented: bool)

  const NO_REPORT := Report(false, None, 0, [], None, false)

  /** What escapes from `send` as an exception. */
  datatype SendError = CannotSegment(cause: WireError) | CannotEncode | LinkRaised

  type Clock = nat -> real
  type Port = (nat, string) -> Outcome

  datatype Walked = Walked(chain: Chain, tick: nat, call: nat, result: Result<Report, SendError>)

  ghost predicate Known(links: seq<Link>, ch: Chain) {
    && ch.circuits.Keys == ch.attempts.Keys
    && forall k :: 0 <= k < |links| ==> links[k].name in ch.circuits
  }

  // ----- ranking -----------------------------------------------------------------------------------

  /** `(1 if is_open else 0, latency)`; a missing latency counts as an enormous one. */
  datatype Rank = Rank(isOpen: bool, unknown: bool, latency: real)

  predicate NoWorse(a: Rank, b: Rank) {
    if a.isOpen != b.isOpen then b.isOpen
    else if a.unknown != b.unknown then b.unknown
    else a.latency <= b.latency
  }

  function SendRank(c: Circuit, now: real): Rank {
    Rank(c.openUntil > now, false, if c.latency.Some? then c.latency.value else 1000000000000.0)
  }

  /** In `send_raw` a latency of zero counts as missing too, and missing is infinite. */
  function RawRank(c: Circuit, now: real): Rank {
    if c.latency.Some? && c.latency.value != 0.0 then Rank(c.openUntil > now, false, c.latency.value)
    else Rank(c.openUntil > now, true, 0.0)
  }

  function RankOf(circuits: map<string, Circuit>, l: Link, now: real, raw: bool): Rank {
    var c := if l.name in circuits then circuits[l.name] else Circuit(0, 0.0, None);
    if raw then RawRank(c, now) else SendRank(c, now)
  }

  function Order(circuits: map<string, Circuit>, now: real, raw: bool): (Link, Link) -> bool {
    (a, b) => NoWorse(RankOf(circuits, a, now, raw), RankOf(circuits, b, now, raw))
  }

  function Eligible(links: seq<Link>, cls: nat): seq<Link> {
    if links == [] then []
    else
      var last := links[|links| - 1];
      Eligible(links[..|links| - 1], cls) + (if last.AcceptsClass(cls) then [last] else [])
  }

  function Ranked(links: seq<Link>, circuits: map<string, Circuit>, cls: nat, now: real): seq<Link> {
    Sorting.Sort(Eligible(links, cls), Order(circuits, now, false))
  }

  /** `send_raw` ranks every transport and leaves the class to the walk. */
  function RawRanked(links: seq<Link>, circuits: map<string, Circuit>, now: real): seq<Link> {
    Sorting.Sort(links, Order(circuits, now, true))
  }

  // ----- one transport's turn ------------------------------------------------------------------------

  /** What the chain decides before it hands anything over. */
  datatype Verdict = PassOver | GiveUp | Fail(error: SendError) | Try(pieces: seq<Frame>)

  function Judged(l: Link, c: Circuit, mail: Mail, now: real): Verdict {
    if c.openUntil > now then PassOver
    else if mail.recipient == "*" && !l.broadcast then PassOver
    else
      match mail.For(l.Codec())
      case ProtocolFailure => GiveUp
      case OtherFailure => Fail(CannotEncode)
      case Encoded(frame) =>
        if |frame| <= l.ChunkSize() then Try([frame])
        else if !l.segmented then PassOver
        else
          match Segments(frame, l.ChunkSize())
          case Ok(pieces) => Try(pieces)
          case Err(e) => Fail(CannotSegment(e))
  }

  /** Hand over piece after piece until one is not accepted. */
  function Pushed(pieces: seq<Frame>, name: string, peer: string, wire: seq<Handed>, call: nat, port: Port)
    : (seq<Handed>, nat, Outcome)
    decreases |pieces|
  {
    if pieces == [] then (wire, call, Accepted)
    else
      var wire' := wire + [Handed(name, peer, pieces[0])];
      if port(call, name) == Accepted then Pushed(pieces[1..], name, peer, wire', call + 1, port)
      else (wire', call + 1, port(call, name))
  }

  function Faster(latency: Option<real>, sample: real): Option<real> {
    Some(if latency.None? then sample else 0.8 * latency.value + 0.2 * sample)
  }

  /** `(latency or 0.5) + 0.5` */
  function Slower(latency: Option<real>): Option<real> {
    Some((if latency.None? || latency.value == 0.0 then 0.5 else latency.value) + 0.5)
  }

  function WithAttempt(ch: Chain, name: string, a: Attempt, lim: Limits, latency: Option<real>): Chain
    requires name in ch.circuits && name in ch.attempts
  {
    ch.(circuits := ch.circuits[name := Noted(ch.circuits[name], a, lim).(latency := latency)],
        attempts := ch.attempts[name := ch.attempts[name] + [a]])
  }

  function AfterSuccess(ch: Chain, name: string, a: Attempt, lim: Limits, sample: real): Chain
    requires name in ch.circuits && name in ch.attempts
  {
    WithAttempt(ch, name, a, lim, Faster(ch.circuits[name].latency, sample)).(sent := ch.sent + 1)
  }

  predicate Trips(c: Circuit, lim: Limits) { c.failures + 1 >= lim.threshold }

  function AfterRefusal(ch: Chain, name: string, a: Attempt, lim: Limits): Chain
    requires name in ch.circuits && name in ch.attempts
  {
    WithAttempt(ch, name, a, lim, Slower(ch.circuits[name].latency))
      .(events := if Trips(ch.circuits[name], lim) then ch.events + [BreakerOpened(name)] else ch.events)
  }

  // ----- the walk ------------------------------------------------------------------------------------

  /** A transport's turn ends the walk or passes it on. */
  datatype Turned = On(chain: Chain, tick: nat, call: nat, report: Report) | Stop(walked: Walked)

  predicate HasLink(ch: Chain, l: Link) {
    ch.circuits.Keys == ch.attempts.Keys && l.name in ch.circuits
  }

  /** The pieces are handed to the transport and its breaker hears how it went. */
  function Offered(l: Link, pieces: seq<Frame>, ch: Chain, rep: Report, peer: string, lim: Limits,
                   clock: Clock, tick: nat, port: Port, call: nat): (r: Turned)
    requires HasLink(ch, l)
    ensures r.On? ==> r.chain.circuits.Keys == ch.circuits.Keys == r.chain.attempts.Keys
  {
    var p := Pushed(pieces, l.name, peer, ch.wire, call, port);
    var ch1 := ch.(wire := p.0);
    match p.2
    case Raised => Stop(Walked(ch1, tick + 2, p.1, Err(LinkRaised)))
    case Accepted =>
      var a := Attempt(clock(tick), clock(tick + 2), Accepted);
      Stop(Walked(AfterSuccess(ch1, l.name, a, lim, clock(tick + 2) - clock(tick + 1)), tick + 3, p.1,
                  Ok(rep.(ok := true, via := Some(l.name), attempts := rep.attempts + 1,
                          codec := Some(l.Codec()), segmented := |pieces| > 1))))
    case Refused =>
      var tick' := if Trips(ch.circuits[l.name], lim) then tick + 4 else tick + 3;
      var a := Attempt(clock(tick), clock(tick' - 1), Refused);
      On(AfterRefusal(ch1, l.name, a, lim), tick', p.1, rep.(attempts := rep.attempts + 1))
  }

  /** The body of the loop of `send`. */
  function Turn(l: Link, ch: Chain, rep: Report, mail: Mail, lim: Limits, clock: Clock, tick: nat, port: Port, call: nat)
    : (r: Turned)
    requires HasLink(ch, l)
    ensures r.On? ==> r.chain.circuits.Keys == ch.circuits.Keys == r.chain.attempts.Keys
  {
    match Judged(l, ch.circuits[l.name], mail, clock(tick))
    case PassOver => On(ch, tick + 1, call, rep.(skipped := rep.skipped + [l.name]))
    case GiveUp => Stop(Walked(ch, tick + 1, call, Ok(rep)))
    case Fail(e) => Stop(Walked(ch, tick + 1, call, Err(e)))
    case Try(pieces) => Offered(l, pieces, ch, rep, mail.recipient, lim, clock, tick, port, call)
  }

  /** `send`, from the k-th ranked transport on. */
  function Walk(links: seq<Link>, k: nat, ch: Chain, rep: Report, mail: Mail, lim: Limits,
                clock: Clock, tick: nat, port: Port, call: nat): Walked
    requires k <= |links| && Known(links, ch)
    decreases |links| - k
  {
    if k == |links| then Walked(ch.(sendFailed := ch.sendFailed + 1), tick, call, Ok(rep))
    else
      match Turn(links[k], ch, rep, mail, lim, clock, tick, port, call)
      case Stop(w) => w
      case On(ch', tick', call', rep') => Walk(links, k + 1, ch', rep', mail, lim, clock, tick', port, call')
  }

  /** The body of the loop of `send_raw`; one reading of the clock serves the whole call. */
  function RawTurn(l: Link, ch: Chain, rep: Report, peer: string, frame: Frame, lim: Limits, now: real, port: Port, call: nat)
    : (r: Turned)
    requires HasLink(ch, l)
    ensures r.On? ==> r.chain.circuits.Keys == ch.circuits.Keys == r.chain.attempts.Keys
  {
    var c := ch.circuits[l.name];
    var passed := rep.(skipped := rep.skipped + [l.name]);
    if c.openUntil > now || !l.AcceptsClass(0) then On(ch, 1, call, passed)
    else
      var a := Attempt(now, now, port(call, l.name));
      var ch1 := WithAttempt(ch, l.name, a, lim, c.latency).(wire := ch.wire + [Handed(l.name, peer, frame)]);
      match a.outcome
      case Accepted =>
        Stop(Walked(ch1.(sent := ch.sent + 1), 1, call + 1,
                    Ok(rep.(ok := true, via := Some(l.name), attempts := rep.attempts + 1))))
      case Refused =>
        On(if Trips(c, lim)
           then ch1.(breakerOpened := ch.breakerOpened + 1, events := ch.events + [Exhausted(l.name, c.failures + 1)])
           else ch1,
           1, call + 1, passed.(attempts := rep.attempts + 1))
      case Raised => On(ch1, 1, call + 1, passed.(attempts := rep.attempts + 1))
  }

  /** `send_raw`, from the k-th transport on. */
  function RawWalk(links: seq<Link>, k: nat, ch: Chain, rep: Report, peer: string, frame: Frame, lim: Limits,
                   now: real, port: Port, call: nat): Walked
    requires k <= |links| && Known(links, ch)
    decreases |links| - k
  {
    if k == |links| then Walked(ch.(sendFailed := ch.sendFailed + 1), 1, call, Ok(rep))
    else
      match RawTurn(links[k], ch, rep, peer, frame, lim, now, port, call)
      case Stop(w) => w
      case On(ch', _, call', rep') => RawWalk(links, k + 1, ch', rep', peer, frame, lim, now, port, call')
  }
}
