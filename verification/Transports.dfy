/** `TransportChain` of `transport_fallback.py`: the sending half and the receiving half over one state. */
module Transports {
  import opened Common
  import opened Bytes
  import opened Frames
  import opened Breaker
  import opened ChainWalk
  import opened ChainSafety
  import opened Assembler
  import opened Dedup
  import opened Outbox

  /** A decoded envelope, by the fields the receiving half looks at; `acked` is an integer `msg_id` in its payload. */
  datatype Inbound = Inbound(msgId: nat, isAck: bool, sender: string, recipient: string, acked: Option<int>)

  /** A run of the subscribed handlers. */
  datatype Handling = Handling(env: Inbound, peer: string)

  datatype Inbox = Inbox(decoded: nat, duplicates: nat, badFrames: nat, acked: nat)

  function SenderOf(env: Inbound, peer: string): string { if env.sender == "" then peer else env.sender }

  function KeyOf(h: Handling): Key { Key(SenderOf(h.env, h.peer), h.env.msgId % 0x1_0000_0000) }

  /** Who an envelope is from: its sender, or the peer that delivered it if it names none. */
  predicate From(h: Handling, who: string) {
    (h.env.sender != "" && h.env.sender == who) || (h.env.sender == "" && h.peer == who)
  }

  /** Two deliveries from the same agent whose ids agree in their low 32 bits. */
  ghost predicate SameMail(a: Handling, b: Handling) {
    (exists who :: From(a, who) && From(b, who)) && (a.env.msgId - b.env.msgId) % 0x1_0000_0000 == 0
  }

  /** The keys tell exactly such deliveries apart: whoever forwarded them, agents never share a key. */
  lemma SameKey(a: Handling, b: Handling)
    ensures KeyOf(a) == KeyOf(b) <==> SameMail(a, b)
  {
    assert From(a, SenderOf(a.env, a.peer)) && From(b, SenderOf(b.env, b.peer));
    SameResidue(a.env.msgId, b.env.msgId);
  }

  lemma SameResidue(m: nat, n: nat)
    ensures m % 0x1_0000_0000 == n % 0x1_0000_0000 <==> (m - n) % 0x1_0000_0000 == 0
  {
  }

  /** The keys of the envelopes taken, in order. */
  ghost predicate KeyedBy(accepted: seq<Key>, taken: seq<Handling>) {
    |accepted| == |taken| && forall i :: 0 <= i < |taken| ==> accepted[i] == KeyOf(taken[i])
  }

  /** The last `capacity` envelopes taken. */
  ghost function Latest(taken: seq<Handling>, capacity: nat): seq<Handling> {
    if |taken| <= capacity then taken else taken[|taken| - capacity..]
  }

  /** A delivery is new when no envelope among the last `capacity` taken is the same. */
  ghost predicate New(taken: seq<Handling>, capacity: nat, h: Handling) {
    forall i :: 0 <= i < |Latest(taken, capacity)| ==> !SameMail(Latest(taken, capacity)[i], h)
  }

  lemma NewKey(accepted: seq<Key>, taken: seq<Handling>, capacity: nat, h: Handling)
    requires KeyedBy(accepted, taken)
    ensures KeyOf(h) !in Window(accepted, capacity) <==> New(taken, capacity, h)
  {
    hide KeyOf, SameMail;
    var ks, hs := Window(accepted, capacity), Latest(taken, capacity);
    assert |ks| == |hs| && forall i :: 0 <= i < |hs| ==> ks[i] == KeyOf(hs[i]);
    forall i | 0 <= i < |hs| ensures ks[i] == KeyOf(h) <==> SameMail(hs[i], h) { SameKey(hs[i], h); }
  }

  lemma KeyedNext(accepted: seq<Key>, taken: seq<Handling>, h: Handling)
    requires KeyedBy(accepted, taken)
    ensures KeyedBy(accepted + [KeyOf(h)], taken + [h])
  {
  }

  lemma KeyIs(env: Inbound, peer: string)
    ensures KeyOf(Handling(env, peer)) == Key(SenderOf(env, peer), env.msgId % 0x1_0000_0000)
  {
  }

  /** The handlers ran for the envelopes taken at these positions, in this order. */
  ghost predicate HandledAt(handled: seq<Handling>, at: seq<nat>, taken: seq<Handling>) {
    && |at| == |handled|
    && (forall i :: 0 <= i < |at| ==> at[i] < |taken| && taken[at[i]] == handled[i])
    && (forall i, j :: 0 <= i < j < |at| ==> at[i] < at[j])
  }

  /** Every removal from the outbox was asked for by an accepted acknowledgement. */
  ghost predicate OnlyAcked(calls: seq<Call>, acks: seq<nat>) {
    forall i :: 0 <= i < |calls| ==> !calls[i].Compact? && (calls[i].MarkDone? ==> Masked(calls[i].msgId) in acks)
  }

  lemma HandledNext(handled: seq<Handling>, at: seq<nat>, taken: seq<Handling>, h: Handling)
    requires HandledAt(handled, at, taken)
    ensures HandledAt(handled, at, taken + [h])
    ensures HandledAt(handled + [h], at + [|taken|], taken + [h])
  {
  }

  lemma CallNext(d: Disk, calls: seq<Call>, c: Call, maxPending: nat)
    ensures AfterCalls(d, calls + [c], maxPending) == Called(AfterCalls(d, calls, maxPending), c, maxPending)
  {
    assert (calls + [c])[..|calls|] == calls;
  }

  /** Enqueueing stores the entry exactly when the outbox is not full or knows the id; otherwise nothing has that id. */
  lemma PersistedExactly(d: Disk, item: Item, diskOk: bool, maxPending: nat)
    requires UniqueIds(d.pending)
    ensures var d' := Called(d, Call.Enqueue(item, diskOk), maxPending);
      && (item in d'.pending <==> Accepts(d, item, maxPending))
      && (HasId(d'.pending, item.msgId) <==> Accepts(d, item, maxPending))
  {
    hide Store, UniqueIds;
    if Accepts(d, item, maxPending) {
      StoreMembers(d.pending, item);
      IdStored(d.pending, item, item.msgId);
    }
  }

  lemma FreshSound(ch: Chain, lim: Limits, now: real)
    requires ch.circuits.Keys == ch.attempts.Keys
    requires forall n :: n in ch.circuits ==> ch.circuits[n] == Circuit(0, 0.0, None) && ch.attempts[n] == []
    ensures Sound(ch, lim, now)
  {
  }

  function FreshCircuits(links: seq<Link>): (m: map<string, Circuit>)
    ensures forall n :: n in m ==> m[n] == Circuit(0, 0.0, None)
    ensures forall l :: l in links ==> l.name in m
  {
    map l | l in links :: l.name := Circuit(0, 0.0, None)
  }

  ghost function NoAttempts(links: seq<Link>): (m: map<string, seq<Attempt>>)
    ensures m.Keys == FreshCircuits(links).Keys
    ensures forall n :: n in m ==> m[n] == []
  {
    map l | l in links :: l.name := []
  }

  class TransportChain {
    const agentId: string
    const links: seq<Link>
    const lim: Limits
    const outbox: OutboxStore?
    const dedup: InboxDedup
    const assembler: SegmentAssembler
    var circuits: map<string, Circuit>
    var sent: nat
    var sendFailed: nat
    var breakerOpened: nat
    var events: seq<Event>
    var inbox: Inbox
    /** Every run of the handlers. */
    var handled: seq<Handling>
    ghost var attempts: map<string, seq<Attempt>>
    ghost var wire: seq<Handed>
    ghost var latest: real
    /** Every envelope that was no duplicate, with the peer that delivered it. */
    ghost var taken: seq<Handling>
    /** Where among them the handled ones are. */
    ghost var at: seq<nat>
    /** The outbox as it was opened, what was asked of it since, and the ids named by accepted acknowledgements. */
    ghost var disk: Disk
    ghost var calls: seq<Call>
    ghost var acks: seq<nat>

    ghost function State(): Chain
      reads this`circuits, this`sent, this`sendFailed, this`breakerOpened, this`events, this`attempts, this`wire
    {
      Chain(circuits, sent, sendFailed, breakerOpened, events, attempts, wire)
    }

    ghost predicate BreakersValid()
      reads this`circuits, this`sent, this`sendFailed, this`breakerOpened, this`events, this`attempts, this`wire, this`latest
    {
      lim.Valid() && Known(links, State()) && Sound(State(), lim, latest)
    }

    ghost predicate InboxValid()
      reads this`handled, this`at, this`taken, dedup, assembler
    {
      dedup.Valid() && assembler.Valid() && KeyedBy(dedup.accepted, taken) && HandledAt(handled, at, taken)
    }

    ghost predicate OutboxValid()
      reads this`disk, this`calls, this`acks, outbox
    {
      outbox != null ==>
        outbox.Valid() && UniqueIds(disk.pending) && outbox.State() == AfterCalls(disk, calls, outbox.maxPending) && OnlyAcked(calls, acks)
    }

    ghost predicate Valid()
      reads this, dedup, assembler, outbox
    {
      BreakersValid() && InboxValid() && OutboxValid()
    }

    constructor (agentId: string, links: seq<Link>, outbox: OutboxStore?, threshold: int, cooldown: real,
                 dedupCapacity: int, now: real)
      requires outbox != null ==> outbox.Valid()
      ensures Valid() && this.agentId == agentId && this.links == links && this.outbox == outbox
      ensures lim == Limits(Max(1, threshold), MaxR(0.1, cooldown)) && latest == now
      ensures handled == [] && wire == [] && calls == [] && fresh(dedup) && fresh(assembler)
      ensures taken == [] && dedup.capacity == Max(1, dedupCapacity) && assembler.State() == EMPTY
      ensures forall n :: n in circuits ==> circuits[n] == Circuit(0, 0.0, None)
    {
      this.agentId, this.links, this.outbox := agentId, links, outbox;
      lim := Limits(Max(1, threshold), MaxR(0.1, cooldown));
      dedup := new InboxDedup(dedupCapacity);
      assembler := new SegmentAssembler(16, 60.0);
      circuits := FreshCircuits(links);
      attempts := NoAttempts(links);
      sent, sendFailed, breakerOpened, events, wire := 0, 0, 0, [], [];
      inbox, handled, at, taken := Inbox(0, 0, 0, 0), [], [], [];
      latest, calls, acks := now, [], [];
      disk := if outbox == null then Disk([], []) else outbox.State();
      new;
      hide Sound, FreshCircuits, NoAttempts;
      FreshSound(State(), lim, latest);
    }

    // ----- sending -------------------------------------------------------------------------------------

    /** Hand over the pieces in order, up to the first one that is not accepted. */
    method HandOver(pieces: seq<Frame>, name: string, peer: string, call: nat, port: Port) returns (outcome: Outcome, call': nat)
      modifies `wire
      ensures (wire, call', outcome) == Pushed(pieces, name, peer, old(wire), call, port)
    {
      outcome, call' := Accepted, call;
      for k := 0 to |pieces|
        invariant outcome == Accepted
        invariant Pushed(pieces[k..], name, peer, wire, call', port) == Pushed(pieces, name, peer, old(wire), call, port)
      {
        assert pieces[k..][0] == pieces[k] && pieces[k..][1..] == pieces[k + 1..];
        outcome := port(call', name);
        wire, call' := wire + [Handed(name, peer, pieces[k])], call' + 1;
        if outcome != Accepted { return; }
      }
    }

    /** Whether the transport's turn is skipped, ends the walk, or is taken, and with which pieces. */
    method Judge(l: Link, mail: Mail, now: real) returns (v: Verdict)
      requires l.name in circuits
      ensures v == Judged(l, circuits[l.name], mail, now)
    {
      hide Segments;
      if circuits[l.name].openUntil > now { return PassOver; }
      if mail.recipient == "*" && !l.broadcast { return PassOver; }
      var encoding := mail.For(l.Codec());
      if encoding.ProtocolFailure? { return GiveUp; }
      if encoding.OtherFailure? { return Fail(CannotEncode); }
      var frame, chunk := encoding.frame, l.ChunkSize();
      if |frame| <= chunk { return Try([frame]); }
      if !l.segmented { return PassOver; }
      var cut := SegmentFrame(frame, chunk);
      return if cut.Err? then Fail(CannotSegment(cut.error)) else Try(cut.value);
    }

    method NoteSuccess(name: string, checked: real, ended: real, sample: real)
      requires name in circuits && name in attempts
      modifies `circuits, `sent, `attempts
      ensures State() == AfterSuccess(old(State()), name, Attempt(checked, ended, Accepted), lim, sample)
    {
      var circuit := circuits[name];
      circuits := circuits[name := Circuit(0, circuit.openUntil, Faster(circuit.latency, sample))];
      attempts := attempts[name := attempts[name] + [Attempt(checked, ended, Accepted)]];
      sent := sent + 1;
    }

    /** The clock is read once more when the breaker opens. */
    method NoteRefusal(name: string, checked: real, clock: Clock, tick: nat) returns (tick': nat)
      requires name in circuits && name in attempts && tick >= 1
      modifies `circuits, `events, `attempts
      ensures tick' == (if Trips(old(circuits)[name], lim) then tick + 1 else tick)
      ensures State() == AfterRefusal(old(State()), name, Attempt(checked, clock(tick' - 1), Refused), lim)
    {
      var circuit := circuits[name];
      circuit := Circuit(circuit.failures + 1, circuit.openUntil, Slower(circuit.latency));
      tick' := tick;
      if circuit.failures >= lim.threshold {
        circuit := circuit.(openUntil := clock(tick) + lim.cooldown);
        events := events + [BreakerOpened(name)];
        tick' := tick + 1;
      }
      circuits := circuits[name := circuit];
      attempts := attempts[name := attempts[name] + [Attempt(checked, clock(tick' - 1), Refused)]];
    }

    /** Hand the pieces over, time it, and tell the breaker. */
    method Offer(l: Link, pieces: seq<Frame>, rep: Report, peer: string, clock: Clock, tick: nat, port: Port, call: nat)
      returns (stop: bool, r: Result<Report, SendError>, tick': nat, call': nat)
      requires HasLink(State(), l)
      modifies `circuits, `sent, `events, `attempts, `wire
      ensures match Offered(l, pieces, old(State()), rep, peer, lim, clock, tick, port, call)
              case On(ch, t, c, rep') => !stop && State() == ch && r == Ok(rep') && tick' == t && call' == c
              case Stop(w) => stop && Walked(State(), tick', call', r) == w
    {
      hide Pushed, AfterSuccess, AfterRefusal, Trips;
      var name := l.name;
      var started := clock(tick + 1);
      var outcome, after := HandOver(pieces, name, peer, call, port);
      if outcome == Raised { return true, Err(LinkRaised), tick + 2, after; }
      var latency := clock(tick + 2) - started;
      if outcome == Accepted {
        NoteSuccess(name, clock(tick), clock(tick + 2), latency);
        return true, Ok(rep.(ok := true, via := Some(name), attempts := rep.attempts + 1,
                             codec := Some(l.Codec()), segmented := |pieces| > 1)), tick + 3, after;
      }
      var now := NoteRefusal(name, clock(tick), clock, tick + 3);
      return false, Ok(rep.(attempts := rep.attempts + 1)), now, after;
    }

    /** The body of the loop of `send`. */
    method TakeTurn(l: Link, rep: Report, mail: Mail, clock: Clock, tick: nat, port: Port, call: nat)
      returns (stop: bool, r: Result<Report, SendError>, tick': nat, call': nat)
      requires HasLink(State(), l)
      modifies `circuits, `sent, `events, `attempts, `wire
      ensures match Turn(l, old(State()), rep, mail, lim, clock, tick, port, call)
              case On(ch, t, c, rep') => !stop && State() == ch && r == Ok(rep') && tick' == t && call' == c
              case Stop(w) => stop && Walked(State(), tick', call', r) == w
    {
      hide Judged, Offered;
      var verdict := Judge(l, mail, clock(tick));
      match verdict
      case PassOver => return false, Ok(rep.(skipped := rep.skipped + [l.name])), tick + 1, call;
      case GiveUp => return true, Ok(rep), tick + 1, call;
      case Fail(e) => return true, Err(e), tick + 1, call;
      case Try(pieces) =>
        stop, r, tick', call' := Offer(l, pieces, rep, mail.recipient, clock, tick, port, call);
    }

    /** The loop of `send` over the ranked transports. */
    method WalkChain(queue: seq<Link>, mail: Mail, clock: Clock, port: Port)
      returns (r: Result<Report, SendError>, ghost tick: nat)
      requires BreakersValid() && Known(queue, State()) && Steady(clock) && latest <= clock(0)
      modifies `circuits, `sent, `sendFailed, `events, `attempts, `wire, `latest
      ensures var w := Walk(queue, 0, old(State()), NO_REPORT, mail, lim, clock, 1, port, 0);
        State() == w.chain && r == w.result && tick == w.tick
      ensures BreakersValid() && latest == clock(tick) && Known(queue, State())
    {
      hide Turn, Sound;
      ghost var before, ready := State(), latest;
      assert clock(0) <= clock(1);
      WalkSound(queue, 0, before, NO_REPORT, mail, lim, clock, 1, port, 0, latest);
      WalkKnown(queue, 0, before, NO_REPORT, mail, lim, clock, 1, port, 0);
      var rep, call := NO_REPORT, 0;
      var now := 1;
      for k := 0 to |queue|
        invariant Known(queue, State())
        invariant Walk(queue, k, State(), rep, mail, lim, clock, now, port, call)
               == Walk(queue, 0, before, NO_REPORT, mail, lim, clock, 1, port, 0)
      {
        var stop, r1, now1, call1 := TakeTurn(queue[k], rep, mail, clock, now, port, call);
        if stop {
          latest := clock(now1);
          return r1, now1;
        }
        rep, now, call := r1.value, now1, call1;
      }
      sendFailed := sendFailed + 1;
      latest := clock(now);
      return Ok(rep), now;
    }

    /**
      `send`. In the at-least-once mode the envelope is offered to the outbox before any transport is asked,
      and no outcome of the walk takes it out again. The outbox's answer is ignored: it holds the entry
      afterwards exactly when it had room for it, and a message it refused is sent all the same.
     */
    method Send(mail: Mail, reliable: bool, queuedAt: real, meta: map<string, string>, diskOk: bool, clock: Clock, port: Port)
      returns (r: Result<Report, SendError>)
      requires Valid() && Steady(clock) && latest <= clock(0)
      modifies `circuits, `sent, `sendFailed, `events, `attempts, `wire, `latest, `calls, outbox
      ensures Valid()
      ensures if reliable && outbox != null && !mail.json.Encoded?
              then r == Err(CannotEncode) && State() == old(State())
              else
                var queue := Ranked(links, old(circuits), mail.cls, clock(0));
                Known(queue, old(State()))
                && var w := Walk(queue, 0, old(State()), NO_REPORT, mail, lim, clock, 1, port, 0);
                State() == w.chain && r == w.result && latest == clock(w.tick)
      ensures outbox != null ==>
                if reliable && mail.json.Encoded?
                then var c := Call.Enqueue(Item(Masked(mail.msgId), if mail.recipient == "" then "*" else mail.recipient,
                                                mail.json.frame, queuedAt, meta), diskOk);
                  calls == old(calls) + [c] && outbox.State() == Called(old(outbox.State()), c, outbox.maxPending)
                else calls == old(calls) && outbox.State() == old(outbox.State())
      ensures outbox != null && reliable && mail.json.Encoded? ==>
                var item := Item(Masked(mail.msgId), if mail.recipient == "" then "*" else mail.recipient,
                                 mail.json.frame, queuedAt, meta);
                && (item in outbox.pending <==> Accepts(old(outbox.State()), item, outbox.maxPending))
                && (HasId(outbox.pending, item.msgId) <==> Accepts(old(outbox.State()), item, outbox.maxPending))
    {
      hide Walk, Sound, Called, Eligible, Accepts, HasId, HandledAt, Ranked, InboxDedup.Valid, SegmentAssembler.Valid, AfterCalls;
      if reliable && outbox != null {
        if !mail.json.Encoded? { return Err(CannotEncode); }
        var ok := outbox.Enqueue(mail.msgId, mail.recipient, mail.json.frame, queuedAt, meta, diskOk);
        ghost var c := Call.Enqueue(Item(Masked(mail.msgId), if mail.recipient == "" then "*" else mail.recipient,
                                         mail.json.frame, queuedAt, meta), diskOk);
        PersistedExactly(old(outbox.State()), c.item, diskOk, outbox.maxPending);
        CallNext(disk, calls, c, outbox.maxPending);
        calls := calls + [c];
      }
      var queue := Ranked(links, circuits, mail.cls, clock(0));
      RankedInOrder(links, circuits, mail.cls, clock(0));
      assert Known(queue, State()) by {
        forall k | 0 <= k < |queue| ensures queue[k].name in circuits { assert queue[k] in queue && queue[k] in links; }
      }
      ghost var tick;
      r, tick := WalkChain(queue, mail, clock, port);
    }

    /** The body of the loop of `send_raw`. */
    method TakeRawTurn(l: Link, rep: Report, peer: string, frame: Frame, now: real, port: Port, call: nat)
      returns (stop: bool, rep': Report, call': nat)
      requires HasLink(State(), l)
      modifies `circuits, `sent, `breakerOpened, `events, `attempts, `wire
      ensures match RawTurn(l, old(State()), rep, peer, frame, lim, now, port, call)
              case On(ch, _, c, r) => !stop && State() == ch && rep' == r && call' == c
              case Stop(w) => stop && State() == w.chain && Ok(rep') == w.result && call' == w.call
    {
      hide WithAttempt, Trips;
      var name, passed := l.name, rep.(skipped := rep.skipped + [l.name]);
      if circuits[name].openUntil > now || !l.AcceptsClass(0) { return false, passed, call; }
      var outcome := port(call, name);
      var trips := NoteRaw(name, now, outcome);
      wire := wire + [Handed(name, peer, frame)];
      if outcome == Accepted {
        sent := sent + 1;
        return true, rep.(ok := true, via := Some(name), attempts := rep.attempts + 1), call + 1;
      }
      if outcome == Refused && trips {
        breakerOpened := breakerOpened + 1;
        events := events + [Exhausted(name, circuits[name].failures)];
      }
      return false, passed.(attempts := rep.attempts + 1), call + 1;
    }

    /** Only an answer of False opens the breaker; an exception is merely counted. */
    method NoteRaw(name: string, now: real, outcome: Outcome) returns (trips: bool)
      requires name in circuits && name in attempts
      modifies `circuits, `attempts
      ensures trips == Trips(old(circuits)[name], lim)
      ensures State() == WithAttempt(old(State()), name, Attempt(now, now, outcome), lim, old(circuits)[name].latency)
      ensures name in circuits && (outcome != Accepted ==> circuits[name].failures == old(circuits)[name].failures + 1)
    {
      var circuit := circuits[name];
      trips := circuit.failures + 1 >= lim.threshold;
      match outcome {
        case Accepted => circuit := circuit.(failures := 0);
        case Raised => circuit := circuit.(failures := circuit.failures + 1);
        case Refused =>
          circuit := circuit.(failures := circuit.failures + 1);
          if circuit.failures >= lim.threshold { circuit := circuit.(openUntil := now + lim.cooldown); }
      }
      circuits := circuits[name := circuit];
      attempts := attempts[name := attempts[name] + [Attempt(now, now, outcome)]];
    }

    /** The loop of `send_raw`. */
    method RawWalkChain(queue: seq<Link>, peer: string, frame: Frame, now: real, port: Port) returns (rep: Report)
      requires Known(queue, State())
      modifies `circuits, `sent, `sendFailed, `breakerOpened, `events, `attempts, `wire
      ensures var w := RawWalk(queue, 0, old(State()), NO_REPORT, peer, frame, lim, now, port, 0);
        State() == w.chain && Ok(rep) == w.result
    {
      hide RawTurn;
      rep := NO_REPORT;
      var call := 0;
      for k := 0 to |queue|
        invariant Known(queue, State())
        invariant RawWalk(queue, k, State(), rep, peer, frame, lim, now, port, call)
               == RawWalk(queue, 0, old(State()), NO_REPORT, peer, frame, lim, now, port, 0)
      {
        var stop;
        stop, rep, call := TakeRawTurn(queue[k], rep, peer, frame, now, port, call);
        if stop { return; }
      }
      sendFailed := sendFailed + 1;
    }

    /** `send_raw`, which neither looks at the addressing mode nor at the size of the frame. */
    method SendRaw(peer: string, frame: Frame, now: real, port: Port) returns (rep: Report)
      requires BreakersValid() && latest <= now
      modifies `circuits, `sent, `sendFailed, `breakerOpened, `events, `attempts, `wire, `latest
      ensures BreakersValid() && latest == now
      ensures var queue := RawRanked(links, old(circuits), now);
        && Known(queue, old(State()))
        && var w := RawWalk(queue, 0, old(State()), NO_REPORT, peer, frame, lim, now, port, 0);
          State() == w.chain && Ok(rep) == w.result
    {
      hide RawTurn, RawWalk, Sound, Order, NoWorse, RankOf;
      ghost var before := State();
      SoundLater(before, lim, latest, now);
      RawRankedInOrder(links, circuits, now);
      var queue := RawRanked(links, circuits, now);
      assert Known(queue, before) by {
        forall k | 0 <= k < |queue| ensures queue[k].name in circuits { assert queue[k] in queue && queue[k] in links; }
      }
      RawWalkSound(queue, 0, before, NO_REPORT, peer, frame, lim, now, port, 0);
      RawWalkKnown(queue, 0, before, NO_REPORT, peer, frame, lim, now, port, 0);
      latest := now;
      rep := RawWalkChain(queue, peer, frame, now, port);
    }

    method Acknowledge(id: int, diskOk: bool) returns (removed: bool)
      requires outbox != null && OutboxValid()
      modifies `calls, `acks, outbox
      ensures OutboxValid() && removed == HasId(old(outbox.pending), Masked(id))
      ensures outbox.State() == Called(old(outbox.State()), Call.MarkDone(id, diskOk), outbox.maxPending)
      ensures calls == old(calls) + [Call.MarkDone(id, diskOk)] && acks == old(acks) + [Masked(id)]
    {
      hide OnlyAcked, AfterCalls, OutboxStore.Valid, Called;
      removed := outbox.MarkDone(id, diskOk);
      CallNext(disk, calls, Call.MarkDone(id, diskOk), outbox.maxPending);
      AckedNext(calls, acks, id, diskOk);
      calls := calls + [Call.MarkDone(id, diskOk)];
      acks := acks + [Masked(id)];
    }

    // ----- receiving -------------------------------------------------------------------------------------

    /**
      `_on_frame`, with what the decoder makes of a whole frame and whether some router keeps it as
      parameters. An envelope reaches the handlers exactly when it is complete, decodes, is new to
      the dedup window, is kept by no router, and is addressed to this agent or to everyone.
     */
    method OnFrame(peer: string, frame: Frame, now: real, decode: Frame -> Option<Inbound>, kept: Inbound -> bool, diskOk: bool)
      requires InboxValid() && OutboxValid()
      modifies `inbox, `handled, `at, `taken, `calls, `acks, outbox, dedup, assembler
      ensures InboxValid() && OutboxValid()
      ensures assembler.State() == Added(old(assembler.State()), frame, now, assembler.maxPending, assembler.ttl).0
      ensures var a := Arriving(Added(old(assembler.State()), frame, now, assembler.maxPending, assembler.ttl).1, decode);
        var news := a.Mailed? && New(old(taken), dedup.capacity, Handling(a.env, peer));
        var marks := news && a.env.isAck && a.env.acked.Some? && outbox != null;
        && taken == (if news then old(taken) + [Handling(a.env, peer)] else old(taken))
        && handled == (if news && !kept(a.env) && (a.env.recipient == "*" || a.env.recipient == agentId)
                       then old(handled) + [Handling(a.env, peer)] else old(handled))
        && acks == (if marks then old(acks) + [Masked(a.env.acked.value)] else old(acks))
        && calls == (if marks then old(calls) + [Call.MarkDone(a.env.acked.value, diskOk)] else old(calls))
        && inbox.decoded == old(inbox.decoded) + (if news then 1 else 0)
        && inbox.duplicates == old(inbox.duplicates) + (if a.Mailed? && !news then 1 else 0)
        && inbox.badFrames == old(inbox.badFrames) + (if a.Bad? then 1 else 0)
        && inbox.acked == old(inbox.acked) + (if marks && HasId(old(outbox.pending), Masked(a.env.acked.value)) then 1 else 0)
        && (outbox != null ==>
              outbox.State() == if marks
                                then Called(old(outbox.State()), Call.MarkDone(a.env.acked.value, diskOk), outbox.maxPending)
                                else old(outbox.State()))
    {
      hide HandledAt, Added, Window, New, KeyedBy, KeyOf, InboxDedup.Valid, SegmentAssembler.Valid, TransportChain.OutboxValid, HasId, Called;
      var whole := assembler.Add(frame, now);
      if whole.Err? {
        inbox := inbox.(badFrames := inbox.badFrames + 1);
        return;
      }
      if whole.value.None? { return; }
      var decoded := decode(whole.value.value);
      if decoded.None? {
        inbox := inbox.(badFrames := inbox.badFrames + 1);
        return;
      }
      var env := decoded.value;
      NewKey(dedup.accepted, taken, dedup.capacity, Handling(env, peer));
      assert KeyOf(Handling(env, peer)) == Key(SenderOf(env, peer), env.msgId % 0x1_0000_0000) by { KeyIs(env, peer); }
      var duplicate := dedup.IsDuplicate(SenderOf(env, peer), env.msgId);
      if duplicate {
        inbox := inbox.(duplicates := inbox.duplicates + 1);
        return;
      }
      HandledNext(handled, at, taken, Handling(env, peer));
      KeyedNext(old(dedup.accepted), taken, Handling(env, peer));
      taken := taken + [Handling(env, peer)];
      Process(env, peer, kept, diskOk, |old(taken)|);
    }

    /** What happens to an envelope that is not a duplicate. */
    method Process(env: Inbound, peer: string, kept: Inbound -> bool, diskOk: bool, ghost position: nat)
      requires OutboxValid()
      modifies `inbox, `handled, `at, `calls, `acks, outbox
      ensures OutboxValid()
      ensures var marks := env.isAck && env.acked.Some? && outbox != null;
        var handles := !kept(env) && (env.recipient == "*" || env.recipient == agentId);
        && handled == (if handles then old(handled) + [Handling(env, peer)] else old(handled))
        && at == (if handles then old(at) + [position] else old(at))
        && acks == (if marks then old(acks) + [Masked(env.acked.value)] else old(acks))
        && calls == (if marks then old(calls) + [Call.MarkDone(env.acked.value, diskOk)] else old(calls))
        && inbox.decoded == old(inbox.decoded) + 1
        && inbox.duplicates == old(inbox.duplicates) && inbox.badFrames == old(inbox.badFrames)
        && inbox.acked == old(inbox.acked) + (if marks && HasId(old(outbox.pending), Masked(env.acked.value)) then 1 else 0)
      ensures outbox != null ==>
                outbox.State() == if env.isAck && env.acked.Some?
                                  then Called(old(outbox.State()), Call.MarkDone(env.acked.value, diskOk), outbox.maxPending)
                                  else old(outbox.State())
    {
      hide TransportChain.OutboxValid, HasId, Called;
      inbox := inbox.(decoded := inbox.decoded + 1);
      if env.isAck && outbox != null && env.acked.Some? {
        var removed := Acknowledge(env.acked.value, diskOk);
        if removed { inbox := inbox.(acked := inbox.acked + 1); }
      }
      if kept(env) { return; }
      if env.recipient != "*" && env.recipient != agentId { return; }
      handled, at := handled + [Handling(env, peer)], at + [position];
    }
  }

  /** What becomes of a frame before duplicates are looked for. */
  datatype Arrival = Waiting | Bad | Mailed(env: Inbound)

  function Arriving(r: Result<Option<Frame>, WireError>, decode: Frame -> Option<Inbound>): Arrival {
    match r
    case Err(_) => Bad
    case Ok(None) => Waiting
    case Ok(Some(frame)) => if decode(frame).None? then Bad else Mailed(decode(frame).value)
  }

  lemma AckedNext(calls: seq<Call>, acks: seq<nat>, id: int, diskOk: bool)
    requires OnlyAcked(calls, acks)
    ensures OnlyAcked(calls + [Call.MarkDone(id, diskOk)], acks + [Masked(id)])
  {
  }

  // ----- what holds of every run ---------------------------------------------------------------------------

  /**
    However often an envelope is sent again, and whichever peers deliver it: between two runs of the handlers
    for the same sender (or, where none is named, the same peer) and message id at least `capacity` other
    envelopes were taken, all of them different from it and from one another.
   */
  lemma HandlersAtMostOnce(c: TransportChain, i: nat, j: nat)
    requires c.Valid() && i < j < |c.handled| && SameMail(c.handled[i], c.handled[j])
    ensures var cap := c.dedup.capacity;
      && i < |c.at| && j < |c.at| && c.at[j] < |c.taken| && c.at[i] < c.at[j] - cap
      && c.taken[c.at[i]] == c.handled[i] && c.taken[c.at[j]] == c.handled[j]
      && var others := c.taken[c.at[j] - cap..c.at[j]];
        && (forall k :: 0 <= k < cap ==> !SameMail(others[k], c.handled[j]))
        && (forall k, l :: 0 <= k < l < cap ==> !SameMail(others[k], others[l]))
  {
    hide SameMail, KeyOf;
    SameKey(c.handled[i], c.handled[j]);
    var keys, cap, last := c.dedup.accepted, c.dedup.capacity, c.at[j];
    assert keys[c.at[i]] == keys[last];
    SpreadApart(keys, cap, c.at[i], last);
    var others := c.taken[last - cap..last];
    forall k | 0 <= k < cap ensures !SameMail(others[k], c.handled[j]) {
      assert others[k] == c.taken[last - cap + k] && keys[last - cap + k] in keys[last - cap..last];
      SameKey(others[k], c.handled[j]);
    }
    forall k, l | 0 <= k < l < cap ensures !SameMail(others[k], others[l]) {
      assert others[k] == c.taken[last - cap + k] && others[l] == c.taken[last - cap + l];
      assert keys[last - cap + k] != keys[last - cap + l];
      SameKey(others[k], others[l]);
    }
  }

  lemma {:induction false} EntryStays(d: Disk, calls: seq<Call>, acks: seq<nat>, maxPending: nat, i: nat, item: Item, diskOk: bool)
    requires UniqueIds(d.pending) && OnlyAcked(calls, acks)
    requires i < |calls| && calls[i] == Call.Enqueue(item, diskOk)
    requires Accepts(AfterCalls(d, calls[..i], maxPending), item, maxPending)
    requires item.msgId !in acks
    ensures HasId(AfterCalls(d, calls, maxPending).pending, item.msgId)
    ensures (forall j :: i < j < |calls| && calls[j].Enqueue? ==> calls[j].item.msgId != item.msgId)
        ==> item in AfterCalls(d, calls, maxPending).pending
    decreases |calls|
  {
    hide Store, Remove, Contains, HasId, UniqueIds, Accepts;
    var n := |calls| - 1;
    var before := AfterCalls(d, calls[..n], maxPending).pending;
    CallsUnique(d, calls[..n], maxPending);
    if i < n {
      assert calls[..n][..i] == calls[..i];
      EntryStays(d, calls[..n], acks, maxPending, i, item, diskOk);
    }
    match calls[n]
    case Enqueue(x, _) =>
      StoreMembers(before, x);
      IdStored(before, x, item.msgId);
    case MarkDone(id, _) =>
      RemoveMembers(before, Masked(id));
      IdRemoved(before, Masked(id), item.msgId);
    case Compact(_) =>
  }

  lemma IdStored(p: seq<Item>, x: Item, id: nat)
    requires UniqueIds(p)
    ensures HasId(Store(p, x), x.msgId) && (HasId(p, id) ==> HasId(Store(p, x), id))
  {
    hide UniqueIds, Store;
    StoreMembers(p, x);
    if HasId(p, id) {
      var k :| 0 <= k < |p| && p[k].msgId == id;
      assert id != x.msgId ==> p[k] in Store(p, x);
    }
  }

  lemma IdRemoved(p: seq<Item>, gone: nat, id: nat)
    requires UniqueIds(p) && gone != id
    ensures HasId(p, id) ==> HasId(Remove(p, gone), id)
  {
    hide UniqueIds, Remove;
    RemoveMembers(p, gone);
    if HasId(p, id) {
      var k :| 0 <= k < |p| && p[k].msgId == id;
      assert p[k] in Remove(p, gone);
    }
  }

  /**
    What an at-least-once send has persisted stays in the outbox until an accepted acknowledgement
    names it: in memory, and, when appends succeed, in what a restart reads back from the log.
   */
  lemma PersistedUntilAcked(c: TransportChain, i: nat)
    requires c.Valid() && c.outbox != null
    requires i < |c.calls| && c.calls[i].Enqueue? && c.calls[i].item.msgId !in c.acks
    requires Accepts(AfterCalls(c.disk, c.calls[..i], c.outbox.maxPending), c.calls[i].item, c.outbox.maxPending)
    ensures HasId(c.outbox.pending, c.calls[i].item.msgId)
    ensures (forall j :: i < j < |c.calls| && c.calls[j].Enqueue? ==> c.calls[j].item.msgId != c.calls[i].item.msgId)
        ==> c.calls[i].item in c.outbox.pending
    ensures Synced(c.disk) && AppendsSucceed(c.calls, 0) ==> Replay(c.outbox.log) == c.outbox.pending
  {
    EntryStays(c.disk, c.calls, c.acks, c.outbox.maxPending, i, c.calls[i].item, c.calls[i].diskOk);
    if Synced(c.disk) && AppendsSucceed(c.calls, 0) {
      ReplayIsPending(c.disk, c.calls, c.outbox.maxPending, 0);
    }
  }

  /**
    No transport is tried too often: in every reachable state, `send` and `send_raw` mixed, the refusals of
    a transport between two successes obey the breaker's bound, whatever else raised in between.
   */
  lemma AttemptsAreBounded(c: TransportChain, name: string, j: nat, k: nat, d: real)
    requires c.Valid() && name in c.attempts && j <= k && NoSuccess(c.attempts[name], j, k)
    requires d >= 0.0 && c.attempts[name][k].at <= c.attempts[name][j].failedAt + d
    ensures Refusals(c.attempts[name], j, k) <= c.lim.threshold + (d / c.lim.cooldown).Floor
    ensures AllRefused(c.attempts[name], j, k) ==> k - j + 1 <= c.lim.threshold + (d / c.lim.cooldown).Floor
  {
    hide Gated, Reflects;
    assert SoundAt(c.State(), c.lim, c.latest, name);
    RefusalsBounded(c.attempts[name], c.lim, c.latest, j, k, d);
    if AllRefused(c.attempts[name], j, k) { RateBound(c.attempts[name], c.lim, c.latest, j, k, d); }
  }

  /** No attempt is made before the time its breaker was open until. */
  lemma ClosedWhenTried(c: TransportChain, name: string, k: nat)
    requires c.Valid() && name in c.attempts && k < |c.attempts[name]|
    ensures c.attempts[name][k].at >= OpenUntil(c.attempts[name][..k], c.lim)
    ensures name in c.circuits && c.circuits[name].openUntil == OpenUntil(c.attempts[name], c.lim)
  {
    hide OpenUntil, Trailing;
    assert SoundAt(c.State(), c.lim, c.latest, name);
  }
}
