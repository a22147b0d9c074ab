/**
  `SegmentAssembler` of `protocol.py` over whole runs, however many frames are under way: what a slot
  holds, what a call returns, and the only ways for a frame to be forgotten.
 */
module AssemblerRuns {
  import opened Common
  import opened Frames
  import opened Reassembly
  import opened Assembler

  /** A call of `add`: the frame and the reading of the clock. */
  datatype Call = Call(frame: Frame, at: real)

  datatype Config = Config(maxPending: nat, ttl: real) {
    ghost predicate Valid() { maxPending >= 1 && ttl >= 1.0 }
  }

  /** The call brings a segment of the frame with this key. */
  predicate Brings(c: Call, key: MessageKey) {
    var head := PeekHeader(c.frame);
    head.Ok? && head.value.Segmented() && head.value.Key() == key
  }

  /** The keys of the order that are in the set, as they stand. */
  function Those(order: seq<MessageKey>, keys: set<MessageKey>): seq<MessageKey> {
    if order == [] then []
    else Those(order[..|order| - 1], keys) + (if order[|order| - 1] in keys then [order[|order| - 1]] else [])
  }

  lemma {:induction false} ThoseMembers(order: seq<MessageKey>, keys: set<MessageKey>)
    ensures forall k :: k in Those(order, keys) <==> k in order && k in keys
  {
    if order != [] {
      Snoc(order);
      ThoseMembers(order[..|order| - 1], keys);
    }
  }

  lemma {:induction false} ThoseAll(order: seq<MessageKey>, keys: set<MessageKey>)
    requires forall k :: k in order ==> k in keys
    ensures Those(order, keys) == order
  {
    if order != [] {
      Snoc(order);
      ThoseAll(order[..|order| - 1], keys);
    }
  }

  lemma ThoseNext(order: seq<MessageKey>, k: MessageKey, keys: set<MessageKey>)
    ensures Those(order + [k], keys) == Those(order, keys) + (if k in keys then [k] else [])
  {
    assert (order + [k])[..|order|] == order;
  }

  lemma {:induction false} ThoseLess(order: seq<MessageKey>, keys: set<MessageKey>, fewer: set<MessageKey>)
    requires fewer <= keys
    ensures Those(Those(order, keys), fewer) == Those(order, fewer)
  {
    if order != [] {
      var init, last := Those(order[..|order| - 1], keys), order[|order| - 1];
      ThoseLess(order[..|order| - 1], keys, fewer);
      ThoseNext(init, last, fewer);
      assert init + [] == init;
      assert last in fewer ==> last in keys;
    }
  }

  lemma {:induction false} ThoseBehind(order: seq<MessageKey>, keys: set<MessageKey>)
    requires order != []
    ensures Those(order, keys) == (if order[0] in keys then [order[0]] else []) + Those(order[1..], keys)
  {
    var n := |order| - 1;
    if n > 0 {
      ThoseBehind(order[..n], keys);
      assert order[..n][1..] == order[1..][..n - 1];
    } else {
      assert order[..0] == [] && order[1..] == [];
      assert Those([], keys) == [];
    }
  }

  lemma {:induction false} WithoutIsThose(order: seq<MessageKey>, keys: set<MessageKey>, key: MessageKey)
    requires Distinct(order) && forall k :: k in order ==> (k in keys <==> k != key)
    ensures Without(order, key) == Those(order, keys)
  {
    if order != [] {
      assert order == [order[0]] + order[1..];
      ThoseBehind(order, keys);
      if order[0] == key {
        ThoseAll(order[1..], keys);
      } else {
        WithoutIsThose(order[1..], keys, key);
      }
    }
  }

  // ----- what one locked section keeps ---------------------------------------------------------------------------

  /** Some slots are gone; the others are as they were, in the order they had. */
  ghost predicate Thinned(s: Slots, t: Slots) {
    && t.pending.Keys <= s.pending.Keys
    && (forall k :: k in t.pending ==> t.pending[k] == s.pending[k])
    && t.order == Those(s.order, t.pending.Keys)
  }

  lemma ThinnedTwice(s: Slots, t: Slots, u: Slots)
    requires Thinned(s, t) && Thinned(t, u)
    ensures Thinned(s, u)
  {
    ThoseLess(s.order, t.pending.Keys, u.pending.Keys);
  }

  lemma ThinnedSame(s: Slots)
    requires Matched(s)
    ensures Thinned(s, s)
  {
    ThoseAll(s.order, s.pending.Keys);
  }

  lemma SettleThins(s: Slots, key: MessageKey)
    requires Matched(s)
    ensures Thinned(s, Settle(s, key))
  {
    WithoutIsThose(s.order, Settle(s, key).pending.Keys, key);
  }

  lemma {:induction false} PruneThins(s: Slots, queue: seq<MessageKey>, now: real, ttl: real)
    requires Matched(s)
    ensures Thinned(s, Prune(s, queue, now, ttl))
    decreases |queue|
  {
    hide Matched, Stale, Settle, Thinned;
    ThinnedSame(s);
    if queue != [] {
      if Stale(s, queue[0], now, ttl) {
        SettleThins(s, queue[0]);
        SettleMatched(s, queue[0]);
        PruneThins(Settle(s, queue[0]), queue[1..], now, ttl);
        ThinnedTwice(s, Settle(s, queue[0]), Prune(s, queue, now, ttl));
      } else {
        PruneThins(s, queue[1..], now, ttl);
      }
    }
  }

  lemma SettleMatched(s: Slots, key: MessageKey)
    requires Matched(s)
    ensures Matched(Settle(s, key))
  {
    SettleBounded(s, key, |s.order|);
  }

  /** Opening a slot costs the oldest one, and only when there were `max_pending` of them already. */
  lemma OpenedCosts(s: Slots, key: MessageKey, now: real, maxPending: nat)
    requires maxPending >= 1 && Bounded(s, maxPending) && key !in s.pending
    ensures var widened := Slots(s.pending[key := Slot(now, [])], s.order + [key]);
      Evict(widened, maxPending)
      == if |s.order| < maxPending then widened
         else Slots(widened.pending - {s.order[0]}, s.order[1..] + [key])
  {
    var widened := Slots(s.pending[key := Slot(now, [])], s.order + [key]);
    if |s.order| == maxPending {
      assert widened.order[1..] == s.order[1..] + [key] && widened.order[0] == s.order[0];
    }
  }

  /** The slots with the frame filed, had there been room for any number of them. */
  function Filed(s: Slots, key: MessageKey, frame: Frame, now: real): Slots {
    if key in s.pending
    then Slots(s.pending[key := Slot(s.pending[key].since, s.pending[key].chunks + [frame])], s.order)
    else Slots(s.pending[key := Slot(now, [frame])], s.order + [key])
  }

  /** The slot that has to go when this frame arrives, if any. */
  function Victims(s: Slots, key: MessageKey, maxPending: nat): set<MessageKey> {
    if key !in s.pending && |s.order| >= maxPending && s.order != [] then {s.order[0]} else {}
  }

  lemma FiledMatched(s: Slots, key: MessageKey, frame: Frame, now: real)
    requires Matched(s)
    ensures Matched(Filed(s, key, frame, now))
  {
  }

  lemma AdmitThins(s: Slots, key: MessageKey, frame: Frame, now: real, maxPending: nat)
    requires maxPending >= 1 && Bounded(s, maxPending)
    ensures var filed, t := Filed(s, key, frame, now), Admit(s, key, frame, now, maxPending);
      Thinned(filed, t) && t.pending == filed.pending - Victims(s, key, maxPending)
  {
    hide Those;
    var filed := Filed(s, key, frame, now);
    FiledMatched(s, key, frame, now);
    if key in s.pending {
      ThinnedSame(filed);
    } else {
      var t := Admit(s, key, frame, now, maxPending);
      AdmitNew(s, key, frame, now, maxPending);
      if |s.order| < maxPending {
        ThinnedSame(filed);
      } else {
        OldestGone(filed, t);
      }
    }
  }

  lemma AdmitNew(s: Slots, key: MessageKey, frame: Frame, now: real, maxPending: nat)
    requires maxPending >= 1 && Bounded(s, maxPending) && key !in s.pending
    ensures var filed, t := Filed(s, key, frame, now), Admit(s, key, frame, now, maxPending);
      && filed.order != []
      && if |s.order| < maxPending then t == filed
         else t == Slots(filed.pending - {filed.order[0]}, filed.order[1..]) && filed.order[0] == s.order[0]
  {
    OpenedCosts(s, key, now, maxPending);
    assert [] + [frame] == [frame];
    assert |s.order| > 0 ==> (s.order + [key])[1..] == s.order[1..] + [key];
  }

  lemma OldestGone(s: Slots, t: Slots)
    requires Matched(s) && s.order != [] && t == Slots(s.pending - {s.order[0]}, s.order[1..])
    ensures Thinned(s, t)
  {
    assert s.order == [s.order[0]] + t.order;
    ThoseBehind(s.order, t.pending.Keys);
    ThoseAll(t.order, t.pending.Keys);
  }

  // ----- one call --------------------------------------------------------------------------------------------------

  /** What a call of `add` with a segment answers, and which slots are left. */
  lemma AddKeeps(s: Slots, c: Call, key: MessageKey, cfg: Config)
    requires cfg.Valid() && Bounded(s, cfg.maxPending) && Brings(c, key)
    ensures var (filed, (t, r)) := (Filed(s, key, c.frame, c.at), Added(s, c.frame, c.at, cfg.maxPending, cfg.ttl));
      && r == Reassembled(filed.pending[key].chunks)
      && Thinned(filed, t)
      && forall k :: k in t.pending <==>
           && k in filed.pending
           && k !in Victims(s, key, cfg.maxPending)
           && !(k == key && r.Ok? && r.value.Some?)
           && !(r.Ok? && r.value.None? && c.at - filed.pending[k].since > cfg.ttl)
  {
    hide Thinned, Admit, Filed, Victims, Prune, Settle;
    var filed, s1 := Filed(s, key, c.frame, c.at), Admit(s, key, c.frame, c.at, cfg.maxPending);
    AdmitThins(s, key, c.frame, c.at, cfg.maxPending);
    AdmitBounded(s, key, c.frame, c.at, cfg.maxPending);
    ThinnedValues(filed, s1);
    PruneThins(s1, s1.order, c.at, cfg.ttl);
    PruneMeans(s1, s1.order, c.at, cfg.ttl, cfg.maxPending);
    SettleThins(s1, key);
    SettleKeys(s1, key);
    ThinnedTwice(filed, s1, Prune(s1, s1.order, c.at, cfg.ttl));
    ThinnedTwice(filed, s1, Settle(s1, key));
  }

  lemma SettleKeys(s: Slots, key: MessageKey)
    ensures forall k :: k in Settle(s, key).pending <==> k in s.pending && k != key
  {
  }

  lemma ThinnedValues(s: Slots, t: Slots)
    requires Thinned(s, t)
    ensures forall k :: k in t.pending ==> k in s.pending && t.pending[k] == s.pending[k]
  {
  }

  /** A frame that is no segment, or no frame at all, leaves everything as it is. */
  lemma AddPasses(s: Slots, c: Call, cfg: Config)
    requires cfg.Valid() && Bounded(s, cfg.maxPending) && forall key :: !Brings(c, key)
    ensures var (t, r) := Added(s, c.frame, c.at, cfg.maxPending, cfg.ttl);
      t == s && (r.Err? || r == Ok(Some(c.frame)))
  {
    var head := PeekHeader(c.frame);
    if head.Ok? && head.value.Segmented() {
      assert Brings(c, head.value.Key());
    }
  }

  // ----- whole runs ------------------------------------------------------------------------------------------------

  /** The slots after a run. */
  function After(cfg: Config, calls: seq<Call>): Slots
    requires cfg.Valid()
    ensures Bounded(After(cfg, calls), cfg.maxPending)
  {
    if calls == [] then EMPTY
    else
      var s, last := After(cfg, calls[..|calls| - 1]), calls[|calls| - 1];
      AddedBounded(s, last.frame, last.at, cfg.maxPending, cfg.ttl);
      Added(s, last.frame, last.at, cfg.maxPending, cfg.ttl).0
  }

  /** What the last call of a run answers. */
  function Answer(cfg: Config, calls: seq<Call>): Result<Option<Frame>, WireError>
    requires cfg.Valid() && calls != []
  {
    var last := calls[|calls| - 1];
    Added(After(cfg, calls[..|calls| - 1]), last.frame, last.at, cfg.maxPending, cfg.ttl).1
  }

  /** Which call opened the slot that is waiting under a key. */
  function Opener(cfg: Config, calls: seq<Call>, key: MessageKey): nat
    requires cfg.Valid() && calls != []
  {
    var n := |calls| - 1;
    if n == 0 || key !in After(cfg, calls[..n]).pending then n else Opener(cfg, calls[..n], key)
  }

  /** The segments of one frame among some calls, in the order in which they came. */
  function SegmentsOf(calls: seq<Call>, key: MessageKey): seq<Frame> {
    if calls == [] then []
    else
      var init, last := SegmentsOf(calls[..|calls| - 1], key), calls[|calls| - 1];
      if Brings(last, key) then init + [last.frame] else init
  }

  lemma OneKey(c: Call, key: MessageKey, other: MessageKey)
    requires Brings(c, key) && Brings(c, other)
    ensures key == other
  {
  }

  /** What the last call of a run makes of a slot that waited before it. */
  lemma SlotNext(cfg: Config, calls: seq<Call>, key: MessageKey)
    requires cfg.Valid() && calls != []
    ensures var s, t, last := After(cfg, calls[..|calls| - 1]), After(cfg, calls), calls[|calls| - 1];
      key in t.pending ==>
        && (key in s.pending ==>
              t.pending[key] == Slot(s.pending[key].since, s.pending[key].chunks + (if Brings(last, key) then [last.frame] else [])))
        && (key !in s.pending ==> Brings(last, key) && t.pending[key] == Slot(last.at, [last.frame]))
  {
    hide Thinned, Added, Victims;
    var s, t, last := After(cfg, calls[..|calls| - 1]), After(cfg, calls), calls[|calls| - 1];
    if k :| Brings(last, k) {
      AddKeeps(s, last, k, cfg);
      ThinnedValues(Filed(s, k, last.frame, last.at), t);
      if Brings(last, key) { OneKey(last, key, k); }
    } else {
      AddPasses(s, last, cfg);
    }
    if key in s.pending { assert s.pending[key].chunks + [] == s.pending[key].chunks; }
  }

  lemma SegmentsNext(calls: seq<Call>, c: Call, key: MessageKey)
    ensures SegmentsOf(calls + [c], key) == SegmentsOf(calls, key) + (if Brings(c, key) then [c.frame] else [])
  {
    assert (calls + [c])[..|calls|] == calls;
    assert SegmentsOf(calls, key) + [] == SegmentsOf(calls, key);
  }

  lemma NothingWaits(cfg: Config)
    requires cfg.Valid()
    ensures After(cfg, []).pending == map[]
  {
  }

  lemma OpenerNext(cfg: Config, calls: seq<Call>, key: MessageKey)
    requires cfg.Valid() && calls != []
    ensures var n := |calls| - 1;
      Opener(cfg, calls, key) == if n == 0 || key !in After(cfg, calls[..n]).pending then n else Opener(cfg, calls[..n], key)
  {
  }

  /**
    However many frames are under way: a slot that is waiting holds exactly the segments of its frame that
    came since the call that opened it, in the order in which they came, and is dated by that call.
   */
  lemma {:induction false} SlotHolds(cfg: Config, calls: seq<Call>, key: MessageKey)
    requires cfg.Valid() && key in After(cfg, calls).pending
    ensures calls != [] && Opener(cfg, calls, key) < |calls|
    ensures var slot, o := After(cfg, calls).pending[key], Opener(cfg, calls, key);
      slot == Slot(calls[o].at, SegmentsOf(calls[o..], key)) && Brings(calls[o], key)
  {
    hide Brings, Bounded, SegmentsOf, After, Opener;
    NothingWaits(cfg);
    var n := |calls| - 1;
    SlotNext(cfg, calls, key);
    OpenerNext(cfg, calls, key);
    if n > 0 && key in After(cfg, calls[..n]).pending {
      SlotHolds(cfg, calls[..n], key);
      var o := Opener(cfg, calls[..n], key);
      assert calls[o..] == calls[..n][o..] + [calls[n]];
      SegmentsNext(calls[..n][o..], calls[n], key);
    } else {
      assert n == 0 ==> calls[..n] == [];
      assert calls[n..] == [calls[n]];
      OneSegment(calls[n], key);
    }
  }

  /**
    A call that brings a segment answers what reassembling the segments that came since the opening call
    gives, this one included; other frames pass through or are refused.
   */
  lemma AnswersExactly(cfg: Config, calls: seq<Call>, c: Call, key: MessageKey)
    requires cfg.Valid() && Brings(c, key)
    ensures var waiting := key in After(cfg, calls).pending;
      && (waiting ==> calls != [] && Opener(cfg, calls, key) < |calls|)
      && Answer(cfg, calls + [c]) == Reassembled(SegmentsOf(if waiting then calls[Opener(cfg, calls, key)..] + [c] else [c], key))
  {
    hide Brings, Bounded, Reassembled, Added, Thinned, Victims, SegmentsOf, After, Opener;
    AfterNext(cfg, calls, c);
    AddKeeps(After(cfg, calls), c, key, cfg);
    if key in After(cfg, calls).pending {
      SlotHolds(cfg, calls, key);
      SegmentsNext(calls[Opener(cfg, calls, key)..], c, key);
    } else {
      OneSegment(c, key);
    }
  }

  lemma OneSegment(c: Call, key: MessageKey)
    requires Brings(c, key)
    ensures SegmentsOf([c], key) == [c.frame]
  {
    assert [] + [c] == [c] && [] + [c.frame] == [c.frame];
    SegmentsNext([], c, key);
    NoSegments(key);
  }

  // ----- who is forgotten ------------------------------------------------------------------------------------------

  /** The keys were opened one after the other. */
  ghost predicate Rising(cfg: Config, calls: seq<Call>, order: seq<MessageKey>)
    requires cfg.Valid() && calls != []
  {
    forall i, j :: 0 <= i < j < |order| ==> Opener(cfg, calls, order[i]) < Opener(cfg, calls, order[j])
  }

  lemma {:induction false} ThoseRising(cfg: Config, calls: seq<Call>, order: seq<MessageKey>, keys: set<MessageKey>)
    requires cfg.Valid() && calls != [] && Rising(cfg, calls, order)
    ensures Rising(cfg, calls, Those(order, keys))
  {
    hide Opener, After;
    if order != [] {
      var n := |order| - 1;
      ThoseRising(cfg, calls, order[..n], keys);
      ThoseMembers(order[..n], keys);
      var init := Those(order[..n], keys);
      forall i | 0 <= i < |init| ensures Opener(cfg, calls, init[i]) < Opener(cfg, calls, order[n]) {
        assert init[i] in order[..n];
      }
    }
  }

  /** `_order` lists the waiting keys in the order in which their slots were opened. */
  lemma {:induction false} OldestFirst(cfg: Config, calls: seq<Call>)
    requires cfg.Valid() && calls != []
    ensures Rising(cfg, calls, After(cfg, calls).order)
  {
    hide Added, Thinned, Victims, Bounded, Rising;
    var n := |calls| - 1;
    var s, t, last := After(cfg, calls[..n]), After(cfg, calls), calls[n];
    if n > 0 { OldestFirst(cfg, calls[..n]); }
    OpenersStay(cfg, calls);
    if k :| Brings(last, k) {
      AddKeeps(s, last, k, cfg);
      ThinnedOrder(Filed(s, k, last.frame, last.at), t);
      FiledRising(cfg, calls, k);
      ThoseRising(cfg, calls, Filed(s, k, last.frame, last.at).order, t.pending.Keys);
    } else {
      AddPasses(s, last, cfg);
    }
  }

  lemma ThinnedOrder(s: Slots, t: Slots)
    requires Thinned(s, t)
    ensures t.order == Those(s.order, t.pending.Keys)
  {
  }

  /** What was in order before a call still is: a call gives no waiting slot a new opener. */
  lemma OpenersStay(cfg: Config, calls: seq<Call>)
    requires cfg.Valid() && calls != []
    requires |calls| > 1 ==> Rising(cfg, calls[..|calls| - 1], After(cfg, calls[..|calls| - 1]).order)
    ensures Rising(cfg, calls, After(cfg, calls[..|calls| - 1]).order)
  {
    hide Added;
    var n := |calls| - 1;
    var s := After(cfg, calls[..n]);
    if n > 0 {
      forall k | k in s.order ensures Opener(cfg, calls, k) == Opener(cfg, calls[..n], k) {}
    }
  }

  lemma {:induction false} OpenerBelow(cfg: Config, calls: seq<Call>, key: MessageKey)
    requires cfg.Valid() && calls != []
    ensures Opener(cfg, calls, key) < |calls|
  {
    hide After;
    if |calls| > 1 { OpenerBelow(cfg, calls[..|calls| - 1], key); }
  }

  lemma FiledRising(cfg: Config, calls: seq<Call>, key: MessageKey)
    requires cfg.Valid() && calls != []
    requires Rising(cfg, calls, After(cfg, calls[..|calls| - 1]).order)
    ensures var last := calls[|calls| - 1];
      Rising(cfg, calls, Filed(After(cfg, calls[..|calls| - 1]), key, last.frame, last.at).order)
  {
    hide Added;
    var n := |calls| - 1;
    var s := After(cfg, calls[..n]);
    if key !in s.pending {
      assert Opener(cfg, calls, key) == n;
      forall k | k in s.order ensures Opener(cfg, calls, k) < n {
        assert n > 0;
        OpenerBelow(cfg, calls[..n], k);
      }
    }
  }

  /** The call completes the frame: it brings a segment of it and hands it out. */
  ghost predicate Completes(cfg: Config, calls: seq<Call>, c: Call, key: MessageKey)
    requires cfg.Valid()
  {
    Brings(c, key) && Answer(cfg, calls + [c]).Ok? && Answer(cfg, calls + [c]).value.Some?
  }

  /** The call leaves some frame incomplete at a time when the slot has waited for longer than it may. */
  ghost predicate TimesOut(cfg: Config, calls: seq<Call>, c: Call, key: MessageKey)
    requires cfg.Valid() && calls != []
  {
    && (exists k :: Brings(c, k)) && Answer(cfg, calls + [c]) == Ok(None)
    && Opener(cfg, calls, key) < |calls| && c.at - calls[Opener(cfg, calls, key)].at > cfg.ttl
  }

  /** The call opens one more slot when `max_pending` are waiting already, all the others opened after this one. */
  ghost predicate CrowdsOut(cfg: Config, calls: seq<Call>, c: Call, key: MessageKey)
    requires cfg.Valid() && calls != []
  {
    var waiting := After(cfg, calls).pending.Keys;
    && (exists k :: Brings(c, k) && k !in waiting) && |waiting| == cfg.maxPending
    && forall k :: k in waiting && k != key ==> Opener(cfg, calls, key) < Opener(cfg, calls, k)
  }

  lemma CountWaiting(s: Slots)
    requires Matched(s)
    ensures |s.pending.Keys| == |s.order|
  {
    DistinctCount(s.order);
    assert s.pending.Keys == set k | k in s.order;
  }

  /** The slot that has to go is the one opened before all the others, and one has to go only when all places are taken. */
  lemma VictimIsOldest(cfg: Config, calls: seq<Call>, c: Call, k: MessageKey, key: MessageKey)
    requires cfg.Valid() && calls != [] && Brings(c, k) && key in After(cfg, calls).pending
    ensures key in Victims(After(cfg, calls), k, cfg.maxPending) <==> CrowdsOut(cfg, calls, c, key)
  {
    hide After, Opener, Brings;
    var s := After(cfg, calls);
    OldestFirst(cfg, calls);
    CountWaiting(s);
    assert forall j :: 0 <= j < |s.order| ==> s.order[j] in s.pending;
    if CrowdsOut(cfg, calls, c, key) {
      var other :| Brings(c, other) && other !in s.pending.Keys;
      OneKey(c, k, other);
      var i :| 0 <= i < |s.order| && s.order[i] == key;
    }
  }

  /**
    The only ways for a waiting frame to be forgotten, each of which does forget it: it is complete, it has
    timed out, or it is the oldest of `max_pending` and one more is opened.
   */
  lemma ForgottenExactly(cfg: Config, calls: seq<Call>, c: Call, key: MessageKey)
    requires cfg.Valid() && calls != [] && key in After(cfg, calls).pending
    ensures key !in After(cfg, calls + [c]).pending
       <==> Completes(cfg, calls, c, key) || TimesOut(cfg, calls, c, key) || CrowdsOut(cfg, calls, c, key)
  {
    hide After, Opener, Brings, Added, Thinned, Victims, Bounded, CrowdsOut, Reassembled;
    AfterNext(cfg, calls, c);
    var s := After(cfg, calls);
    SlotHolds(cfg, calls, key);
    if k :| Brings(c, k) {
      AddKeeps(s, c, k, cfg);
      VictimIsOldest(cfg, calls, c, k, key);
      if Brings(c, key) { OneKey(c, k, key); }
    } else {
      AddPasses(s, c, cfg);
      NotCrowded(cfg, calls, c, key);
    }
  }

  lemma AfterNext(cfg: Config, calls: seq<Call>, c: Call)
    requires cfg.Valid()
    ensures (After(cfg, calls + [c]), Answer(cfg, calls + [c]))
         == Added(After(cfg, calls), c.frame, c.at, cfg.maxPending, cfg.ttl)
  {
    assert (calls + [c])[..|calls|] == calls;
  }

  lemma NotCrowded(cfg: Config, calls: seq<Call>, c: Call, key: MessageKey)
    requires cfg.Valid() && calls != [] && forall k :: !Brings(c, k)
    ensures !CrowdsOut(cfg, calls, c, key)
  {
  }

  // ----- who gets through ------------------------------------------------------------------------------------------

  /** The keys that some calls bring segments for. */
  function Brought(calls: seq<Call>): set<MessageKey> {
    if calls == [] then {}
    else
      var head := PeekHeader(calls[|calls| - 1].frame);
      Brought(calls[..|calls| - 1]) + (if head.Ok? && head.value.Segmented() then {head.value.Key()} else {})
  }

  lemma {:induction false} BroughtBy(calls: seq<Call>, i: nat, k: MessageKey)
    requires i < |calls| && Brings(calls[i], k)
    ensures k in Brought(calls)
  {
    hide PeekHeader;
    if i < |calls| - 1 { BroughtBy(calls[..|calls| - 1], i, k); }
  }

  lemma {:induction false} BroughtLess(calls: seq<Call>, n: nat)
    requires n <= |calls|
    ensures Brought(calls[..n]) <= Brought(calls)
    decreases |calls|
  {
    if n < |calls| {
      BroughtLess(calls[..|calls| - 1], n);
      assert calls[..|calls| - 1][..n] == calls[..n];
    } else {
      assert calls[..n] == calls;
    }
  }

  /** A slot is crowded out only once `max_pending` other keys were brought since its opening. */
  lemma CrowdNeeds(cfg: Config, calls: seq<Call>, c: Call, key: MessageKey)
    requires cfg.Valid() && calls != [] && key in After(cfg, calls).pending && CrowdsOut(cfg, calls, c, key)
    ensures Opener(cfg, calls, key) < |calls|
    ensures |Brought(calls[Opener(cfg, calls, key)..] + [c]) - {key}| >= cfg.maxPending
  {
    hide After, Opener, Brings, Brought, Bounded;
    var waiting := After(cfg, calls).pending.Keys;
    SlotHolds(cfg, calls, key);
    var o := Opener(cfg, calls, key);
    var since := calls[o..] + [c];
    var k :| Brings(c, k) && k !in waiting;
    BroughtBy(since, |since| - 1, k);
    forall j | j in waiting && j != key ensures j in Brought(since) { BroughtSince(cfg, calls, c, o, j); }
    Exchanged(waiting, key, k, Brought(since) - {key});
  }

  lemma BroughtSince(cfg: Config, calls: seq<Call>, c: Call, o: nat, j: MessageKey)
    requires cfg.Valid() && calls != [] && j in After(cfg, calls).pending && o < Opener(cfg, calls, j)
    ensures o < |calls| && j in Brought(calls[o..] + [c])
  {
    hide After, Opener, Brings, Brought, Bounded, SegmentsOf;
    SlotHolds(cfg, calls, j);
    var p := Opener(cfg, calls, j);
    var since := calls[o..] + [c];
    assert since[p - o] == calls[p];
    BroughtBy(since, p - o, j);
  }

  lemma Exchanged<T>(a: set<T>, x: T, y: T, b: set<T>)
    requires x in a && y !in a && a - {x} + {y} <= b
    ensures |a| <= |b|
  {
    Fewer(a - {x} + {y}, b);
  }

  lemma Fewer<T>(a: set<T>, b: set<T>)
    requires a <= b
    ensures |a| <= |b|
  {
    assert a + (b - a) == b;
  }

  /** A frame that was split, among other calls: its segments, and the call that opens its slot. */
  datatype Journey = Journey(frame: Frame, chunkSize: int, key: MessageKey, calls: seq<Call>, o: nat) {

    function All(): seq<Frame>
      requires Segments(frame, chunkSize).Ok?
    {
      Segments(frame, chunkSize).value
    }

    /**
      What arrives under the key from its opening on are segments of the frame, none later than the time to
      live, and fewer than `max_pending` other keys are seen in the meantime. How many there were before, and
      what else arrives, does not matter.
     */
    ghost predicate Uncrowded(cfg: Config)
      requires cfg.Valid()
    {
      && Segments(frame, chunkSize).Ok? && !PeekHeader(frame).value.Segmented()
      && o < |calls| && key !in After(cfg, calls[..o]).pending && Brings(calls[o], key)
      && (forall i :: o <= i < |calls| && Brings(calls[i], key) ==> calls[i].frame in All())
      && (forall i :: o <= i < |calls| ==> calls[i].at - calls[o].at <= cfg.ttl)
      && |Brought(calls[o..]) - {key}| < cfg.maxPending
    }

    /** What arrived of it with the first n calls. */
    function Received(n: nat): seq<Frame>
      requires o <= n <= |calls|
    {
      SegmentsOf(calls[o..n], key)
    }
  }

  lemma {:induction false} SegmentsDrawn(calls: seq<Call>, key: MessageKey, all: seq<Frame>)
    requires forall i :: 0 <= i < |calls| && Brings(calls[i], key) ==> calls[i].frame in all
    ensures forall f :: f in SegmentsOf(calls, key) ==> f in all
  {
    hide Brings;
    if calls != [] { SegmentsDrawn(calls[..|calls| - 1], key, all); }
  }

  /** What reassembling gives after n calls. */
  lemma ReceivedSoFar(j: Journey, cfg: Config, n: nat)
    requires cfg.Valid() && j.Uncrowded(cfg) && j.o <= n <= |j.calls|
    ensures Reassembled(j.Received(n)) == if Covers(j.Received(n), j.All()) then Ok(Some(j.frame)) else Ok(None)
  {
    hide After, Brings, Reassembled, Covers, Segments, SegmentsOf;
    forall i | 0 <= i < n - j.o && Brings(j.calls[j.o..n][i], j.key) ensures j.calls[j.o..n][i].frame in j.All() {
      assert j.calls[j.o..n][i] == j.calls[j.o + i];
    }
    SegmentsDrawn(j.calls[j.o..n], j.key, j.All());
    SplitReassemble(j.frame, j.chunkSize, j.Received(n));
  }

  /** Fewer calls bring fewer keys. */
  lemma FewerBrought(j: Journey, cfg: Config, n: nat)
    requires cfg.Valid() && j.Uncrowded(cfg) && j.o <= n <= |j.calls|
    ensures |Brought(j.calls[j.o..n]) - {j.key}| < cfg.maxPending
  {
    hide Brought, After, Brings, Segments;
    var since := j.calls[j.o..];
    assert since[..n - j.o] == j.calls[j.o..n];
    BroughtLess(since, n - j.o);
    Fewer(Brought(j.calls[j.o..n]) - {j.key}, Brought(since) - {j.key});
  }

  /** The slot is open right behind the opening call. */
  lemma Opened(j: Journey, cfg: Config)
    requires cfg.Valid() && j.Uncrowded(cfg) && !Covers(j.Received(j.o + 1), j.All())
    ensures j.key in After(cfg, j.calls[..j.o + 1]).pending
    ensures Opener(cfg, j.calls[..j.o + 1], j.key) == j.o
  {
    hide Brings, Reassembled, Covers, Segments, Added, Thinned, SegmentsOf, Bounded;
    var calls, c := j.calls[..j.o], j.calls[j.o];
    assert j.calls[..j.o + 1] == calls + [c];
    AfterNext(cfg, calls, c);
    assert j.calls[j.o..j.o + 1] == [c];
    OneSegment(c, j.key);
    ReceivedSoFar(j, cfg, j.o + 1);
    AddKeeps(After(cfg, calls), c, j.key, cfg);
    VictimWaits(After(cfg, calls), j.key, cfg.maxPending);
    assert (calls + [c])[..j.o] == calls;
  }

  lemma NoSegments(key: MessageKey)
    ensures SegmentsOf([], key) == []
  {
  }

  lemma VictimWaits(s: Slots, key: MessageKey, maxPending: nat)
    requires Bounded(s, maxPending)
    ensures forall k :: k in Victims(s, key, maxPending) ==> k in s.pending
  {
  }

  /** It stays open until the last segment arrives. */
  lemma {:induction false} Waits(j: Journey, cfg: Config, n: nat)
    requires cfg.Valid() && j.Uncrowded(cfg) && j.o < n <= |j.calls|
    requires forall m :: j.o < m <= n ==> !Covers(j.Received(m), j.All())
    ensures j.key in After(cfg, j.calls[..n]).pending && Opener(cfg, j.calls[..n], j.key) == j.o
    decreases n
  {
    hide Brings, Reassembled, Covers, Segments, After, SegmentsOf, Bounded, Brought, CrowdsOut, Answer;
    if n == j.o + 1 {
      Opened(j, cfg);
    } else {
      var calls, c := j.calls[..n - 1], j.calls[n - 1];
      Waits(j, cfg, n - 1);
      assert j.calls[..n] == calls + [c] && (calls + [c])[..n - 1] == calls;
      assert calls[j.o..] + [c] == j.calls[j.o..n];
      if Completes(cfg, calls, c, j.key) {
        AnswersExactly(cfg, calls, c, j.key);
        ReceivedSoFar(j, cfg, n);
      }
      if CrowdsOut(cfg, calls, c, j.key) {
        CrowdNeeds(cfg, calls, c, j.key);
        FewerBrought(j, cfg, n);
      }
      assert calls[j.o] == j.calls[j.o];
      ForgottenExactly(cfg, calls, c, j.key);
    }
  }

  /**
    However many frames went through or are under way: the call that brings the last missing segment of a
    frame answers with the frame, if fewer than `max_pending` other frames are seen between its first segment
    and that call and none of its segments is late.
   */
  lemma UncrowdedComesOut(j: Journey, cfg: Config)
    requires cfg.Valid() && j.Uncrowded(cfg)
    requires Brings(j.calls[|j.calls| - 1], j.key) && Covers(j.Received(|j.calls|), j.All())
    requires forall m :: j.o < m < |j.calls| ==> !Covers(j.Received(m), j.All())
    ensures Answer(cfg, j.calls) == Ok(Some(j.frame))
  {
    hide Brings, Reassembled, Covers, Segments, After, SegmentsOf, Bounded, Brought, Answer, Opener, Journey.Uncrowded;
    UncrowdedStart(j, cfg);
    var n := |j.calls| - 1;
    var calls, c := j.calls[..n], j.calls[n];
    assert j.calls == calls + [c];
    ReceivedSoFar(j, cfg, n + 1);
    AnswersExactly(cfg, calls, c, j.key);
    if n > j.o {
      Waits(j, cfg, n);
      assert calls[j.o..] + [c] == j.calls[j.o..n + 1];
    } else {
      assert [c] == j.calls[j.o..n + 1];
    }
  }

  lemma UncrowdedStart(j: Journey, cfg: Config)
    requires cfg.Valid() && j.Uncrowded(cfg)
    ensures Segments(j.frame, j.chunkSize).Ok? && j.o < |j.calls| && j.key !in After(cfg, j.calls[..j.o]).pending
  {
  }
}
