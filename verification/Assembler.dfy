/**
  `SegmentAssembler` of `protocol.py`: bounded, stateful reassembly of segmented frames.

  The state is given as a value (`Slots`) with one function per locked section of `add`; the class
  keeps the two fields and its methods are proved to compute those functions.
 */
module Assembler {
  import opened Common
  import opened Bytes
  import opened Frames
  import opened Reassembly

  datatype Slot = Slot(since: real, chunks: seq<Frame>)

  datatype Slots = Slots(pending: map<MessageKey, Slot>, order: seq<MessageKey>)

  const EMPTY := Slots(map[], [])

  /** `_order` lists the keys of `_pending`, each once. */
  ghost predicate Matched(s: Slots) {
    Distinct(s.order) && forall k :: k in s.pending <==> k in s.order
  }

  ghost predicate Bounded(s: Slots, maxPending: nat) {
    Matched(s) && |s.order| <= maxPending
  }

  /** `while len(_order) > max_pending: ...` */
  function Evict(s: Slots, maxPending: nat): Slots
    decreases |s.order|
  {
    if |s.order| <= maxPending then s
    else Evict(Slots(s.pending - {s.order[0]}, s.order[1..]), maxPending)
  }

  /** First locked section: open a slot when the key is new, evicting the oldest ones, and file the frame. */
  function Admit(s: Slots, key: MessageKey, frame: Frame, now: real, maxPending: nat): Slots
    requires maxPending >= 1 && Bounded(s, maxPending)
  {
    var held := if key in s.pending then s
                  else Evict(Slots(s.pending[key := Slot(now, [])], s.order + [key]), maxPending);
    OpenedHasKey(s, key, now, maxPending);
    var slot := held.pending[key];
    Slots(held.pending[key := Slot(slot.since, slot.chunks + [frame])], held.order)
  }

  function Without<T(==)>(s: seq<T>, x: T): seq<T> {
    if s == [] then [] else if s[0] == x then s[1..] else [s[0]] + Without(s[1..], x)
  }

  /** Second locked section, taken when the frame is complete. */
  function Settle(s: Slots, key: MessageKey): Slots {
    Slots(s.pending - {key}, Without(s.order, key))
  }

  predicate Stale(s: Slots, key: MessageKey, now: real, ttl: real) {
    key in s.pending && now - s.pending[key].since > ttl
  }

  /** Third locked section, taken when pieces are still missing: drop what has waited too long. */
  function Prune(s: Slots, queue: seq<MessageKey>, now: real, ttl: real): Slots
    decreases |queue|
  {
    if queue == [] then s
    else Prune(if Stale(s, queue[0], now, ttl) then Settle(s, queue[0]) else s, queue[1..], now, ttl)
  }

  /** One call of `add`. */
  function Added(s: Slots, frame: Frame, now: real, maxPending: nat, ttl: real): (Slots, Result<Option<Frame>, WireError>)
    requires maxPending >= 1 && Bounded(s, maxPending)
  {
    var head := PeekHeader(frame);
    if head.Err? then (s, Err(head.error))
    else if !head.value.Segmented() then (s, Ok(Some(frame)))
    else
      var key := head.value.Key();
      var s1 := Admit(s, key, frame, now, maxPending);
      var r := Reassembled(s1.pending[key].chunks);
      if r.Err? then (s1, r)
      else if r.value.Some? then (Settle(s1, key), r)
      else (Prune(s1, s1.order, now, ttl), r)
  }

  // ----- every locked section keeps the bookkeeping consistent --------------------------------------

  lemma {:induction false} EvictBounded(s: Slots, maxPending: nat)
    requires Matched(s) && maxPending >= 1
    ensures Bounded(Evict(s, maxPending), maxPending)
    ensures s.order != [] ==>
              var last := s.order[|s.order| - 1];
              last in Evict(s, maxPending).pending && Evict(s, maxPending).pending[last] == s.pending[last]
    decreases |s.order|
  {
    if |s.order| > maxPending {
      var s' := Slots(s.pending - {s.order[0]}, s.order[1..]);
      assert s.order == [s.order[0]] + s.order[1..];
      EvictBounded(s', maxPending);
    }
  }

  lemma OpenedHasKey(s: Slots, key: MessageKey, now: real, maxPending: nat)
    requires maxPending >= 1 && Bounded(s, maxPending)
    ensures key !in s.pending ==>
              var held := Evict(Slots(s.pending[key := Slot(now, [])], s.order + [key]), maxPending);
              Bounded(held, maxPending) && key in held.pending && held.pending[key] == Slot(now, [])
  {
    if key !in s.pending {
      EvictBounded(Slots(s.pending[key := Slot(now, [])], s.order + [key]), maxPending);
    }
  }

  lemma AdmitBounded(s: Slots, key: MessageKey, frame: Frame, now: real, maxPending: nat)
    requires maxPending >= 1 && Bounded(s, maxPending)
    ensures Bounded(Admit(s, key, frame, now, maxPending), maxPending)
    ensures key in Admit(s, key, frame, now, maxPending).pending
  {
    OpenedHasKey(s, key, now, maxPending);
  }

  lemma {:induction false} WithoutMembers<T>(s: seq<T>, x: T)
    requires Distinct(s)
    ensures Distinct(Without(s, x)) && |Without(s, x)| <= |s|
    ensures forall y :: y in Without(s, x) <==> y in s && y != x
  {
    if s != [] {
      var t := s[1..];
      assert s == [s[0]] + t;
      assert s[0] !in t;
      if s[0] != x {
        WithoutMembers(t, x);
        var rest := Without(t, x);
        assert forall y :: y in [s[0]] + rest <==> y == s[0] || y in rest;
        assert s[0] !in rest;
      }
    }
  }

  lemma SettleBounded(s: Slots, key: MessageKey, maxPending: nat)
    requires Bounded(s, maxPending)
    ensures Bounded(Settle(s, key), maxPending)
  {
    WithoutMembers(s.order, key);
    var t := Settle(s, key);
    assert forall k :: k in t.pending <==> k in s.pending && k != key;
  }

  /** Pruning removes exactly the stale keys of the queue and leaves every other slot as it was. */
  lemma {:induction false} PruneMeans(s: Slots, queue: seq<MessageKey>, now: real, ttl: real, maxPending: nat)
    requires Bounded(s, maxPending)
    ensures Bounded(Prune(s, queue, now, ttl), maxPending)
    ensures forall k :: k in Prune(s, queue, now, ttl).pending
                   <==> k in s.pending && !(k in queue && Stale(s, k, now, ttl))
    ensures forall k :: k in Prune(s, queue, now, ttl).pending ==>
                   Prune(s, queue, now, ttl).pending[k] == s.pending[k]
    decreases |queue|
  {
    if queue != [] {
      var s' := if Stale(s, queue[0], now, ttl) then Settle(s, queue[0]) else s;
      SettleBounded(s, queue[0], maxPending);
      PruneMeans(s', queue[1..], now, ttl, maxPending);
      assert queue == [queue[0]] + queue[1..];
    }
  }

  /** After any call the two fields still match and hold at most `max_pending` keys. */
  lemma AddedBounded(s: Slots, frame: Frame, now: real, maxPending: nat, ttl: real)
    requires maxPending >= 1 && Bounded(s, maxPending)
    ensures Bounded(Added(s, frame, now, maxPending, ttl).0, maxPending)
  {
    var head := PeekHeader(frame);
    if head.Ok? && head.value.Segmented() {
      var key := head.value.Key();
      AdmitBounded(s, key, frame, now, maxPending);
      var s1 := Admit(s, key, frame, now, maxPending);
      SettleBounded(s1, key, maxPending);
      PruneMeans(s1, s1.order, now, ttl, maxPending);
    }
  }

  class SegmentAssembler {
    var pending: map<MessageKey, Slot>
    var order: seq<MessageKey>
    const maxPending: nat
    const ttl: real

    ghost predicate Valid()
      reads this
    {
      maxPending >= 1 && Bounded(State(), maxPending)
    }

    function State(): Slots
      reads this
    {
      Slots(pending, order)
    }

    constructor (maxPending: int, ttl: real)
      ensures Valid() && State() == EMPTY
      ensures this.maxPending == Max(1, maxPending) && this.ttl == MaxR(1.0, ttl)
    {
      this.maxPending := Max(1, maxPending);
      this.ttl := MaxR(1.0, ttl);
      pending, order := map[], [];
    }

    method AdmitFrame(key: MessageKey, frame: Frame, now: real)
      requires Valid()
      modifies this
      ensures Valid() && State() == Admit(old(State()), key, frame, now, maxPending)
    {
      AdmitBounded(State(), key, frame, now, maxPending);
      if key !in pending {
        OpenedHasKey(State(), key, now, maxPending);
        pending, order := pending[key := Slot(now, [])], order + [key];
        ghost var held := State();
        while |order| > maxPending
          invariant Evict(State(), maxPending) == Evict(held, maxPending)
          decreases |order|
        {
          pending, order := pending - {order[0]}, order[1..];
        }
      }
      var slot := pending[key];
      pending := pending[key := Slot(slot.since, slot.chunks + [frame])];
    }

    method Forget(key: MessageKey)
      requires Valid()
      modifies this
      ensures Valid() && State() == Settle(old(State()), key)
    {
      SettleBounded(State(), key, maxPending);
      pending := pending - {key};
      order := Without(order, key);
    }

    method PruneStale(now: real)
      requires Valid()
      modifies this
      ensures Valid() && State() == Prune(old(State()), old(order), now, ttl)
    {
      var queue := order;
      for k := 0 to |queue|
        invariant Valid()
        invariant Prune(State(), queue[k..], now, ttl) == Prune(old(State()), queue, now, ttl)
      {
        SettleBounded(State(), queue[k], maxPending);
        assert queue[k..][1..] == queue[k + 1..];
        if queue[k] in pending && now - pending[queue[k]].since > ttl {
          pending := pending - {queue[k]};
          order := Without(order, queue[k]);
        }
      }
    }

    /** `add`, with the reading of the monotonic clock passed in. */
    method Add(frame: Frame, now: real) returns (r: Result<Option<Frame>, WireError>)
      requires Valid()
      modifies this
      ensures Valid()
      ensures (State(), r) == Added(old(State()), frame, now, maxPending, ttl)
    {
      var head :- PeekHeader(frame);
      if !head.Segmented() { return Ok(Some(frame)); }
      var key := head.Key();
      AdmitBounded(State(), key, frame, now, maxPending);
      AdmitFrame(key, frame, now);
      r := Defragment(pending[key].chunks);
      if r.Err? { return; }
      if r.value.Some? {
        Forget(key);
      } else {
        PruneStale(now);
      }
    }
  }
}
