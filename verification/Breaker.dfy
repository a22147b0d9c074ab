/** The circuit breaker of `transport_fallback.py`, seen through the attempts made on one transport. */
module Breaker {
  import opened Common

  /** `_Circuit` */
  datatype Circuit = Circuit(failures: nat, openUntil: real, latency: Option<real>)

  datatype Outcome = Accepted | Refused | Raised

  /** One attempt: the clock reading its breaker was checked against, the one its failure is dated by, and how it went. */
  datatype Attempt = Attempt(at: real, failedAt: real, outcome: Outcome)

  datatype Limits = Limits(threshold: nat, cooldown: real) {
    ghost predicate Valid() { threshold >= 1 && cooldown > 0.0 }
  }

  /** Failures since the last success. */
  function Trailing(as_: seq<Attempt>): nat {
    if as_ == [] || as_[|as_| - 1].outcome == Accepted then 0 else Trailing(as_[..|as_| - 1]) + 1
  }

  /** Until when the breaker is open: set by a refusal that brings the count to the threshold or beyond. */
  function OpenUntil(as_: seq<Attempt>, lim: Limits): real {
    if as_ == [] then 0.0
    else
      var last := as_[|as_| - 1];
      if last.outcome == Refused && Trailing(as_) >= lim.threshold then last.failedAt + lim.cooldown
      else OpenUntil(as_[..|as_| - 1], lim)
  }

  /** Attempts follow one another in time, and none is made while the breaker is open. */
  ghost predicate Gated(as_: seq<Attempt>, lim: Limits, now: real) {
    && (forall q :: 0 <= q < |as_| ==> as_[q].at >= OpenUntil(as_[..q], lim))
    && (forall q :: 0 <= q < |as_| ==> as_[q].at <= as_[q].failedAt <= now)
    && (forall p, q :: 0 <= p < q < |as_| ==> as_[p].failedAt <= as_[q].at)
  }

  /** The breaker's fields are what the attempts say. */
  ghost predicate Reflects(c: Circuit, as_: seq<Attempt>, lim: Limits) {
    c.failures == Trailing(as_) && c.openUntil == OpenUntil(as_, lim)
  }

  /** One more attempt. */
  function Noted(c: Circuit, a: Attempt, lim: Limits): Circuit {
    match a.outcome
    case Accepted => c.(failures := 0)
    case Refused =>
      c.(failures := c.failures + 1, openUntil := if c.failures + 1 >= lim.threshold then a.failedAt + lim.cooldown else c.openUntil)
    case Raised => c.(failures := c.failures + 1)
  }

  lemma NotedReflects(c: Circuit, as_: seq<Attempt>, a: Attempt, lim: Limits)
    requires Reflects(c, as_, lim)
    ensures Reflects(Noted(c, a, lim), as_ + [a], lim)
  {
    assert (as_ + [a])[..|as_|] == as_;
  }

  lemma NotedGated(as_: seq<Attempt>, a: Attempt, lim: Limits, now: real, later: real)
    requires Gated(as_, lim, now)
    requires now <= a.at <= a.failedAt <= later && a.at >= OpenUntil(as_, lim)
    ensures Gated(as_ + [a], lim, later)
  {
    hide OpenUntil;
    var all := as_ + [a];
    forall q | 0 <= q < |all| ensures all[q].at >= OpenUntil(all[..q], lim) {
      assert q < |as_| ==> all[..q] == as_[..q] && all[q] == as_[q];
      assert q == |as_| ==> all[..q] == as_;
    }
  }

  lemma GatedLater(as_: seq<Attempt>, lim: Limits, now: real, later: real)
    requires Gated(as_, lim, now) && now <= later
    ensures Gated(as_, lim, later)
  {
  }

  // ----- the rate bound --------------------------------------------------------------------------------------------

  ghost predicate AllRefused(as_: seq<Attempt>, j: nat, k: nat) {
    k < |as_| && forall q :: j <= q <= k ==> as_[q].outcome == Refused
  }

  lemma {:induction false} TrailingRun(as_: seq<Attempt>, j: nat, q: nat)
    requires j <= q && AllRefused(as_, j, q)
    ensures Trailing(as_[..q + 1]) >= q - j + 1
    decreases q
  {
    assert as_[..q + 1][..q] == as_[..q];
    if q > j {
      TrailingRun(as_, j, q - 1);
    }
  }

  /** From the threshold on, every refusal keeps the next attempt away for a whole cooldown. */
  lemma OneCooldown(as_: seq<Attempt>, lim: Limits, now: real, j: nat, q: nat)
    requires lim.Valid() && Gated(as_, lim, now) && j + lim.threshold <= q + 1 && AllRefused(as_, j, q + 1)
    ensures as_[q + 1].at >= as_[q].failedAt + lim.cooldown && as_[q].failedAt >= as_[j].failedAt
  {
    hide Trailing;
    TrailingRun(as_, j, q);
    var before := as_[..q + 1];
    assert before[|before| - 1] == as_[q];
    assert as_[q + 1].at >= OpenUntil(before, lim);
  }

  lemma LaterFailure(as_: seq<Attempt>, lim: Limits, now: real, j: nat, q: nat)
    requires Gated(as_, lim, now) && j <= q < |as_|
    ensures as_[j].failedAt <= as_[q].failedAt && as_[q].at <= as_[q].failedAt
  {
    hide OpenUntil;
  }

  lemma FewerRefused(as_: seq<Attempt>, j: nat, q: nat, k: nat)
    requires AllRefused(as_, j, k) && q <= k
    ensures AllRefused(as_, j, q)
  {
  }

  lemma NextMultiple(m: nat, cooldown: real)
    ensures 0 as real * cooldown == 0.0
    ensures (m + 1) as real * cooldown == m as real * cooldown + cooldown
  {
    assert (m + 1) as real == m as real + 1.0;
  }

  lemma {:induction false} Spacing(as_: seq<Attempt>, lim: Limits, now: real, j: nat, m: nat)
    requires lim.Valid() && Gated(as_, lim, now) && AllRefused(as_, j, j + lim.threshold - 1 + m)
    ensures var q := j + lim.threshold - 1 + m;
      && as_[q].failedAt >= as_[j].failedAt + m as real * lim.cooldown
      && (m >= 1 ==> as_[q].at >= as_[j].failedAt + m as real * lim.cooldown)
    decreases m
  {
    hide Gated, AllRefused;
    var q := j + lim.threshold - 1 + m;
    InRange(as_, j, q);
    LaterFailure(as_, lim, now, j, q);
    NextMultiple(m, lim.cooldown);
    if m > 0 {
      FewerRefused(as_, j, q - 1, q);
      Spacing(as_, lim, now, j, m - 1);
      NextMultiple(m - 1, lim.cooldown);
      OneCooldown(as_, lim, now, j, q - 1);
    }
  }

  lemma InRange(as_: seq<Attempt>, j: nat, k: nat)
    requires AllRefused(as_, j, k)
    ensures k < |as_|
  {
  }

  lemma MultipleFits(m: nat, d: real, cooldown: real)
    requires cooldown > 0.0 && m as real * cooldown <= d
    ensures m <= (d / cooldown).Floor
  {
    var q := d / cooldown;
    assert q * cooldown == d;
    assert m as real > q ==> (m as real - q) * cooldown > 0.0;
  }

  /**
    A transport that keeps refusing is tried at most `threshold + floor(d / cooldown)` times within d
    seconds of its first failure.
   */
  lemma RateBound(as_: seq<Attempt>, lim: Limits, now: real, j: nat, k: nat, d: real)
    requires lim.Valid() && Gated(as_, lim, now)
    requires j <= k && AllRefused(as_, j, k)
    requires d >= 0.0 && as_[k].at <= as_[j].failedAt + d
    ensures k - j + 1 <= lim.threshold + (d / lim.cooldown).Floor
  {
    hide OpenUntil;
    var m := Max(0, k - j + 1 - lim.threshold);
    if m >= 1 {
      Spacing(as_, lim, now, j, m);
    }
    MultipleFits(m, d, lim.cooldown);
  }

  // ----- raised attempts in between ------------------------------------------------------------------------------------

  /** No success between two attempts. */
  ghost predicate NoSuccess(as_: seq<Attempt>, j: nat, k: nat) {
    k < |as_| && forall q :: j <= q <= k ==> as_[q].outcome != Accepted
  }

  /** How many of the attempts j..k were refused. */
  function Refusals(as_: seq<Attempt>, j: nat, k: nat): (r: nat)
    requires j <= k < |as_|
    ensures r <= k - j + 1
    decreases k
  {
    (if as_[k].outcome == Refused then 1 else 0) + (if k == j then 0 else Refusals(as_, j, k - 1))
  }

  lemma {:induction false} TrailingNoSuccess(as_: seq<Attempt>, j: nat, q: nat)
    requires j <= q && NoSuccess(as_, j, q)
    ensures Trailing(as_[..q + 1]) >= q - j + 1
    decreases q
  {
    assert as_[..q + 1][..q] == as_[..q];
    if q > j {
      TrailingNoSuccess(as_, j, q - 1);
    }
  }

  lemma OpenAfter(as_: seq<Attempt>, lim: Limits, q: nat)
    requires q < |as_|
    ensures OpenUntil(as_[..q + 1], lim)
         == if as_[q].outcome == Refused && Trailing(as_[..q + 1]) >= lim.threshold then as_[q].failedAt + lim.cooldown
            else OpenUntil(as_[..q], lim)
  {
    hide Trailing;
    assert as_[..q + 1][..q] == as_[..q];
  }

  lemma GateAt(as_: seq<Attempt>, lim: Limits, now: real, j: nat, q: nat)
    requires Gated(as_, lim, now) && j <= q < |as_|
    ensures as_[q].at >= OpenUntil(as_[..q], lim) && as_[q].failedAt >= as_[q].at && as_[q].failedAt >= as_[j].failedAt
  {
    hide OpenUntil;
  }

  /** From the threshold on, every refusal puts the end of the open time a whole cooldown further off. */
  lemma {:induction false} OpenSpacing(as_: seq<Attempt>, lim: Limits, now: real, j: nat, q: nat)
    requires lim.Valid() && Gated(as_, lim, now) && j <= q && NoSuccess(as_, j, q)
    ensures var r := Refusals(as_, j, q);
      r >= lim.threshold ==> OpenUntil(as_[..q + 1], lim) >= as_[j].failedAt + (r - lim.threshold + 1) as real * lim.cooldown
    decreases q
  {
    hide Gated, Trailing, OpenUntil;
    var r := Refusals(as_, j, q);
    if q > j { OpenSpacing(as_, lim, now, j, q - 1); }
    if r >= lim.threshold {
      TrailingNoSuccess(as_, j, q);
      OpenAfter(as_, lim, q);
      GateAt(as_, lim, now, j, q);
      NextMultiple(r - lim.threshold, lim.cooldown);
      NextMultiple(0, lim.cooldown);
    }
  }

  /**
    The bound without the assumption that every attempt is refused: between two successes, however many
    attempts raise, the refusals within d seconds of the first failure number at most
    `threshold + floor(d / cooldown)`.
   */
  lemma RefusalsBounded(as_: seq<Attempt>, lim: Limits, now: real, j: nat, k: nat, d: real)
    requires lim.Valid() && Gated(as_, lim, now)
    requires j <= k && NoSuccess(as_, j, k)
    requires d >= 0.0 && as_[k].at <= as_[j].failedAt + d
    ensures Refusals(as_, j, k) <= lim.threshold + (d / lim.cooldown).Floor
  {
    hide Gated, Trailing, OpenUntil, Refusals, NoSuccess;
    InOrder(as_, j, k);
    var m := Max(0, Refusals(as_, j, k) - lim.threshold);
    NextMultiple(0, lim.cooldown);
    if m >= 1 {
      RefusalAt(as_, lim, now, j, k);
    }
    MultipleFits(m, d, lim.cooldown);
  }

  lemma InOrder(as_: seq<Attempt>, j: nat, k: nat)
    requires NoSuccess(as_, j, k)
    ensures k < |as_|
  {
  }

  lemma RefusalAt(as_: seq<Attempt>, lim: Limits, now: real, j: nat, k: nat)
    requires lim.Valid() && Gated(as_, lim, now) && j <= k && NoSuccess(as_, j, k)
    requires Refusals(as_, j, k) > lim.threshold
    ensures as_[k].at >= as_[j].failedAt + (Refusals(as_, j, k) - lim.threshold) as real * lim.cooldown
  {
    hide Gated, Trailing, OpenUntil, Refusals, NoSuccess;
    InOrder(as_, j, k);
    var r := Refusals(as_, j, k) - lim.threshold;
    OneMore(as_, j, k);
    var m := Refusals(as_, j, k - 1) - lim.threshold + 1;
    OpenSpacing(as_, lim, now, j, k - 1);
    assert as_[..k - 1 + 1] == as_[..k];
    GateAt(as_, lim, now, j, k);
    LessMultiple(r, m, lim.cooldown);
    var most, least := m as real * lim.cooldown, r as real * lim.cooldown;
    assert OpenUntil(as_[..k], lim) >= as_[j].failedAt + most;
    assert as_[k].at >= as_[j].failedAt + most >= as_[j].failedAt + least;
  }

  lemma OneMore(as_: seq<Attempt>, j: nat, k: nat)
    requires j <= k && NoSuccess(as_, j, k) && Refusals(as_, j, k) >= 2
    ensures k > j && NoSuccess(as_, j, k - 1) && Refusals(as_, j, k) <= Refusals(as_, j, k - 1) + 1
  {
  }

  lemma LessMultiple(r: int, m: int, cooldown: real)
    requires r <= m && cooldown > 0.0
    ensures r as real * cooldown <= m as real * cooldown
  {
    assert (m as real - r as real) * cooldown >= 0.0;
  }

  lemma {:induction false} OnlyRaised(as_: seq<Attempt>, lim: Limits)
    requires forall q :: 0 <= q < |as_| ==> as_[q].outcome == Raised
    ensures Trailing(as_) == |as_| && OpenUntil(as_, lim) == 0.0
  {
    if as_ != [] { OnlyRaised(as_[..|as_| - 1], lim); }
  }

  /** An exception out of `send_raw` counts as a failure but never opens the breaker: there is no bound then. */
  lemma {:induction false} RaisingNeverOpens(n: nat, lim: Limits, t: real)
    requires lim.Valid() && t >= 0.0
    ensures var as_ := seq(n, _ => Attempt(t, t, Raised));
      Gated(as_, lim, t) && Trailing(as_) == n && OpenUntil(as_, lim) == 0.0
  {
    var as_ := seq(n, _ => Attempt(t, t, Raised));
    OnlyRaised(as_, lim);
    forall q | 0 <= q < n ensures OpenUntil(as_[..q], lim) == 0.0 { OnlyRaised(as_[..q], lim); }
    hide OpenUntil, Trailing;
  }
}
