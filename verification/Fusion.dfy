/** Confidence-weighted fusion in `spatial.py`. A time left out is the clock's reading, passed in. */
module Fusion {
  import opened Common
  import opened Octree

  const MIN_CONFIDENCE := 0.001
  const FUSION_MIN_AGREEMENT := 2

  /** What the constructor of an observation makes of a confidence. */
  function Clamped(confidence: real): real { MaxR(MIN_CONFIDENCE, MinR(1.0, confidence)) }

  ghost predicate Constructed(o: Obs) { MIN_CONFIDENCE <= o.confidence <= 1.0 }

  /** `effective_confidence`: full while fresh, then a straight line down to nothing. */
  function Effective(o: Obs, now: real, decay: real): real
    requires decay > 0.0
  {
    var age := now - o.timestamp;
    if age <= decay then o.confidence else o.confidence * MaxR(0.0, 1.0 - (age - decay) / decay)
  }

  function Valid(es: seq<Obs>, now: real, decay: real): seq<Obs>
    requires decay > 0.0
  {
    if es == [] then []
    else
      var last := es[|es| - 1];
      Valid(es[..|es| - 1], now, decay) + (if Effective(last, now, decay) > 0.0 then [last] else [])
  }

  datatype Axis = X | Y | Z

  function Coord(o: Obs, a: Axis): real {
    match a
    case X => o.x
    case Y => o.y
    case Z => o.z
  }

  function WeightSum(es: seq<Obs>, now: real, decay: real): real
    requires decay > 0.0
  {
    if es == [] then 0.0 else WeightSum(es[..|es| - 1], now, decay) + Effective(es[|es| - 1], now, decay)
  }

  function Moment(o: Obs, a: Axis, now: real, decay: real): real
    requires decay > 0.0
  {
    Coord(o, a) * Effective(o, now, decay)
  }

  function MomentSum(es: seq<Obs>, a: Axis, now: real, decay: real): real
    requires decay > 0.0
  {
    if es == [] then 0.0
    else MomentSum(es[..|es| - 1], a, now, decay) + Moment(es[|es| - 1], a, now, decay)
  }

  /** `max(es, key=...)`: the first of the best. */
  function Best(es: seq<Obs>, now: real, decay: real): (b: Obs)
    requires decay > 0.0 && es != []
    ensures b in es
    ensures forall e :: e in es ==> Effective(e, now, decay) <= Effective(b, now, decay)
  {
    var last := es[|es| - 1];
    if |es| == 1 then last
    else
      var before := Best(es[..|es| - 1], now, decay);
      Snoc(es);
      if Effective(last, now, decay) > Effective(before, now, decay) then last else before
  }

  datatype Fused = Nothing | Single(o: Obs) | Merged(o: Obs, from: nat, agents: set<string>)

  function Ratio(m: real, w: real): real
    requires w != 0.0
  {
    m / w
  }

  /** `_fuse` */
  function Fuse(entries: seq<Obs>, now: real, decay: real): Fused
    requires decay > 0.0
  {
    var valid := Valid(entries, now, decay);
    var agents := set e | e in valid :: e.agentId;
    if valid == [] then Nothing
    else if |valid| < FUSION_MIN_AGREEMENT && |agents| < FUSION_MIN_AGREEMENT then Single(Best(valid, now, decay))
    else
      var w := WeightSum(valid, now, decay);
      ValidWeight(entries, now, decay);
      if w == 0.0 then Nothing
      else
        var b := Best(valid, now, decay);
        Merged(b.(agentId := "fused",
                  x := Ratio(MomentSum(valid, X, now, decay), w),
                  y := Ratio(MomentSum(valid, Y, now, decay), w),
                  z := Ratio(MomentSum(valid, Z, now, decay), w),
                  confidence := Clamped(MinR(1.0, Ratio(w, |valid| as real))),
                  timestamp := now),
               |valid|, agents)
  }

  // ----- effective confidence ----------------------------------------------------------------------------------

  lemma Fading(age: real, decay: real)
    requires decay > 0.0 && age > decay
    ensures 0.0 <= MaxR(0.0, 1.0 - (age - decay) / decay) < 1.0
    ensures MaxR(0.0, 1.0 - (age - decay) / decay) == 0.0 <==> age >= 2.0 * decay
  {
    QuotientOne(age - decay, decay);
  }

  lemma QuotientOne(m: real, w: real)
    requires m > 0.0 && w > 0.0
    ensures m / w > 0.0 && (m / w >= 1.0 <==> m >= w)
  {
    var q := m / w;
    assert q * w == m;
    assert q <= 0.0 ==> (-q) * w >= 0.0;
    assert q >= 1.0 ==> (q - 1.0) * w >= 0.0;
    assert q < 1.0 ==> (1.0 - q) * w > 0.0;
  }

  /** It lies between nothing and the raw confidence; it is gone exactly after twice the decay time. */
  lemma {:induction false} EffectiveBounds(o: Obs, now: real, decay: real)
    requires decay > 0.0 && Constructed(o)
    ensures 0.0 <= Effective(o, now, decay) <= o.confidence
    ensures Effective(o, now, decay) == o.confidence <==> now - o.timestamp <= decay
    ensures Effective(o, now, decay) == 0.0 <==> now - o.timestamp >= 2.0 * decay
  {
    var age := now - o.timestamp;
    if age > decay {
      Fading(age, decay);
      Scaled(o.confidence, MaxR(0.0, 1.0 - (age - decay) / decay));
    }
  }

  lemma Scaled(c: real, f: real)
    requires c > 0.0 && 0.0 <= f < 1.0
    ensures 0.0 <= c * f < c && (c * f == 0.0 <==> f == 0.0)
  {
    assert c * f >= 0.0;
    assert c * (1.0 - f) > 0.0;
    assert f > 0.0 ==> c * f > 0.0;
  }

  lemma DividedOrder(a: real, b: real, d: real)
    requires a <= b && d > 0.0
    ensures a / d <= b / d
  {
    assert (b - a) / d >= 0.0;
  }

  /** It never increases with time. */
  lemma {:induction false} EffectiveFades(o: Obs, now: real, later: real, decay: real)
    requires decay > 0.0 && Constructed(o) && now <= later
    ensures Effective(o, later, decay) <= Effective(o, now, decay)
  {
    var a, b := now - o.timestamp, later - o.timestamp;
    if a <= decay {
      EffectiveBounds(o, later, decay);
    } else {
      DividedOrder(a - decay, b - decay, decay);
      var f, g := MaxR(0.0, 1.0 - (a - decay) / decay), MaxR(0.0, 1.0 - (b - decay) / decay);
      assert g <= f;
      assert o.confidence * (f - g) >= 0.0;
    }
  }

  // ----- the weights ---------------------------------------------------------------------------------------------

  ghost predicate Positive(es: seq<Obs>, now: real, decay: real)
    requires decay > 0.0
  {
    forall e :: e in es ==> Effective(e, now, decay) > 0.0
  }

  lemma {:induction false} ValidMembers(es: seq<Obs>, now: real, decay: real)
    requires decay > 0.0
    ensures forall e :: e in Valid(es, now, decay) <==> e in es && Effective(e, now, decay) > 0.0
  {
    hide Effective;
    if es != [] {
      Snoc(es);
      ValidMembers(es[..|es| - 1], now, decay);
    }
  }

  lemma {:induction false} WeightPositive(es: seq<Obs>, now: real, decay: real)
    requires decay > 0.0 && Positive(es, now, decay)
    ensures WeightSum(es, now, decay) >= 0.0 && (es != [] ==> WeightSum(es, now, decay) > 0.0)
  {
    hide Effective;
    if es != [] {
      Snoc(es);
      WeightPositive(es[..|es| - 1], now, decay);
    }
  }

  lemma ValidWeight(entries: seq<Obs>, now: real, decay: real)
    requires decay > 0.0
    ensures Valid(entries, now, decay) != [] ==> WeightSum(Valid(entries, now, decay), now, decay) > 0.0
  {
    hide Effective;
    ValidMembers(entries, now, decay);
    WeightPositive(Valid(entries, now, decay), now, decay);
  }

  // ----- the fused position ----------------------------------------------------------------------------------------

  function Lowest(es: seq<Obs>, a: Axis): (e: Obs)
    requires es != []
    ensures e in es && forall o :: o in es ==> Coord(e, a) <= Coord(o, a)
  {
    var last := es[|es| - 1];
    if |es| == 1 then last
    else
      var e := Lowest(es[..|es| - 1], a);
      Snoc(es);
      if Coord(last, a) < Coord(e, a) then last else e
  }

  function Highest(es: seq<Obs>, a: Axis): (e: Obs)
    requires es != []
    ensures e in es && forall o :: o in es ==> Coord(o, a) <= Coord(e, a)
  {
    var last := es[|es| - 1];
    if |es| == 1 then last
    else
      var e := Highest(es[..|es| - 1], a);
      Snoc(es);
      if Coord(last, a) > Coord(e, a) then last else e
  }

  lemma MomentBounds(o: Obs, a: Axis, now: real, decay: real, lo: real, hi: real)
    requires decay > 0.0 && Effective(o, now, decay) > 0.0 && lo <= Coord(o, a) <= hi
    ensures lo * Effective(o, now, decay) <= Moment(o, a, now, decay) <= hi * Effective(o, now, decay)
  {
    hide Effective, Coord;
    Weighed(0.0, Effective(o, now, decay), Coord(o, a), lo, hi);
  }

  lemma Spread(v: real, w: real, e: real)
    ensures v * (w + e) == v * w + v * e
  {
  }

  lemma {:induction false} MomentBetween(es: seq<Obs>, a: Axis, now: real, decay: real, lo: real, hi: real)
    requires decay > 0.0 && Positive(es, now, decay)
    requires forall e :: e in es ==> lo <= Coord(e, a) <= hi
    ensures lo * WeightSum(es, now, decay) <= MomentSum(es, a, now, decay) <= hi * WeightSum(es, now, decay)
  {
    hide Effective, Coord, Moment;
    if es != [] {
      var n := |es| - 1;
      Snoc(es);
      MomentBetween(es[..n], a, now, decay, lo, hi);
      MomentBounds(es[n], a, now, decay, lo, hi);
      Spread(lo, WeightSum(es[..n], now, decay), Effective(es[n], now, decay));
      Spread(hi, WeightSum(es[..n], now, decay), Effective(es[n], now, decay));
    }
  }

  lemma Weighed(w: real, e: real, v: real, lo: real, hi: real)
    requires e > 0.0 && lo <= v <= hi
    ensures lo * (w + e) <= lo * w + v * e && hi * w + v * e <= hi * (w + e)
  {
    assert (v - lo) * e >= 0.0;
    assert (hi - v) * e >= 0.0;
  }

  lemma QuotientBetween(m: real, w: real, lo: real, hi: real)
    requires w > 0.0 && lo * w <= m <= hi * w
    ensures lo <= Ratio(m, w) <= hi
  {
    var q := m / w;
    assert q * w == m;
    assert q < lo ==> (lo - q) * w > 0.0;
    assert q > hi ==> (q - hi) * w > 0.0;
  }

  /** Where a merged observation is put. */
  lemma MergedPlace(entries: seq<Obs>, now: real, decay: real, a: Axis)
    requires decay > 0.0
    ensures Fuse(entries, now, decay).Merged? ==>
      var valid := Valid(entries, now, decay);
      && |valid| == Fuse(entries, now, decay).from >= FUSION_MIN_AGREEMENT && WeightSum(valid, now, decay) > 0.0
      && Coord(Fuse(entries, now, decay).o, a) == Ratio(MomentSum(valid, a, now, decay), WeightSum(valid, now, decay))
  {
    hide Effective, Best, Ratio, MomentSum, WeightSum, Valid;
    ValidWeight(entries, now, decay);
    OneAgent(Valid(entries, now, decay));
  }

  /**
    A merged position is a convex combination: along every axis it lies between the lowest and the
    highest of the observations that still count, which are at least two.
   */
  lemma FusedBetween(entries: seq<Obs>, now: real, decay: real, a: Axis)
    requires decay > 0.0
    ensures Fuse(entries, now, decay).Merged? ==>
      var valid := Valid(entries, now, decay);
      && |valid| == Fuse(entries, now, decay).from >= FUSION_MIN_AGREEMENT
      && Coord(Lowest(valid, a), a) <= Coord(Fuse(entries, now, decay).o, a) <= Coord(Highest(valid, a), a)
  {
    hide Effective, Best, Lowest, Highest, Ratio, MomentSum, WeightSum, Fuse, Coord, Valid;
    MergedPlace(entries, now, decay, a);
    var valid := Valid(entries, now, decay);
    if valid == [] { return; }
    ValidMembers(entries, now, decay);
    ValidWeight(entries, now, decay);
    var lo, hi := Coord(Lowest(valid, a), a), Coord(Highest(valid, a), a);
    MomentBetween(valid, a, now, decay, lo, hi);
    QuotientBetween(MomentSum(valid, a, now, decay), WeightSum(valid, now, decay), lo, hi);
  }

  /** A single observation has a single agent, so the second half of the guard never decides. */
  lemma OneAgent(valid: seq<Obs>)
    ensures |valid| < FUSION_MIN_AGREEMENT ==> |set e | e in valid :: e.agentId| < FUSION_MIN_AGREEMENT
  {
    var agents := set e | e in valid :: e.agentId;
    if |valid| == 0 {
      assert agents == {};
    } else if |valid| == 1 {
      assert agents == {valid[0].agentId};
    }
  }

  lemma {:induction false} WeightAtMost(es: seq<Obs>, now: real, decay: real, top: real)
    requires decay > 0.0 && forall e :: e in es ==> Effective(e, now, decay) <= top
    ensures WeightSum(es, now, decay) <= Product(top, |es| as real)
  {
    hide Effective, Product;
    ProductSteps(0.0, 0.0, top, if es == [] then 0.0 else (|es| - 1) as real);
    if es != [] {
      Snoc(es);
      WeightAtMost(es[..|es| - 1], now, decay, top);
    }
  }

  /**
    A merged confidence is a legal one, and no higher than the least legal one or the best of those
    that were merged.
   */
  lemma FusedConfidence(entries: seq<Obs>, now: real, decay: real)
    requires decay > 0.0
    ensures Fuse(entries, now, decay).Merged? ==>
      var valid := Valid(entries, now, decay);
      var c := Fuse(entries, now, decay).o.confidence;
      && valid != [] && MIN_CONFIDENCE <= c <= 1.0
      && c <= MaxR(MIN_CONFIDENCE, Effective(Best(valid, now, decay), now, decay))
  {
    hide Effective, Best, Ratio, MomentSum, WeightSum, Product;
    var valid := Valid(entries, now, decay);
    if valid == [] { return; }
    var top := Effective(Best(valid, now, decay), now, decay);
    WeightAtMost(valid, now, decay, top);
    Average(WeightSum(valid, now, decay), |valid| as real, top);
  }

  lemma Average(w: real, n: real, top: real)
    requires n > 0.0 && w <= Product(top, n)
    ensures Ratio(w, n) <= top
  {
    hide Ratio, Product;
    Quotient(w, n);
    ProductOrder(Ratio(w, n), top, n);
  }

  // ----- the mean and the centroid ---------------------------------------------------------------------------------

  /** How far the effective confidences are from c, added up. */
  function Deviation(es: seq<Obs>, now: real, decay: real, c: real): real
    requires decay > 0.0
  {
    if es == [] then 0.0 else Deviation(es[..|es| - 1], now, decay, c) + (Effective(es[|es| - 1], now, decay) - c)
  }

  /** How far the observations are from p along an axis, weighted by effective confidence and added up. */
  function Pull(es: seq<Obs>, a: Axis, now: real, decay: real, p: real): real
    requires decay > 0.0
  {
    if es == [] then 0.0
    else Pull(es[..|es| - 1], a, now, decay, p) + Effective(es[|es| - 1], now, decay) * (Coord(es[|es| - 1], a) - p)
  }

  /** A product that the proofs below treat as a whole. */
  ghost function Product(x: real, y: real): real { x * y }

  lemma ProductOrder(a: real, b: real, n: real)
    requires n > 0.0
    ensures a > b ==> Product(a, n) > Product(b, n)
  {
    assert a > b ==> (a - b) * n > 0.0;
  }

  lemma ProductOne(n: real)
    ensures Product(1.0, n) == n
  {
  }

  lemma ProductSteps(e: real, v: real, p: real, w: real)
    ensures e * (v - p) == v * e - Product(p, e)
    ensures Product(p, w + e) == Product(p, w) + Product(p, e)
    ensures Product(p, w + 1.0) == Product(p, w) + p
    ensures Product(p, 0.0) == 0.0
  {
  }

  lemma {:induction false} DeviationSum(es: seq<Obs>, now: real, decay: real, c: real)
    requires decay > 0.0
    ensures Deviation(es, now, decay, c) == WeightSum(es, now, decay) - Product(c, |es| as real)
  {
    hide Effective, Product;
    ProductSteps(0.0, 0.0, c, if es == [] then 0.0 else (|es| - 1) as real);
    if es != [] { DeviationSum(es[..|es| - 1], now, decay, c); }
  }

  lemma {:induction false} PullSum(es: seq<Obs>, a: Axis, now: real, decay: real, p: real)
    requires decay > 0.0
    ensures Pull(es, a, now, decay, p) == MomentSum(es, a, now, decay) - Product(p, WeightSum(es, now, decay))
  {
    hide Effective, Coord, Product;
    if es == [] {
      ProductSteps(0.0, 0.0, p, 0.0);
    } else {
      var n := |es| - 1;
      PullSum(es[..n], a, now, decay, p);
      ProductSteps(Effective(es[n], now, decay), Coord(es[n], a), p, WeightSum(es[..n], now, decay));
    }
  }

  lemma Quotient(m: real, w: real)
    requires w != 0.0
    ensures Product(Ratio(m, w), w) == m
  {
  }

  /** A merged position is the centroid: along every axis the weighted distances to the members cancel out. */
  lemma FusedIsCentroid(entries: seq<Obs>, now: real, decay: real, a: Axis)
    requires decay > 0.0
    ensures Fuse(entries, now, decay).Merged? ==>
              Pull(Valid(entries, now, decay), a, now, decay, Coord(Fuse(entries, now, decay).o, a)) == 0.0
  {
    hide Effective, Best, Ratio, MomentSum, WeightSum, Pull, Valid, Fuse, Coord, Product;
    if Fuse(entries, now, decay).Merged? {
      var valid := Valid(entries, now, decay);
      MergedPlace(entries, now, decay, a);
      PullSum(valid, a, now, decay, Coord(Fuse(entries, now, decay).o, a));
      Quotient(MomentSum(valid, a, now, decay), WeightSum(valid, now, decay));
    }
  }

  /**
    A merged confidence is the mean: the effective confidences of the members lie around it in balance,
    unless they are on average below the least legal confidence, which it is then.
   */
  lemma FusedIsMean(entries: seq<Obs>, now: real, decay: real)
    requires decay > 0.0 && forall e :: e in entries ==> Constructed(e)
    ensures Fuse(entries, now, decay).Merged? ==>
      var valid, c := Valid(entries, now, decay), Fuse(entries, now, decay).o.confidence;
      && (Deviation(valid, now, decay, MIN_CONFIDENCE) >= 0.0 ==> Deviation(valid, now, decay, c) == 0.0)
      && (Deviation(valid, now, decay, MIN_CONFIDENCE) < 0.0 ==> c == MIN_CONFIDENCE)
  {
    hide Effective, Best, MomentSum, WeightSum, Deviation, Valid, Constructed, Product, Ratio, Clamped;
    if Fuse(entries, now, decay).Merged? {
      var valid, c := Valid(entries, now, decay), Fuse(entries, now, decay).o.confidence;
      var w, n := WeightSum(valid, now, decay), |valid| as real;
      ValidMembers(entries, now, decay);
      forall e | e in valid ensures Effective(e, now, decay) <= 1.0 { AtMostOne(e, now, decay); }
      WeightAtMost(valid, now, decay, 1.0);
      ProductOne(n);
      DeviationSum(valid, now, decay, MIN_CONFIDENCE);
      DeviationSum(valid, now, decay, c);
      MeanClamped(w, n);
    }
  }

  lemma AtMostOne(e: Obs, now: real, decay: real)
    requires decay > 0.0 && Constructed(e)
    ensures Effective(e, now, decay) <= 1.0
  {
    EffectiveBounds(e, now, decay);
  }

  lemma MeanClamped(w: real, n: real)
    requires 0.0 < n && w <= n
    ensures var c := Clamped(MinR(1.0, Ratio(w, n)));
      && (w - Product(MIN_CONFIDENCE, n) >= 0.0 ==> w - Product(c, n) == 0.0)
      && (w - Product(MIN_CONFIDENCE, n) < 0.0 ==> c == MIN_CONFIDENCE)
  {
    hide Ratio, Product, Clamped;
    var q := Ratio(w, n);
    Quotient(w, n);
    ProductOne(n);
    ProductOrder(q, 1.0, n);
    ProductOrder(MIN_CONFIDENCE, q, n);
    ProductOrder(q, MIN_CONFIDENCE, n);
    ClampedIs(q);
  }

  lemma ClampedIs(q: real)
    requires q <= 1.0
    ensures q >= MIN_CONFIDENCE ==> Clamped(MinR(1.0, q)) == q
    ensures q < MIN_CONFIDENCE ==> Clamped(MinR(1.0, q)) == MIN_CONFIDENCE
  {
  }

  lemma {:induction false} WeightAtLeast(es: seq<Obs>, now: real, decay: real, low: real)
    requires decay > 0.0 && forall e :: e in es ==> low <= Effective(e, now, decay)
    ensures Product(low, |es| as real) <= WeightSum(es, now, decay)
  {
    hide Effective, Product;
    ProductSteps(0.0, 0.0, low, if es == [] then 0.0 else (|es| - 1) as real);
    if es != [] {
      Snoc(es);
      WeightAtLeast(es[..|es| - 1], now, decay, low);
    }
  }

  /** No member drags it below the worst of them; and where all are equally confident, so is the result. */
  lemma FusedAtLeastWorst(entries: seq<Obs>, now: real, decay: real, low: real)
    requires decay > 0.0 && forall e :: e in entries ==> Constructed(e)
    requires forall e :: e in entries && Effective(e, now, decay) > 0.0 ==> low <= Effective(e, now, decay)
    ensures Fuse(entries, now, decay).Merged? ==> low <= Fuse(entries, now, decay).o.confidence
    ensures Fuse(entries, now, decay).Merged? && low >= MIN_CONFIDENCE
         && (forall e :: e in entries && Effective(e, now, decay) > 0.0 ==> Effective(e, now, decay) == low)
        ==> Fuse(entries, now, decay).o.confidence == low
  {
    hide Effective, Best, MomentSum, WeightSum, Deviation, Valid, Constructed, Ratio, Clamped, Product;
    if Fuse(entries, now, decay).Merged? {
      var valid, c := Valid(entries, now, decay), Fuse(entries, now, decay).o.confidence;
      var w, n := WeightSum(valid, now, decay), |valid| as real;
      ValidMembers(entries, now, decay);
      FusedIsMean(entries, now, decay);
      DeviationSum(valid, now, decay, MIN_CONFIDENCE);
      DeviationSum(valid, now, decay, c);
      WeightAtLeast(valid, now, decay, low);
      if forall e :: e in valid ==> Effective(e, now, decay) == low { WeightAtMost(valid, now, decay, low); }
      MeanBetween(w, n, low, c);
    }
  }

  lemma MeanBetween(w: real, n: real, low: real, c: real)
    requires n > 0.0 && Product(low, n) <= w
    requires w - Product(MIN_CONFIDENCE, n) >= 0.0 ==> w - Product(c, n) == 0.0
    requires w - Product(MIN_CONFIDENCE, n) < 0.0 ==> c == MIN_CONFIDENCE
    ensures low <= c
    ensures w <= Product(low, n) && low >= MIN_CONFIDENCE ==> c == low
  {
    hide Product;
    ProductOrder(low, c, n);
    ProductOrder(c, low, n);
    ProductOrder(low, MIN_CONFIDENCE, n);
  }

  /** Where the best first stands: none is better, and every earlier one is worse. */
  ghost predicate FirstBest(es: seq<Obs>, now: real, decay: real, k: nat)
    requires decay > 0.0
  {
    && k < |es|
    && (forall i :: 0 <= i < |es| ==> Effective(es[i], now, decay) <= Effective(es[k], now, decay))
    && (forall i :: 0 <= i < k ==> Effective(es[i], now, decay) < Effective(es[k], now, decay))
  }

  lemma FirstBestNext(es: seq<Obs>, now: real, decay: real, k: nat)
    requires decay > 0.0 && |es| > 1 && FirstBest(es[..|es| - 1], now, decay, k)
    ensures var last := es[|es| - 1];
      && (Effective(last, now, decay) > Effective(es[k], now, decay) ==> FirstBest(es, now, decay, |es| - 1))
      && (Effective(last, now, decay) <= Effective(es[k], now, decay) ==> FirstBest(es, now, decay, k))
  {
    hide Effective;
    var init := es[..|es| - 1];
    assert forall i :: 0 <= i < |init| ==> init[i] == es[i];
  }

  lemma {:induction false} BestIsFirst(es: seq<Obs>, now: real, decay: real) returns (k: nat)
    requires decay > 0.0 && es != []
    ensures k < |es| && FirstBest(es, now, decay, k) && Best(es, now, decay) == es[k]
  {
    hide Effective;
    if |es| == 1 { return 0; }
    k := BestIsFirst(es[..|es| - 1], now, decay);
    FirstBestNext(es, now, decay, k);
    hide FirstBest;
    if Effective(es[|es| - 1], now, decay) > Effective(es[k], now, decay) { k := |es| - 1; }
  }

  /**
    Everything but place, time, confidence and agent a merged observation takes from the first of the most
    confident; it tells how many were merged and whose they were. Two are merged even if one agent made both.
   */
  lemma FusedTakesAfter(entries: seq<Obs>, now: real, decay: real)
    requires decay > 0.0
    ensures var valid, r := Valid(entries, now, decay), Fuse(entries, now, decay);
      && (r.Merged? <==> |valid| >= 2)
      && (r.Single? <==> |valid| == 1) && (r.Single? ==> valid == [r.o])
      && (r.Merged? ==>
            && r.from == |valid|
            && (forall agent :: agent in r.agents <==> exists e :: e in valid && e.agentId == agent)
            && r.o.agentId == "fused" && r.o.timestamp == now
            && exists k: nat :: FirstBest(valid, now, decay, k)
                 && r.o.(agentId := "", x := 0.0, y := 0.0, z := 0.0, confidence := 0.0, timestamp := 0.0)
                    == valid[k].(agentId := "", x := 0.0, y := 0.0, z := 0.0, confidence := 0.0, timestamp := 0.0))
  {
    hide Effective, Best, MomentSum, WeightSum, Ratio, Clamped, FirstBest;
    var valid, r := Valid(entries, now, decay), Fuse(entries, now, decay);
    ValidWeight(entries, now, decay);
    OneAgent(valid);
    if valid != [] {
      var k := BestIsFirst(valid, now, decay);
    }
  }

  /** Between the decay time and twice it, effective confidence runs straight from the raw one to nothing. */
  lemma EffectiveLine(o: Obs, now: real, decay: real)
    requires decay > 0.0 && decay <= now - o.timestamp <= 2.0 * decay
    ensures Effective(o, now, decay) * decay == o.confidence * (2.0 * decay - (now - o.timestamp))
  {
    var age, c := now - o.timestamp, o.confidence;
    if decay < age {
      var f := MaxR(0.0, 1.0 - Ratio(age - decay, decay));
      assert Effective(o, now, decay) == c * f;
      LineFactor(age, decay);
      Nested(c, f, decay);
      hide Product, Ratio, Effective;
      Alike(c, Product(f, decay), 2.0 * decay - age);
    } else {
      Alike(c, decay, 2.0 * decay - age);
    }
  }

  lemma Alike(c: real, x: real, y: real)
    requires x == y
    ensures c * x == c * y
  {
  }

  lemma LineFactor(age: real, decay: real)
    requires 0.0 < decay < age <= 2.0 * decay
    ensures Product(MaxR(0.0, 1.0 - Ratio(age - decay, decay)), decay) == 2.0 * decay - age
  {
    hide Ratio, Product;
    var q := Ratio(age - decay, decay);
    Quotient(age - decay, decay);
    ProductOne(decay);
    ProductOrder(q, 1.0, decay);
    ProductMinus(q, decay);
  }

  lemma ProductMinus(q: real, d: real)
    ensures Product(1.0 - q, d) == d - Product(q, d)
  {
  }

  lemma Nested(c: real, f: real, d: real)
    ensures (c * f) * d == c * Product(f, d)
  {
  }

  /** Fusing yields nothing exactly when every entry is at least twice the decay time old. */
  lemma FusesUnlessStale(entries: seq<Obs>, now: real, decay: real)
    requires decay > 0.0 && forall e :: e in entries ==> Constructed(e)
    ensures Fuse(entries, now, decay) == Nothing <==> forall e :: e in entries ==> now - e.timestamp >= 2.0 * decay
  {
    hide Effective, Best, Constructed, Ratio, MomentSum, WeightSum;
    ValidMembers(entries, now, decay);
    ValidWeight(entries, now, decay);
    forall e | e in entries
      ensures Effective(e, now, decay) > 0.0 <==> now - e.timestamp < 2.0 * decay
    {
      EffectiveBounds(e, now, decay);
    }
    var valid := Valid(entries, now, decay);
    if valid == [] {
      forall e | e in entries ensures now - e.timestamp >= 2.0 * decay { assert e !in valid; }
    } else {
      assert valid[0] in valid;
    }
  }

  // ----- the order of the entries does not matter --------------------------------------------------------------------

  function Removed(es: seq<Obs>, i: nat): seq<Obs>
    requires i < |es|
  {
    es[..i] + es[i + 1..]
  }

  lemma {:induction false} SumsWithout(es: seq<Obs>, i: nat, a: Axis, now: real, decay: real)
    requires decay > 0.0 && i < |es|
    ensures WeightSum(es, now, decay) == WeightSum(Removed(es, i), now, decay) + Effective(es[i], now, decay)
    ensures MomentSum(es, a, now, decay)
         == MomentSum(Removed(es, i), a, now, decay) + Moment(es[i], a, now, decay)
    decreases |es|
  {
    hide Effective, Moment;
    var n := |es| - 1;
    if i < n {
      SumsWithout(es[..n], i, a, now, decay);
      var r := Removed(es, i);
      assert r[..|r| - 1] == Removed(es[..n], i);
      assert r[|r| - 1] == es[n];
    } else {
      assert Removed(es, i) == es[..n];
    }
  }

  lemma RemovedCounts(es: seq<Obs>, i: nat)
    requires i < |es|
    ensures multiset(Removed(es, i)) == multiset(es) - multiset{es[i]}
  {
    assert es == es[..i] + [es[i]] + es[i + 1..];
  }

  lemma RestSame(es: seq<Obs>, fs: seq<Obs>) returns (i: nat)
    requires multiset(es) == multiset(fs) && es != []
    ensures i < |fs| && fs[i] == es[|es| - 1]
    ensures multiset(es[..|es| - 1]) == multiset(Removed(fs, i))
  {
    hide Removed;
    var n := |es| - 1;
    Snoc(es);
    assert es[n] in multiset(fs);
    i :| 0 <= i < |fs| && fs[i] == es[n];
    RemovedCounts(fs, i);
  }

  lemma NothingPermuted(es: seq<Obs>)
    requires multiset(es) == multiset{}
    ensures es == []
  {
    assert |multiset(es)| == |es|;
  }

  /** The weights and moments depend only on which observations there are, each counted as often as it occurs. */
  lemma {:induction false} SumsPermute(es: seq<Obs>, fs: seq<Obs>, a: Axis, now: real, decay: real)
    requires decay > 0.0 && multiset(es) == multiset(fs)
    ensures WeightSum(es, now, decay) == WeightSum(fs, now, decay)
    ensures MomentSum(es, a, now, decay) == MomentSum(fs, a, now, decay)
    decreases |es|
  {
    hide Effective, Moment, Removed;
    if es == [] {
      NothingPermuted(fs);
    } else {
      var i := RestSame(es, fs);
      SumsPermute(es[..|es| - 1], Removed(fs, i), a, now, decay);
      SumsWithout(fs, i, a, now, decay);
    }
  }

  lemma {:induction false} ValidPermute(es: seq<Obs>, now: real, decay: real, q: Obs)
    requires decay > 0.0
    ensures multiset(Valid(es, now, decay))[q] == if Effective(q, now, decay) > 0.0 then multiset(es)[q] else 0
  {
    hide Effective;
    if es != [] {
      Snoc(es);
      ValidPermute(es[..|es| - 1], now, decay, q);
    }
  }

  /** However the tree lists them, the same observations fuse to the same position and confidence. */
  lemma OrderDoesNotMatter(es: seq<Obs>, fs: seq<Obs>, now: real, decay: real, a: Axis)
    requires decay > 0.0 && multiset(es) == multiset(fs)
    ensures Fuse(es, now, decay).Merged? ==>
              && Fuse(fs, now, decay).Merged? && Fuse(fs, now, decay).from == Fuse(es, now, decay).from
              && Coord(Fuse(fs, now, decay).o, a) == Coord(Fuse(es, now, decay).o, a)
              && Fuse(fs, now, decay).o.confidence == Fuse(es, now, decay).o.confidence
  {
    hide Effective, Best, Valid, Ratio, MomentSum, WeightSum;
    var v, u := Valid(es, now, decay), Valid(fs, now, decay);
    forall q ensures multiset(v)[q] == multiset(u)[q] {
      ValidPermute(es, now, decay, q);
      ValidPermute(fs, now, decay, q);
    }
    assert multiset(v) == multiset(u);
    assert |v| == |multiset(v)| == |u|;
    SumsPermute(v, u, a, now, decay);
    ValidWeight(es, now, decay);
    ValidWeight(fs, now, decay);
    OneAgent(v);
    OneAgent(u);
  }
}
