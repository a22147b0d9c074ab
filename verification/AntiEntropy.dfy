/**
  The digest exchange of `memory_sync.py`: a requester lists what it has, the responder sends what is
  missing of its own facts, the most salient first, at most 32 at a time.

  A digest is an injective function of a key; the link carries every frame and both profiles are full-share.
 */
module AntiEntropy {
  import opened Common
  import opened Memory
  import opened Sorting

  ghost predicate Injective(digest: Key -> string) {
    forall a, b :: digest(a) == digest(b) ==> a == b
  }

  /** Every fact sits under the key made of its own origin and id. */
  ghost predicate WellKeyed(facts: Facts) {
    forall k :: k in facts ==> k == MakeKey(facts[k].origin, facts[k].factId)
  }

  /** `digests`: one per fact. */
  function Digests(digest: Key -> string, facts: Facts): set<string> {
    set k | k in facts :: digest(MakeKey(facts[k].origin, facts[k].factId))
  }

  /** `send_digests`: a list of more than 64 entries cannot be encoded, so nothing is sent. */
  function SentDigests(digest: Key -> string, facts: Facts): Option<set<string>> {
    if |facts| > MAX_PAYLOAD_ITEMS then None else Some(Digests(digest, facts))
  }

  /** The responder's own facts that the requester does not hold. */
  ghost function Missing(responder: Facts, p: Agent, requester: Facts): set<Key> {
    set k | k in responder && k.origin == p && k !in requester
  }

  predicate MoreSalient(a: Fact, b: Fact) { a.salience >= b.salience }

  lemma SalienceOrder()
    ensures TotalPreorder(MoreSalient)
  {
  }

  /** The facts that the loop of `_on_digest` collects, in whatever order the dict yields its keys. */
  ghost predicate Collected(digest: Key -> string, facts: Facts, p: Agent, known: set<string>, list: seq<Fact>) {
    && Distinct(list)
    && (forall i :: 0 <= i < |list| ==> MakeKey(list[i].origin, list[i].factId) in facts
                                        && facts[MakeKey(list[i].origin, list[i].factId)] == list[i])
    && (forall k :: k in facts ==> (facts[k] in list <==> facts[k].origin == p && digest(k) !in known))
  }

  class Responder {
    const agentId: Agent
    const store: InMemoryFactStore

    constructor (agentId: Agent, store: InMemoryFactStore)
      ensures this.agentId == agentId && this.store == store
    {
      this.agentId, this.store := agentId, store;
    }

    /** `_on_digest`: what is published to the peer. A fact without content is chosen but not sent. */
    method OnDigest(digest: Key -> string, known: set<string>) returns (chosen: seq<Fact>, sent: seq<Fact>)
      requires WellKeyed(store.facts)
      ensures exists list :: Collected(digest, store.facts, agentId, known, list) && chosen == Top(list)
      ensures sent == WithContent(chosen)
    {
      hide KeyOf, Sort;
      var missing: seq<Fact> := [];
      var keys := store.facts.Keys;
      while keys != {}
        invariant keys <= store.facts.Keys
        invariant Collected(digest, map k | k in store.facts && k !in keys :: store.facts[k], agentId, known, missing)
        decreases |keys|
      {
        var k :| k in keys;
        CollectNext(digest, store.facts, agentId, known, missing, keys, k);
        if store.facts[k].origin == agentId && digest(MakeKey(store.facts[k].origin, store.facts[k].factId)) !in known {
          missing := missing + [store.facts[k]];
        }
        keys := keys - {k};
      }
      assert (map k | k in store.facts && k !in keys :: store.facts[k]) == store.facts;
      SalienceOrder();
      SortSorts(missing, MoreSalient);
      chosen := Top(missing);
      sent := [];
      for i := 0 to |chosen|
        invariant sent == WithContent(chosen[..i])
      {
        assert chosen[..i + 1][..i] == chosen[..i];
        if chosen[i].content != "" { sent := sent + [chosen[i]]; }
      }
      assert chosen[..|chosen|] == chosen;
    }
  }

  lemma CollectNext(digest: Key -> string, facts: Facts, p: Agent, known: set<string>, list: seq<Fact>, keys: set<Key>, k: Key)
    requires WellKeyed(facts) && keys <= facts.Keys && k in keys
    requires Collected(digest, map j | j in facts && j !in keys :: facts[j], p, known, list)
    ensures var part := map j | j in facts && j !in keys - {k} :: facts[j];
      Collected(digest, part, p, known, if facts[k].origin == p && digest(k) !in known then list + [facts[k]] else list)
  {
    var before := map j | j in facts && j !in keys :: facts[j];
    var part := map j | j in facts && j !in keys - {k} :: facts[j];
    assert part == before[k := facts[k]];
    assert facts[k] !in list;
    forall j | j in part && j != k ensures part[j] != facts[k] {}
  }

  // ----- one round ----------------------------------------------------------------------------------------------

  ghost predicate Contentful(facts: Facts) { forall k :: k in facts ==> facts[k].content != "" }

  /** The facts chosen in a round: the top of some order of the missing ones. */
  ghost predicate Chosen(responder: Facts, p: Agent, requester: Facts, chosen: seq<Fact>) {
    && Distinct(chosen)
    && |chosen| == Min(MAX_FACTS_PER_DIGEST, |Missing(responder, p, requester)|)
    && (forall f :: f in chosen ==> KeyOf(f) in Missing(responder, p, requester) && responder[KeyOf(f)] == f)
    && (forall f, k :: f in chosen && k in Missing(responder, p, requester) && responder[k] !in chosen ==>
          f.salience >= responder[k].salience)
  }

  function KeyOf(f: Fact): Key { MakeKey(f.origin, f.factId) }

  /** The body of the envelope that carries a fact. */
  function Carrier(f: Fact): Body {
    FactBody(f.origin, f.factId, Cap(f.content, MAX_STR_VALUE), f.kind, f.salience, f.metadata)
  }

  /** The requester's store after the envelopes have arrived. */
  function Delivered(requester: Facts, self: Agent, p: Agent, chosen: seq<Fact>): Facts {
    if chosen == [] then requester
    else Handled(Delivered(requester, self, p, chosen[..|chosen| - 1]), self, {}, p, Carrier(chosen[|chosen| - 1]))
  }

  /** `publish_fact` sends nothing for a fact without content. */
  function WithContent(fs: seq<Fact>): seq<Fact> {
    if fs == [] then []
    else
      var last := fs[|fs| - 1];
      WithContent(fs[..|fs| - 1]) + (if last.content != "" then [last] else [])
  }

  lemma {:induction false} AllWithContent(fs: seq<Fact>)
    requires forall f :: f in fs ==> f.content != ""
    ensures WithContent(fs) == fs
  {
    if fs != [] {
      Snoc(fs);
      AllWithContent(fs[..|fs| - 1]);
    }
  }

  /** The top of the salience order. */
  function Top(list: seq<Fact>): seq<Fact> { Sort(list, MoreSalient)[..Min(MAX_FACTS_PER_DIGEST, |list|)] }

  /**
    A digest exchange: nothing happens when the requester's list is too long to send; otherwise the
    responder publishes what `_on_digest` chooses against the digests that arrive.
   */
  ghost predicate Round(digest: Key -> string, responder: Facts, p: Agent, requester: Facts, self: Agent, requester': Facts) {
    match SentDigests(digest, requester)
    case None => requester' == requester
    case Some(known) =>
      exists list :: Collected(digest, responder, p, known, list)
                && requester' == Delivered(requester, self, p, WithContent(Top(list)))
  }

  lemma DigestsTell(digest: Key -> string, facts: Facts, k: Key)
    requires Injective(digest) && WellKeyed(facts)
    ensures digest(k) in Digests(digest, facts) <==> k in facts
  {
    if k in facts { assert MakeKey(facts[k].origin, facts[k].factId) == k; }
  }

  lemma TopOfSorted(sorted: seq<Fact>, n: nat, f: Fact, g: Fact)
    requires n <= |sorted| && Sorted(sorted, MoreSalient) && f in sorted[..n] && g in sorted && g !in sorted[..n]
    ensures f.salience >= g.salience
  {
    var i :| 0 <= i < n && sorted[..n][i] == f;
    var j :| 0 <= j < |sorted| && sorted[j] == g;
    forall q | 0 <= q < n ensures sorted[q] != g { assert sorted[..n][q] == sorted[q]; }
    assert MoreSalient(sorted[i], sorted[j]);
  }

  /** What `_on_digest` chooses against the requester's digests is a choice of this kind. */
  lemma OnDigestChooses(digest: Key -> string, responder: Facts, p: Agent, requester: Facts, list: seq<Fact>)
    requires Injective(digest) && WellKeyed(responder) && WellKeyed(requester)
    requires Collected(digest, responder, p, Digests(digest, requester), list)
    ensures |list| == |Missing(responder, p, requester)|
    ensures Chosen(responder, p, requester, Top(list))
  {
    hide Sort, Digests;
    var missing := Missing(responder, p, requester);
    forall k | k in responder ensures k in missing <==> responder[k] in list { DigestsTell(digest, requester, k); }
    ListCounts(responder, missing, list);
    SalienceOrder();
    SortSorts(list, MoreSalient);
    SortMembers(list, MoreSalient);
    var sorted := Sort(list, MoreSalient);
    var chosen := Top(list);
    forall f | f in chosen ensures f in list { assert f in sorted; }
    forall f, k | f in chosen && k in missing && responder[k] !in chosen ensures f.salience >= responder[k].salience {
      TopOfSorted(sorted, |chosen|, f, responder[k]);
    }
  }

  /** A list of distinct facts and the set of their keys have the same size. */
  lemma ListCounts(facts: Facts, keys: set<Key>, list: seq<Fact>)
    requires Distinct(list)
    requires forall i :: 0 <= i < |list| ==> KeyOf(list[i]) in facts && facts[KeyOf(list[i])] == list[i]
    requires forall k :: k in keys ==> k in facts && KeyOf(facts[k]) == k
    requires forall k :: k in facts ==> (k in keys <==> facts[k] in list)
    ensures |list| == |keys|
  {
    hide KeyOf;
    var ks := seq(|list|, i requires 0 <= i < |list| => KeyOf(list[i]));
    forall i, j | 0 <= i < j < |ks| ensures ks[i] != ks[j] {
      assert facts[ks[i]] == list[i] && facts[ks[j]] == list[j];
    }
    DistinctCount(ks);
    forall k ensures k in ks <==> k in keys {
      if k in ks {
        var i :| 0 <= i < |ks| && ks[i] == k;
        assert facts[k] == list[i] && list[i] in list;
      }
      if k in keys {
        var i :| 0 <= i < |list| && list[i] == facts[k];
        assert ks[i] == k;
      }
    }
    assert (set k | k in ks) == keys;
  }

  // ----- what a round achieves ------------------------------------------------------------------------------------

  /** A fact as the requester stores it when it is new there. */
  function Received(f: Fact): Fact {
    Fact(f.origin, f.factId, Cap(Cap(f.content, MAX_STR_VALUE), MAX_FACT_CONTENT), OrElse(f.kind, "fact"),
         MaxR(0.0, f.salience), if |f.metadata| <= MAX_METADATA then f.metadata else map[], 0)
  }

  lemma DeliverOne(requester: Facts, self: Agent, p: Agent, f: Fact)
    requires p != "" && p != self && f.origin == p && KeyOf(f) !in requester
    ensures Handled(requester, self, {}, p, Carrier(f)) == requester[KeyOf(f) := Received(f)]
    ensures KeyOf(Received(f)) == KeyOf(f) && KeyOf(f).origin == p
  {
  }

  function Keys(chosen: seq<Fact>): set<Key> { set f | f in chosen :: KeyOf(f) }

  lemma KeysNext(chosen: seq<Fact>, f: Fact)
    ensures Keys(chosen + [f]) == Keys(chosen) + {KeyOf(f)}
  {
    hide KeyOf;
    assert forall g :: g in chosen + [f] <==> g in chosen || g == f;
  }

  /** The chosen facts are new to the requester and have different keys. */
  ghost predicate AllNew(requester: Facts, p: Agent, chosen: seq<Fact>) {
    && (forall i :: 0 <= i < |chosen| ==> chosen[i].origin == p && KeyOf(chosen[i]) !in requester)
    && (forall i, j :: 0 <= i < j < |chosen| ==> KeyOf(chosen[i]) != KeyOf(chosen[j]))
  }

  lemma AllNewInit(requester: Facts, p: Agent, chosen: seq<Fact>)
    requires AllNew(requester, p, chosen) && chosen != []
    ensures AllNew(requester, p, chosen[..|chosen| - 1])
    ensures chosen[|chosen| - 1].origin == p && KeyOf(chosen[|chosen| - 1]) !in requester.Keys + Keys(chosen[..|chosen| - 1])
  {
    hide KeyOf;
    var n := |chosen| - 1;
    forall f | f in chosen[..n] ensures KeyOf(f) != KeyOf(chosen[n]) { var i :| 0 <= i < n && chosen[i] == f; }
  }

  /** What the envelopes leave behind: the chosen facts, as sent, on top of what was there. */
  ghost predicate Extended(requester: Facts, r: Facts, chosen: seq<Fact>) {
    && r.Keys == requester.Keys + Keys(chosen)
    && (forall k :: k in requester ==> r[k] == requester[k])
    && (forall g :: g in chosen ==> KeyOf(g) in r && r[KeyOf(g)] == Received(g))
  }

  lemma ExtendedNext(requester: Facts, r: Facts, chosen: seq<Fact>, f: Fact)
    requires Extended(requester, r, chosen) && KeyOf(f) !in r
    ensures Extended(requester, r[KeyOf(f) := Received(f)], chosen + [f])
  {
    hide KeyOf, Received, Keys;
    var r' := r[KeyOf(f) := Received(f)];
    KeysNext(chosen, f);
    assert r'.Keys == r.Keys + {KeyOf(f)};
    forall g | g in chosen + [f] ensures KeyOf(g) in r' && r'[KeyOf(g)] == Received(g) {
      if g in chosen { assert KeyOf(g) in r && r[KeyOf(g)] == Received(g); }
    }
  }

  lemma {:induction false} DeliveredMeans(requester: Facts, self: Agent, p: Agent, chosen: seq<Fact>)
    requires p != "" && p != self && AllNew(requester, p, chosen)
    ensures Extended(requester, Delivered(requester, self, p, chosen), chosen)
    ensures WellKeyed(requester) ==> WellKeyed(Delivered(requester, self, p, chosen))
  {
    hide Received, Handled, KeyOf, AllNew, Carrier, WellKeyed, Extended, Keys;
    if chosen == [] {
      ExtendedByNothing(requester);
    } else {
      var n := |chosen| - 1;
      Snoc(chosen);
      AllNewInit(requester, p, chosen);
      DeliveredMeans(requester, self, p, chosen[..n]);
      var before := Delivered(requester, self, p, chosen[..n]);
      ExtendedKeys(requester, before, chosen[..n]);
      DeliverOne(before, self, p, chosen[n]);
      ExtendedNext(requester, before, chosen[..n], chosen[n]);
      WellKeyedNext(before, chosen[n]);
    }
  }

  lemma ExtendedByNothing(requester: Facts)
    ensures Extended(requester, requester, [])
  {
    assert Keys([]) == {};
  }

  lemma ExtendedKeys(requester: Facts, r: Facts, chosen: seq<Fact>)
    requires Extended(requester, r, chosen)
    ensures r.Keys == requester.Keys + Keys(chosen)
  {
  }

  lemma WellKeyedNext(facts: Facts, f: Fact)
    requires KeyOf(Received(f)) == KeyOf(f)
    ensures WellKeyed(facts) ==> WellKeyed(facts[KeyOf(f) := Received(f)])
  {
  }

  /** The choice behind a round, and what it does to the requester's store. */
  lemma RoundChoice(digest: Key -> string, responder: Facts, p: Agent, requester: Facts, self: Agent, requester': Facts)
    returns (chosen: seq<Fact>)
    requires Injective(digest) && p != "" && p != self
    requires WellKeyed(responder) && Contentful(responder) && WellKeyed(requester)
    requires Round(digest, responder, p, requester, self, requester') && |requester| <= MAX_PAYLOAD_ITEMS
    ensures Chosen(responder, p, requester, chosen)
    ensures requester'.Keys == requester.Keys + Keys(chosen)
    ensures forall k :: k in requester ==> requester'[k] == requester[k]
    ensures Keys(chosen) <= Missing(responder, p, requester)
    ensures |Keys(chosen)| == Min(MAX_FACTS_PER_DIGEST, |Missing(responder, p, requester)|)
    ensures WellKeyed(requester')
  {
    hide Delivered, Received, AllNew, WellKeyed, KeyOf, Chosen, Keys, Missing, Collected, Digests, Top, WithContent, Injective, Contentful;
    var known := Digests(digest, requester);
    var list :| Collected(digest, responder, p, known, list)
             && requester' == Delivered(requester, self, p, WithContent(Top(list)));
    chosen := Top(list);
    OnDigestChooses(digest, responder, p, requester, list);
    ChosenContentful(responder, p, requester, chosen);
    AllWithContent(chosen);
    ChosenKeys(responder, p, requester, chosen);
    DeliveredMeans(requester, self, p, chosen);
  }

  lemma ChosenContentful(responder: Facts, p: Agent, requester: Facts, chosen: seq<Fact>)
    requires Contentful(responder) && Chosen(responder, p, requester, chosen)
    ensures forall f :: f in chosen ==> f.content != ""
  {
  }

  /** What is gained and what is left, as numbers. */
  lemma MissingLeft(responder: Facts, p: Agent, requester: Facts, requester': Facts, gained: set<Key>)
    requires gained <= Missing(responder, p, requester) && requester'.Keys == requester.Keys + gained
    ensures Missing(responder, p, requester') == Missing(responder, p, requester) - gained
    ensures |Missing(responder, p, requester')| == |Missing(responder, p, requester)| - |gained|
    ensures |requester'| == |requester| + |gained|
    ensures forall k :: k in Missing(responder, p, requester) && k in requester' ==> k in gained
  {
    assert Missing(responder, p, requester') == Missing(responder, p, requester) - gained;
    assert |requester'| == |requester'.Keys| && |requester| == |requester.Keys|;
    assert requester.Keys !! gained;
  }

  /**
    One digest exchange with a requester of at most 64 facts: it gains exactly min(32, m) of the m facts
    it lacked, none less salient than one it still lacks, and loses nothing.
   */
  lemma RoundProgress(digest: Key -> string, responder: Facts, p: Agent, requester: Facts, self: Agent, requester': Facts)
    requires Injective(digest) && p != "" && p != self
    requires WellKeyed(responder) && Contentful(responder) && WellKeyed(requester)
    requires Round(digest, responder, p, requester, self, requester') && |requester| <= MAX_PAYLOAD_ITEMS
    ensures var m := |Missing(responder, p, requester)|;
      && |Missing(responder, p, requester')| == m - Min(MAX_FACTS_PER_DIGEST, m)
      && |requester'| == |requester| + Min(MAX_FACTS_PER_DIGEST, m)
    ensures forall k :: k in requester ==> k in requester' && requester'[k] == requester[k]
    ensures forall k, j :: k in Missing(responder, p, requester) && k in requester' && j in Missing(responder, p, requester') ==>
              responder[k].salience >= responder[j].salience
    ensures WellKeyed(requester')
  {
    hide WellKeyed, Contentful, KeyOf, Chosen, Keys, Round;
    var chosen := RoundChoice(digest, responder, p, requester, self, requester');
    var missing, left := Missing(responder, p, requester), Missing(responder, p, requester');
    MissingLeft(responder, p, requester, requester', Keys(chosen));
    forall k, j | k in missing && k in requester' && j in left ensures responder[k].salience >= responder[j].salience {
      ChosenFirst(responder, p, requester, chosen, k, j);
    }
  }

  lemma ChosenFirst(responder: Facts, p: Agent, requester: Facts, chosen: seq<Fact>, k: Key, j: Key)
    requires WellKeyed(responder) && Chosen(responder, p, requester, chosen)
    requires k in Keys(chosen) && j in Missing(responder, p, requester) && j !in Keys(chosen)
    ensures k in responder && responder[k].salience >= responder[j].salience
  {
    var f :| f in chosen && KeyOf(f) == k;
    assert KeyOf(responder[j]) == j;
    assert responder[j] !in chosen;
  }

  lemma ChosenKeys(responder: Facts, p: Agent, requester: Facts, chosen: seq<Fact>)
    requires WellKeyed(responder) && Chosen(responder, p, requester, chosen)
    ensures AllNew(requester, p, chosen)
    ensures Keys(chosen) <= Missing(responder, p, requester) && |Keys(chosen)| == |chosen|
    ensures |chosen| == Min(MAX_FACTS_PER_DIGEST, |Missing(responder, p, requester)|)
  {
    hide WellKeyed;
    forall i | 0 <= i < |chosen| ensures chosen[i].origin == p && KeyOf(chosen[i]) !in requester { assert chosen[i] in chosen; }
    forall i, j | 0 <= i < j < |chosen| ensures KeyOf(chosen[i]) != KeyOf(chosen[j]) {
      assert chosen[i] in chosen && chosen[j] in chosen;
      assert responder[KeyOf(chosen[i])] == chosen[i] && responder[KeyOf(chosen[j])] == chosen[j];
    }
    KeysCount(chosen);
  }

  lemma {:induction false} KeysCount(chosen: seq<Fact>)
    requires forall i, j :: 0 <= i < j < |chosen| ==> KeyOf(chosen[i]) != KeyOf(chosen[j])
    ensures |Keys(chosen)| == |chosen|
  {
    hide KeyOf;
    if chosen == [] {
      assert Keys(chosen) == {};
    } else {
      var n := |chosen| - 1;
      Snoc(chosen);
      KeysCount(chosen[..n]);
      KeysNext(chosen[..n], chosen[n]);
      forall f | f in chosen[..n] ensures KeyOf(f) != KeyOf(chosen[n]) { var i :| 0 <= i < n && chosen[i] == f; }
    }
  }

  // ----- whether the rounds ever finish ----------------------------------------------------------------------------

  /** Held and missing facts after n rounds, as numbers. */
  function Counts(held: nat, missing: nat, n: nat): (nat, nat) {
    if n == 0 then (held, missing)
    else
      var (h, m) := Counts(held, missing, n - 1);
      if h > MAX_PAYLOAD_ITEMS then (h, m)
      else (h + Min(MAX_FACTS_PER_DIGEST, m), m - Min(MAX_FACTS_PER_DIGEST, m))
  }

  /** A run of rounds against an unchanging responder. */
  ghost predicate Rounds(digest: Key -> string, responder: Facts, p: Agent, self: Agent, stores: seq<Facts>) {
    stores != [] && forall i :: 0 <= i < |stores| - 1 ==> Round(digest, responder, p, stores[i], self, stores[i + 1])
  }

  lemma RoundStalls(digest: Key -> string, responder: Facts, p: Agent, requester: Facts, self: Agent, requester': Facts)
    requires Round(digest, responder, p, requester, self, requester') && |requester| > MAX_PAYLOAD_ITEMS
    ensures requester' == requester
  {
  }

  lemma {:induction false} RoundsCount(digest: Key -> string, responder: Facts, p: Agent, self: Agent, stores: seq<Facts>, n: nat)
    requires Injective(digest) && p != "" && p != self && WellKeyed(responder) && Contentful(responder)
    requires Rounds(digest, responder, p, self, stores) && WellKeyed(stores[0]) && n < |stores|
    ensures WellKeyed(stores[n])
    ensures (|stores[n]|, |Missing(responder, p, stores[n])|) == Counts(|stores[0]|, |Missing(responder, p, stores[0])|, n)
  {
    hide Missing, Round, WellKeyed, Contentful;
    if n > 0 {
      RoundsCount(digest, responder, p, self, stores, n - 1);
      assert Round(digest, responder, p, stores[n - 1], self, stores[n]);
      if |stores[n - 1]| <= MAX_PAYLOAD_ITEMS {
        RoundProgress(digest, responder, p, stores[n - 1], self, stores[n]);
      } else {
        RoundStalls(digest, responder, p, stores[n - 1], self, stores[n]);
      }
    }
  }

  /** The requester can still send its digests when the last needed round comes. */
  predicate Feasible(held: nat, missing: nat) {
    missing == 0 || held + (missing - 1) / MAX_FACTS_PER_DIGEST * MAX_FACTS_PER_DIGEST <= MAX_PAYLOAD_ITEMS
  }

  lemma FeasibleStep(held: nat, missing: nat)
    requires missing > MAX_FACTS_PER_DIGEST && held <= MAX_PAYLOAD_ITEMS
    ensures Feasible(held, missing) <==> Feasible(held + MAX_FACTS_PER_DIGEST, missing - MAX_FACTS_PER_DIGEST)
  {
    assert (missing - 1) / 32 == (missing - 33) / 32 + 1;
  }

  lemma {:induction false} CountsShift(held: nat, missing: nat, n: nat)
    ensures Counts(held, missing, n + 1)
         == if held > MAX_PAYLOAD_ITEMS then Counts(held, missing, n)
            else Counts(held + Min(MAX_FACTS_PER_DIGEST, missing), missing - Min(MAX_FACTS_PER_DIGEST, missing), n)
  {
    if n > 0 {
      CountsShift(held, missing, n - 1);
    }
  }

  lemma {:induction false} Stalled(held: nat, missing: nat, n: nat)
    requires held > MAX_PAYLOAD_ITEMS || missing == 0
    ensures Counts(held, missing, n) == (held, missing)
  {
    if n > 0 {
      Stalled(held, missing, n - 1);
    }
  }

  lemma {:induction false} FinishesExactly(held: nat, missing: nat, n: nat)
    requires n > missing / MAX_FACTS_PER_DIGEST
    ensures Counts(held, missing, n).1 == 0 <==> Feasible(held, missing)
    decreases missing
  {
    if missing == 0 || held > MAX_PAYLOAD_ITEMS {
      Stalled(held, missing, n);
    } else {
      CountsShift(held, missing, n - 1);
      var k := Min(MAX_FACTS_PER_DIGEST, missing);
      if missing <= MAX_FACTS_PER_DIGEST {
        Stalled(held + k, 0, n - 1);
      } else {
        FeasibleStep(held, missing);
        FinishesExactly(held + k, missing - k, n - 1);
      }
    }
  }

  /**
    After enough rounds the requester holds everything the responder owns -- exactly when its store is still
    at most 64 facts when the last needed round begins. Beyond that its digests can no longer be sent and
    the exchange stalls for good.
   */
  lemma ConvergesExactly(digest: Key -> string, responder: Facts, p: Agent, self: Agent, stores: seq<Facts>)
    requires Injective(digest) && p != "" && p != self && WellKeyed(responder) && Contentful(responder)
    requires Rounds(digest, responder, p, self, stores) && WellKeyed(stores[0])
    requires |stores| - 1 > |Missing(responder, p, stores[0])| / MAX_FACTS_PER_DIGEST
    ensures Missing(responder, p, stores[|stores| - 1]) == {}
       <==> Feasible(|stores[0]|, |Missing(responder, p, stores[0])|)
  {
    hide Missing, Rounds, WellKeyed;
    RoundsCount(digest, responder, p, self, stores, |stores| - 1);
    FinishesExactly(|stores[0]|, |Missing(responder, p, stores[0])|, |stores| - 1);
    assert |Missing(responder, p, stores[|stores| - 1])| == 0 <==> Missing(responder, p, stores[|stores| - 1]) == {};
  }
}
