/**
  The memory mesh as a whole (`memory_sync.py`): agents exchanging facts over a network that may drop,
  duplicate and reorder. Whatever was once sent may be delivered at any later time, any number of times,
  or never.
 */
module Mesh {
  import opened Common
  import opened Memory

  datatype Envelope = Envelope(sender: Agent, recipient: Agent, body: Body)

  /** A content under an agent's own id. */
  datatype Claim = Claim(origin: Agent, factId: int, content: string)

  /** `owned` and `published` are history: what agents stored under their own name, and what they published. */
  datatype World = World(nodes: map<Agent, Facts>, sent: set<Envelope>, owned: set<Claim>, published: set<Claim>)

  datatype Action =
    | StoreLocal(n: Agent, factId: int, content: string, kind: string, salience: real, metadata: map<string, string>)
    | RemoveLocal(n: Agent, key: Key)
    | ReinforceLocal(n: Agent, key: Key, boost: real)
    | Publish(n: Agent, key: Key, recipient: Agent, metadata: map<string, string>)
    | SendNotice(n: Agent, recipient: Agent, body: Body)
    | Deliver(n: Agent, env: Envelope, muted: set<Agent>)

  /** The text of a fact as it crosses the wire. */
  function OnWire(content: string): string { Cap(Cap(content, MAX_FACT_CONTENT), MAX_STR_VALUE) }

  ghost predicate Enabled(w: World, a: Action) {
    match a
    case StoreLocal(n, _, _, _, _, _) => n in w.nodes
    case RemoveLocal(n, _) => n in w.nodes
    case ReinforceLocal(n, key, _) => n in w.nodes && key in w.nodes[n]
    // only a store record of one's own, with some content, is sent
    case Publish(n, key, _, _) =>
      n in w.nodes && key in w.nodes[n] && w.nodes[n][key].origin == n && w.nodes[n][key].content != ""
    case SendNotice(n, _, body) => n in w.nodes && !body.FactBody?
    case Deliver(n, env, _) => n in w.nodes && env in w.sent
  }

  /** An action that is not possible leaves the world as it is. */
  ghost function Next(w: World, a: Action): World {
    if !Enabled(w, a) then w
    else
      match a
      case StoreLocal(n, factId, content, kind, salience, metadata) =>
        var fact := Fact(n, factId, Cap(content, MAX_FACT_CONTENT), OrElse(kind, "fact"), MaxR(0.0, salience), metadata, 0);
        w.(nodes := w.nodes[n := w.nodes[n][Key(n, factId) := fact]], owned := w.owned + {Claim(n, factId, fact.content)})
      case RemoveLocal(n, key) => w.(nodes := w.nodes[n := w.nodes[n] - {key}])
      case ReinforceLocal(n, key, boost) => w.(nodes := w.nodes[n := w.nodes[n][key := Boosted(w.nodes[n][key], boost)]])
      case Publish(n, key, recipient, metadata) =>
        var f := w.nodes[n][key];
        var body := FactBody(n, f.factId, OnWire(f.content), f.kind, f.salience, metadata);
        w.(sent := w.sent + {Envelope(n, recipient, body)}, published := w.published + {Claim(n, f.factId, f.content)})
      case SendNotice(n, recipient, body) => w.(sent := w.sent + {Envelope(n, recipient, body)})
      case Deliver(n, env, muted) =>
        if env.recipient in {"*", n}
        then w.(nodes := w.nodes[n := Handled(w.nodes[n], n, muted, env.sender, env.body)])
        else w
  }

  ghost function Run(w: World, acts: seq<Action>): World {
    if acts == [] then w else Next(Run(w, acts[..|acts| - 1]), acts[|acts| - 1])
  }

  /** Agents have non-empty names, no facts and have sent nothing. */
  ghost predicate Fresh(w: World) {
    && "" !in w.nodes && (forall n :: n in w.nodes ==> w.nodes[n] == map[])
    && w.sent == {} && w.owned == {} && w.published == {}
  }

  // ----- provenance --------------------------------------------------------------------------------------------

  /** This content was published by the key's origin under an id that masks to the key's. */
  ghost predicate Published(w: World, key: Key, content: string) {
    exists c :: c in w.published && c.origin == key.origin && Masked(c.factId) == key.id && OnWire(c.content) == content
  }

  ghost predicate GoodFact(w: World, n: Agent, key: Key, f: Fact) {
    && f.origin == key.origin
    && (key.origin == n ==> Claim(n, f.factId, f.content) in w.owned)
    && (key.origin != n ==> Published(w, key, f.content))
  }

  ghost predicate GoodEnvelope(w: World, env: Envelope) {
    env.sender != "" && (env.body.FactBody? ==>
      env.body.origin == env.sender && Published(w, MakeKey(env.sender, env.body.factId), env.body.content))
  }

  ghost predicate Sound(w: World) {
    && "" !in w.nodes
    && (forall n, key :: n in w.nodes && key in w.nodes[n] ==> GoodFact(w, n, key, w.nodes[n][key]))
    && (forall env :: env in w.sent ==> GoodEnvelope(w, env))
    && w.published <= w.owned
  }

  lemma WireTwice(content: string)
    ensures Cap(OnWire(content), MAX_FACT_CONTENT) == OnWire(content)
  {
  }

  lemma HistoryGrows(w: World, w': World)
    requires w.published <= w'.published && w.owned <= w'.owned
    ensures forall key, content :: Published(w, key, content) ==> Published(w', key, content)
    ensures forall n, key, f :: GoodFact(w, n, key, f) ==> GoodFact(w', n, key, f)
    ensures forall env :: GoodEnvelope(w, env) ==> GoodEnvelope(w', env)
  {
    forall key, content | Published(w, key, content) ensures Published(w', key, content) {
      var c :| c in w.published && c.origin == key.origin && Masked(c.factId) == key.id && OnWire(c.content) == content;
      assert c in w'.published;
    }
  }

  /** What a delivered envelope leaves in a store is as good as what was there. */
  lemma DeliveredGood(w: World, n: Agent, env: Envelope, muted: set<Agent>, key: Key)
    requires Sound(w) && n in w.nodes && env in w.sent
    requires key in Handled(w.nodes[n], n, muted, env.sender, env.body)
    ensures GoodFact(w, n, key, Handled(w.nodes[n], n, muted, env.sender, env.body)[key])
  {
    hide OnWire, Published;
    assert GoodEnvelope(w, env);
    assert key in w.nodes[n] ==> GoodFact(w, n, key, w.nodes[n][key]);
    if env.body.FactBody? && key == MakeKey(env.sender, env.body.factId) && env.sender != n && env.sender !in muted {
      PublishedShort(w, key, env.body.content);
    }
  }

  lemma PublishedShort(w: World, key: Key, content: string)
    requires Published(w, key, content)
    ensures Cap(content, MAX_FACT_CONTENT) == content
  {
    var c :| c in w.published && c.origin == key.origin && Masked(c.factId) == key.id && OnWire(c.content) == content;
    WireTwice(c.content);
  }

  lemma NextSound(w: World, a: Action)
    requires Sound(w)
    ensures Sound(Next(w, a))
  {
    hide OnWire, Handled, Published, Cap, Masked;
    var w' := Next(w, a);
    HistoryGrows(w, w');
    forall n, key | n in w'.nodes && key in w'.nodes[n] ensures GoodFact(w', n, key, w'.nodes[n][key]) {
      if Enabled(w, a) && a.Deliver? && n == a.n && a.env.recipient in {"*", n} {
        DeliveredGood(w, n, a.env, a.muted, key);
      } else {
        assert key in w.nodes[n] ==> GoodFact(w, n, key, w.nodes[n][key]);
      }
    }
    forall env | env in w'.sent ensures GoodEnvelope(w', env) {
      if Enabled(w, a) && env !in w.sent && a.Publish? { JustPublished(w, a); }
    }
    if Enabled(w, a) && a.Publish? { assert GoodFact(w, a.n, a.key, w.nodes[a.n][a.key]); }
  }

  lemma JustPublished(w: World, a: Action)
    requires Sound(w) && Enabled(w, a) && a.Publish?
    ensures var f := w.nodes[a.n][a.key]; Published(Next(w, a), MakeKey(a.n, f.factId), OnWire(f.content))
  {
    var f := w.nodes[a.n][a.key];
    assert Claim(a.n, f.factId, f.content) in Next(w, a).published;
  }

  lemma {:induction false} RunSound(start: World, acts: seq<Action>)
    requires Fresh(start)
    ensures Sound(Run(start, acts))
  {
    hide Sound, Next, Enabled;
    if acts == [] {
      FreshSound(start);
    } else {
      RunSound(start, acts[..|acts| - 1]);
      NextSound(Run(start, acts[..|acts| - 1]), acts[|acts| - 1]);
    }
  }

  lemma FreshSound(w: World)
    requires Fresh(w)
    ensures Sound(w)
  {
  }

  /**
    In every run: a content that an agent holds under another agent's key was earlier published by that
    agent for that id, as its own fact, and is that fact's text as the wire carries it.
   */
  lemma Provenance(start: World, acts: seq<Action>, n: Agent, key: Key)
    requires Fresh(start)
    requires var w := Run(start, acts); n in w.nodes && key in w.nodes[n] && key.origin != n
    ensures var w := Run(start, acts);
      exists c :: c in w.published && c in w.owned && c.origin == key.origin && Masked(c.factId) == key.id
               && OnWire(c.content) == w.nodes[n][key].content
  {
    hide Run, OnWire;
    RunSound(start, acts);
    var w := Run(start, acts);
    assert GoodFact(w, n, key, w.nodes[n][key]);
    var c :| c in w.published && c.origin == key.origin && Masked(c.factId) == key.id
          && OnWire(c.content) == w.nodes[n][key].content;
  }

  /**
    Nothing inbound alters what an agent's own facts say: facts and tombstones leave them exactly as they
    are, and a reinforcement changes salience and access count only.
   */
  lemma OwnFactsUntouched(facts: Facts, self: Agent, muted: set<Agent>, sender: Agent, b: Body, key: Key)
    requires self != "" && key.origin == self
    ensures key in Handled(facts, self, muted, sender, b) <==> key in facts
    ensures key in facts ==>
              var before, after := facts[key], Handled(facts, self, muted, sender, b)[key];
              && after.(salience := 0.0, accessCount := 0) == before.(salience := 0.0, accessCount := 0)
              && (!b.Reinforce? ==> after == before)
              && (after.salience < before.salience ==> before.salience > SALIENCE_CAP == after.salience)
  {
  }

  /**
    A reinforcement counts one access and adds its amount, up to the cap: a quarter if it names none, nothing
    if it is negative, and never more than two.
   */
  lemma ReinforcementAdds(facts: Facts, self: Agent, muted: set<Agent>, sender: Agent, b: Body, key: Key, amount: real)
    requires key.origin == self && key in facts && Reinforces(muted, sender, b, key)
    requires match b.amount
             case None => amount == 0.25
             case Some(a) => if a < 0.0 then amount == 0.0 else if a > 2.0 then amount == 2.0 else amount == a
    ensures var all := Handled(facts, self, muted, sender, b);
      && key in all && all[key].accessCount == facts[key].accessCount + 1
      && (facts[key].salience + amount <= 10.0 ==> all[key].salience == facts[key].salience + amount)
      && (facts[key].salience + amount > 10.0 ==> all[key].salience == 10.0)
  {
  }

  /** An envelope is an effective reinforcement of one of the agent's own facts. */
  predicate Reinforces(muted: set<Agent>, sender: Agent, b: Body, key: Key) {
    sender !in muted && b.Reinforce? && MakeKey(OriginOf(sender, b), b.factId) == key
  }

  /**
    A reinforcement is meant to raise a salience. It raises it exactly when it was below the cap and the
    amount, as clamped, is positive; one that was above the cap it always lowers, and nothing else does.
   */
  lemma ReinforcementMoves(facts: Facts, self: Agent, muted: set<Agent>, sender: Agent, b: Body, key: Key)
    requires self != "" && key.origin == self && key in facts
    ensures key in Handled(facts, self, muted, sender, b)
    ensures var before, after := facts[key].salience, Handled(facts, self, muted, sender, b)[key].salience;
      && (after < before <==> Reinforces(muted, sender, b, key) && before > SALIENCE_CAP)
      && (after > before <==> Reinforces(muted, sender, b, key) && before < SALIENCE_CAP && Clamped(b.amount) > 0.0)
      && (after < before ==> after == SALIENCE_CAP)
  {
  }
}
