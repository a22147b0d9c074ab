/**
  The fact store and the reactive half of the memory mesh (`memory_sync.py`), without clocks, vectors
  and counters. Texts are taken as already sanitized, with their caps on agent names (48) and kinds (32);
  the caps on contents, which differ between the store and the wire, are kept.
 */
module Memory {
  import opened Common

  const MAX_FACT_CONTENT := 4096
  const MAX_STR_VALUE := 2048
  const MAX_METADATA := 16
  const MAX_PAYLOAD_ITEMS := 64
  const MAX_FACTS_PER_DIGEST := 32
  const SALIENCE_CAP := 10.0

  type Agent = string

  /** `"{origin}:{fact_id}"`; the number has no colon, so the pair and the text determine each other. */
  datatype Key = Key(origin: Agent, id: int)

  datatype Fact = Fact(origin: Agent, factId: int, content: string, kind: string, salience: real,
                       metadata: map<string, string>, accessCount: nat)

  type Facts = map<Key, Fact>

  datatype Body =
    | FactBody(origin: Agent, factId: int, content: string, kind: string, salience: real, metadata: map<string, string>)
    | Reinforce(origin: Agent, factId: int, amount: Option<real>)
    | Tombstone(origin: Agent, factId: int)

  function Cap(s: string, n: nat): string { s[..Min(n, |s|)] }

  function Masked(id: int): (m: int)
    ensures 0 <= m < 0x1_0000_0000
  {
    id % 0x1_0000_0000
  }

  /** `make_key` */
  function MakeKey(origin: Agent, id: int): Key { Key(origin, Masked(id)) }

  function OrElse(s: string, fallback: string): string { if s == "" then fallback else s }

  // ----- the store ---------------------------------------------------------------------------------------------

  /** `reinforce` on one fact. */
  function Boosted(f: Fact, boost: real): Fact {
    f.(salience := MinR(SALIENCE_CAP, f.salience + MaxR(0.0, boost)), accessCount := f.accessCount + 1)
  }

  class InMemoryFactStore {
    var facts: Facts
    var nextLocalId: int
    const agentId: Agent

    constructor (agentId: Agent)
      ensures this.agentId == agentId && facts == map[] && nextLocalId == 1
    {
      this.agentId := agentId;
      facts, nextLocalId := map[], 1;
    }

    /** Local facts go under the id as given, or the next free one; foreign facts under their origin's masked id. */
    method StoreFact(content: string, kind: string, salience: real, factId: Option<int>, origin: Option<Agent>,
                     metadata: map<string, string>) returns (fact: Fact)
      requires (origin.Some? && origin.value != agentId) ==> factId.Some?
      modifies this
      ensures var mine := origin.None? || origin.value == agentId;
        var id := if factId.Some? then factId.value else old(nextLocalId);
        var who := if mine then agentId else origin.value;
        && fact == Fact(who, id, Cap(content, MAX_FACT_CONTENT), OrElse(kind, "fact"), MaxR(0.0, salience), metadata, 0)
        && facts == old(facts)[(if mine then Key(agentId, id) else MakeKey(who, id)) := fact]
        && nextLocalId == old(nextLocalId) + (if mine && factId.None? then 1 else 0)
    {
      var who, key, id;
      if origin.None? || origin.value == agentId {
        who := agentId;
        if factId.None? {
          id := nextLocalId;
          nextLocalId := nextLocalId + 1;
        } else {
          id := factId.value;
        }
        key := Key(agentId, id);
      } else {
        who, id := origin.value, factId.value;
        key := MakeKey(who, id);
      }
      fact := Fact(who, id, Cap(content, MAX_FACT_CONTENT), OrElse(kind, "fact"), MaxR(0.0, salience), metadata, 0);
      facts := facts[key := fact];
    }

    method Remove(key: Key) returns (removed: bool)
      modifies `facts
      ensures removed <==> key in old(facts)
      ensures facts == old(facts) - {key}
    {
      removed := key in facts;
      facts := facts - {key};
    }

    method ReinforceFact(key: Key, boost: real) returns (r: Option<Fact>)
      modifies `facts
      ensures key !in old(facts) ==> r == None && facts == old(facts)
      ensures key in old(facts) ==> r == Some(Boosted(old(facts)[key], boost)) && facts == old(facts)[key := r.value]
    {
      if key !in facts { return None; }
      var f := Boosted(facts[key], boost);
      facts := facts[key := f];
      return Some(f);
    }
  }

  // ----- inbound envelopes ---------------------------------------------------------------------------------------

  function OriginOf(sender: Agent, b: Body): Agent { OrElse(b.origin, sender) }

  /** What a fact becomes when a copy of it arrives. */
  function Merged(existing: Option<Fact>, origin: Agent, b: Body): Fact
    requires b.FactBody?
  {
    var metadata := if |b.metadata| <= MAX_METADATA then b.metadata else map[];
    var content := Cap(b.content, MAX_FACT_CONTENT);
    var salience := MaxR(0.0, b.salience);
    match existing
    case None => Fact(origin, b.factId, content, OrElse(b.kind, "fact"), salience, metadata, 0)
    case Some(f) =>
      if f.content != content
      then Fact(origin, b.factId, content, OrElse(b.kind, "fact"), MaxR(f.salience, salience),
                if metadata != map[] then metadata else f.metadata, 0)
      else Boosted(f, 0.05)
  }

  function Lookup(facts: Facts, key: Key): Option<Fact> { if key in facts then Some(facts[key]) else None }

  function Clamped(amount: Option<real>): real {
    if amount.Some? then MaxR(0.0, MinR(2.0, amount.value)) else 0.25
  }

  /** What `_on_envelope` does to the store; `muted` are the senders with a private profile. */
  function Handled(facts: Facts, self: Agent, muted: set<Agent>, sender: Agent, b: Body): Facts {
    var origin := OriginOf(sender, b);
    var key := MakeKey(origin, b.factId);
    if sender in muted then facts
    else
      match b
      case FactBody(_, _, _, _, _, _) =>
        if origin == "" || origin == self then facts
        else facts[key := Merged(Lookup(facts, key), origin, b)]
      case Reinforce(_, _, amount) =>
        if origin != self || key !in facts then facts
        else facts[key := Boosted(facts[key], Clamped(amount))]
      case Tombstone(_, _) =>
        if origin == "" || origin == self then facts else facts - {key}
  }

  class MemorySyncNode {
    const agentId: Agent
    const store: InMemoryFactStore
    var muted: set<Agent>
    var tombstones: set<Key>

    ghost predicate Valid()
      reads this
    {
      store.agentId == agentId && agentId != ""
    }

    constructor (agentId: Agent, store: InMemoryFactStore)
      requires agentId != "" && store.agentId == agentId
      ensures Valid() && this.store == store && this.agentId == agentId && muted == {} && tombstones == {}
    {
      this.agentId, this.store := agentId, store;
      muted, tombstones := {}, {};
    }

    /** Mail for another agent and mail from a muted sender change nothing. */
    method OnEnvelope(sender: Agent, recipient: Agent, b: Body)
      requires Valid()
      modifies this, store
      ensures Valid() && muted == old(muted)
      ensures store.facts == if recipient in {"*", agentId} then Handled(old(store.facts), agentId, old(muted), sender, b)
                             else old(store.facts)
    {
      if recipient !in {"*", agentId} || sender in muted { return; }
      match b {
        case FactBody(_, _, _, _, _, _) => OnFact(sender, b);
        case Reinforce(_, _, _) => OnReinforce(sender, b);
        case Tombstone(_, _) => OnTombstone(sender, b);
      }
    }

    method OnFact(sender: Agent, b: Body)
      requires Valid() && b.FactBody?
      modifies store
      ensures store.facts == Handled(old(store.facts), agentId, {}, sender, b)
    {
      var origin := OriginOf(sender, b);
      if origin == "" || origin == agentId { return; }
      var key := MakeKey(origin, b.factId);
      var metadata := if |b.metadata| <= MAX_METADATA then b.metadata else map[];
      if key !in store.facts {
        var _ := store.StoreFact(b.content, b.kind, MaxR(0.0, b.salience), Some(b.factId), Some(origin), metadata);
      } else {
        var existing := store.facts[key];
        if existing.content != Cap(b.content, MAX_FACT_CONTENT) {
          var _ := store.StoreFact(b.content, b.kind, MaxR(existing.salience, MaxR(0.0, b.salience)), Some(b.factId),
                                   Some(origin), if metadata != map[] then metadata else existing.metadata);
        } else {
          var _ := store.ReinforceFact(key, 0.05);
        }
      }
    }

    method OnReinforce(sender: Agent, b: Body)
      requires Valid() && b.Reinforce?
      modifies store
      ensures store.facts == Handled(old(store.facts), agentId, {}, sender, b)
    {
      var origin := OriginOf(sender, b);
      if origin != agentId { return; }
      var _ := store.ReinforceFact(MakeKey(origin, b.factId), Clamped(b.amount));
    }

    /** The key is remembered, but nothing consults the memory: a later fact brings the key back. */
    method OnTombstone(sender: Agent, b: Body)
      requires Valid() && b.Tombstone?
      modifies this, store
      ensures Valid() && muted == old(muted)
      ensures store.facts == Handled(old(store.facts), agentId, {}, sender, b)
    {
      var origin := OriginOf(sender, b);
      if origin == "" || origin == agentId { return; }
      var _ := store.Remove(MakeKey(origin, b.factId));
      tombstones := tombstones + {MakeKey(origin, b.factId)};
    }
  }
}
