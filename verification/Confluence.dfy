/**
  Replicas of the memory mesh (`memory_sync.py`): how inbound facts and tombstones are interleaved across
  origins does not matter; how they are ordered within one origin does.
 */
module Confluence {
  import opened Common
  import opened Memory

  /** An inbound fact or tombstone and who sent it. */
  datatype Update = Update(sender: Agent, body: Body)

  ghost predicate Updates(us: seq<Update>) {
    forall i :: 0 <= i < |us| ==> !us[i].body.Reinforce?
  }

  function About(u: Update): Agent { OriginOf(u.sender, u.body) }

  function Processed(facts: Facts, self: Agent, muted: set<Agent>, us: seq<Update>): Facts {
    if us == [] then facts
    else
      var last := us[|us| - 1];
      Handled(Processed(facts, self, muted, us[..|us| - 1]), self, muted, last.sender, last.body)
  }

  /** The updates about one origin's facts, in order. */
  function Filtered(us: seq<Update>, origin: Agent): seq<Update> {
    if us == [] then []
    else
      var init := Filtered(us[..|us| - 1], origin);
      if About(us[|us| - 1]) == origin then init + [us[|us| - 1]] else init
  }

  /** What a store says about one origin's facts. */
  function Slice(facts: Facts, origin: Agent): Facts {
    map k | k in facts && k.origin == origin :: facts[k]
  }

  /** An update acts on the slice of its origin and on nothing else; who the replica is does not enter. */
  lemma HandledSlice(facts: Facts, self: Agent, muted: set<Agent>, u: Update, origin: Agent)
    requires !u.body.Reinforce? && origin != self
    ensures Slice(Handled(facts, self, muted, u.sender, u.body), origin)
         == if About(u) == origin then Handled(Slice(facts, origin), self, muted, u.sender, u.body) else Slice(facts, origin)
  {
    hide Merged;
    var key := MakeKey(About(u), u.body.factId);
    if About(u) == origin {
      assert Lookup(Slice(facts, origin), key) == Lookup(facts, key);
    }
  }

  lemma {:induction false} ProcessedSlice(facts: Facts, self: Agent, muted: set<Agent>, us: seq<Update>, origin: Agent)
    requires Updates(us) && origin != self
    ensures Slice(Processed(facts, self, muted, us), origin)
         == Processed(Slice(facts, origin), self, muted, Filtered(us, origin))
  {
    hide Handled, Slice;
    if us != [] {
      var n := |us| - 1;
      ProcessedSlice(facts, self, muted, us[..n], origin);
      HandledSlice(Processed(facts, self, muted, us[..n]), self, muted, us[n], origin);
      var f := Filtered(us[..n], origin);
      assert (f + [us[n]])[..|f|] == f;
    }
  }

  /** Third parties handle an update alike. */
  lemma {:induction false} SameForThirdParties(facts: Facts, a: Agent, b: Agent, muted: set<Agent>, us: seq<Update>)
    requires Updates(us)
    requires forall i :: 0 <= i < |us| ==> About(us[i]) != a && About(us[i]) != b
    ensures Processed(facts, a, muted, us) == Processed(facts, b, muted, us)
  {
    hide Merged;
    if us != [] {
      SameForThirdParties(facts, a, b, muted, us[..|us| - 1]);
    }
  }

  lemma {:induction false} FilteredMembers(us: seq<Update>, origin: Agent)
    ensures forall i :: 0 <= i < |Filtered(us, origin)| ==>
              About(Filtered(us, origin)[i]) == origin && Filtered(us, origin)[i] in us
  {
    hide About;
    if us != [] {
      FilteredMembers(us[..|us| - 1], origin);
    }
  }

  /** Two histories that agree origin by origin. */
  ghost predicate SamePerOrigin(us: seq<Update>, vs: seq<Update>) {
    forall origin :: Filtered(us, origin) == Filtered(vs, origin)
  }

  /**
    Two replicas that start with the same facts and process the same updates of each origin, interleaved
    differently across origins, agree on every fact of every third party: content, kind, metadata,
    salience and access count.
   */
  lemma ReplicasAgree(facts: Facts, a: Agent, b: Agent, muted: set<Agent>, us: seq<Update>, vs: seq<Update>, key: Key)
    requires Updates(us) && Updates(vs) && SamePerOrigin(us, vs)
    requires key.origin != a && key.origin != b
    ensures Lookup(Processed(facts, a, muted, us), key) == Lookup(Processed(facts, b, muted, vs), key)
  {
    hide Processed, Filtered;
    var origin := key.origin;
    ProcessedSlice(facts, a, muted, us, origin);
    ProcessedSlice(facts, b, muted, vs, origin);
    FilteredMembers(us, origin);
    var f := Filtered(us, origin);
    assert f == Filtered(vs, origin);
    FilteredUpdates(us, origin);
    SameForThirdParties(Slice(facts, origin), a, b, muted, f);
    LookupSlice(Processed(facts, a, muted, us), key);
    LookupSlice(Processed(facts, b, muted, vs), key);
  }

  lemma FilteredUpdates(us: seq<Update>, origin: Agent)
    requires Updates(us)
    ensures Updates(Filtered(us, origin))
  {
    hide Filtered, About;
    FilteredMembers(us, origin);
    var f := Filtered(us, origin);
    forall i | 0 <= i < |f| ensures !f[i].body.Reinforce? {
      var j :| 0 <= j < |us| && us[j] == f[i];
    }
  }

  lemma LookupSlice(facts: Facts, key: Key)
    ensures Lookup(Slice(facts, key.origin), key) == Lookup(facts, key)
  {
  }

  // ----- tombstones ------------------------------------------------------------------------------------------------

  /** The last update about a key from a sender that is not muted. */
  function LastAbout(us: seq<Update>, muted: set<Agent>, key: Key): Option<Update> {
    if us == [] then None
    else
      var last := us[|us| - 1];
      if last.sender !in muted && MakeKey(About(last), last.body.factId) == key then Some(last)
      else LastAbout(us[..|us| - 1], muted, key)
  }

  /**
    Tombstones are remembered but never consulted: through any run, a third party's key is held exactly
    when the last update about it was a fact, or there was none and it was held before. A fact that comes
    after a tombstone always brings its key back.
   */
  lemma {:induction false} HeldExactly(facts: Facts, self: Agent, muted: set<Agent>, us: seq<Update>, key: Key)
    requires Updates(us) && key.origin != "" && key.origin != self
    ensures var last := LastAbout(us, muted, key);
      key in Processed(facts, self, muted, us) <==> if last.Some? then last.value.body.FactBody? else key in facts
  {
    hide Merged, MakeKey;
    KeyOrigin();
    if us != [] {
      HeldExactly(facts, self, muted, us[..|us| - 1], key);
    }
  }

  lemma KeyOrigin()
    ensures forall origin, id :: MakeKey(origin, id).origin == origin
  {
  }

  // ----- arrival order --------------------------------------------------------------------------------------------

  /**
    Within one origin the order of arrival decides: two different texts for one id, delivered in opposite
    orders, leave the replicas with different contents.
   */
  lemma {:induction false} ArrivalOrderWins(origin: Agent, self: Agent, id: int, x: string, y: string)
    requires origin != "" && origin != self && x != y && |x| <= MAX_FACT_CONTENT && |y| <= MAX_FACT_CONTENT
    ensures var (u, v) := (Update(origin, FactBody(origin, id, x, "fact", 1.0, map[])),
                           Update(origin, FactBody(origin, id, y, "fact", 1.0, map[])));
      && Lookup(Processed(map[], self, {}, [u, v]), MakeKey(origin, id)).Some?
      && Lookup(Processed(map[], self, {}, [v, u]), MakeKey(origin, id)).Some?
      && Lookup(Processed(map[], self, {}, [u, v]), MakeKey(origin, id)).value.content == y
      && Lookup(Processed(map[], self, {}, [v, u]), MakeKey(origin, id)).value.content == x
  {
    LastContent(origin, self, id, x, y);
    LastContent(origin, self, id, y, x);
  }

  lemma {:induction false} LastContent(origin: Agent, self: Agent, id: int, x: string, y: string)
    requires origin != "" && origin != self && x != y && |x| <= MAX_FACT_CONTENT && |y| <= MAX_FACT_CONTENT
    ensures var (u, v) := (Update(origin, FactBody(origin, id, x, "fact", 1.0, map[])),
                           Update(origin, FactBody(origin, id, y, "fact", 1.0, map[])));
      var r := Lookup(Processed(map[], self, {}, [u, v]), MakeKey(origin, id));
      r.Some? && r.value.content == y
  {
    var u := Update(origin, FactBody(origin, id, x, "fact", 1.0, map[]));
    var v := Update(origin, FactBody(origin, id, y, "fact", 1.0, map[]));
    assert [u, v][..1] == [u] && [u][..0] == [];
    var first := Processed(map[], self, {}, [u]);
    assert first[MakeKey(origin, id)].content == x;
  }

  // ----- what a fact does to a fact that is held --------------------------------------------------------------------

  /** An update is a fact about a third party's key, from a sender that is not muted. */
  predicate Tells(self: Agent, muted: set<Agent>, u: Update, key: Key) {
    && u.body.FactBody? && u.sender !in muted
    && key.origin != "" && key.origin != self
    && key == Key(if u.body.origin == "" then u.sender else u.body.origin, u.body.factId % 0x1_0000_0000)
  }

  /**
    Another text under a key that is held: the text is replaced and the salience becomes the larger one,
    the kind is the incoming one, and the metadata is the incoming one unless that is empty or too large.
   */
  lemma TextReplaced(facts: Facts, self: Agent, muted: set<Agent>, u: Update, key: Key)
    requires Tells(self, muted, u, key) && key in facts
    requires facts[key].content != Cap(u.body.content, MAX_FACT_CONTENT)
    ensures var all := Handled(facts, self, muted, u.sender, u.body);
      && key in all
      && var was, now := facts[key], all[key];
      && now.content == Cap(u.body.content, MAX_FACT_CONTENT)
      && now.salience >= was.salience && now.salience >= u.body.salience && now.salience >= 0.0
      && (now.salience == was.salience || now.salience == u.body.salience || (now.salience == 0.0 && u.body.salience < 0.0))
      && (u.body.kind != "" ==> now.kind == u.body.kind) && (u.body.kind == "" ==> now.kind == "fact")
      && (0 < |u.body.metadata| <= MAX_METADATA ==> now.metadata == u.body.metadata)
      && (|u.body.metadata| == 0 || |u.body.metadata| > MAX_METADATA ==> now.metadata == was.metadata)
      && now.origin == key.origin && now.factId == u.body.factId && now.accessCount == 0
  {
  }

  /**
    The text that is held already: nothing but salience and access count changes. The salience rises by
    0.05, but not beyond the cap, to which one above it falls; the incoming salience is ignored.
   */
  lemma TextConfirmed(facts: Facts, self: Agent, muted: set<Agent>, u: Update, key: Key)
    requires Tells(self, muted, u, key) && key in facts
    requires facts[key].content == Cap(u.body.content, MAX_FACT_CONTENT)
    ensures var all := Handled(facts, self, muted, u.sender, u.body);
      && key in all
      && var was, now := facts[key], all[key];
      && now.(salience := 0.0, accessCount := 0) == was.(salience := 0.0, accessCount := 0)
      && now.accessCount == was.accessCount + 1
      && (was.salience <= 9.95 ==> now.salience == was.salience + 0.05)
      && (was.salience >= 9.95 ==> now.salience == SALIENCE_CAP)
  {
  }

  /** A key that is not held: the fact is stored as it came, within the caps. */
  lemma TextIntroduced(facts: Facts, self: Agent, muted: set<Agent>, u: Update, key: Key)
    requires Tells(self, muted, u, key) && key !in facts
    ensures var all := Handled(facts, self, muted, u.sender, u.body);
      && key in all
      && all[key].origin == key.origin && all[key].factId == u.body.factId && all[key].accessCount == 0
      && all[key].content == Cap(u.body.content, MAX_FACT_CONTENT)
      && (u.body.kind != "" ==> all[key].kind == u.body.kind) && (u.body.kind == "" ==> all[key].kind == "fact")
      && (u.body.salience >= 0.0 ==> all[key].salience == u.body.salience)
      && (u.body.salience < 0.0 ==> all[key].salience == 0.0)
      && all[key].metadata == if |u.body.metadata| <= MAX_METADATA then u.body.metadata else map[]
  {
  }

  /** An update touches at most the one key that it names. */
  lemma OthersUntouched(facts: Facts, self: Agent, muted: set<Agent>, u: Update, key: Key)
    requires u.sender in muted
          || key != Key(if u.body.origin == "" then u.sender else u.body.origin, u.body.factId % 0x1_0000_0000)
    ensures Lookup(Handled(facts, self, muted, u.sender, u.body), key) == Lookup(facts, key)
  {
    hide Merged, Boosted;
  }

  /** Through any run, the text held under a third party's key is that of the last fact about it. */
  lemma {:induction false} LastTextHeld(facts: Facts, self: Agent, muted: set<Agent>, us: seq<Update>, key: Key)
    requires Updates(us) && key.origin != "" && key.origin != self
    ensures var last, held := LastAbout(us, muted, key), Lookup(Processed(facts, self, muted, us), key);
      && (last.Some? && last.value.body.FactBody? ==>
            held.Some? && held.value.content == Cap(last.value.body.content, MAX_FACT_CONTENT))
      && (last.None? ==> held == Lookup(facts, key))
  {
    hide MakeKey, Cap;
    KeyOrigin();
    if us != [] {
      LastTextHeld(facts, self, muted, us[..|us| - 1], key);
    }
  }

  ghost predicate NoTombstone(us: seq<Update>, muted: set<Agent>, key: Key) {
    forall i :: 0 <= i < |us| && us[i].body.Tombstone? && us[i].sender !in muted ==>
                  MakeKey(About(us[i]), us[i].body.factId) != key
  }

  /**
    A fact that is held and never deleted keeps its salience: through any run of updates it does not fall
    below what it was, or below the cap where it was above.
   */
  lemma {:induction false} SalienceKept(facts: Facts, self: Agent, muted: set<Agent>, us: seq<Update>, key: Key)
    requires Updates(us) && NoTombstone(us, muted, key) && key in facts
    ensures var all := Processed(facts, self, muted, us);
      key in all && all[key].salience >= MinR(SALIENCE_CAP, facts[key].salience)
  {
    hide MakeKey, Cap;
    if us != [] {
      var n := |us| - 1;
      SalienceKept(facts, self, muted, us[..n], key);
    }
  }

  /**
    So a salience that arrives with a text of its own is not lost either: whatever comes after it, short of
    a tombstone, what is held in the end has at least that salience, up to the cap.
   */
  lemma SalienceHeard(facts: Facts, self: Agent, muted: set<Agent>, us: seq<Update>, i: nat, key: Key)
    requires Updates(us) && i < |us| && Tells(self, muted, us[i], key) && NoTombstone(us[i + 1..], muted, key)
    requires var before := Lookup(Processed(facts, self, muted, us[..i]), key);
      before.None? || before.value.content != Cap(us[i].body.content, MAX_FACT_CONTENT)
    ensures var all := Processed(facts, self, muted, us);
      key in all && all[key].salience >= MinR(SALIENCE_CAP, us[i].body.salience)
  {
    hide Processed, Handled, Cap;
    var before := Processed(facts, self, muted, us[..i]);
    if key in before { TextReplaced(before, self, muted, us[i], key); } else { TextIntroduced(before, self, muted, us[i], key); }
    ProcessedNext(facts, self, muted, us, i);
    ProcessedAfter(facts, self, muted, us[..i + 1], us[i + 1..]);
    assert us[..i + 1] + us[i + 1..] == us;
    SalienceKept(Processed(facts, self, muted, us[..i + 1]), self, muted, us[i + 1..], key);
  }

  lemma ProcessedNext(facts: Facts, self: Agent, muted: set<Agent>, us: seq<Update>, i: nat)
    requires i < |us|
    ensures Processed(facts, self, muted, us[..i + 1])
         == Handled(Processed(facts, self, muted, us[..i]), self, muted, us[i].sender, us[i].body)
  {
    hide Handled;
    assert us[..i + 1][..i] == us[..i];
  }

  lemma {:induction false} ProcessedAfter(facts: Facts, self: Agent, muted: set<Agent>, us: seq<Update>, vs: seq<Update>)
    ensures Processed(facts, self, muted, us + vs) == Processed(Processed(facts, self, muted, us), self, muted, vs)
    decreases |vs|
  {
    hide Handled;
    if vs == [] {
      assert us + vs == us;
    } else {
      var n := |vs| - 1;
      ProcessedAfter(facts, self, muted, us, vs[..n]);
      assert (us + vs)[..|us| + n] == us + vs[..n];
    }
  }
}
