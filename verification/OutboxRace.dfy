/**
  The outbox under threads (`store_forward.py`). `enqueue` and `mark_done` update the dict under the
  lock but open and write the file after releasing it, so a write can land in a file that `compact`
  has just replaced. Every interleaving of these split steps is a sequence of actions here.
 */
module OutboxRace {
  import opened Common
  import opened Outbox

  type Thread = nat

  /** A log line on its way to disk; the file is known once the thread has opened it. */
  datatype Writer = Writer(line: Record, file: Option<nat>)

  /**
    `files[live]` is what the path names; replaced files live on in open handles. The last three
    fields are history: what was ever accepted, which enqueues have returned, which ids were done.
   */
  datatype State = State(
    pending: seq<Item>, files: seq<seq<Record>>, live: nat, writers: map<Thread, Writer>, snapshot: Option<seq<Record>>,
    accepted: map<nat, Item>, returned: set<nat>, done: set<nat>)

  datatype Action =
    | EnqueueLocked(t: Thread, item: Item)   // dict updated, lock released
    | DoneLocked(t: Thread, id: nat)         // entry popped, lock released
    | OpenFile(t: Thread)
    | WriteLine(t: Thread)
    | CompactLock                            // lock taken, dict copied
    | CompactReplace                         // os.replace, lock released
    | CompactFail                            // temporary file discarded, lock released

  /** The outbox just opened on a file. */
  function Opened(file: seq<Record>): State {
    var p := Replay(file);
    State(p, [file], 0, map[], None, ById(p), ById(p).Keys, {})
  }

  function ById(p: seq<Item>): map<nat, Item> {
    if p == [] then map[] else ById(p[..|p| - 1])[p[|p| - 1].msgId := p[|p| - 1]]
  }

  /** When an action can happen. Each id is enqueued at most once; a refused enqueue changes nothing. */
  ghost predicate Enabled(s: State, a: Action, maxPending: nat) {
    match a
    case EnqueueLocked(t, item) =>
      s.snapshot.None? && t !in s.writers && item.msgId !in s.accepted && |s.pending| < maxPending
    case DoneLocked(t, _) => s.snapshot.None? && t !in s.writers
    case OpenFile(t) => t in s.writers && s.writers[t].file.None?
    case WriteLine(t) => t in s.writers && s.writers[t].file.Some? && s.writers[t].file.value < |s.files|
    case CompactLock => s.snapshot.None?
    case CompactReplace => s.snapshot.Some?
    case CompactFail => s.snapshot.Some?
  }

  ghost function Next(s: State, a: Action): State {
    match a
    case EnqueueLocked(t, item) =>
      s.(pending := Store(s.pending, item), writers := s.writers[t := Writer(Queued(item), None)],
         accepted := s.accepted[item.msgId := item])
    case DoneLocked(t, id) =>
      if Contains(s.pending, id)
      then s.(pending := Remove(s.pending, id), writers := s.writers[t := Writer(Done(id), None)], done := s.done + {id})
      else s
    case OpenFile(t) =>
      if t in s.writers then s.(writers := s.writers[t := s.writers[t].(file := Some(s.live))]) else s
    case WriteLine(t) =>
      if t in s.writers && s.writers[t].file.Some? && s.writers[t].file.value < |s.files| then
        var w := s.writers[t];
        s.(files := s.files[w.file.value := s.files[w.file.value] + [w.line]], writers := s.writers - {t},
           returned := if w.line.Queued? then s.returned + {w.line.item.msgId} else s.returned)
      else s
    case CompactLock => s.(snapshot := Some(Compacted(s.pending)))
    case CompactReplace =>
      if s.snapshot.Some? then s.(files := s.files + [s.snapshot.value], live := |s.files|, snapshot := None) else s
    case CompactFail => s.(snapshot := None)
  }

  ghost function Run(s: State, acts: seq<Action>): State {
    if acts == [] then s else Next(Run(s, acts[..|acts| - 1]), acts[|acts| - 1])
  }

  ghost predicate Possible(s: State, acts: seq<Action>, maxPending: nat) {
    forall k :: 0 <= k < |acts| ==> Enabled(Run(s, acts[..k]), acts[k], maxPending)
  }

  // ----- the invariants ------------------------------------------------------------------------------

  ghost function Stored(s: State): seq<Item>
    requires s.live < |s.files|
  {
    Replay(s.files[s.live])
  }

  ghost predicate Consistent(s: State) {
    && s.live < |s.files|
    && UniqueIds(s.pending)
    && (forall x :: x in s.pending ==> Accepted(s, x) && x.msgId !in s.done)
    && (forall t :: t in s.writers ==> GoodWriter(s, s.writers[t]))
    && (forall t, u :: SameEnqueue(s, t, u) ==> t == u)
    && (forall x :: x in Stored(s) ==> Accepted(s, x))
    && (forall id :: id in s.returned || id in s.done ==> id in s.accepted)
    && (s.snapshot.Some? ==> s.snapshot.value == Compacted(s.pending))
  }

  ghost predicate SameEnqueue(s: State, t: Thread, u: Thread) {
    t in s.writers && u in s.writers && s.writers[t].line.Queued? && s.writers[t].line == s.writers[u].line
  }

  ghost predicate Accepted(s: State, x: Item) { x.msgId in s.accepted && s.accepted[x.msgId] == x }

  ghost predicate GoodWriter(s: State, w: Writer) {
    && (w.line.Queued? ==> Accepted(s, w.line.item) && w.line.item.msgId !in s.returned)
    && (w.line.Done? ==> w.line.msgId in s.done)
    && !w.line.Unreadable?
    && (w.file.Some? ==> w.file.value < |s.files|)
  }

  /** This line will still reach the file that the path names now. */
  ghost predicate UnderWay(s: State, line: Record) {
    exists t :: t in s.writers && s.writers[t].line == line
             && (s.writers[t].file.None? || s.writers[t].file == Some(s.live))
  }

  /** An accepted entry that is not done: on disk, or its enqueue has not returned and will put it there. */
  ghost predicate Safe(s: State, id: nat)
    requires s.live < |s.files| && id in s.accepted
  {
    var item := s.accepted[id];
    && item.msgId == id && item in s.pending
    && (item in Stored(s) || (id !in s.returned && UnderWay(s, Queued(item))))
  }

  ghost predicate AllSafe(s: State) {
    s.live < |s.files| && forall id :: id in s.accepted && id !in s.done ==> Safe(s, id)
  }

  // ----- one file write -------------------------------------------------------------------------------

  /** What one more line does to what the file replays to. */
  lemma LineEffect(log: seq<Record>, r: Record)
    ensures UniqueIds(Replay(log)) && UniqueIds(Replay(log + [r]))
    ensures r.Queued? ==> forall x :: x in Replay(log + [r]) <==> x == r.item || (x in Replay(log) && x.msgId != r.item.msgId)
    ensures r.Done? ==> forall x :: x in Replay(log + [r]) <==> x in Replay(log) && x.msgId != r.msgId
  {
    hide Store, Remove, UniqueIds;
    ReplayAppend(log, r);
    ReplayUnique(log);
    ReplayUnique(log + [r]);
    if r.Queued? { StoreMembers(Replay(log), r.item); }
    if r.Done? { RemoveMembers(Replay(log), r.msgId); }
  }

  lemma OneEnqueueNext(s: State, a: Action, maxPending: nat, t: Thread, u: Thread)
    requires Consistent(s) && Enabled(s, a, maxPending) && SameEnqueue(Next(s, a), t, u)
    ensures t == u
  {
    hide Store, Remove, Replay, Compacted, UniqueIds;
    assert SameEnqueue(s, t, u) ==> t == u;
    assert forall v :: v in s.writers ==> GoodWriter(s, s.writers[v]);
  }

  lemma OtherEnqueue(s: State, t: Thread, u: Thread)
    requires Consistent(s) && t in s.writers && u in s.writers && t != u
    requires s.writers[t].line.Queued? && s.writers[u].line.Queued?
    ensures s.writers[t].line.item.msgId != s.writers[u].line.item.msgId
  {
    hide UniqueIds, Replay, Compacted;
    assert !SameEnqueue(s, t, u) && GoodWriter(s, s.writers[t]) && GoodWriter(s, s.writers[u]);
  }

  /** What every action has to show, one clause at a time. */
  lemma Clauses(s: State)
    requires s.live < |s.files| && UniqueIds(s.pending)
    requires forall x :: x in s.pending ==> Accepted(s, x) && x.msgId !in s.done
    requires forall t :: t in s.writers ==> GoodWriter(s, s.writers[t])
    requires forall t, u :: SameEnqueue(s, t, u) ==> t == u
    requires forall x :: x in Stored(s) ==> Accepted(s, x)
    requires forall id :: id in s.returned || id in s.done ==> id in s.accepted
    requires s.snapshot.Some? ==> s.snapshot.value == Compacted(s.pending)
    ensures Consistent(s)
  {
  }

  lemma ConsistentDict(s: State, a: Action, maxPending: nat)
    requires Consistent(s) && Enabled(s, a, maxPending) && (a.EnqueueLocked? || a.DoneLocked?)
    ensures Consistent(Next(s, a))
  {
    hide Store, Remove, Replay, Compacted, UniqueIds, SameEnqueue;
    var s' := Next(s, a);
    forall t, u | SameEnqueue(s', t, u) ensures t == u { OneEnqueueNext(s, a, maxPending, t, u); }
    if a.EnqueueLocked? { StoreMembers(s.pending, a.item); } else { RemoveMembers(s.pending, a.id); }
    forall x | x in s'.pending ensures Accepted(s', x) && x.msgId !in s'.done {
      assert x in s.pending ==> Accepted(s, x) && x.msgId !in s.done;
    }
    forall t | t in s'.writers ensures GoodWriter(s', s'.writers[t]) {
      assert t in s.writers ==> GoodWriter(s, s.writers[t]);
      if a.DoneLocked? && t !in s.writers { AcceptedId(s, a.id); }
    }
    forall x | x in Stored(s') ensures Accepted(s', x) { assert x in Stored(s) && Accepted(s, x); }
    if a.DoneLocked? && HasId(s.pending, a.id) { AcceptedId(s, a.id); }
    Clauses(s');
  }

  lemma AcceptedId(s: State, id: nat)
    requires Consistent(s) && HasId(s.pending, id)
    ensures id in s.accepted
  {
    hide UniqueIds, Replay, Compacted;
    var i :| 0 <= i < |s.pending| && s.pending[i].msgId == id;
    assert s.pending[i] in s.pending;
  }

  lemma ConsistentOpen(s: State, t: Thread, maxPending: nat)
    requires Consistent(s) && Enabled(s, OpenFile(t), maxPending)
    ensures Consistent(Next(s, OpenFile(t)))
  {
    hide Store, Remove, Replay, Compacted, UniqueIds, SameEnqueue;
    var s' := Next(s, OpenFile(t));
    forall u, v | SameEnqueue(s', u, v) ensures u == v { OneEnqueueNext(s, OpenFile(t), maxPending, u, v); }
    forall u | u in s'.writers ensures GoodWriter(s', s'.writers[u]) { assert GoodWriter(s, s.writers[u]); }
    forall x | x in s'.pending ensures Accepted(s', x) { assert Accepted(s, x); }
    forall x | x in Stored(s') ensures Accepted(s', x) { assert x in Stored(s) && Accepted(s, x); }
    Clauses(s');
  }

  lemma ConsistentWrite(s: State, t: Thread, maxPending: nat)
    requires Consistent(s) && Enabled(s, WriteLine(t), maxPending)
    ensures Consistent(Next(s, WriteLine(t)))
  {
    hide Store, Remove, Replay, Compacted, UniqueIds, SameEnqueue;
    var s', w := Next(s, WriteLine(t)), s.writers[t];
    forall u, v | SameEnqueue(s', u, v) ensures u == v { OneEnqueueNext(s, WriteLine(t), maxPending, u, v); }
    assert GoodWriter(s, w);
    LineEffect(s.files[w.file.value], w.line);
    forall u | u in s'.writers ensures GoodWriter(s', s'.writers[u]) {
      assert GoodWriter(s, s.writers[u]);
      if s.writers[u].line.Queued? && w.line.Queued? { OtherEnqueue(s, t, u); }
    }
    forall x | x in s'.pending ensures Accepted(s', x) { assert Accepted(s, x); }
    forall x | x in Stored(s') ensures Accepted(s', x) {
      assert x in Stored(s) ==> Accepted(s, x);
    }
    Clauses(s');
  }

  lemma ConsistentCompact(s: State, a: Action, maxPending: nat)
    requires Consistent(s) && Enabled(s, a, maxPending) && (a.CompactLock? || a.CompactReplace? || a.CompactFail?)
    ensures Consistent(Next(s, a))
  {
    hide Store, Remove, Replay, Compacted, UniqueIds, SameEnqueue;
    var s' := Next(s, a);
    forall t, u | SameEnqueue(s', t, u) ensures t == u { OneEnqueueNext(s, a, maxPending, t, u); }
    ReplayCompacted(s.pending);
    forall t | t in s'.writers ensures GoodWriter(s', s'.writers[t]) { assert GoodWriter(s, s.writers[t]); }
    forall x | x in s'.pending ensures Accepted(s', x) && x.msgId !in s'.done { assert Accepted(s, x); }
    forall x | x in Stored(s') ensures Accepted(s', x) {
      assert x in Stored(s) || x in s.pending;
      assert Accepted(s, x);
    }
    Clauses(s');
  }

  lemma ConsistentNext(s: State, a: Action, maxPending: nat)
    requires Consistent(s) && Enabled(s, a, maxPending)
    ensures Consistent(Next(s, a))
  {
    hide Consistent, Next, Enabled;
    match a
    case EnqueueLocked(_, _) => ConsistentDict(s, a, maxPending);
    case DoneLocked(_, _) => ConsistentDict(s, a, maxPending);
    case OpenFile(t) => ConsistentOpen(s, t, maxPending);
    case WriteLine(t) => ConsistentWrite(s, t, maxPending);
    case _ => ConsistentCompact(s, a, maxPending);
  }

  // ----- no accepted entry is lost ----------------------------------------------------------------------

  lemma WriteSafe(s: State, t: Thread, id: nat)
    requires Consistent(s) && t in s.writers && s.writers[t].file.Some?
    requires id in s.accepted && id !in s.done && Safe(s, id)
    ensures Safe(Next(s, WriteLine(t)), id)
  {
    hide Replay, UniqueIds;
    var w, s', item := s.writers[t], Next(s, WriteLine(t)), s.accepted[id];
    assert GoodWriter(s, w);
    LineEffect(s.files[w.file.value], w.line);
    if item !in Stored(s) {
      var u :| u in s.writers && s.writers[u].line == Queued(item)
            && (s.writers[u].file.None? || s.writers[u].file == Some(s.live));
      if u != t {
        assert u in s'.writers && s'.writers[u] == s.writers[u];
        assert UnderWay(s', Queued(item));
        assert w.line == Queued(item) ==> SameEnqueue(s, t, u);
      }
    }
  }

  lemma SafeNext(s: State, a: Action, maxPending: nat, id: nat)
    requires Consistent(s) && Enabled(s, a, maxPending) && AllSafe(s)
    requires Consistent(Next(s, a))
    requires id in Next(s, a).accepted && id !in Next(s, a).done
    ensures Safe(Next(s, a), id)
  {
    hide Store, Remove, Replay, Compacted, UniqueIds;
    var s' := Next(s, a);
    match a
    case EnqueueLocked(t, item) =>
      StoreMembers(s.pending, item);
      if id == item.msgId {
        assert s'.writers[t].line == Queued(item);
        assert UnderWay(s', Queued(item));
      } else {
        assert Safe(s, id);
        StillUnderWay(s, s', Queued(s.accepted[id]));
      }
    case DoneLocked(t, i) =>
      RemoveMembers(s.pending, i);
      assert Safe(s, id);
      StillUnderWay(s, s', Queued(s.accepted[id]));
    case OpenFile(t) =>
      assert Safe(s, id);
      StillUnderWay(s, s', Queued(s.accepted[id]));
    case WriteLine(t) => WriteSafe(s, t, id);
    case CompactReplace =>
      assert Safe(s, id);
      ReplayCompacted(s.pending);
    case _ =>
      assert Safe(s, id);
      StillUnderWay(s, s', Queued(s.accepted[id]));
  }

  /** A line under way stays so while no file is replaced and its writer has not written. */
  lemma StillUnderWay(s: State, s': State, line: Record)
    requires s'.live == s.live
    requires forall t :: t in s.writers ==>
               t in s'.writers && s'.writers[t].line == s.writers[t].line
               && (s'.writers[t].file == s.writers[t].file || s'.writers[t].file == Some(s.live))
    ensures UnderWay(s, line) ==> UnderWay(s', line)
  {
    if UnderWay(s, line) {
      var t :| t in s.writers && s.writers[t].line == line
            && (s.writers[t].file.None? || s.writers[t].file == Some(s.live));
      assert t in s'.writers && s'.writers[t].line == line;
    }
  }

  lemma {:induction false} ByIdMembers(p: seq<Item>)
    requires UniqueIds(p)
    ensures forall x :: x in p ==> x.msgId in ById(p) && ById(p)[x.msgId] == x
    ensures forall id :: id in ById(p) ==> ById(p)[id].msgId == id && ById(p)[id] in p
  {
    if p != [] {
      Snoc(p);
      ByIdMembers(p[..|p| - 1]);
    }
  }

  lemma OpenedSafe(file: seq<Record>)
    ensures Consistent(Opened(file)) && AllSafe(Opened(file))
  {
    hide Replay, UniqueIds;
    ReplayUnique(file);
    ByIdMembers(Replay(file));
  }

  lemma {:induction false} RunSafe(file: seq<Record>, acts: seq<Action>, maxPending: nat)
    requires Possible(Opened(file), acts, maxPending)
    ensures Consistent(Run(Opened(file), acts)) && AllSafe(Run(Opened(file), acts))
  {
    hide Consistent, Enabled, Next, Opened, Safe;
    if acts == [] {
      OpenedSafe(file);
    } else {
      var n := |acts| - 1;
      var s := Run(Opened(file), acts[..n]);
      PossibleInit(Opened(file), acts, maxPending);
      RunSafe(file, acts[..n], maxPending);
      ConsistentNext(s, acts[n], maxPending);
      NextLive(Next(s, acts[n]));
      forall id | id in Next(s, acts[n]).accepted && id !in Next(s, acts[n]).done ensures Safe(Next(s, acts[n]), id) {
        SafeNext(s, acts[n], maxPending, id);
      }
    }
  }

  lemma NextLive(s: State)
    requires Consistent(s)
    ensures s.live < |s.files|
  {
  }

  lemma PossibleInit(s: State, acts: seq<Action>, maxPending: nat)
    requires Possible(s, acts, maxPending) && acts != []
    ensures Possible(s, acts[..|acts| - 1], maxPending)
    ensures Enabled(Run(s, acts[..|acts| - 1]), acts[|acts| - 1], maxPending)
  {
    hide Enabled, Next;
    var n := |acts| - 1;
    forall k | 0 <= k < n ensures Enabled(Run(s, acts[..n][..k]), acts[..n][k], maxPending) {
      assert acts[..n][..k] == acts[..k];
      assert Enabled(Run(s, acts[..k]), acts[k], maxPending);
    }
    assert Enabled(Run(s, acts[..n]), acts[n], maxPending);
  }

  /**
    However the split steps of `enqueue` and `mark_done` interleave with compactions: an entry whose
    enqueue has returned and that has not been marked done is in the dict, and a restart that replays
    the file the path names now finds that very entry.
   */
  lemma NothingLost(file: seq<Record>, acts: seq<Action>, maxPending: nat, id: nat)
    requires Possible(Opened(file), acts, maxPending)
    requires var s := Run(Opened(file), acts); id in s.returned && id !in s.done
    ensures var s := Run(Opened(file), acts);
      && id in s.accepted && s.accepted[id].msgId == id
      && s.accepted[id] in s.pending
      && s.live < |s.files| && s.accepted[id] in Replay(s.files[s.live])
  {
    hide Next, Opened, Enabled, Possible, Run;
    RunSafe(file, acts, maxPending);
    var s := Run(Opened(file), acts);
    assert Safe(s, id);
  }

  // ----- and nothing comes back -------------------------------------------------------------------------

  /** `mark_done` is called for no entry whose line is still on its way to the file that the path names now. */
  ghost predicate Polite(s: State, a: Action) {
    a.DoneLocked? && Contains(s.pending, a.id) ==>
      forall x :: x in s.pending && x.msgId == a.id ==> !UnderWay(s, Queued(x))
  }

  /** It suffices that its enqueue has returned. */
  lemma ReturnedIsPolite(s: State, a: Action)
    requires Consistent(s) && (a.DoneLocked? ==> a.id in s.returned)
    ensures Polite(s, a)
  {
    hide UniqueIds, Replay, Contains;
    if a.DoneLocked? {
      forall x | x in s.pending && x.msgId == a.id ensures !UnderWay(s, Queued(x)) {
        forall t | t in s.writers ensures s.writers[t].line != Queued(x) { assert GoodWriter(s, s.writers[t]); }
      }
    }
  }

  ghost predicate AllPolite(s: State, acts: seq<Action>) {
    forall k :: 0 <= k < |acts| ==> Polite(Run(s, acts[..k]), acts[k])
  }

  /**
    A done entry is off the disk, or the line that removes it is under way; a line that would store it
    again is bound for a replaced file.
   */
  ghost predicate Gone(s: State, id: nat)
    requires s.live < |s.files|
  {
    && (forall t :: t in s.writers && Stores(s.writers[t], id) ==>
          s.writers[t].file.Some? && s.writers[t].file.value != s.live)
    && ((forall x :: x in Stored(s) ==> x.msgId != id) || UnderWay(s, Done(id)))
  }

  ghost predicate Stores(w: Writer, id: nat) { w.line.Queued? && w.line.item.msgId == id }

  ghost predicate AllGone(s: State) {
    s.live < |s.files| && forall id :: id in s.done ==> Gone(s, id)
  }

  lemma WriteGone(s: State, t: Thread, id: nat)
    requires Consistent(s) && t in s.writers && s.writers[t].file.Some? && id in s.done && Gone(s, id)
    ensures Gone(Next(s, WriteLine(t)), id)
  {
    hide Replay, UniqueIds;
    var w, s' := s.writers[t], Next(s, WriteLine(t));
    assert GoodWriter(s, w);
    LineEffect(s.files[w.file.value], w.line);
    if exists x :: x in Stored(s) && x.msgId == id {
      var u :| u in s.writers && s.writers[u].line == Done(id)
            && (s.writers[u].file.None? || s.writers[u].file == Some(s.live));
      if u != t {
        assert u in s'.writers && s'.writers[u] == s.writers[u];
        assert UnderWay(s', Done(id));
      }
    }
  }

  /** A done entry stays gone, whoever else is impolite; the action that marks it done has to be polite. */
  lemma GoneNext(s: State, a: Action, maxPending: nat, id: nat)
    requires Consistent(s) && Enabled(s, a, maxPending)
    requires if id in s.done then Gone(s, id) else Polite(s, a)
    requires Consistent(Next(s, a)) && id in Next(s, a).done
    ensures Gone(Next(s, a), id)
  {
    hide Gone, Polite, Consistent, Replay;
    match a
    case EnqueueLocked(t, item) => EnqueuedGone(s, t, item, id);
    case DoneLocked(t, i) =>
      if id in s.done { DoneAgainGone(s, t, i, id); } else { JustDone(s, t, id); }
    case OpenFile(t) => OpenedGone(s, t, id);
    case WriteLine(t) => WriteGone(s, t, id);
    case CompactReplace => ReplacedGone(s, id);
    case _ => SameFilesGone(s, a, id);
  }

  lemma EnqueuedGone(s: State, t: Thread, item: Item, id: nat)
    requires Consistent(s) && s.snapshot.None? && t !in s.writers && item.msgId !in s.accepted
    requires id in s.done && Gone(s, id)
    ensures Gone(Next(s, EnqueueLocked(t, item)), id)
  {
    hide Store, Replay, UniqueIds;
    StillUnderWay(s, Next(s, EnqueueLocked(t, item)), Done(id));
  }

  lemma DoneAgainGone(s: State, t: Thread, i: nat, id: nat)
    requires Consistent(s) && s.snapshot.None? && t !in s.writers && id in s.done && Gone(s, id)
    ensures Gone(Next(s, DoneLocked(t, i)), id)
  {
    hide Remove, Replay, UniqueIds;
    StillUnderWay(s, Next(s, DoneLocked(t, i)), Done(id));
  }

  lemma OpenedGone(s: State, t: Thread, id: nat)
    requires Consistent(s) && t in s.writers && s.writers[t].file.None? && id in s.done && Gone(s, id)
    ensures Gone(Next(s, OpenFile(t)), id)
  {
    hide Replay, UniqueIds;
    StillUnderWay(s, Next(s, OpenFile(t)), Done(id));
  }

  lemma SameFilesGone(s: State, a: Action, id: nat)
    requires Consistent(s) && (a.CompactLock? || a.CompactFail?) && id in s.done && Gone(s, id)
    ensures Gone(Next(s, a), id)
  {
    hide Replay, UniqueIds, Compacted;
    StillUnderWay(s, Next(s, a), Done(id));
  }

  lemma ReplacedGone(s: State, id: nat)
    requires Consistent(s) && s.snapshot.Some? && id in s.done && Gone(s, id)
    ensures Gone(Next(s, CompactReplace), id)
  {
    hide Replay, Compacted, UniqueIds;
    ReplayCompacted(s.pending);
    assert forall t :: t in s.writers ==> GoodWriter(s, s.writers[t]);
  }

  lemma JustDone(s: State, t: Thread, id: nat)
    requires Consistent(s) && s.snapshot.None? && t !in s.writers && Polite(s, DoneLocked(t, id))
    requires id !in s.done && id in Next(s, DoneLocked(t, id)).done
    ensures Gone(Next(s, DoneLocked(t, id)), id)
  {
    hide Store, Remove, Replay, UniqueIds;
    var s' := Next(s, DoneLocked(t, id));
    assert s'.writers[t].line == Done(id);
    assert UnderWay(s', Done(id));
    var i :| 0 <= i < |s.pending| && s.pending[i].msgId == id;
    var x := s.pending[i];
    assert Accepted(s, x) && !UnderWay(s, Queued(x));
    forall u | u in s'.writers && Stores(s'.writers[u], id)
      ensures s'.writers[u].file.Some? && s'.writers[u].file.value != s'.live
    {
      assert u in s.writers && GoodWriter(s, s.writers[u]);
    }
  }

  lemma {:induction false} RunGone(file: seq<Record>, acts: seq<Action>, maxPending: nat)
    requires Possible(Opened(file), acts, maxPending) && AllPolite(Opened(file), acts)
    ensures AllGone(Run(Opened(file), acts))
  {
    hide Consistent, Enabled, Next, Gone, Polite;
    if acts != [] {
      var n := |acts| - 1;
      var s := Run(Opened(file), acts[..n]);
      PossibleInit(Opened(file), acts, maxPending);
      PoliteInit(Opened(file), acts);
      RunGone(file, acts[..n], maxPending);
      RunSafe(file, acts[..n], maxPending);
      ConsistentNext(s, acts[n], maxPending);
      NextLive(Next(s, acts[n]));
      forall id | id in Next(s, acts[n]).done ensures Gone(Next(s, acts[n]), id) {
        GoneNext(s, acts[n], maxPending, id);
      }
    }
  }

  lemma PoliteInit(s: State, acts: seq<Action>)
    requires AllPolite(s, acts) && acts != []
    ensures AllPolite(s, acts[..|acts| - 1]) && Polite(Run(s, acts[..|acts| - 1]), acts[|acts| - 1])
  {
    hide Polite, Next;
    var n := |acts| - 1;
    forall k | 0 <= k < n ensures Polite(Run(s, acts[..n][..k]), acts[..n][k]) {
      assert acts[..n][..k] == acts[..k];
      assert Polite(Run(s, acts[..k]), acts[k]);
    }
    assert Polite(Run(s, acts[..n]), acts[n]);
  }

  /** Whenever no write is under way, the file replays to exactly the entries in the dict. */
  lemma QuietFileIsPending(file: seq<Record>, acts: seq<Action>, maxPending: nat)
    requires Possible(Opened(file), acts, maxPending) && AllPolite(Opened(file), acts)
    requires Run(Opened(file), acts).writers == map[]
    ensures var s := Run(Opened(file), acts);
      s.live < |s.files| && forall x :: x in Replay(s.files[s.live]) <==> x in s.pending
  {
    hide Next, Opened, Enabled, Possible, Run, AllPolite, UniqueIds, Replay;
    RunSafe(file, acts, maxPending);
    RunGone(file, acts, maxPending);
    var s := Run(Opened(file), acts);
    forall x ensures x in Stored(s) <==> x in s.pending {
      if x in Stored(s) {
        assert Accepted(s, x);
        assert x.msgId !in s.done by { assert x.msgId in s.done ==> Gone(s, x.msgId); }
        assert Safe(s, x.msgId);
      }
      if x in s.pending {
        assert Accepted(s, x) && x.msgId !in s.done;
        assert Safe(s, x.msgId);
      }
    }
  }

  // ----- both assumptions are needed --------------------------------------------------------------------

  /** The outbox is empty, one line is on disk, another is on its way. */
  ghost function Halfway(item: Item): State {
    State([], [[Done(item.msgId)]], 0, map[0 := Writer(Queued(item), None)], None,
          map[item.msgId := item], {}, {item.msgId})
  }

  lemma EarlyFirstHalf(item: Item)
    ensures var id := item.msgId;
      var acts := [EnqueueLocked(0, item), DoneLocked(1, id), OpenFile(1), WriteLine(1)];
      var s0 := Opened([]);
      var s1 := Next(s0, acts[0]);
      var s2 := Next(s1, acts[1]);
      var s3 := Next(s2, acts[2]);
      && Enabled(s0, acts[0], 1) && Enabled(s1, acts[1], 1) && Enabled(s2, acts[2], 1) && Enabled(s3, acts[3], 1)
      && Next(s3, acts[3]) == Halfway(item)
  {
    var id := item.msgId;
    var s1 := Next(Opened([]), EnqueueLocked(0, item));
    assert s1 == State([item], [[]], 0, map[0 := Writer(Queued(item), None)], None, map[id := item], {}, {});
    var s2 := Next(s1, DoneLocked(1, id));
    assert s2 == State([], [[]], 0, map[0 := Writer(Queued(item), None), 1 := Writer(Done(id), None)], None,
                       map[id := item], {}, {id});
    var s3 := Next(s2, OpenFile(1));
    assert [] + [Done(id)] == [Done(id)];
    var s4 := Next(s3, WriteLine(1));
    assert s4.files == [[Done(id)]];
  }

  lemma EarlySecondHalf(item: Item)
    ensures var s4 := Halfway(item);
      var s5 := Next(s4, OpenFile(0));
      var s6 := Next(s5, WriteLine(0));
      && Enabled(s4, OpenFile(0), 1) && Enabled(s5, WriteLine(0), 1)
      && s6.pending == [] && s6.writers == map[] && s6.live == 0 && s6.files == [[Done(item.msgId), Queued(item)]]
  {
    var s6 := Next(Next(Halfway(item), OpenFile(0)), WriteLine(0));
    assert s6.files[0] == [Done(item.msgId), Queued(item)];
  }

  /** Marking an entry done before its enqueue has returned can leave it on disk for good. */
  lemma EarlyDoneResurrects(item: Item) returns (acts: seq<Action>)
    ensures Possible(Opened([]), acts, 1)
    ensures var s := Run(Opened([]), acts);
      s.writers == map[] && s.pending == [] && s.live < |s.files| && Replay(s.files[s.live]) == [item]
  {
    hide Next, Enabled, Opened, Halfway;
    var id := item.msgId;
    acts := [EnqueueLocked(0, item), DoneLocked(1, id), OpenFile(1), WriteLine(1), OpenFile(0), WriteLine(0)];
    EarlyFirstHalf(item);
    EarlySecondHalf(item);
    RunSix(Opened([]), acts[0], acts[1], acts[2], acts[3], acts[4], acts[5]);
    forall k | 0 <= k < 6 ensures Enabled(Run(Opened([]), acts[..k]), acts[k], 1) {}
    ReplayAppend([], Done(id));
    ReplayAppend([Done(id)], Queued(item));
    assert [] + [Done(id)] == [Done(id)] && [Done(id)] + [Queued(item)] == [Done(id), Queued(item)];
  }

  lemma RunSix(s: State, a: Action, b: Action, c: Action, d: Action, e: Action, f: Action)
    ensures var acts := [a, b, c, d, e, f];
      && Run(s, acts[..0]) == s
      && Run(s, acts[..1]) == Next(s, a)
      && Run(s, acts[..2]) == Next(Run(s, acts[..1]), b)
      && Run(s, acts[..3]) == Next(Run(s, acts[..2]), c)
      && Run(s, acts[..4]) == Next(Run(s, acts[..3]), d)
      && Run(s, acts[..5]) == Next(Run(s, acts[..4]), e)
      && Run(s, acts) == Next(Run(s, acts[..5]), f)
  {
    hide Next;
    var acts := [a, b, c, d, e, f];
    assert acts[..1][..0] == acts[..0] && acts[..2][..1] == acts[..1] && acts[..3][..2] == acts[..2];
    assert acts[..4][..3] == acts[..3] && acts[..5][..4] == acts[..4];
  }

  // ----- exactly when an entry can come back ---------------------------------------------------------------

  lemma {:induction false} RunJoin(s: State, a: seq<Action>, b: seq<Action>)
    ensures Run(s, a + b) == Run(Run(s, a), b)
    decreases |b|
  {
    hide Next;
    if b == [] {
      assert a + b == a;
    } else {
      var n := |b| - 1;
      assert (a + b)[..|a| + n] == a + b[..n];
      RunJoin(s, a, b[..n]);
    }
  }

  lemma PossibleJoin(s: State, a: seq<Action>, b: seq<Action>, maxPending: nat)
    requires Possible(s, a, maxPending) && Possible(Run(s, a), b, maxPending)
    ensures Possible(s, a + b, maxPending)
  {
    hide Next, Enabled, Run;
    var all := a + b;
    forall k | 0 <= k < |all| ensures Enabled(Run(s, all[..k]), all[k], maxPending) {
      if k < |a| {
        assert all[..k] == a[..k] && all[k] == a[k];
      } else {
        var i := k - |a|;
        assert all[..k] == a + b[..i] && all[k] == b[i];
        RunJoin(s, a, b[..i]);
        assert Enabled(Run(Run(s, a), b[..i]), b[i], maxPending);
      }
    }
  }

  /** The entry has just been marked done by u while t still has the line that stores it. */
  ghost predicate Overtaken(s: State, t: Thread, u: Thread, item: Item) {
    && s.live < |s.files| && s.snapshot.None? && t != u
    && t in s.writers && s.writers[t].line == Queued(item)
    && (s.writers[t].file == None || s.writers[t].file == Some(s.live))
    && u in s.writers && s.writers[u] == Writer(Done(item.msgId), None)
    && (forall v :: v in s.writers && v != u ==> s.writers[v].line != Done(item.msgId))
    && item.msgId in s.done && !HasId(s.pending, item.msgId)
  }

  /** The entry is on disk though it is done, and no line that would remove it is on its way. */
  ghost predicate Back(s: State, item: Item) {
    && s.live < |s.files| && item in Stored(s) && !UnderWay(s, Done(item.msgId))
    && item.msgId in s.done && !HasId(s.pending, item.msgId)
  }

  /** Both lines reach the file, the one that removes the entry first. */
  lemma DoneThenStored(s: State, t: Thread, u: Thread, item: Item, maxPending: nat) returns (more: seq<Action>)
    requires Overtaken(s, t, u, item)
    ensures Possible(s, more, maxPending) && Back(Run(s, more), item)
  {
    hide Replay, HasId;
    var log := s.files[s.live];
    var s2 := Next(Next(s, OpenFile(u)), WriteLine(u));
    assert s2.files[s.live] == log + [Done(item.msgId)];
    ReplayAppend(log + [Done(item.msgId)], Queued(item));
    ReplayUnique(log + [Done(item.msgId)]);
    StoreMembers(Replay(log + [Done(item.msgId)]), item);
    if s.writers[t].file == None {
      more := [OpenFile(u), WriteLine(u), OpenFile(t), WriteLine(t)];
      RunFour(s, OpenFile(u), WriteLine(u), OpenFile(t), WriteLine(t));
    } else {
      more := [OpenFile(u), WriteLine(u), WriteLine(t)];
      RunThree(s, OpenFile(u), WriteLine(u), WriteLine(t));
    }
    assert Run(s, more).files[s.live] == log + [Done(item.msgId)] + [Queued(item)];
  }

  lemma RunThree(s: State, a: Action, b: Action, c: Action)
    ensures var acts := [a, b, c];
      && Run(s, acts[..0]) == s
      && Run(s, acts[..1]) == Next(s, a)
      && Run(s, acts[..2]) == Next(Run(s, acts[..1]), b)
      && Run(s, acts) == Next(Run(s, acts[..2]), c)
  {
    hide Next;
    var acts := [a, b, c];
    assert acts[..1][..0] == acts[..0] && acts[..2][..1] == acts[..1];
  }

  lemma RunFour(s: State, a: Action, b: Action, c: Action, d: Action)
    ensures var acts := [a, b, c, d];
      && Run(s, acts[..0]) == s
      && Run(s, acts[..1]) == Next(s, a)
      && Run(s, acts[..2]) == Next(Run(s, acts[..1]), b)
      && Run(s, acts[..3]) == Next(Run(s, acts[..2]), c)
      && Run(s, acts) == Next(Run(s, acts[..3]), d)
  {
    hide Next;
    var acts := [a, b, c, d];
    assert acts[..1][..0] == acts[..0] && acts[..2][..1] == acts[..1] && acts[..3][..2] == acts[..2];
  }

  /** Thread u marks the entry done, and some possible steps later it is back. */
  ghost predicate BringsBack(file: seq<Record>, acts: seq<Action>, maxPending: nat, u: Thread, item: Item, more: seq<Action>) {
    && more != [] && more[0] == DoneLocked(u, item.msgId)
    && Possible(Opened(file), acts + more, maxPending)
    && Back(Run(Opened(file), acts + more), item)
  }

  /** While the entry's line is on its way to the live file, opened or not, marking the entry done can fail. */
  lemma EarlyDoneCan(file: seq<Record>, acts: seq<Action>, maxPending: nat, u: Thread, item: Item)
    returns (more: seq<Action>)
    requires Possible(Opened(file), acts, maxPending)
    requires var s := Run(Opened(file), acts);
      s.snapshot.None? && u !in s.writers && item in s.pending && UnderWay(s, Queued(item))
    ensures BringsBack(file, acts, maxPending, u, item, more)
  {
    hide Possible, Run, Opened, Contains, HasId, Back, Consistent, Replay;
    RunSafe(file, acts, maxPending);
    var s := Run(Opened(file), acts);
    var done := DoneLocked(u, item.msgId);
    var t := Overtaking(s, u, item);
    var rest := DoneThenStored(Next(s, done), t, u, item, maxPending);
    more := [done] + rest;
    OneStep(s, done, maxPending);
    PossibleJoin(s, [done], rest, maxPending);
    RunJoin(s, [done], rest);
    PossibleJoin(Opened(file), acts, more, maxPending);
    RunJoin(Opened(file), acts, more);
  }

  lemma Overtaking(s: State, u: Thread, item: Item) returns (t: Thread)
    requires Consistent(s) && s.snapshot.None? && u !in s.writers && item in s.pending && UnderWay(s, Queued(item))
    ensures Overtaken(Next(s, DoneLocked(u, item.msgId)), t, u, item)
  {
    hide Contains, HasId, Replay, Remove;
    InPending(s.pending, item);
    RemoveMembers(s.pending, item.msgId);
    t :| t in s.writers && s.writers[t].line == Queued(item)
      && (s.writers[t].file.None? || s.writers[t].file == Some(s.live));
    forall v | v in s.writers ensures s.writers[v].line != Done(item.msgId) { assert GoodWriter(s, s.writers[v]); }
  }

  lemma {:induction false} StaysGone(file: seq<Record>, all: seq<Action>, m: nat, maxPending: nat, id: nat)
    requires Possible(Opened(file), all, maxPending) && m <= |all|
    requires var s := Run(Opened(file), all[..m]); s.live < |s.files| && id in s.done && Gone(s, id)
    ensures var s := Run(Opened(file), all); s.live < |s.files| && id in s.done && Gone(s, id)
    decreases |all|
  {
    hide Consistent, Enabled, Next, Gone, Polite, Opened;
    if m == |all| {
      assert all[..m] == all;
    } else {
      var n := |all| - 1;
      assert all[..n][..m] == all[..m];
      PossibleInit(Opened(file), all, maxPending);
      StaysGone(file, all[..n], m, maxPending, id);
      RunSafe(file, all[..n], maxPending);
      var s := Run(Opened(file), all[..n]);
      ConsistentNext(s, all[n], maxPending);
      NextLive(Next(s, all[n]));
      DoneGrows(s, all[n], id);
      GoneNext(s, all[n], maxPending, id);
    }
  }

  lemma DoneGrows(s: State, a: Action, id: nat)
    ensures id in s.done ==> id in Next(s, a).done
  {
  }

  /** Once its line has gone elsewhere -- to the disk or to a replaced file -- a done entry never comes back. */
  lemma NeverBack(file: seq<Record>, acts: seq<Action>, maxPending: nat, u: Thread, item: Item, more: seq<Action>)
    requires Possible(Opened(file), acts, maxPending)
    requires var s := Run(Opened(file), acts); item in s.pending && !UnderWay(s, Queued(item))
    requires more != [] && more[0] == DoneLocked(u, item.msgId) && Possible(Opened(file), acts + more, maxPending)
    ensures !Back(Run(Opened(file), acts + more), item)
  {
    hide Possible, Run, Opened, Contains, HasId, Consistent, Replay, Enabled, Polite, Gone;
    var all, n := acts + more, |acts|;
    var s, a := Run(Opened(file), acts), DoneLocked(u, item.msgId);
    RunSafe(file, acts, maxPending);
    FirstStep(Opened(file), acts, more, maxPending);
    ConsistentNext(s, a, maxPending);
    NextLive(Next(s, a));
    OnlyThisOne(s, u, item);
    GoneNext(s, a, maxPending, item.msgId);
    StaysGone(file, all, n + 1, maxPending, item.msgId);
    GoneMeans(Run(Opened(file), all), item);
  }

  lemma FirstStep(start: State, acts: seq<Action>, more: seq<Action>, maxPending: nat)
    requires more != [] && Possible(start, acts + more, maxPending)
    ensures Enabled(Run(start, acts), more[0], maxPending)
    ensures Run(start, (acts + more)[..|acts| + 1]) == Next(Run(start, acts), more[0])
  {
    hide Next, Enabled;
    var all, n := acts + more, |acts|;
    assert all[..n] == acts && all[n] == more[0];
    assert Enabled(Run(start, all[..n]), all[n], maxPending);
    assert all[..n + 1][..n] == all[..n] && all[..n + 1][n] == all[n];
  }

  lemma OnlyThisOne(s: State, u: Thread, item: Item)
    requires Consistent(s) && item in s.pending && !UnderWay(s, Queued(item))
    ensures item.msgId !in s.done && item.msgId in Next(s, DoneLocked(u, item.msgId)).done
    ensures Polite(s, DoneLocked(u, item.msgId))
  {
    hide Contains, Replay, Remove;
    InPending(s.pending, item);
    forall x | x in s.pending && x.msgId == item.msgId ensures x == item {
      assert Accepted(s, x) && Accepted(s, item);
    }
  }

  lemma GoneMeans(s: State, item: Item)
    requires s.live < |s.files| && Gone(s, item.msgId)
    ensures !Back(s, item)
  {
    hide Replay;
  }

  /**
    Exactly when marking an entry done can fail to last, from any reachable state in which the lock is
    free: the line that stores the entry is still on its way to the file that the path names now, whether
    or not it has opened it. A line bound for a file that a compaction has replaced does no harm, although
    its enqueue has not returned.
   */
  lemma ComesBackExactly(file: seq<Record>, acts: seq<Action>, maxPending: nat, u: Thread, item: Item)
    requires Possible(Opened(file), acts, maxPending)
    requires var s := Run(Opened(file), acts); s.snapshot.None? && u !in s.writers && item in s.pending
    ensures (exists more :: BringsBack(file, acts, maxPending, u, item, more))
       <==> UnderWay(Run(Opened(file), acts), Queued(item))
  {
    hide Possible, Run, Opened, Back, UnderWay;
    if UnderWay(Run(Opened(file), acts), Queued(item)) {
      var more := EarlyDoneCan(file, acts, maxPending, u, item);
    } else {
      forall more ensures !BringsBack(file, acts, maxPending, u, item, more) {
        if more != [] && more[0] == DoneLocked(u, item.msgId) && Possible(Opened(file), acts + more, maxPending) {
          NeverBack(file, acts, maxPending, u, item, more);
        }
      }
    }
  }

  lemma InPending(p: seq<Item>, item: Item)
    requires item in p
    ensures Contains(p, item.msgId)
  {
    var i :| 0 <= i < |p| && p[i] == item;
    assert HasId(p, item.msgId);
  }

  lemma OneStep(s: State, a: Action, maxPending: nat)
    requires Enabled(s, a, maxPending)
    ensures Possible(s, [a], maxPending) && Run(s, [a]) == Next(s, a)
  {
    hide Next, Enabled;
    assert [a][..0] == [];
  }
}
