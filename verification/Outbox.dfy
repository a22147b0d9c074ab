/**
  The durable outbox of `store_forward.py`: an append-only log, its replay and its compaction.

  A dict from message id to entry is the sequence of its entries in insertion order. A line of the
  log is a record; JSON and base64 text are taken to be read back exactly.
 */
module Outbox {
  import opened Common
  import opened Frames

  datatype Item = Item(msgId: nat, peer: string, frame: Frame, queuedAt: real, meta: map<string, string>)

  /** A line of the log. An unreadable line (torn, corrupt, undecodable) is skipped by replay. */
  datatype Record = Queued(item: Item) | Done(msgId: nat) | Unreadable

  ghost predicate HasId(p: seq<Item>, id: nat) {
    exists i :: 0 <= i < |p| && p[i].msgId == id
  }

  ghost predicate UniqueIds(p: seq<Item>) {
    forall i, j :: 0 <= i < j < |p| ==> p[i].msgId != p[j].msgId
  }

  function Contains(p: seq<Item>, id: nat): (b: bool)
    ensures b <==> HasId(p, id)
  {
    if p == [] then false
    else
      assert forall i :: 0 <= i < |p| - 1 ==> p[i] == p[..|p| - 1][i];
      p[|p| - 1].msgId == id || Contains(p[..|p| - 1], id)
  }

  /** `pending[item.msg_id] = item`: a known id keeps its place, a new one goes last. */
  function Store(p: seq<Item>, item: Item): seq<Item> {
    if p == [] then [item]
    else if p[0].msgId == item.msgId then [item] + p[1..]
    else [p[0]] + Store(p[1..], item)
  }

  /** `pending.pop(id, None)` */
  function Remove(p: seq<Item>, id: nat): seq<Item> {
    if p == [] then []
    else if p[0].msgId == id then p[1..]
    else [p[0]] + Remove(p[1..], id)
  }

  function Replayed(p: seq<Item>, r: Record): seq<Item> {
    match r
    case Queued(item) => Store(p, item)
    case Done(id) => Remove(p, id)
    case Unreadable => p
  }

  /** What `_replay` makes of a log. */
  function Replay(log: seq<Record>): seq<Item> {
    if log == [] then [] else Replayed(Replay(log[..|log| - 1]), log[|log| - 1])
  }

  /** The log that `compact` writes. */
  function Compacted(p: seq<Item>): (log: seq<Record>)
    ensures |log| == |p|
    ensures forall i :: 0 <= i < |p| ==> log[i] == Queued(p[i])
  {
    if p == [] then [] else Compacted(p[..|p| - 1]) + [Queued(p[|p| - 1])]
  }

  // ----- the pending dict --------------------------------------------------------------------------

  lemma {:induction false} StoreFresh(p: seq<Item>, item: Item)
    requires !HasId(p, item.msgId)
    ensures Store(p, item) == p + [item]
  {
    if p != [] {
      assert p[0].msgId != item.msgId;
      forall i | 0 <= i < |p[1..]| ensures p[1..][i].msgId != item.msgId { assert p[1..][i] == p[i + 1]; }
      StoreFresh(p[1..], item);
    }
  }

  /** A known id keeps its place and takes the new entry; removing an id closes the gap and moves nothing else. */
  lemma {:induction false} InPlace(p: seq<Item>, i: nat, item: Item)
    requires i < |p| && p[i].msgId == item.msgId && !HasId(p[..i], item.msgId)
    ensures Store(p, item) == p[i := item]
    ensures Remove(p, item.msgId) == p[..i] + p[i + 1..]
  {
    if i > 0 {
      assert p[..i][0] == p[0];
      assert p[1..][..i - 1] == p[..i][1..];
      var before := p[..i][1..];
      forall j | 0 <= j < |before| ensures before[j].msgId != item.msgId { assert p[..i][j + 1] == before[j]; }
      InPlace(p[1..], i - 1, item);
      assert p == [p[0]] + p[1..];
    }
  }

  lemma Apart(p: seq<Item>)
    requires p != []
    ensures forall x :: x in p <==> x == p[0] || x in p[1..]
    ensures UniqueIds(p) <==> UniqueIds(p[1..]) && forall x :: x in p[1..] ==> x.msgId != p[0].msgId
  {
    var rest := p[1..];
    assert p == [p[0]] + rest;
    assert forall i :: 0 <= i < |rest| ==> rest[i] == p[i + 1];
    if UniqueIds(rest) && forall x :: x in rest ==> x.msgId != p[0].msgId {
      forall i, j | 0 <= i < j < |p| ensures p[i].msgId != p[j].msgId {
        assert p[j] == rest[j - 1] && rest[j - 1] in rest;
        assert i > 0 ==> p[i] == rest[i - 1];
      }
    }
  }

  lemma Join(head: Item, rest: seq<Item>)
    ensures forall x :: x in [head] + rest <==> x == head || x in rest
    ensures UniqueIds([head] + rest) <==> UniqueIds(rest) && forall x :: x in rest ==> x.msgId != head.msgId
  {
    Apart([head] + rest);
    assert ([head] + rest)[1..] == rest;
  }

  lemma {:induction false} StoreMembers(p: seq<Item>, item: Item)
    requires UniqueIds(p)
    ensures UniqueIds(Store(p, item)) && item in Store(p, item)
    ensures forall x :: x in Store(p, item) <==> x == item || (x in p && x.msgId != item.msgId)
    decreases |p|
  {
    hide UniqueIds;
    if p == [] {
      Join(item, []);
      assert [item] + [] == [item];
      NoneUnique();
    } else {
      Apart(p);
      if p[0].msgId == item.msgId {
        Join(item, p[1..]);
      } else {
        StoreMembers(p[1..], item);
        Join(p[0], Store(p[1..], item));
      }
    }
  }

  lemma NoneUnique()
    ensures UniqueIds([])
  {
  }

  lemma {:induction false} RemoveMembers(p: seq<Item>, id: nat)
    requires UniqueIds(p)
    ensures UniqueIds(Remove(p, id)) && !HasId(Remove(p, id), id)
    ensures forall x :: x in Remove(p, id) <==> x in p && x.msgId != id
    decreases |p|
  {
    hide UniqueIds;
    if p == [] {
      NoneUnique();
    } else {
      Apart(p);
      if p[0].msgId != id {
        RemoveMembers(p[1..], id);
        Join(p[0], Remove(p[1..], id));
      }
    }
    assert forall i :: 0 <= i < |Remove(p, id)| ==> Remove(p, id)[i] in Remove(p, id);
  }

  lemma {:induction false} ReplayUnique(log: seq<Record>)
    ensures UniqueIds(Replay(log))
  {
    if log != [] {
      var p, r := Replay(log[..|log| - 1]), log[|log| - 1];
      ReplayUnique(log[..|log| - 1]);
      if r.Queued? { StoreMembers(p, r.item); }
      if r.Done? { RemoveMembers(p, r.msgId); }
    }
  }

  /** Replaying a compacted log gives back the very same dict, in the same order. */
  lemma {:induction false} ReplayCompacted(p: seq<Item>)
    requires UniqueIds(p)
    ensures Replay(Compacted(p)) == p
  {
    if p != [] {
      var n := |p| - 1;
      Snoc(p);
      ReplayCompacted(p[..n]);
      assert Compacted(p)[..n] == Compacted(p[..n]);
      StoreFresh(p[..n], p[n]);
    }
  }

  lemma ReplayAppend(log: seq<Record>, r: Record)
    ensures Replay(log + [r]) == Replayed(Replay(log), r)
  {
    assert (log + [r])[..|log|] == log;
  }

  // ----- one thread at a time ------------------------------------------------------------------------

  /** The two things an outbox owns: the dict in memory and the file on disk. */
  datatype Disk = Disk(pending: seq<Item>, log: seq<Record>)

  ghost predicate Synced(d: Disk) { Replay(d.log) == d.pending }

  function Written(log: seq<Record>, r: Record, diskOk: bool): seq<Record> { if diskOk then log + [r] else log }

  function Masked(msgId: int): nat { msgId % 0x1_0000_0000 }

  /** A whole call, with the success of its disk write. */
  datatype Call =
    | Enqueue(item: Item, diskOk: bool)
    | MarkDone(msgId: int, diskOk: bool)
    | Compact(diskOk: bool)

  predicate Accepts(d: Disk, item: Item, maxPending: nat) {
    |d.pending| < maxPending || Contains(d.pending, item.msgId)
  }

  function Called(d: Disk, c: Call, maxPending: nat): Disk {
    match c
    case Enqueue(item, diskOk) =>
      if Accepts(d, item, maxPending) then Disk(Store(d.pending, item), Written(d.log, Queued(item), diskOk)) else d
    case MarkDone(msgId, diskOk) =>
      if Contains(d.pending, Masked(msgId))
      then Disk(Remove(d.pending, Masked(msgId)), Written(d.log, Done(Masked(msgId)), diskOk)) else d
    case Compact(diskOk) =>
      if diskOk then Disk(d.pending, Compacted(d.pending)) else d
  }

  function AfterCalls(d: Disk, calls: seq<Call>, maxPending: nat): Disk {
    if calls == [] then d
    else Called(AfterCalls(d, calls[..|calls| - 1], maxPending), calls[|calls| - 1], maxPending)
  }

  /** From `from` on no append failed; compactions may have. */
  ghost predicate AppendsSucceed(calls: seq<Call>, from: nat) {
    forall i :: from <= i < |calls| && !calls[i].Compact? ==> calls[i].diskOk
  }

  lemma CallSynced(d: Disk, c: Call, maxPending: nat)
    requires UniqueIds(d.pending)
    ensures UniqueIds(Called(d, c, maxPending).pending)
    ensures Synced(d) && (!c.Compact? ==> c.diskOk) ==> Synced(Called(d, c, maxPending))
    ensures c.Compact? && c.diskOk ==> Synced(Called(d, c, maxPending))
  {
    match c
    case Enqueue(item, _) =>
      StoreMembers(d.pending, item);
      ReplayAppend(d.log, Queued(item));
    case MarkDone(msgId, _) =>
      RemoveMembers(d.pending, Masked(msgId));
      ReplayAppend(d.log, Done(Masked(msgId)));
    case Compact(_) => ReplayCompacted(d.pending);
  }

  /**
    Sequentially, the log replays to exactly the pending dict, order included: from the start as
    long as appends succeed, and again after any successful compaction, whatever failed before it.
   */
  lemma {:induction false} ReplayIsPending(d: Disk, calls: seq<Call>, maxPending: nat, from: nat)
    requires UniqueIds(d.pending) && from <= |calls| && AppendsSucceed(calls, from)
    requires if from == 0 then Synced(d) else calls[from - 1] == Compact(true)
    ensures UniqueIds(AfterCalls(d, calls, maxPending).pending)
    ensures Synced(AfterCalls(d, calls, maxPending))
    decreases |calls|
  {
    if calls != [] {
      var n := |calls| - 1;
      CallsUnique(d, calls[..n], maxPending);
      CallSynced(AfterCalls(d, calls[..n], maxPending), calls[n], maxPending);
      if from <= n {
        ReplayIsPending(d, calls[..n], maxPending, from);
      }
    }
  }

  lemma {:induction false} CallsUnique(d: Disk, calls: seq<Call>, maxPending: nat)
    requires UniqueIds(d.pending)
    ensures UniqueIds(AfterCalls(d, calls, maxPending).pending)
  {
    if calls != [] {
      var n := |calls| - 1;
      CallsUnique(d, calls[..n], maxPending);
      CallSynced(AfterCalls(d, calls[..n], maxPending), calls[n], maxPending);
    }
  }

  lemma {:induction false} StoreSize(p: seq<Item>, item: Item)
    ensures |Store(p, item)| == |p| + (if HasId(p, item.msgId) then 0 else 1)
  {
    if HasId(p, item.msgId) {
      var i := FirstWith(p, item.msgId);
      InPlace(p, i, item);
    } else {
      StoreFresh(p, item);
    }
  }

  lemma {:induction false} FirstWith(p: seq<Item>, id: nat) returns (i: nat)
    requires HasId(p, id)
    ensures i < |p| && p[i].msgId == id && !HasId(p[..i], id)
  {
    var n := |p| - 1;
    if HasId(p[..n], id) {
      i := FirstWith(p[..n], id);
      assert p[..n][..i] == p[..i];
    } else {
      i := n;
      assert forall k :: 0 <= k < n ==> p[..n][k] == p[k];
    }
  }

  lemma {:induction false} RemoveShorter(p: seq<Item>, id: nat)
    ensures |Remove(p, id)| <= |p|
  {
    if p != [] { RemoveShorter(p[1..], id); }
  }

  /** No run of calls makes the dict hold more than `max_pending` entries, unless it held more to begin with. */
  lemma {:induction false} NeverOverfull(d: Disk, calls: seq<Call>, maxPending: nat)
    ensures |AfterCalls(d, calls, maxPending).pending| <= Max(maxPending, |d.pending|)
  {
    if calls != [] {
      var n := |calls| - 1;
      var before := AfterCalls(d, calls[..n], maxPending).pending;
      NeverOverfull(d, calls[..n], maxPending);
      match calls[n]
      case Enqueue(item, _) => StoreSize(before, item);
      case MarkDone(id, _) => RemoveShorter(before, Masked(id));
      case Compact(_) =>
    }
  }

  class OutboxStore {
    var pending: seq<Item>
    var log: seq<Record>
    const maxPending: nat

    ghost predicate Valid()
      reads this
    {
      maxPending >= 1 && UniqueIds(pending)
    }

    ghost function State(): Disk
      reads this
    {
      Disk(pending, log)
    }

    /** Opening the store replays the file it finds. */
    constructor (file: seq<Record>, maxPending: int)
      ensures Valid() && Synced(State())
      ensures log == file && this.maxPending == Max(1, maxPending)
    {
      this.maxPending := Max(1, maxPending);
      log := file;
      pending := [];
      new;
      for k := 0 to |file|
        invariant pending == Replay(file[..k])
        invariant log == file
      {
        assert file[..k + 1][..k] == file[..k];
        match file[k] {
          case Queued(item) => pending := Store(pending, item);
          case Done(id) => pending := Remove(pending, id);
          case Unreadable =>
        }
      }
      assert file[..|file|] == file;
      ReplayUnique(file);
    }

    method Append(r: Record, diskOk: bool)
      modifies `log
      ensures log == Written(old(log), r, diskOk)
    {
      if diskOk { log := log + [r]; }
    }

    method Enqueue(msgId: int, peer: string, frame: Frame, queuedAt: real, meta: map<string, string>, diskOk: bool)
      returns (ok: bool)
      requires Valid()
      modifies this
      ensures Valid()
      ensures var item := Item(Masked(msgId), if peer == "" then "*" else peer, frame, queuedAt, meta);
        && (ok <==> |old(pending)| < maxPending || HasId(old(pending), item.msgId))
        && State() == Called(old(State()), Call.Enqueue(item, diskOk), maxPending)
        && (ok ==> forall x :: x in pending <==> x == item || (x in old(pending) && x.msgId != item.msgId))
        && (!ok ==> State() == old(State()))
    {
      var item := Item(Masked(msgId), if peer == "" then "*" else peer, frame, queuedAt, meta);
      CallSynced(State(), Call.Enqueue(item, diskOk), maxPending);
      StoreMembers(pending, item);
      if |pending| >= maxPending && !Contains(pending, item.msgId) { return false; }
      pending := Store(pending, item);
      Append(Queued(item), diskOk);
      return true;
    }

    method MarkDone(msgId: int, diskOk: bool) returns (removed: bool)
      requires Valid()
      modifies this
      ensures Valid() && removed == HasId(old(pending), Masked(msgId))
      ensures forall x :: x in pending <==> x in old(pending) && x.msgId != Masked(msgId)
      ensures State() == Called(old(State()), Call.MarkDone(msgId, diskOk), maxPending)
    {
      CallSynced(State(), Call.MarkDone(msgId, diskOk), maxPending);
      RemoveMembers(pending, Masked(msgId));
      removed := Contains(pending, Masked(msgId));
      if removed {
        pending := Remove(pending, Masked(msgId));
        Append(Done(Masked(msgId)), diskOk);
      }
    }

    /** The temporary file replaces the log only when it was written completely. */
    method Compact(diskOk: bool) returns (kept: nat)
      requires Valid()
      modifies `log
      ensures Valid() && kept == |pending|
      ensures State() == Called(old(State()), Call.Compact(diskOk), maxPending)
    {
      var temp: seq<Record> := [];
      for k := 0 to |pending|
        invariant temp == Compacted(pending[..k])
      {
        assert pending[..k + 1][..k] == pending[..k];
        temp := temp + [Queued(pending[k])];
      }
      assert pending[..|pending|] == pending;
      if diskOk { log := temp; }
      return |pending|;
    }
  }
}
