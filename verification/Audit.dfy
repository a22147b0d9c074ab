/**
  The hash-chained audit log of `audit.py`: what `verify` accepts, why the last hash commits to the
  whole history, and which runs of the writer keep the log verifiable.
 */
module Audit {
  import opened Common

  /**
    What can stand in a hash field: some text, or the digest of a body. No function into texts of 64
    characters is injective, so digests are values of their own; like texts of that length, they are
    taken to be well formed.
   */
  datatype Digest = Text(s: string) | Ideal(of: Body) {
    predicate Full() { Ideal? || |s| == 64 }
  }

  const GENESIS := Text("0000000000000000000000000000000000000000000000000000000000000000")

  datatype Body = Body(seqNo: int, ts: string, event: string, payload: map<string, string>, prev: Digest)

  datatype Record = Record(body: Body, hash: Digest)

  datatype Line = Blank | Corrupt | Entry(record: Record)

  datatype Reason = CorruptJson | BrokenLink | HashMismatch | DuplicateSeq

  datatype Problem = Problem(line: nat, reason: Reason)

  /** The hash function is taken to be injective, well formed, and never to yield the genesis value. */
  ghost predicate GoodHash(hash: Body -> Digest) {
    && (forall a, b :: hash(a) == hash(b) ==> a == b)
    && (forall a :: hash(a) != GENESIS && hash(a).Full())
  }

  /** There is such a function. */
  lemma IdealHashIsGood()
    ensures GoodHash((b: Body) => Ideal(b))
  {
  }

  // ----- verify ------------------------------------------------------------------------------------

  /** The running variables of `verify`. */
  datatype Walk = Walk(previous: Digest, seen: set<int>, problems: seq<Problem>)

  function Checked(hash: Body -> Digest, w: Walk, line: Line, number: nat): Walk {
    match line
    case Blank => w
    case Corrupt => w.(problems := w.problems + [Problem(number, CorruptJson)])
    case Entry(r) =>
      if r.body.prev != w.previous then w.(problems := w.problems + [Problem(number, BrokenLink)])
      else
        Walk(r.hash, w.seen + {r.body.seqNo},
             w.problems
             + (if r.hash != hash(r.body) then [Problem(number, HashMismatch)] else [])
             + (if r.body.seqNo in w.seen then [Problem(number, DuplicateSeq)] else []))
  }

  function Walked(hash: Body -> Digest, file: seq<Line>): Walk {
    if file == [] then Walk(GENESIS, {}, [])
    else Checked(hash, Walked(hash, file[..|file| - 1]), file[|file| - 1], |file|)
  }

  ghost predicate Verifies(hash: Body -> Digest, file: seq<Line>) { Walked(hash, file).problems == [] }

  /** The records of a file, blank and corrupt lines left out. */
  function Records(file: seq<Line>): seq<Record> {
    if file == [] then []
    else
      var init := Records(file[..|file| - 1]);
      if file[|file| - 1].Entry? then init + [file[|file| - 1].record] else init
  }

  ghost function TailOf(rs: seq<Record>): Digest { if rs == [] then GENESIS else rs[|rs| - 1].hash }

  ghost function Numbers(rs: seq<Record>): set<int> { set i | 0 <= i < |rs| :: rs[i].body.seqNo }

  /** Independent reading of a sound chain: every record links to the one before, carries its own digest, and has a new number. */
  ghost predicate Sound(hash: Body -> Digest, rs: seq<Record>) {
    && (forall i :: 0 <= i < |rs| ==> Linked(hash, rs[..i], rs[i]))
    && (forall i, j :: 0 <= i < j < |rs| ==> rs[i].body.seqNo != rs[j].body.seqNo)
  }

  ghost predicate Linked(hash: Body -> Digest, before: seq<Record>, r: Record) {
    r.body.prev == TailOf(before) && r.hash == hash(r.body)
  }

  lemma SoundInit(hash: Body -> Digest, rs: seq<Record>, r: Record)
    ensures Sound(hash, rs + [r])
       <==> Sound(hash, rs) && Linked(hash, rs, r) && r.body.seqNo !in Numbers(rs)
  {
    hide Linked, TailOf;
    var all := rs + [r];
    assert all[..|rs|] == rs && all[|rs|] == r;
    assert forall i :: 0 <= i < |rs| ==> all[i] == rs[i] && all[..i] == rs[..i];
    if Sound(hash, all) {
      assert Linked(hash, all[..|rs|], all[|rs|]);
      forall i | 0 <= i < |rs| ensures Linked(hash, rs[..i], rs[i]) { assert Linked(hash, all[..i], all[i]); }
    }
  }

  lemma NumbersNext(rs: seq<Record>, r: Record)
    ensures Numbers(rs + [r]) == Numbers(rs) + {r.body.seqNo}
  {
    var all := rs + [r];
    assert all[|rs|] == r && forall i :: 0 <= i < |rs| ==> all[i] == rs[i];
  }

  /** `verify` reports nothing exactly when every line parses and the records form a sound chain. */
  lemma {:induction false} VerifiesExactly(hash: Body -> Digest, file: seq<Line>)
    ensures Verifies(hash, file) <==> Corrupt !in file && Sound(hash, Records(file))
    ensures Verifies(hash, file) ==>
              && Walked(hash, file).previous == TailOf(Records(file))
              && Walked(hash, file).seen == Numbers(Records(file))
  {
    hide Sound;
    hide Numbers;
    if file == [] {
      NothingSound(hash);
    } else {
      var init, line := file[..|file| - 1], file[|file| - 1];
      Snoc(file);
      VerifiesExactly(hash, init);
      if line.Entry? {
        SoundInit(hash, Records(init), line.record);
        NumbersNext(Records(init), line.record);
      }
    }
  }

  lemma NothingSound(hash: Body -> Digest)
    ensures Sound(hash, []) && Numbers([]) == {}
  {
  }

  // ----- the tail commits to the history --------------------------------------------------------------

  lemma {:induction false} SameTailSameRecords(hash: Body -> Digest, a: seq<Record>, b: seq<Record>)
    requires GoodHash(hash) && Sound(hash, a) && Sound(hash, b) && TailOf(a) == TailOf(b)
    ensures a == b
    decreases |a|
  {
    if a != [] && b != [] {
      var m, n := |a| - 1, |b| - 1;
      Snoc(a);
      Snoc(b);
      SoundInit(hash, a[..m], a[m]);
      SoundInit(hash, b[..n], b[n]);
      assert hash(a[m].body) == hash(b[n].body);
      SameTailSameRecords(hash, a[..m], b[..n]);
    }
  }

  /** Two files that both verify and end in the same hash hold the same records: no edit, deletion or reordering goes unseen. */
  lemma {:induction false} TailCommits(hash: Body -> Digest, f: seq<Line>, g: seq<Line>)
    requires GoodHash(hash) && Verifies(hash, f) && Verifies(hash, g)
    requires Walked(hash, f).previous == Walked(hash, g).previous
    ensures Records(f) == Records(g)
  {
    VerifiesExactly(hash, f);
    VerifiesExactly(hash, g);
    SameTailSameRecords(hash, Records(f), Records(g));
  }

  // ----- the writer -----------------------------------------------------------------------------------

  /** The chain object and its file. */
  datatype Log = Log(file: seq<Line>, seqNo: int, tail: Digest)

  function Loaded(file: seq<Line>): (r: (int, Digest)) {
    if file == [] then (0, GENESIS)
    else
      var (n, tail) := Loaded(file[..|file| - 1]);
      match file[|file| - 1]
      case Entry(r) => (Max(n, r.body.seqNo), if r.hash.Full() then r.hash else tail)
      case _ => (n, tail)
  }

  /** An append, with the success of its write, or a new chain object opened on the same file. */
  datatype Op = Append(ts: string, event: string, payload: map<string, string>, diskOk: bool) | Reload

  function NewRecord(hash: Body -> Digest, log: Log, ts: string, event: string, payload: map<string, string>): Record {
    var body := Body(log.seqNo + 1, ts, event, payload, log.tail);
    Record(body, hash(body))
  }

  function Applied(hash: Body -> Digest, log: Log, op: Op): Log {
    match op
    case Append(ts, event, payload, diskOk) =>
      var r := NewRecord(hash, log, ts, event, payload);
      Log(if diskOk then log.file + [Entry(r)] else log.file, r.body.seqNo, r.hash)
    case Reload => Log(log.file, Loaded(log.file).0, Loaded(log.file).1)
  }

  function Run(hash: Body -> Digest, ops: seq<Op>): Log {
    if ops == [] then Log([], 0, GENESIS) else Applied(hash, Run(hash, ops[..|ops| - 1]), ops[|ops| - 1])
  }

  /** The last append failed to reach the file and nothing has reloaded it since. */
  ghost predicate Lagging(ops: seq<Op>) {
    ops != [] && var last := ops[|ops| - 1];
      (last.Append? && !last.diskOk) || (last.Append? && Lagging(ops[..|ops| - 1]))
  }

  /** A record was written while an earlier one was missing from the file. */
  ghost predicate Skipped(ops: seq<Op>) {
    ops != [] && var init, last := ops[..|ops| - 1], ops[|ops| - 1];
      Skipped(init) || (last.Append? && last.diskOk && Lagging(init))
  }

  ghost predicate Numbered(rs: seq<Record>) {
    forall i :: 0 <= i < |rs| ==> rs[i].body.seqNo == i + 1
  }

  /** The file is a sound chain numbered 1..n; the object is at its end, or ahead of it when lagging. */
  ghost predicate InStep(hash: Body -> Digest, log: Log, lagging: bool) {
    var rs := Records(log.file);
    && Corrupt !in log.file && Sound(hash, rs) && Numbered(rs)
    && (if lagging then log.seqNo > |rs| && exists b: Body :: b.seqNo == log.seqNo && log.tail == hash(b)
        else log.seqNo == |rs| && log.tail == TailOf(rs))
  }

  lemma {:induction false} LoadedMeans(hash: Body -> Digest, file: seq<Line>)
    requires GoodHash(hash) && Corrupt !in file && Sound(hash, Records(file)) && Numbered(Records(file))
    ensures Loaded(file) == (|Records(file)|, TailOf(Records(file)))
  {
    hide Sound;
    if file != [] {
      var init := file[..|file| - 1];
      Snoc(file);
      if file[|file| - 1].Entry? {
        SoundInit(hash, Records(init), file[|file| - 1].record);
        assert Records(file)[|Records(init)|] == file[|file| - 1].record;
        assert Numbered(Records(init)) by { assert forall i :: 0 <= i < |Records(init)| ==> Records(file)[i] == Records(init)[i]; }
      }
      LoadedMeans(hash, init);
    }
  }

  lemma EntryAppended(file: seq<Line>, r: Record)
    ensures Records(file + [Entry(r)]) == Records(file) + [r]
    ensures Corrupt in file + [Entry(r)] <==> Corrupt in file
  {
    assert (file + [Entry(r)])[..|file|] == file;
  }

  lemma AppendInStep(hash: Body -> Digest, log: Log, op: Op)
    requires GoodHash(hash) && InStep(hash, log, false) && op.Append? && op.diskOk
    ensures InStep(hash, Applied(hash, log, op), false)
  {
    hide Sound;
    var rs, r := Records(log.file), NewRecord(hash, log, op.ts, op.event, op.payload);
    EntryAppended(log.file, r);
    SoundInit(hash, rs, r);
  }

  /** Writing on top of a missing record leaves a broken link. */
  lemma LaggingBreaks(hash: Body -> Digest, log: Log, op: Op)
    requires GoodHash(hash) && InStep(hash, log, true) && op.Append? && op.diskOk
    ensures !Verifies(hash, Applied(hash, log, op).file)
  {
    hide Sound;
    var rs, r := Records(log.file), NewRecord(hash, log, op.ts, op.event, op.payload);
    EntryAppended(log.file, r);
    SoundInit(hash, rs, r);
    VerifiesExactly(hash, log.file + [Entry(r)]);
    var b: Body :| b.seqNo == log.seqNo && log.tail == hash(b);
    if rs != [] {
      LastDigest(hash, rs);
    }
  }

  lemma LastDigest(hash: Body -> Digest, rs: seq<Record>)
    requires Sound(hash, rs) && rs != []
    ensures TailOf(rs) == hash(rs[|rs| - 1].body)
  {
  }

  lemma ProblemsStay(hash: Body -> Digest, log: Log, op: Op)
    requires !Verifies(hash, log.file)
    ensures !Verifies(hash, Applied(hash, log, op).file)
  {
    if op.Append? && op.diskOk {
      var r := NewRecord(hash, log, op.ts, op.event, op.payload);
      assert (log.file + [Entry(r)])[..|log.file|] == log.file;
    }
  }

  /**
    The file verifies after a run of appends and reloads exactly when no record was ever written on
    top of one that had failed to reach the file. Then its numbers are 1..n without a gap.
   */
  lemma {:induction false} VerifiesUnlessSkipped(hash: Body -> Digest, ops: seq<Op>)
    requires GoodHash(hash)
    ensures Verifies(hash, Run(hash, ops).file) <==> !Skipped(ops)
    ensures !Skipped(ops) ==> InStep(hash, Run(hash, ops), Lagging(ops))
    ensures !Skipped(ops) ==> Numbered(Records(Run(hash, ops).file))
  {
    hide Verifies, Sound, GoodHash;
    if ops == [] {
      NothingSound(hash);
      VerifiesExactly(hash, []);
    } else {
      var init, last := ops[..|ops| - 1], ops[|ops| - 1];
      VerifiesUnlessSkipped(hash, init);
      var log := Run(hash, init);
      if Skipped(init) {
        ProblemsStay(hash, log, last);
      } else {
        if last.Reload? {
          LoadedMeans(hash, log.file);
        } else if last.diskOk {
          if Lagging(init) { LaggingBreaks(hash, log, last); } else { AppendInStep(hash, log, last); }
        }
        VerifiesExactly(hash, Run(hash, ops).file);
      }
    }
  }

  // ----- what the log says ----------------------------------------------------------------------------------

  /** What a caller logs. */
  datatype Note = Note(ts: string, event: string, payload: map<string, string>)

  /** The notes whose writing succeeded, in order. */
  function Logged(ops: seq<Op>): seq<Note> {
    if ops == [] then []
    else
      var init := Logged(ops[..|ops| - 1]);
      match ops[|ops| - 1]
      case Append(ts, event, payload, diskOk) => if diskOk then init + [Note(ts, event, payload)] else init
      case Reload => init
  }

  function Notes(rs: seq<Record>): (ns: seq<Note>) {
    seq(|rs|, i requires 0 <= i < |rs| => Note(rs[i].body.ts, rs[i].body.event, rs[i].body.payload))
  }

  /** An append to any log, whatever its state, adds its note if the disk allows and changes no other. */
  lemma NoteAdded(hash: Body -> Digest, log: Log, op: Op)
    ensures Notes(Records(Applied(hash, log, op).file)) == Notes(Records(log.file)) + Logged([op])
  {
    assert [op][..0] == [] && [op][|[op]| - 1] == op;
    assert Logged([]) == [];
    if op.Append? && op.diskOk {
      EntryAppended(log.file, NewRecord(hash, log, op.ts, op.event, op.payload));
    }
  }

  lemma NothingLogged()
    ensures Logged([]) == []
  {
  }

  lemma LoggedNext(ops: seq<Op>)
    requires ops != []
    ensures Logged(ops) == Logged(ops[..|ops| - 1]) + Logged([ops[|ops| - 1]])
  {
    var op := ops[|ops| - 1];
    assert [op][..0] == [] && [op][|[op]| - 1] == op;
    assert Logged([]) == [];
  }

  /**
    After any run, also one that breaks the chain, the log holds the times, events and payloads of exactly the
    appends whose write succeeded, in order.
   */
  lemma {:induction false} LogIsHistory(hash: Body -> Digest, ops: seq<Op>)
    ensures Notes(Records(Run(hash, ops).file)) == Logged(ops)
  {
    hide Applied, Logged;
    if ops == [] {
      NothingLogged();
    } else {
      var n := |ops| - 1;
      LogIsHistory(hash, ops[..n]);
      NoteAdded(hash, Run(hash, ops[..n]), ops[n]);
      LoggedNext(ops);
    }
  }

  /**
    The hash that a writer holds commits to everything that was logged: two runs in step with their files
    that end with the same hash logged the same times, events and payloads in the same order.
   */
  lemma TailCommitsToHistory(hash: Body -> Digest, ops: seq<Op>, ops': seq<Op>)
    requires GoodHash(hash) && !Skipped(ops) && !Skipped(ops') && !Lagging(ops) && !Lagging(ops')
    requires Run(hash, ops).tail == Run(hash, ops').tail
    ensures Logged(ops) == Logged(ops')
    ensures |Logged(ops)| == Run(hash, ops).seqNo == Run(hash, ops').seqNo
  {
    hide Run, Skipped, Lagging, Sound, GoodHash, Logged;
    VerifiesUnlessSkipped(hash, ops);
    VerifiesUnlessSkipped(hash, ops');
    SameTailSameRecords(hash, Records(Run(hash, ops).file), Records(Run(hash, ops').file));
    LogIsHistory(hash, ops);
    LogIsHistory(hash, ops');
  }

  // ----- which problems are reported ------------------------------------------------------------------------

  /** The records that a reader can follow from the genesis value: each links to the one followed before it. */
  function Followed(file: seq<Line>): seq<Record> {
    if file == [] then []
    else
      var init, line := Followed(file[..|file| - 1]), file[|file| - 1];
      if line.Entry? && line.record.body.prev == (if init == [] then GENESIS else init[|init| - 1].hash)
      then init + [line.record] else init
  }

  /** What is wrong with a line, told by the records followed up to it. */
  ghost predicate Flawed(hash: Body -> Digest, before: seq<Record>, line: Line, reason: Reason) {
    match reason
    case CorruptJson => line == Corrupt
    case BrokenLink => line.Entry? && line.record.body.prev != TailOf(before)
    case HashMismatch => line.Entry? && line.record.body.prev == TailOf(before) && line.record.hash != hash(line.record.body)
    case DuplicateSeq => line.Entry? && line.record.body.prev == TailOf(before) && line.record.body.seqNo in Numbers(before)
  }

  lemma {:induction false} WalkFollows(hash: Body -> Digest, file: seq<Line>)
    ensures Walked(hash, file).previous == TailOf(Followed(file))
    ensures Walked(hash, file).seen == Numbers(Followed(file))
  {
    hide Numbers;
    if file == [] {
      NothingSound(hash);
    } else {
      var init := file[..|file| - 1];
      WalkFollows(hash, init);
      if file[|file| - 1].Entry? { NumbersNext(Followed(init), file[|file| - 1].record); }
    }
  }

  /** A problem that `verify` may report: a flaw of some line, under the line's number. */
  ghost predicate Due(hash: Body -> Digest, file: seq<Line>, p: Problem) {
    1 <= p.line <= |file| && Flawed(hash, Followed(file[..p.line - 1]), file[p.line - 1], p.reason)
  }

  ghost predicate InOrder(ps: seq<Problem>) {
    forall i, j :: 0 <= i < j < |ps| ==> ps[i].line <= ps[j].line && ps[i] != ps[j]
  }

  lemma DueNext(hash: Body -> Digest, file: seq<Line>, p: Problem)
    requires file != []
    ensures var n := |file| - 1;
      Due(hash, file, p) <==>
        if p.line == n + 1 then Flawed(hash, Followed(file[..n]), file[n], p.reason) else Due(hash, file[..n], p)
  {
    hide Flawed, Followed;
    var n := |file| - 1;
    if 1 <= p.line <= n { assert file[..n][..p.line - 1] == file[..p.line - 1]; }
  }

  /** `verify` reports each flaw of each line once, under the line's number, line by line, and nothing else. */
  lemma {:induction false} ReportsExactly(hash: Body -> Digest, file: seq<Line>)
    ensures forall p :: p in Walked(hash, file).problems <==> Due(hash, file, p)
    ensures InOrder(Walked(hash, file).problems)
  {
    hide Flawed, Followed, Due, Checked, TailOf, Numbers;
    if file == [] {
      forall p ensures !Due(hash, [], p) { NothingDue(hash, p); }
    } else {
      var n := |file| - 1;
      ReportsExactly(hash, file[..n]);
      WalkFollows(hash, file[..n]);
      var w := Walked(hash, file[..n]);
      var ps, qs := w.problems, Walked(hash, file).problems;
      forall p | p in ps ensures p.line < n + 1 { DueEarlier(hash, file[..n], p); }
      LineReported(hash, w, Followed(file[..n]), file[n], n + 1);
      forall p ensures p in qs <==> Due(hash, file, p) {
        DueNext(hash, file, p);
        if p in ps { DueEarlier(hash, file[..n], p); }
      }
    }
  }

  lemma NothingDue(hash: Body -> Digest, p: Problem)
    ensures !Due(hash, [], p)
  {
  }

  lemma DueEarlier(hash: Body -> Digest, file: seq<Line>, p: Problem)
    requires Due(hash, file, p)
    ensures p.line <= |file|
  {
  }

  lemma LineReported(hash: Body -> Digest, w: Walk, before: seq<Record>, line: Line, number: nat)
    requires w.previous == TailOf(before) && w.seen == Numbers(before)
    requires InOrder(w.problems) && forall p :: p in w.problems ==> p.line < number
    ensures var ps, qs := w.problems, Checked(hash, w, line, number).problems;
      && InOrder(qs)
      && (forall p :: p in qs <==> p in ps || (p.line == number && Flawed(hash, before, line, p.reason)))
  {
    hide TailOf, Numbers, InOrder;
    var more := Found(hash, w, line, number);
    assert Checked(hash, w, line, number).problems == w.problems + more;
    OrderAppend(w.problems, more, number);
  }

  /** The problems that one line adds. */
  function Found(hash: Body -> Digest, w: Walk, line: Line, number: nat): (ps: seq<Problem>)
    ensures |ps| <= 2 && forall i :: 0 <= i < |ps| ==> ps[i].line == number
    ensures |ps| == 2 ==> ps[0] != ps[1]
  {
    match line
    case Blank => []
    case Corrupt => [Problem(number, CorruptJson)]
    case Entry(r) =>
      if r.body.prev != w.previous then [Problem(number, BrokenLink)]
      else
        (if r.hash != hash(r.body) then [Problem(number, HashMismatch)] else [])
        + (if r.body.seqNo in w.seen then [Problem(number, DuplicateSeq)] else [])
  }

  lemma OrderAppend(ps: seq<Problem>, more: seq<Problem>, number: nat)
    requires InOrder(ps) && |more| <= 2 && (|more| == 2 ==> more[0] != more[1])
    requires forall p :: p in ps ==> p.line < number
    requires forall i :: 0 <= i < |more| ==> more[i].line == number
    ensures InOrder(ps + more)
  {
  }

  class AuditChain {
    var file: seq<Line>
    var seqNo: int
    var tail: Digest
    const hash: Body -> Digest

    function State(): Log
      reads this
    {
      Log(file, seqNo, tail)
    }

    /** Opening a chain reads the counters off the file. */
    constructor (file: seq<Line>, hash: Body -> Digest)
      ensures this.hash == hash
      ensures State() == Log(file, Loaded(file).0, Loaded(file).1)
    {
      this.file, this.hash := file, hash;
      seqNo, tail := 0, GENESIS;
      new;
      for k := 0 to |file|
        invariant this.file == file && this.hash == hash
        invariant (seqNo, tail) == Loaded(file[..k])
      {
        assert file[..k + 1][..k] == file[..k];
        if file[k].Entry? {
          if file[k].record.body.seqNo > seqNo { seqNo := file[k].record.body.seqNo; }
          if file[k].record.hash.Full() { tail := file[k].record.hash; }
        }
      }
      assert file[..|file|] == file;
    }

    method AppendEvent(ts: string, event: string, payload: map<string, string>, diskOk: bool) returns (r: Record)
      modifies this
      ensures State() == Applied(hash, old(State()), Append(ts, event, payload, diskOk))
      ensures r == NewRecord(hash, old(State()), ts, event, payload)
    {
      seqNo := seqNo + 1;
      var body := Body(seqNo, ts, event, payload, tail);
      r := Record(body, hash(body));
      tail := r.hash;
      if diskOk { file := file + [Entry(r)]; }
    }

    method Verify() returns (problems: seq<Problem>)
      ensures problems == Walked(hash, file).problems
    {
      problems := [];
      var previous := GENESIS;
      var seen: set<int> := {};
      for k := 0 to |file|
        invariant Walked(hash, file[..k]) == Walk(previous, seen, problems)
      {
        assert file[..k + 1][..k] == file[..k];
        match file[k] {
          case Blank =>
          case Corrupt => problems := problems + [Problem(k + 1, CorruptJson)];
          case Entry(r) =>
            if r.body.prev != previous {
              problems := problems + [Problem(k + 1, BrokenLink)];
            } else {
              if r.hash != hash(r.body) { problems := problems + [Problem(k + 1, HashMismatch)]; }
              if r.body.seqNo in seen { problems := problems + [Problem(k + 1, DuplicateSeq)]; }
              seen := seen + {r.body.seqNo};
              previous := r.hash;
            }
        }
      }
      assert file[..|file|] == file;
    }
  }

  // ----- opening any file -----------------------------------------------------------------------------------

  /** The record at a place in the file, if the line there is one. */
  predicate RecordAt(file: seq<Line>, i: nat, r: Record) { i < |file| && file[i] == Entry(r) }

  /** A number is the highest that a record has, or 0 if none has a higher one. */
  ghost predicate Highest(file: seq<Line>, n: int) {
    && n >= 0
    && (forall i: nat, r :: RecordAt(file, i, r) ==> r.body.seqNo <= n)
    && (n > 0 ==> exists i: nat, r :: RecordAt(file, i, r) && r.body.seqNo == n)
  }

  /** A hash is the last well-formed one, or the genesis value if there is none. */
  ghost predicate LastHash(file: seq<Line>, hash: Digest) {
    || (exists i: nat, r :: RecordAt(file, i, r) && r.hash == hash && hash.Full()
                            && forall j: nat, q :: i < j && RecordAt(file, j, q) ==> !q.hash.Full())
    || (hash == GENESIS && forall i: nat, r :: RecordAt(file, i, r) ==> !r.hash.Full())
  }

  lemma RecordNext(file: seq<Line>)
    requires file != []
    ensures forall i: nat, r :: RecordAt(file, i, r) <==>
              RecordAt(file[..|file| - 1], i, r) || (i == |file| - 1 && file[i] == Entry(r))
  {
  }

  lemma HighestNext(file: seq<Line>, n: int)
    requires file != [] && Highest(file[..|file| - 1], n)
    ensures Highest(file, match file[|file| - 1] case Entry(r) => Max(n, r.body.seqNo) case _ => n)
  {
    RecordNext(file);
    var last := file[|file| - 1];
    if last.Entry? { assert RecordAt(file, |file| - 1, last.record); }
    if n > 0 {
      var i: nat, r :| RecordAt(file[..|file| - 1], i, r) && r.body.seqNo == n;
      assert RecordAt(file, i, r);
    }
  }

  lemma LastHashNext(file: seq<Line>, hash: Digest)
    requires file != [] && LastHash(file[..|file| - 1], hash)
    ensures LastHash(file, match file[|file| - 1] case Entry(r) => (if r.hash.Full() then r.hash else hash) case _ => hash)
  {
    hide Digest.Full;
    RecordNext(file);
    var n, last := |file| - 1, file[|file| - 1];
    hide RecordAt;
    if last.Entry? && last.record.hash.Full() {
      assert RecordAt(file, n, last.record);
      NoneBehind(file);
    } else if i: nat, r :| RecordAt(file[..n], i, r) && r.hash == hash && hash.Full()
                          && forall j: nat, q :: i < j && RecordAt(file[..n], j, q) ==> !q.hash.Full() {
      assert RecordAt(file, i, r);
    }
  }

  lemma NoneBehind(file: seq<Line>)
    ensures forall j: nat, q :: RecordAt(file, j, q) ==> j < |file|
  {
  }

  /**
    Opening any file, corrupt or not, and whatever its chain: the number is the highest one that a record has,
    and the tail is the last well-formed hash.
   */
  lemma {:induction false} LoadedExactly(file: seq<Line>)
    ensures Highest(file, Loaded(file).0) && LastHash(file, Loaded(file).1)
  {
    hide Highest, LastHash, Digest.Full;
    if file == [] {
      NothingLoaded();
    } else {
      LoadedExactly(file[..|file| - 1]);
      HighestNext(file, Loaded(file[..|file| - 1]).0);
      LastHashNext(file, Loaded(file[..|file| - 1]).1);
    }
  }

  lemma NothingLoaded()
    ensures Highest([], 0) && LastHash([], GENESIS)
  {
  }
}
