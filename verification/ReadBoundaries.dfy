/**
  Exactly which byte streams the deframer of `lora_transport.py` reads the same way however the port
  cuts them into reads.
 */
module ReadBoundaries {
  import opened Common
  import opened Bytes
  import opened Frames
  import opened SerialPipe
  import opened Deframing

  /** A run of reads in which no handler raises. */
  function Fully(d: Deframed, cuts: seq<seq<Byte>>): Deframed {
    if cuts == [] then d
    else
      var before := Fully(d, cuts[..|cuts| - 1]);
      var p := Parse(before.buf + cuts[|cuts| - 1]);
      Deframed(before.handed + p.handed, p.buf)
  }

  /** The stream as `_pump_receiver` may see it: reads of 1 to 256 bytes. */
  ghost predicate Cutting(cuts: seq<seq<Byte>>, stream: seq<Byte>) {
    Flat(cuts) == stream && forall i :: 0 <= i < |cuts| ==> 1 <= |cuts[i]| <= READ_SIZE
  }

  /** Handlers that raise stop a pump early; these limits are never reached. */
  ghost predicate Undisturbed(cuts: seq<seq<Byte>>, limits: seq<nat>) {
    |limits| == |cuts| && forall i :: 0 <= i < |cuts| ==> limits[i] > |Flat(cuts)|
  }

  function Unlimited(cuts: seq<seq<Byte>>): seq<nat> {
    seq(|cuts|, _ => |Flat(cuts)| + 1)
  }

  /** Whatever the cuts, as many pumps hand on the same frames and keep the same bytes. */
  ghost predicate Independent(stream: seq<Byte>) {
    forall a, la, b, lb ::
      Cutting(a, stream) && Undisturbed(a, la) && Cutting(b, stream) && Undisturbed(b, lb) ==>
        Fed(START, a, la) == Fed(START, b, lb)
  }

  /** `Fully` is the run of pumps in which every handler gets through; empty reads do nothing. */
  lemma {:induction false} FullyIsFed(cuts: seq<seq<Byte>>, limits: seq<nat>)
    requires Undisturbed(cuts, limits)
    ensures Fed(START, cuts, limits) == Fully(START, cuts)
    ensures |Fully(START, cuts).buf| <= |Flat(cuts)|
    ensures var buf := Fully(START, cuts).buf; Parse(buf) == Deframed([], buf)
  {
    hide Parse, ParseSome;
    if cuts == [] {
      ParseNothing();
    } else {
      var n := |cuts| - 1;
      FullyIsFed(cuts[..n], limits[..n]);
      var buf := Fully(START, cuts[..n]).buf;
      NoLimit(buf + cuts[n], limits[n]);
      ParseShrinks(buf + cuts[n]);
      ParseDone(buf + cuts[n]);
      if cuts[n] == [] {
        assert buf + cuts[n] == buf;
      }
    }
  }

  /** What a parse keeps holds no frame and no impossible length. */
  lemma {:induction false} ParseDone(s: seq<Byte>)
    ensures var buf := Parse(s).buf; Parse(buf) == Deframed([], buf)
    decreases |s|
  {
    if Oversized(s) {
      ParseNothing();
    } else if Complete(s) {
      ParseDone(Beyond(s));
    }
  }

  lemma {:induction false} ParseShrinks(s: seq<Byte>)
    ensures |Parse(s).buf| <= |s|
    decreases |s|
  {
    if Complete(s) {
      ParseShrinks(Beyond(s));
    }
  }

  // ----- streams that are read the same way ----------------------------------------------------------------

  lemma {:induction false} SaneFully(cuts: seq<seq<Byte>>)
    requires Sane(Flat(cuts))
    ensures Fully(START, cuts) == Parse(Flat(cuts))
  {
    hide Sane, Parse;
    if cuts == [] {
      ParseNothing();
    } else {
      var n := |cuts| - 1;
      SanePrefix(Flat(cuts[..n]), cuts[n]);
      SaneFully(cuts[..n]);
      ParseContinues(Flat(cuts[..n]), cuts[n]);
    }
  }

  lemma ParseNothing()
    ensures Parse([]) == START && Sane([])
  {
  }

  lemma {:induction false} ParseContinuesToEnd(a: seq<Byte>, b: seq<Byte>)
    requires EndsOversized(a + b) && b != []
    ensures Sane(a)
    ensures Parse(a + b) == Deframed(Parse(a).handed + Parse(Parse(a).buf + b).handed, Parse(Parse(a).buf + b).buf)
    decreases |a|
  {
    hide Oversized, Complete, FirstFrame, Beyond, EndsOversized;
    Short(a);
    EndsUnfold(a + b);
    if Complete(a) {
      CompleteExtends(a, b);
      Short(a + b);
      ParseContinuesToEnd(Beyond(a), b);
    } else if Oversized(a) {
      CompleteExtends(a, b);
    }
  }

  lemma EndsUnfold(s: seq<Byte>)
    requires EndsOversized(s)
    ensures if Oversized(s) then |s| == LEN_SIZE else Complete(s) && EndsOversized(Beyond(s))
  {
  }

  lemma EndsFully(cuts: seq<seq<Byte>>, stream: seq<Byte>)
    requires Cutting(cuts, stream) && EndsOversized(stream)
    ensures Fully(START, cuts) == Parse(stream)
  {
    hide Sane, Parse;
    EndsSomewhere(stream);
    var n := |cuts| - 1;
    var before, last := Flat(cuts[..n]), cuts[n];
    ParseContinuesToEnd(before, last);
    SaneFully(cuts[..n]);
  }

  lemma EndsSomewhere(s: seq<Byte>)
    requires EndsOversized(s)
    ensures s != []
  {
  }

  // ----- streams that are not ------------------------------------------------------------------------------

  /** Whole frames, then an impossible length with at least one byte behind it. */
  lemma {:induction false} FindOversized(s: seq<Byte>) returns (p: seq<Byte>, o: seq<Byte>)
    requires !Sane(s) && !EndsOversized(s)
    ensures s == p + o && Sane(p) && Parse(p).buf == [] && Oversized(o) && |o| > LEN_SIZE
    decreases |s|
  {
    if Oversized(s) {
      p, o := [], s;
    } else {
      var p', o' := FindOversized(Beyond(s));
      var k := |s| - |Beyond(s)|;
      p, o := s[..k] + p', o';
      assert s == s[..k] + Beyond(s);
      assert s[..k] + (p' + o') == p + o';
      HeadThenRest(s, k, p');
    }
  }

  lemma HeadThenRest(s: seq<Byte>, k: nat, p: seq<Byte>)
    requires Complete(s) && !Oversized(s) && k == |s| - |Beyond(s)| && Sane(p)
    ensures Sane(s[..k] + p) && Parse(s[..k] + p).buf == Parse(p).buf
  {
    var a := s[..k];
    assert a[..LEN_SIZE] == s[..LEN_SIZE];
    assert Complete(a) && Beyond(a) == [];
    CompleteExtends(a, p);
    assert Beyond(a + p) == p;
  }

  function Singles(t: seq<Byte>): seq<seq<Byte>> {
    if t == [] then [] else Singles(t[..|t| - 1]) + [[t[|t| - 1]]]
  }

  lemma {:induction false} SinglesCut(t: seq<Byte>)
    ensures Cutting(Singles(t), t)
  {
    if t != [] {
      Snoc(t);
      SinglesCut(t[..|t| - 1]);
      var init := Singles(t[..|t| - 1]);
      assert Singles(t)[..|init|] == init;
    }
  }

  lemma {:induction false} FullyConcat(d: Deframed, a: seq<seq<Byte>>, b: seq<seq<Byte>>)
    ensures Fully(d, a + b) == Fully(Fully(d, a), b)
    decreases |b|
  {
    hide Parse;
    if b == [] {
      assert a + b == a;
    } else {
      var n := |b| - 1;
      assert (a + b)[..|a| + n] == a + b[..n];
      FullyConcat(d, a, b[..n]);
    }
  }

  /** Frames handed on earlier do not influence what follows. */
  lemma {:induction false} FullyFrom(fs: seq<Frame>, cuts: seq<seq<Byte>>)
    ensures Fully(Deframed(fs, []), cuts) == Deframed(fs + Fully(START, cuts).handed, Fully(START, cuts).buf)
  {
    hide Parse;
    if cuts == [] {
      assert fs + [] == fs;
    } else {
      var n := |cuts| - 1;
      FullyFrom(fs, cuts[..n]);
      var g := Fully(START, cuts[..n]);
      var p := Parse(g.buf + cuts[n]).handed;
      assert fs + (g.handed + p) == (fs + g.handed) + p;
    }
  }

  function Weight(fs: seq<Frame>): nat {
    if fs == [] then 0 else Weight(fs[..|fs| - 1]) + LEN_SIZE + |fs[|fs| - 1]|
  }

  ghost predicate Stuck(buf: seq<Byte>) { !Complete(buf) && !Oversized(buf) }

  /** One more byte: wait, hand on exactly what is buffered, or drop exactly four bytes. */
  lemma OneByte(buf: seq<Byte>, b: Byte)
    requires Stuck(buf)
    ensures var u := buf + [b];
      || (Stuck(u) && Parse(u) == Deframed([], u))
      || (Complete(u) && Parse(u) == Deframed([FirstFrame(u)], []) && |FirstFrame(u)| + LEN_SIZE == |u|)
      || (Oversized(u) && Parse(u) == START && |u| == LEN_SIZE)
  {
    var u := buf + [b];
    if |buf| >= LEN_SIZE {
      CompleteExtends(buf, [b]);
      assert u[..LEN_SIZE] == buf[..LEN_SIZE];
    }
    if Complete(u) {
      assert Beyond(u) == [];
      ParseNothing();
    }
  }

  /** Read byte by byte, a stream is its frames, its remainder, and some dropped groups of four bytes. */
  lemma {:induction false} CountBytes(t: seq<Byte>) returns (dropped: nat)
    ensures var g := Fully(START, Singles(t));
      Stuck(g.buf) && |t| == Weight(g.handed) + |g.buf| + 4 * dropped
  {
    hide Parse, Complete, Oversized, FirstFrame;
    NoBytes();
    if t == [] {
      dropped := 0;
    } else {
      var n := |t| - 1;
      dropped := CountBytes(t[..n]);
      var g := Fully(START, Singles(t[..n]));
      SinglesNext(t);
      OneByte(g.buf, t[n]);
      var u := g.buf + [t[n]];
      Short(u);
      if Complete(u) {
        WeightNext(g.handed, FirstFrame(u));
      } else {
        assert g.handed + [] == g.handed;
        if Oversized(u) { dropped := dropped + 1; }
      }
    }
  }

  lemma SinglesNext(t: seq<Byte>)
    requires t != []
    ensures var n := |t| - 1;
      var g := Fully(START, Singles(t[..n]));
      var u := g.buf + [t[n]];
      Fully(START, Singles(t)) == Deframed(g.handed + Parse(u).handed, Parse(u).buf)
  {
    hide Parse;
    var n := |t| - 1;
    assert Singles(t)[..|Singles(t[..n])|] == Singles(t[..n]);
  }

  lemma WeightNext(fs: seq<Frame>, f: Frame)
    ensures Weight(fs + [f]) == Weight(fs) + LEN_SIZE + |f|
  {
    assert (fs + [f])[..|fs|] == fs;
  }

  /** Behind an impossible length, reading one byte more or less before the buffer is dropped makes a difference. */
  lemma SuffixesDiffer(x: Byte, r: seq<Byte>)
    ensures Fully(START, Singles([x] + r)) != Fully(START, Singles(r))
  {
    var a := CountBytes([x] + r);
    var b := CountBytes(r);
    assert forall m: int, n: int :: 4 * m + 1 != 4 * n;
  }

  /** The reads: p and three bytes one by one, the next k - 3 bytes at once, the rest one by one. */
  function DropCuts(p: seq<Byte>, o: seq<Byte>, k: nat): seq<seq<Byte>>
    requires LEN_SIZE <= k <= |o|
  {
    Singles(p + o[..3]) + [o[3..k]] + Singles(o[k..])
  }

  lemma DropCutting(p: seq<Byte>, o: seq<Byte>, k: nat)
    requires LEN_SIZE <= k <= |o| && k - 3 <= READ_SIZE
    ensures Cutting(DropCuts(p, o, k), p + o)
  {
    hide Singles;
    SinglesCut(p + o[..3]);
    SinglesCut(o[k..]);
    CuttingsJoin(Singles(p + o[..3]), p + o[..3], [o[3..k]], o[3..k]);
    CuttingsJoin(Singles(p + o[..3]) + [o[3..k]], p + o[..3] + o[3..k], Singles(o[k..]), o[k..]);
    assert (p + o[..3]) + o[3..k] + o[k..] == p + o;
  }

  lemma CuttingsJoin(a: seq<seq<Byte>>, s: seq<Byte>, b: seq<seq<Byte>>, t: seq<Byte>)
    requires Cutting(a, s) && (Cutting(b, t) || (b == [t] && 1 <= |t| <= READ_SIZE))
    ensures Cutting(a + b, s + t)
  {
    if b == [t] { assert Flat([t]) == t; }
    FlatConcat(a, b);
  }

  lemma BeforeDrop(p: seq<Byte>, q: seq<Byte>)
    requires Sane(p) && Parse(p).buf == [] && |q| == 3
    ensures Fully(START, Singles(p + q)) == Deframed(Parse(p).handed, q)
  {
    hide Sane, Parse;
    ThreeBytes(q);
    SaneAgain(p, q);
    SinglesCut(p + q);
    SaneFully(Singles(p + q));
    ParseContinues(p, q);
    assert [] + q == q && Parse(p).handed + [] == Parse(p).handed;
  }

  /** The read that completes the impossible length drops the buffer, with whatever else it brought. */
  lemma DropThen(p: seq<Byte>, o: seq<Byte>, k: nat)
    requires Sane(p) && Parse(p).buf == [] && Oversized(o) && LEN_SIZE <= k <= |o|
    ensures Fully(START, DropCuts(p, o, k))
         == Deframed(Parse(p).handed + Fully(START, Singles(o[k..])).handed, Fully(START, Singles(o[k..])).buf)
  {
    hide Sane, Parse, Oversized;
    var first, cut := Singles(p + o[..3]), o[3..k];
    BeforeDrop(p, o[..3]);
    Dropped(o, k);
    assert (first + [cut])[..|first|] == first;
    assert o[..3] + cut == o[..k];
    assert Fully(START, first + [cut]) == Deframed(Parse(p).handed + [], []);
    assert Parse(p).handed + [] == Parse(p).handed;
    FullyConcat(START, first + [cut], Singles(o[k..]));
    FullyFrom(Parse(p).handed, Singles(o[k..]));
  }

  lemma ThreeBytes(q: seq<Byte>)
    requires |q| == 3
    ensures Sane(q) && Parse(q) == Deframed([], q) && Sane([] + q)
  {
    assert [] + q == q;
  }

  lemma Dropped(o: seq<Byte>, k: nat)
    requires Oversized(o) && LEN_SIZE <= k <= |o|
    ensures Parse(o[..k]) == START
  {
    assert o[..k][..LEN_SIZE] == o[..LEN_SIZE];
  }

  lemma {:induction false} NotIndependent(stream: seq<Byte>)
    requires !Sane(stream) && !EndsOversized(stream)
    ensures !Independent(stream)
  {
    hide Sane, Parse, Oversized, EndsOversized, Fully, Fed, DropCuts, Cutting, Singles;
    var p, o := FindOversized(stream);
    DropThen(p, o, 4);
    DropThen(p, o, 5);
    DropCutting(p, o, 4);
    DropCutting(p, o, 5);
    assert o[4..] == [o[4]] + o[5..];
    SuffixesDiffer(o[4], o[5..]);
    CancelLeft(Parse(p).handed, Fully(START, Singles(o[4..])).handed, Fully(START, Singles(o[5..])).handed);
    var a, b := DropCuts(p, o, 4), DropCuts(p, o, 5);
    assert Fully(START, a) != Fully(START, b);
    assert Undisturbed(a, Unlimited(a)) && Undisturbed(b, Unlimited(b));
    FullyIsFed(a, Unlimited(a));
    FullyIsFed(b, Unlimited(b));
  }

  lemma CancelLeft<T>(a: seq<T>, b: seq<T>, c: seq<T>)
    ensures a + b == a + c ==> b == c
  {
    if a + b == a + c {
      assert b == (a + b)[|a|..] && c == (a + c)[|a|..];
    }
  }

  /**
    A stream is deframed the same way under every choice of read boundaries exactly when its parse meets
    no impossible length, or meets one only in its last four bytes.
   */
  lemma IndependentExactly(stream: seq<Byte>)
    ensures Independent(stream) <==> Sane(stream) || EndsOversized(stream)
  {
    hide Sane, EndsOversized, Parse, Fed, Fully;
    if Sane(stream) || EndsOversized(stream) {
      forall a, la | Cutting(a, stream) && Undisturbed(a, la) ensures Fed(START, a, la) == Parse(stream) {
        FullyIsFed(a, la);
        if Sane(stream) { SaneFully(a); } else { EndsFully(a, stream); }
      }
    } else {
      NotIndependent(stream);
    }
  }
}
