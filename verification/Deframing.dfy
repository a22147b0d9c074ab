/**
  The incremental deframer of `_pump_receiver` in `lora_transport.py`: four bytes of length, then the
  frame; an impossible length drops the whole buffer.
 */
module Deframing {
  import opened Common
  import opened Bytes
  import opened Frames
  import opened SerialPipe

  const LEN_SIZE := 4
  const MAX_FRAME := 65535
  const READ_SIZE := 256

  /** Frames handed on, in order, and the bytes still in the buffer. */
  datatype Deframed = Deframed(handed: seq<Frame>, buf: seq<Byte>)

  function Announced(buf: seq<Byte>): nat
    requires |buf| >= LEN_SIZE
  {
    UnpackBE(buf[..LEN_SIZE])
  }

  predicate Oversized(buf: seq<Byte>) { |buf| >= LEN_SIZE && Announced(buf) > MAX_FRAME }

  predicate Complete(buf: seq<Byte>) {
    |buf| >= LEN_SIZE && Announced(buf) <= MAX_FRAME && Announced(buf) + LEN_SIZE <= |buf|
  }

  function FirstFrame(buf: seq<Byte>): Frame
    requires Complete(buf)
  {
    buf[LEN_SIZE..Announced(buf) + LEN_SIZE]
  }

  function Beyond(buf: seq<Byte>): (r: seq<Byte>)
    requires Complete(buf)
    ensures |r| + |FirstFrame(buf)| + LEN_SIZE == |buf|
  {
    buf[Announced(buf) + LEN_SIZE..]
  }

  /** The loop over the buffer, left after `limit` frames because handling the last of them raised. */
  function ParseSome(buf: seq<Byte>, limit: nat): Deframed
    decreases |buf|
  {
    if limit == 0 then Deframed([], buf)
    else if Oversized(buf) then Deframed([], [])
    else if !Complete(buf) then Deframed([], buf)
    else
      var rest := ParseSome(Beyond(buf), limit - 1);
      Deframed([FirstFrame(buf)] + rest.handed, rest.buf)
  }

  /** The loop when no handler raises. */
  function Parse(buf: seq<Byte>): Deframed
    decreases |buf|
  {
    if Oversized(buf) then Deframed([], [])
    else if !Complete(buf) then Deframed([], buf)
    else
      var rest := Parse(Beyond(buf));
      Deframed([FirstFrame(buf)] + rest.handed, rest.buf)
  }

  /** One `_pump_receiver`: an empty read leaves everything as it is. */
  function Pumped(d: Deframed, chunk: seq<Byte>, limit: nat): Deframed {
    if chunk == [] then d
    else
      var p := ParseSome(d.buf + chunk, limit);
      Deframed(d.handed + p.handed, p.buf)
  }

  /** A run of reads; `limits[k]` says how far the handlers of read k got. */
  function Fed(d: Deframed, cuts: seq<seq<Byte>>, limits: seq<nat>): Deframed
    requires |limits| == |cuts|
  {
    if cuts == [] then d
    else
      var n := |cuts| - 1;
      Pumped(Fed(d, cuts[..n], limits[..n]), cuts[n], limits[n])
  }

  const START := Deframed([], [])

  class Receiver {
    var recvBuf: seq<Byte>
    ghost var handed: seq<Frame>

    constructor ()
      ensures State() == START
    {
      recvBuf, handed := [], [];
    }

    ghost function State(): Deframed
      reads this
    {
      Deframed(handed, recvBuf)
    }

    method PumpReceiver(chunk: seq<Byte>, limit: nat) returns (frames: seq<Frame>)
      requires limit >= 1
      modifies this
      ensures State() == Pumped(old(State()), chunk, limit)
      ensures handed == old(handed) + frames
    {
      hide UnpackBE;
      frames := [];
      if chunk == [] { return; }
      recvBuf := recvBuf + chunk;
      ghost var all := recvBuf;
      var left := limit;
      while |recvBuf| >= LEN_SIZE && left > 0
        invariant left + |frames| == limit
        invariant handed == old(handed)
        invariant ParseSome(all, limit)
               == Deframed(frames + ParseSome(recvBuf, left).handed, ParseSome(recvBuf, left).buf)
        decreases |recvBuf|
      {
        var length := UnpackBE(recvBuf[..LEN_SIZE]);
        if length > MAX_FRAME {
          recvBuf := [];
          break;
        }
        if length + LEN_SIZE > |recvBuf| { break; }
        ghost var before, more := frames, ParseSome(recvBuf[length + LEN_SIZE..], left - 1).handed;
        var frame := recvBuf[LEN_SIZE..length + LEN_SIZE];
        recvBuf := recvBuf[length + LEN_SIZE..];
        frames, left := frames + [frame], left - 1;
        assert before + ([frame] + more) == (before + [frame]) + more;
      }
      handed := handed + frames;
    }
  }

  // ----- read boundaries do not matter, as long as no length is impossible ----------------------------

  /** The parse never meets an impossible length. */
  ghost predicate Sane(s: seq<Byte>)
    decreases |s|
  {
    !Oversized(s) && (Complete(s) ==> Sane(Beyond(s)))
  }

  /** The parse meets one, and it is the very end of the stream. */
  ghost predicate EndsOversized(s: seq<Byte>)
    decreases |s|
  {
    if Oversized(s) then |s| == LEN_SIZE else Complete(s) && EndsOversized(Beyond(s))
  }

  /** A frame that is complete stays the first frame when more bytes follow. */
  lemma CompleteExtends(a: seq<Byte>, b: seq<Byte>)
    requires |a| >= LEN_SIZE
    ensures Oversized(a + b) <==> Oversized(a)
    ensures Complete(a) ==> Complete(a + b) && FirstFrame(a + b) == FirstFrame(a) && Beyond(a + b) == Beyond(a) + b
  {
    assert (a + b)[..LEN_SIZE] == a[..LEN_SIZE];
  }

  /** Parsing what is left together with what follows continues the parse. */
  lemma {:induction false} ParseContinues(a: seq<Byte>, b: seq<Byte>)
    requires Sane(a + b)
    ensures Sane(a) && Sane(Parse(a).buf + b)
    ensures Parse(a + b) == Deframed(Parse(a).handed + Parse(Parse(a).buf + b).handed, Parse(Parse(a).buf + b).buf)
    decreases |a|
  {
    hide Oversized, Complete, FirstFrame, Beyond;
    Short(a);
    if Complete(a) {
      CompleteExtends(a, b);
      ParseContinues(Beyond(a), b);
    } else if Oversized(a) {
      CompleteExtends(a, b);
    }
  }

  lemma Short(a: seq<Byte>)
    ensures Complete(a) || Oversized(a) ==> |a| >= LEN_SIZE
    ensures Complete(a) ==> |Beyond(a)| < |a|
    ensures !(Complete(a) && Oversized(a))
  {
  }

  /** Stopping early hands on a first part of the frames and leaves the rest in the buffer. */
  lemma {:induction false} ParseSomeContinues(s: seq<Byte>, limit: nat)
    requires Sane(s)
    ensures var p := ParseSome(s, limit);
      Sane(p.buf) && Parse(s) == Deframed(p.handed + Parse(p.buf).handed, Parse(p.buf).buf)
    decreases |s|
  {
    hide Oversized, Complete, FirstFrame, Beyond;
    Short(s);
    if limit > 0 && Complete(s) {
      ParseSomeContinues(Beyond(s), limit - 1);
    }
  }

  /** What has been handed on, with the frames still whole in the buffer, is the parse of all bytes so far. */
  ghost predicate Faithful(d: Deframed, stream: seq<Byte>) {
    Sane(d.buf) && Parse(stream) == Deframed(d.handed + Parse(d.buf).handed, Parse(d.buf).buf)
  }

  lemma PumpFaithful(d: Deframed, stream: seq<Byte>, chunk: seq<Byte>, limit: nat)
    requires Sane(stream + chunk) && Faithful(d, stream)
    ensures Faithful(Pumped(d, chunk, limit), stream + chunk)
  {
    hide Oversized, Complete, FirstFrame, Beyond, ParseSome;
    if chunk == [] {
      assert stream + chunk == stream;
    } else {
      ParseContinues(stream, chunk);
      SaneAgain(d.buf, chunk);
      ParseContinues(d.buf, chunk);
      ParseSomeContinues(d.buf + chunk, limit);
      var p, last := ParseSome(d.buf + chunk, limit), Parse(Parse(d.buf).buf + chunk).handed;
      Regroup(d.handed, Parse(d.buf).handed, last, p.handed, Parse(p.buf).handed);
    }
  }

  lemma Regroup<T>(a: seq<T>, b: seq<T>, c: seq<T>, d: seq<T>, e: seq<T>)
    requires b + c == d + e
    ensures (a + b) + c == (a + d) + e
  {
    assert (a + b) + c == a + (b + c);
    assert (a + d) + e == a + (d + e);
  }

  /** Sanity of the remainder of a buffer, with more bytes, is sanity of the buffer with those bytes. */
  lemma {:induction false} SaneAgain(a: seq<Byte>, b: seq<Byte>)
    requires Sane(a) && Sane(Parse(a).buf + b)
    ensures Sane(a + b)
    decreases |a|
  {
    hide Oversized, Complete, FirstFrame, Beyond;
    Short(a);
    if Complete(a) {
      CompleteExtends(a, b);
      SaneAgain(Beyond(a), b);
    }
  }

  lemma SanePrefix(a: seq<Byte>, b: seq<Byte>)
    requires Sane(a + b)
    ensures Sane(a)
  {
    ParseContinues(a, b);
  }

  /**
    For a stream without impossible lengths, whatever the read boundaries and wherever handlers raised:
    the frames handed on so far, followed by those still whole in the buffer, are the frames of the
    stream, in order; the incomplete remainder is kept.
   */
  lemma {:induction false} BoundariesDoNotMatter(cuts: seq<seq<Byte>>, limits: seq<nat>)
    requires |limits| == |cuts| && Sane(Flat(cuts))
    ensures Faithful(Fed(START, cuts, limits), Flat(cuts))
  {
    hide Sane, Parse, Pumped;
    if cuts == [] {
      EmptyFaithful();
    } else {
      var n := |cuts| - 1;
      SanePrefix(Flat(cuts[..n]), cuts[n]);
      BoundariesDoNotMatter(cuts[..n], limits[..n]);
      var d := Fed(START, cuts[..n], limits[..n]);
      PumpFaithful(d, Flat(cuts[..n]), cuts[n], limits[n]);
    }
  }

  lemma EmptyFaithful()
    ensures Faithful(START, [])
  {
  }

  // ----- what the sender writes -------------------------------------------------------------------------

  /** A length-prefixed frame on the wire. */
  function Wrapped(f: Frame): seq<Byte>
    requires |f| <= MAX_FRAME
  {
    FieldWidths();
    PackBE(|f|, 4) + f
  }

  ghost predicate AllFit(fs: seq<Frame>) { forall i :: 0 <= i < |fs| ==> |fs[i]| <= MAX_FRAME }

  function Wire(fs: seq<Frame>): seq<Byte>
    requires forall i :: 0 <= i < |fs| ==> |fs[i]| <= MAX_FRAME
  {
    if fs == [] then [] else Wrapped(fs[0]) + Wire(fs[1..])
  }

  lemma WrappedIsComplete(f: Frame, rest: seq<Byte>)
    requires |f| <= MAX_FRAME
    ensures var s := Wrapped(f) + rest;
      Complete(s) && !Oversized(s) && FirstFrame(s) == f && Beyond(s) == rest
  {
    FieldWidths();
    UnpackPack(|f|, 4);
    var s := Wrapped(f) + rest;
    assert s[..4] == PackBE(|f|, 4);
  }

  /** The parse of written frames is those frames, with nothing left over. */
  lemma {:induction false} ParseWire(fs: seq<Frame>)
    requires AllFit(fs)
    ensures Sane(Wire(fs)) && Parse(Wire(fs)) == Deframed(fs, [])
  {
    hide Wrapped, Oversized, Complete, FirstFrame, Beyond;
    if fs == [] {
      NoBytes();
    } else {
      WrappedIsComplete(fs[0], Wire(fs[1..]));
      ParseWire(fs[1..]);
      assert fs == [fs[0]] + fs[1..];
    }
  }

  lemma NoBytes()
    ensures !Complete([]) && !Oversized([])
  {
  }

  lemma {:induction false} NoLimit(s: seq<Byte>, limit: nat)
    requires limit > |s|
    ensures ParseSome(s, limit) == Parse(s)
    decreases |s|
  {
    if Complete(s) {
      NoLimit(Beyond(s), limit - 1);
    }
  }
}
