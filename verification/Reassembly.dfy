/**
  Reassembly of segmented frames (`defragment` of `protocol.py`): the functional reading of the
  code, the loop that computes it, and the split/reassemble round trip under reordering,
  duplication and loss.
 */
module Reassembly {
  import opened Common
  import opened Bytes
  import opened Frames

  /** Every header, or the first header error in list order. */
  function PeekAll(chunks: seq<Frame>): (r: Result<seq<Head>, WireError>)
    ensures r.Ok? ==> |r.value| == |chunks|
  {
    if chunks == [] then Ok([])
    else
      var init :- PeekAll(chunks[..|chunks| - 1]);
      var last :- PeekHeader(chunks[|chunks| - 1]);
      Ok(init + [last])
  }

  /** The first frame whose segmented flag is clear. */
  function FirstComplete(chunks: seq<Frame>, heads: seq<Head>): (r: Option<Frame>)
    requires |heads| == |chunks|
  {
    if chunks == [] then None
    else if !heads[0].Segmented() then Some(chunks[0])
    else FirstComplete(chunks[1..], heads[1..])
  }

  /** What the collecting loop has learned so far. */
  datatype Collected = Collected(meta: Option<(Byte, nat)>, pieces: map<nat, Frame>)

  ghost predicate InRange(c: Collected) {
    && (c.meta.None? ==> c.pieces == map[])
    && (c.meta.Some? ==> forall i :: i in c.pieces ==> i < c.meta.value.0)
  }

  /** One turn of the collecting loop. */
  function Absorb(c: Collected, key: MessageKey, frame: Frame, head: Head): (r: Result<Collected, WireError>)
    requires |frame| >= HEADER_LEN
    ensures r.Ok? && InRange(c) ==> InRange(r.value) && r.value.meta.Some?
  {
    if head.Key() != key then Err(MixedFrames)
    else if |frame| < SEG_OVERHEAD then Err(PrefixTruncated)
    else
      var idx, count, plen := frame[16], frame[17], UnpackBE(frame[18..22]);
      var meta := if c.meta.None? then (count, plen) else c.meta.value;
      if count != meta.0 || plen != meta.1 then Err(InconsistentMetadata)
      else if idx >= meta.0 then Err(IndexOutOfRange)
      else
        var i: nat := idx;
        Ok(Collected(Some(meta), if i in c.pieces then c.pieces else c.pieces[i := frame[SEG_OVERHEAD..]]))
  }

  function Collect(chunks: seq<Frame>, heads: seq<Head>, key: MessageKey): (r: Result<Collected, WireError>)
    requires |heads| == |chunks|
    requires forall k :: 0 <= k < |chunks| ==> |chunks[k]| >= HEADER_LEN
    ensures r.Ok? ==> InRange(r.value) && (chunks != [] ==> r.value.meta.Some?)
  {
    if chunks == [] then Ok(Collected(None, map[]))
    else
      var n := |chunks| - 1;
      var c :- Collect(chunks[..n], heads[..n], key);
      Absorb(c, key, chunks[n], heads[n])
  }

  function Join<T>(pieces: map<nat, seq<T>>, n: nat): seq<T>
    requires forall i :: 0 <= i < n ==> i in pieces
  {
    if n == 0 then [] else Join(pieces, n - 1) + pieces[n - 1]
  }

  /** The whole of `defragment` as a function of its input list. */
  function Reassembled(chunks: seq<Frame>): (r: Result<Option<Frame>, WireError>)
  {
    if chunks == [] then Ok(None)
    else
      var heads :- PeekAll(chunks);
      var complete := FirstComplete(chunks, heads);
      if complete.Some? then Ok(complete)
      else
        PeekedLengths(chunks);
        var c :- Collect(chunks, heads, heads[0].Key());
        if |c.pieces| < c.meta.value.0 then Ok(None)
        else
          FullPrefix(c.pieces.Keys, c.meta.value.0);
          var payload := Join(c.pieces, c.meta.value.0);
          if |payload| != c.meta.value.1 then Err(TotalMismatch)
          else
            assert heads[0].Valid() by { PeekAllAt(chunks, 0); }
            CollectedTotal(chunks, heads, heads[0].Key());
            Ok(Some(PackHeader(heads[0].(flags := ClearSegmented(heads[0].flags), plen := c.meta.value.1)) + payload))
  }

  lemma {:induction false} PeekAllAt(chunks: seq<Frame>, k: nat)
    requires PeekAll(chunks).Ok? && k < |chunks|
    ensures PeekHeader(chunks[k]) == Ok(PeekAll(chunks).value[k])
  {
    var n := |chunks| - 1;
    if k < n {
      PeekAllAt(chunks[..n], k);
    }
  }

  lemma PeekedLengths(chunks: seq<Frame>)
    requires PeekAll(chunks).Ok?
    ensures forall k :: 0 <= k < |chunks| ==> |chunks[k]| >= HEADER_LEN
  {
    forall k | 0 <= k < |chunks| ensures |chunks[k]| >= HEADER_LEN { PeekAllAt(chunks, k); }
  }

  lemma {:induction false} CollectedTotal(chunks: seq<Frame>, heads: seq<Head>, key: MessageKey)
    requires |heads| == |chunks|
    requires forall k :: 0 <= k < |chunks| ==> |chunks[k]| >= HEADER_LEN
    requires Collect(chunks, heads, key).Ok? && chunks != []
    ensures Collect(chunks, heads, key).value.meta.value.1 < 0x1_0000_0000
  {
    var n := |chunks| - 1;
    FieldWidths();
    if n > 0 {
      CollectedTotal(chunks[..n], heads[..n], key);
    }
  }

  /** `defragment`, as the code runs it: peek at all, look for a complete frame, collect, join. */
  method Defragment(chunks: seq<Frame>) returns (r: Result<Option<Frame>, WireError>)
    ensures r == Reassembled(chunks)
  {
    if chunks == [] { return Ok(None); }
    var heads :- PeekEvery(chunks);
    var complete := FindComplete(chunks, heads);
    if complete.Some? { return Ok(complete); }
    PeekedLengths(chunks);
    var c :- CollectEvery(chunks, heads, heads[0].Key());
    if |c.pieces| < c.meta.value.0 { return Ok(None); }
    FullPrefix(c.pieces.Keys, c.meta.value.0);
    var payload := JoinUp(c.pieces, c.meta.value.0);
    if |payload| != c.meta.value.1 { return Err(TotalMismatch); }
    PeekAllAt(chunks, 0);
    CollectedTotal(chunks, heads, heads[0].Key());
    var header := PackHeader(heads[0].(flags := ClearSegmented(heads[0].flags), plen := c.meta.value.1));
    return Ok(Some(header + payload));
  }

  method PeekEvery(chunks: seq<Frame>) returns (r: Result<seq<Head>, WireError>)
    ensures r == PeekAll(chunks)
  {
    var heads: seq<Head> := [];
    for k := 0 to |chunks|
      invariant PeekAll(chunks[..k]) == Ok(heads)
    {
      assert chunks[..k + 1][..k] == chunks[..k];
      var h := PeekHeader(chunks[k]);
      if h.Err? {
        PeekAllStops(chunks, k);
        return Err(h.error);
      }
      heads := heads + [h.value];
    }
    assert chunks[..|chunks|] == chunks;
    return Ok(heads);
  }

  method FindComplete(chunks: seq<Frame>, heads: seq<Head>) returns (r: Option<Frame>)
    requires |heads| == |chunks|
    ensures r == FirstComplete(chunks, heads)
  {
    for k := 0 to |chunks|
      invariant FirstComplete(chunks, heads) == FirstComplete(chunks[k..], heads[k..])
    {
      if !heads[k].Segmented() { return Some(chunks[k]); }
    }
    return None;
  }

  method JoinUp(pieces: map<nat, Frame>, n: nat) returns (payload: Frame)
    requires forall i :: 0 <= i < n ==> i in pieces
    ensures payload == Join(pieces, n)
  {
    payload := [];
    for i := 0 to n
      invariant payload == Join(pieces, i)
    {
      payload := payload + pieces[i];
    }
  }

  method CollectEvery(chunks: seq<Frame>, heads: seq<Head>, key: MessageKey) returns (r: Result<Collected, WireError>)
    requires |heads| == |chunks|
    requires forall k :: 0 <= k < |chunks| ==> |chunks[k]| >= HEADER_LEN
    ensures r == Collect(chunks, heads, key)
  {
    var c := Collected(None, map[]);
    for k := 0 to |chunks|
      invariant Collect(chunks[..k], heads[..k], key) == Ok(c)
    {
      assert chunks[..k + 1][..k] == chunks[..k] && heads[..k + 1][..k] == heads[..k];
      var next := Absorb(c, key, chunks[k], heads[k]);
      if next.Err? {
        CollectStops(chunks, heads, key, k);
        return Err(next.error);
      }
      c := next.value;
    }
    assert chunks[..|chunks|] == chunks && heads[..|heads|] == heads;
    return Ok(c);
  }

  lemma {:induction false} PeekAllStops(chunks: seq<Frame>, k: nat)
    requires k < |chunks| && PeekAll(chunks[..k]).Ok? && PeekHeader(chunks[k]).Err?
    ensures PeekAll(chunks) == Err(PeekHeader(chunks[k]).error)
    decreases |chunks|
  {
    hide PeekHeader;
    var n := |chunks| - 1;
    if k < n {
      assert chunks[..n][..k] == chunks[..k];
      PeekAllStops(chunks[..n], k);
    }
  }

  lemma {:induction false} CollectStops(chunks: seq<Frame>, heads: seq<Head>, key: MessageKey, k: nat)
    requires |heads| == |chunks| && k < |chunks|
    requires forall j :: 0 <= j < |chunks| ==> |chunks[j]| >= HEADER_LEN
    requires Collect(chunks[..k], heads[..k], key).Ok?
    requires Absorb(Collect(chunks[..k], heads[..k], key).value, key, chunks[k], heads[k]).Err?
    ensures Collect(chunks, heads, key)
         == Err(Absorb(Collect(chunks[..k], heads[..k], key).value, key, chunks[k], heads[k]).error)
    decreases |chunks|
  {
    hide Absorb;
    var n := |chunks| - 1;
    if k < n {
      assert chunks[..n][..k] == chunks[..k] && heads[..n][..k] == heads[..k];
      CollectStops(chunks[..n], heads[..n], key, k);
    }
  }

  // ----- the round trip --------------------------------------------------------------------------

  /** A payload cut into `count` pieces of at most `per` bytes, and the header they travel under. */
  datatype Cut = Cut(head: Head, payload: Frame, per: nat, count: Byte) {
    ghost predicate Valid() {
      && head.Valid() && !head.Segmented() && head.plen == |payload|
      && 0 < per < 0x1_0000_0000 - 6
      && 2 <= count
      && |payload| <= count * per
    }

    /** The frame that was cut. */
    ghost function Whole(): Frame
      requires head.Valid()
    {
      PackHeader(head) + payload
    }

    /** Segment i. */
    ghost function At(i: nat): Frame
      requires Valid() && i < count
    {
      Chunk(head, payload, per, count, i)
    }

    ghost function PieceAt(i: nat): Frame { Piece(payload, per, i) }

    ghost function HeadAt(i: nat): Head { ChunkHead(head, |PieceAt(i)|) }
  }

  lemma CeilCovers(a: nat, b: nat)
    requires b > 0
    ensures CeilDiv(a, b) * b >= a
    ensures a > b ==> CeilDiv(a, b) >= 2
  {
    var q := (a + b - 1) / b;
    assert a + b - 1 == q * b + (a + b - 1) % b;
    assert q < 2 ==> q * b <= b;
  }

  /** `segment_frame`, when it splits a frame with the flag clear, produces the segments of such a cut. */
  lemma SegmentsCut(frame: Frame, chunkSize: int) returns (c: Cut)
    requires Segments(frame, chunkSize).Ok? && chunkSize < |frame|
    requires !PeekHeader(frame).value.Segmented()
    ensures c.Valid() && c.Whole() == frame && c.head == PeekHeader(frame).value
    ensures c.per + SEG_OVERHEAD == chunkSize
    ensures |Segments(frame, chunkSize).value| == c.count
    ensures forall i: nat :: i < c.count ==> Segments(frame, chunkSize).value[i] == c.At(i)
  {
    var payload := frame[HEADER_LEN..];
    var per := chunkSize - SEG_OVERHEAD;
    CeilCovers(|payload|, per);
    PackPeek(frame);
    c := Cut(PeekHeader(frame).value, payload, per, CeilDiv(|payload|, per));
  }

  lemma SegmentLayout(a: Frame, b: Frame, c: Frame)
    requires |a| == HEADER_LEN && |b| == 6
    ensures var f := a + b + c;
      f == a + (b + c) && f[16] == b[0] && f[17] == b[1] && f[18..22] == b[2..6] && f[SEG_OVERHEAD..] == c
  {
  }

  lemma PrefixFields(idx: Byte, count: Byte, total: nat)
    requires total < 0x1_0000_0000
    ensures var p := Prefix(idx, count, total); p[0] == idx && p[1] == count && UnpackBE(p[2..6]) == total
  {
    FieldWidths();
    UnpackPack(total, 4);
    assert Prefix(idx, count, total)[2..6] == PackBE(total, 4);
  }

  /** The fields of a segment, read back. */
  ghost predicate SegmentShape(f: Frame, h: Head, i: nat, count: nat, total: nat, piece: Frame) {
    && |f| == SEG_OVERHEAD + |piece|
    && PeekHeader(f) == Ok(h)
    && f[16] == i && f[17] == count && UnpackBE(f[18..22]) == total
    && f[SEG_OVERHEAD..] == piece
  }

  lemma PackedShape(h: Head, i: Byte, count: Byte, total: nat, piece: Frame)
    requires h.Valid() && h.plen == 6 + |piece| && total < 0x1_0000_0000
    ensures SegmentShape(PackHeader(h) + Prefix(i, count, total) + piece, h, i, count, total, piece)
  {
    var prefix := Prefix(i, count, total);
    SegmentLayout(PackHeader(h), prefix, piece);
    PeekPack(h, prefix + piece);
    PrefixFields(i, count, total);
  }

  /** Every segment is itself a valid frame of the same message, and carries its own index and piece. */
  lemma SegmentIsFrame(c: Cut, i: nat)
    requires c.Valid() && i < c.count
    ensures c.HeadAt(i).Valid() && c.HeadAt(i).Segmented() && c.HeadAt(i).Key() == c.head.Key()
    ensures SegmentShape(c.At(i), c.HeadAt(i), i, c.count, |c.payload|, c.PieceAt(i))
  {
    hide PeekHeader, PackHeader, Prefix, UnpackBE, SegmentShape;
    PackedShape(c.HeadAt(i), i, c.count, |c.payload|, c.PieceAt(i));
  }

  /** `s[:n]` with Python's clipping. */
  ghost function Upto<T>(s: seq<T>, n: nat): seq<T> { s[..Min(n, |s|)] }

  lemma SliceStep<T>(s: seq<T>, lo: nat, per: nat)
    ensures Upto(s, 0) == []
    ensures Upto(s, lo) + Slice(s, lo, lo + per) == Upto(s, lo + per)
  {
  }

  /** n * per, by repeated addition. */
  ghost function Offset(n: nat, per: nat): nat { if n == 0 then 0 else Offset(n - 1, per) + per }

  lemma {:induction false} OffsetProduct(n: nat, per: nat)
    ensures Offset(n, per) == n * per
  {
    if n > 0 {
      OffsetProduct(n - 1, per);
    }
  }

  /** The first n pieces, joined, are the first n * per bytes of the payload. */
  lemma {:induction false} JoinPieces<T>(pieces: map<nat, seq<T>>, payload: seq<T>, per: nat, n: nat)
    requires forall i {:trigger i in pieces} :: 0 <= i < n ==> i in pieces
    requires forall i {:trigger pieces[i]} :: 0 <= i < n ==> pieces[i] == Slice(payload, Offset(i, per), Offset(i, per) + per)
    ensures Join(pieces, n) == Upto(payload, Offset(n, per))
    decreases n
  {
    hide Slice, Upto;
    if n == 0 {
      SliceStep(payload, 0, per);
    } else {
      JoinPieces(pieces, payload, per, n - 1);
      SliceStep(payload, Offset(n - 1, per), per);
    }
  }

  lemma JoinAll(pieces: map<nat, Frame>, c: Cut)
    requires c.Valid()
    requires forall i: nat :: i < c.count ==> i in pieces
    requires forall i: nat :: i < c.count ==> pieces[i] == c.PieceAt(i)
    ensures Join(pieces, c.count) == c.payload
  {
    forall i: nat | i <= c.count ensures Offset(i, c.per) == i * c.per { OffsetProduct(i, c.per); }
    JoinPieces(pieces, c.payload, c.per, c.count);
  }

  /** Every element is one of the segments: any order, any duplicates, possibly some missing. */
  ghost predicate DrawnFrom(chunks: seq<Frame>, c: Cut)
    requires c.Valid()
  {
    forall k :: 0 <= k < |chunks| ==> IsSegment(chunks[k], c)
  }

  ghost predicate IsSegment(f: Frame, c: Cut)
    requires c.Valid()
  {
    exists i: nat :: i < c.count && f == c.At(i)
  }

  lemma {:induction false} PeekDrawn(chunks: seq<Frame>, c: Cut)
    requires c.Valid() && DrawnFrom(chunks, c)
    ensures PeekAll(chunks).Ok?
    ensures forall k :: 0 <= k < |chunks| ==> |chunks[k]| >= HEADER_LEN
    ensures forall k :: 0 <= k < |chunks| ==>
              var h := PeekAll(chunks).value[k];
              h.Segmented() && h.Valid() && h.Key() == c.head.Key() && h.(flags := 0, plen := 0) == c.head.(flags := 0, plen := 0)
              && h.flags == SetSegmented(c.head.flags)
  {
    if chunks != [] {
      var n := |chunks| - 1;
      PeekDrawn(chunks[..n], c);
      assert IsSegment(chunks[n], c);
      var i: nat :| i < c.count && chunks[n] == c.At(i);
      SegmentIsFrame(c, i);
    }
  }

  /** The collecting loop ends up with exactly the pieces whose segments are in the list. */
  ghost predicate Gathered(r: Collected, chunks: seq<Frame>, c: Cut)
    requires c.Valid()
  {
    && (forall i: nat :: i in r.pieces <==> i < c.count && c.At(i) in chunks)
    && (forall i: nat :: i in r.pieces ==> r.pieces[i] == c.PieceAt(i))
    && (chunks != [] ==> r.meta == Some((c.count, |c.payload|)))
    && (chunks == [] ==> r.meta.None?)
  }

  lemma AbsorbSegment(r: Collected, before: seq<Frame>, c: Cut, i: nat)
    requires c.Valid() && i < c.count && Gathered(r, before, c)
    requires |c.At(i)| >= HEADER_LEN
    ensures var next := Absorb(r, c.head.Key(), c.At(i), c.HeadAt(i));
      next.Ok? && Gathered(next.value, before + [c.At(i)], c)
  {
    SegmentIsFrame(c, i);
    forall j: nat | j < c.count && c.At(j) == c.At(i) ensures j == i { SegmentIsFrame(c, j); }
  }

  lemma NothingGathered(c: Cut)
    requires c.Valid()
    ensures Gathered(Collected(None, map[]), [], c)
  {
  }

  lemma PeekedSegment(c: Cut, i: nat)
    requires c.Valid() && i < c.count
    ensures PeekHeader(c.At(i)) == Ok(c.HeadAt(i)) && |c.At(i)| >= HEADER_LEN
  {
    hide PeekHeader;
    SegmentIsFrame(c, i);
  }

  lemma {:induction false} CollectDrawn(chunks: seq<Frame>, heads: seq<Head>, c: Cut)
    requires c.Valid() && DrawnFrom(chunks, c)
    requires PeekAll(chunks) == Ok(heads)
    requires forall k :: 0 <= k < |chunks| ==> |chunks[k]| >= HEADER_LEN
    ensures var r := Collect(chunks, heads, c.head.Key());
      r.Ok? && Gathered(r.value, chunks, c)
  {
    hide Absorb, PeekHeader, Chunk, ChunkHead, Gathered, SegmentShape;
    if chunks == [] {
      NothingGathered(c);
    } else {
      var n := |chunks| - 1;
      Snoc(chunks);
      CollectDrawn(chunks[..n], heads[..n], c);
      assert IsSegment(chunks[n], c);
      var i: nat :| i < c.count && chunks[n] == c.At(i);
      PeekedSegment(c, i);
      AbsorbSegment(Collect(chunks[..n], heads[..n], c.head.Key()).value, chunks[..n], c, i);
    }
  }

  lemma {:induction false} NoneComplete(chunks: seq<Frame>, heads: seq<Head>)
    requires |heads| == |chunks|
    requires forall k :: 0 <= k < |heads| ==> heads[k].Segmented()
    ensures FirstComplete(chunks, heads).None?
  {
    if chunks != [] {
      NoneComplete(chunks[1..], heads[1..]);
    }
  }

  ghost predicate AllPresent(chunks: seq<Frame>, c: Cut)
    requires c.Valid()
  {
    forall i: nat :: i < c.count ==> c.At(i) in chunks
  }

  lemma {:induction false} EnoughKeys(keys: set<nat>, n: nat)
    requires forall i: nat :: i < n ==> i in keys
    ensures |keys| >= n
  {
    if n > 0 {
      EnoughKeys(keys - {n - 1}, n - 1);
    }
  }

  lemma CountDecides(r: Collected, chunks: seq<Frame>, c: Cut)
    requires c.Valid() && Gathered(r, chunks, c)
    ensures |r.pieces| < c.count <==> !AllPresent(chunks, c)
  {
    if AllPresent(chunks, c) {
      EnoughKeys(r.pieces.Keys, c.count);
    } else if |r.pieces| >= c.count {
      FullPrefix(r.pieces.Keys, c.count);
    }
  }

  /** Once nothing is missing, what the code builds from the pieces is the frame that was cut. */
  lemma Rebuilt(h: Head, pieces: map<nat, Frame>, c: Cut)
    requires c.Valid() && h.Valid() && h.flags == SetSegmented(c.head.flags)
    requires h.(flags := 0, plen := 0) == c.head.(flags := 0, plen := 0)
    requires forall i: nat :: i < c.count ==> i in pieces
    requires forall i: nat :: i < c.count ==> pieces[i] == c.PieceAt(i)
    ensures Join(pieces, c.count) == c.payload
    ensures PackHeader(h.(flags := ClearSegmented(h.flags), plen := |c.payload|)) + Join(pieces, c.count) == c.Whole()
  {
    JoinAll(pieces, c);
    assert h.(flags := ClearSegmented(h.flags), plen := |c.payload|) == c.head;
  }

  /**
    Split, then reassemble. Whatever list is drawn from the segments of a frame -- any order, any
    duplicates -- gives back the original frame byte for byte exactly when no segment is missing,
    and "not yet" otherwise; it never raises.
   */
  lemma RoundTrip(c: Cut, chunks: seq<Frame>)
    requires c.Valid() && DrawnFrom(chunks, c)
    ensures Reassembled(chunks) == if AllPresent(chunks, c) then Ok(Some(c.Whole())) else Ok(None)
  {
    hide PackHeader, PeekHeader, Chunk, ChunkHead, Piece, DrawnFrom, Join, Absorb, Collect, FirstComplete, PeekAll;
    if chunks == [] {
      assert c.At(0) !in chunks;
    } else {
      PeekDrawn(chunks, c);
      var heads := PeekAll(chunks).value;
      NoneComplete(chunks, heads);
      CollectDrawn(chunks, heads, c);
      var r := Collect(chunks, heads, c.head.Key()).value;
      CountDecides(r, chunks, c);
      assert heads[0].Key() == c.head.Key();
      if AllPresent(chunks, c) {
        Rebuilt(heads[0], r.pieces, c);
      }
    }
  }

  /** What `segment_frame` hands out: short enough, valid, and marked as belonging to the same message. */
  lemma SegmentsAreFrames(frame: Frame, chunkSize: int, i: nat)
    requires Segments(frame, chunkSize).Ok? && !PeekHeader(frame).value.Segmented()
    requires i < |Segments(frame, chunkSize).value|
    ensures var f, h := Segments(frame, chunkSize).value[i], PeekHeader(frame).value;
      && |f| <= chunkSize
      && PeekHeader(f).Ok? && PeekHeader(f).value.Key() == h.Key()
      && PeekHeader(f).value.cls == h.cls && PeekHeader(f).value.codec == h.codec
  {
    if chunkSize < |frame| {
      var c := SegmentsCut(frame, chunkSize);
      SegmentIsFrame(c, i);
    }
  }

  ghost predicate Covers(chunks: seq<Frame>, all: seq<Frame>) {
    forall i :: 0 <= i < |all| ==> all[i] in chunks
  }

  /** The round trip of the two wire functions, whether or not the frame needed splitting. */
  lemma SplitReassemble(frame: Frame, chunkSize: int, chunks: seq<Frame>)
    requires Segments(frame, chunkSize).Ok? && !PeekHeader(frame).value.Segmented()
    requires forall k :: 0 <= k < |chunks| ==> chunks[k] in Segments(frame, chunkSize).value
    ensures Reassembled(chunks)
         == if Covers(chunks, Segments(frame, chunkSize).value) then Ok(Some(frame)) else Ok(None)
  {
    var all := Segments(frame, chunkSize).value;
    if |frame| <= chunkSize {
      assert all == [frame] && all[0] == frame;
      forall k | 0 <= k < |chunks| ensures chunks[k] == frame { assert chunks[k] in all; }
      AllCopies(frame, chunks);
      assert chunks != [] ==> chunks[0] == frame && frame in chunks;
    } else {
      var c := SegmentsCut(frame, chunkSize);
      forall k | 0 <= k < |chunks| ensures IsSegment(chunks[k], c) {
        var i :| 0 <= i < |all| && all[i] == chunks[k];
        assert c.At(i) == chunks[k];
      }
      RoundTrip(c, chunks);
      SameSegments(c, all, chunks);
    }
  }

  lemma SameSegments(c: Cut, all: seq<Frame>, chunks: seq<Frame>)
    requires c.Valid() && |all| == c.count
    requires forall i: nat :: i < c.count ==> all[i] == c.At(i)
    ensures Covers(chunks, all) <==> AllPresent(chunks, c)
  {
    if Covers(chunks, all) {
      forall i: nat | i < c.count ensures c.At(i) in chunks { assert all[i] in chunks; }
    }
    if AllPresent(chunks, c) {
      forall i | 0 <= i < |all| ensures all[i] in chunks { assert c.At(i) in chunks; }
    }
  }

  lemma {:induction false} AllCopies(frame: Frame, chunks: seq<Frame>)
    requires PeekHeader(frame).Ok? && !PeekHeader(frame).value.Segmented()
    requires forall k :: 0 <= k < |chunks| ==> chunks[k] == frame
    ensures PeekAll(chunks).Ok?
    ensures Reassembled(chunks) == if chunks == [] then Ok(None) else Ok(Some(frame))
  {
    if chunks != [] {
      AllCopies(frame, chunks[..|chunks| - 1]);
      PeekAllAt(chunks, 0);
    }
  }
}
