/**
  The 16-byte frame header and the segmentation layer of `protocol.py`.

  A message type is its number in the MESSAGE_TYPES registry; TYPE_NAMES maps the numbers
  back, so names and numbers are interchangeable.
 */
module Frames {
  import opened Common
  import opened Bytes

  type Frame = seq<Byte>

  const HEADER_LEN := 16
  const SEG_OVERHEAD := 22
  const MAX_SEGMENTS := 255
  const MAGIC: seq<Byte> := [0x53, 0x47, 0x4E]
  const PROTOCOL_VERSION: Byte := 1

  const CODEC_JSON: Byte := 0
  const CODEC_COMPACT: Byte := 1

  /** TYPE_CLASS, indexed by message type number. */
  const TYPE_CLASS: seq<Byte> :=
    [0, 0, 0, 0, 1, 1, 1, 2, 2, 2, 2, 2, 3, 3, 1, 2, 1, 3, 0, 2, 2, 2, 2, 1]

  /** The pair under which the segments of one frame are collected. */
  datatype MessageKey = MessageKey(typ: Byte, msgId: nat)

  datatype Head = Head(codec: Byte, cls: Byte, typ: Byte, flags: Byte, msgId: nat, plen: nat) {
    predicate Segmented() { flags % 2 == 1 }

    predicate Valid() {
      codec <= 1 && typ < |TYPE_CLASS| && cls == TYPE_CLASS[typ]
      && msgId < 0x1_0000_0000 && plen < 0x1_0000_0000
    }

    function Key(): MessageKey { MessageKey(typ, msgId) }
  }

  datatype WireError =
    | ShortFrame | BadMagic | BadVersion | UnknownCodec | UnknownType | ClassMismatch | LengthMismatch
    | ChunkTooSmall | TooManySegments
    | MixedFrames | PrefixTruncated | InconsistentMetadata | IndexOutOfRange | TotalMismatch

  function PackHeader(h: Head): (bs: Frame)
    requires h.Valid()
    ensures |bs| == HEADER_LEN
  {
    FieldWidths();
    MAGIC + [PROTOCOL_VERSION, h.codec, h.cls, h.typ, h.flags] + PackBE(h.msgId, 4) + PackBE(h.plen, 4)
  }

  function PeekHeader(frame: Frame): (r: Result<Head, WireError>)
    ensures r.Ok? ==> r.value.Valid() && |frame| == HEADER_LEN + r.value.plen
  {
    if |frame| < HEADER_LEN then Err(ShortFrame)
    else if frame[..3] != MAGIC then Err(BadMagic)
    else if frame[3] != PROTOCOL_VERSION then Err(BadVersion)
    else if frame[4] > 1 then Err(UnknownCodec)
    else if frame[6] >= |TYPE_CLASS| then Err(UnknownType)
    else if frame[5] != TYPE_CLASS[frame[6]] then Err(ClassMismatch)
    else
      FieldWidths();
      var plen := UnpackBE(frame[12..16]);
      if plen != |frame| - HEADER_LEN then Err(LengthMismatch)
      else Ok(Head(frame[4], frame[5], frame[6], frame[7], UnpackBE(frame[8..12]), plen))
  }

  /** Reading back a packed header gives exactly that header. */
  lemma PeekPack(h: Head, body: Frame)
    requires h.Valid() && |body| == h.plen
    ensures PeekHeader(PackHeader(h) + body) == Ok(h)
  {
    FieldWidths();
    var f := PackHeader(h) + body;
    UnpackPack(h.msgId, 4);
    UnpackPack(h.plen, 4);
    assert f[..3] == MAGIC;
    assert f[8..12] == PackBE(h.msgId, 4);
    assert f[12..16] == PackBE(h.plen, 4);
  }

  /** A frame that passes the header check is its own header, repacked, and its payload. */
  lemma PackPeek(frame: Frame)
    requires PeekHeader(frame).Ok?
    ensures frame == PackHeader(PeekHeader(frame).value) + frame[HEADER_LEN..]
  {
    FieldWidths();
    PackUnpack(frame[8..12]);
    PackUnpack(frame[12..16]);
    var h := PeekHeader(frame).value;
    var p := PackHeader(h);
    assert frame[..3] == MAGIC;
    assert frame[..HEADER_LEN] == MAGIC + frame[3..8] + frame[8..12] + frame[12..16];
    assert frame[3..8] == [PROTOCOL_VERSION, h.codec, h.cls, h.typ, h.flags];
    assert p == frame[..HEADER_LEN];
  }

  // ----- splitting -----------------------------------------------------------------------------

  function SetSegmented(flags: Byte): Byte { if flags % 2 == 1 then flags else flags + 1 }

  function ClearSegmented(flags: Byte): Byte { flags - flags % 2 }

  function CeilDiv(a: nat, b: nat): nat
    requires b > 0
  {
    (a + b - 1) / b
  }

  /** The `(idx, count, total)` prefix of a segment. */
  function Prefix(idx: Byte, count: Byte, total: nat): (bs: Frame)
    requires total < 0x1_0000_0000
    ensures |bs| == 6
  {
    FieldWidths();
    [idx, count] + PackBE(total, 4)
  }

  function Piece(payload: Frame, per: nat, i: nat): (p: Frame)
    ensures |p| <= per
  {
    Slice(payload, i * per, i * per + per)
  }

  function ChunkHead(h: Head, pieceLen: nat): Head
  {
    h.(flags := SetSegmented(h.flags), plen := 6 + pieceLen)
  }

  /** Segment number i of the `count` segments of a payload. */
  function Chunk(h: Head, payload: Frame, per: nat, count: Byte, i: Byte): Frame
    requires h.Valid() && |payload| < 0x1_0000_0000 && per < 0x1_0000_0000 - 6
  {
    var piece := Piece(payload, per, i);
    PackHeader(ChunkHead(h, |piece|)) + Prefix(i, count, |payload|) + piece
  }

  /** What `segment_frame` returns: the frame itself when it fits, otherwise its segments in order. */
  function Segments(frame: Frame, chunkSize: int): Result<seq<Frame>, WireError>
  {
    var head :- PeekHeader(frame);
    if chunkSize < SEG_OVERHEAD + 1 then Err(ChunkTooSmall)
    else if |frame| <= chunkSize then Ok([frame])
    else
      var payload := frame[HEADER_LEN..];
      var per := chunkSize - SEG_OVERHEAD;
      var count := CeilDiv(|payload|, per);
      if count > MAX_SEGMENTS then Err(TooManySegments)
      else Ok(seq(count, i requires 0 <= i < count => Chunk(head, payload, per, count, i)))
  }

  /** There is always something to send. */
  lemma SegmentsSome(frame: Frame, chunkSize: int)
    requires Segments(frame, chunkSize).Ok?
    ensures Segments(frame, chunkSize).value != []
  {
    hide Chunk, PeekHeader;
    if |frame| > chunkSize {
      assert CeilDiv(|frame| - HEADER_LEN, chunkSize - SEG_OVERHEAD) >= 1;
    }
  }

  method SegmentFrame(frame: Frame, chunkSize: int) returns (r: Result<seq<Frame>, WireError>)
    ensures r == Segments(frame, chunkSize)
  {
    var head :- PeekHeader(frame);
    if chunkSize < SEG_OVERHEAD + 1 { return Err(ChunkTooSmall); }
    if |frame| <= chunkSize { return Ok([frame]); }
    var payload := frame[HEADER_LEN..];
    var per := chunkSize - SEG_OVERHEAD;
    var count := CeilDiv(|payload|, per);
    if count > MAX_SEGMENTS { return Err(TooManySegments); }
    var chunks: seq<Frame> := [];
    for idx := 0 to count
      invariant chunks == seq(idx, i requires 0 <= i < idx => Chunk(head, payload, per, count, i))
    {
      var prefix := Prefix(idx, count, |payload|);
      var piece := Slice(payload, idx * per, (idx + 1) * per);
      var header := PackHeader(Head(head.codec, head.cls, head.typ, SetSegmented(head.flags),
                                    head.msgId, |prefix| + |piece|));
      chunks := chunks + [header + prefix + piece];
    }
    return Ok(chunks);
  }

  // ----- where things stand ------------------------------------------------------------------------

  /** The value of four bytes, the most significant one first. */
  function Quad(bs: Frame, at: nat): nat
    requires at + 4 <= |bs|
  {
    bs[at] as nat * 0x100_0000 + bs[at + 1] as nat * 0x1_0000 + bs[at + 2] as nat * 0x100 + bs[at + 3] as nat
  }

  lemma QuadIs(bs: Frame, at: nat)
    requires at + 4 <= |bs|
    ensures UnpackBE(bs[at..at + 4]) == Quad(bs, at)
  {
    var q := bs[at..at + 4];
    assert q[..3][..2] == q[..2] && q[..2][..1] == q[..1] && q[..1][..0] == [];
    assert UnpackBE(q[..1]) == q[0];
    assert UnpackBE(q[..2]) == q[0] as nat * 0x100 + q[1] as nat;
    assert UnpackBE(q[..3]) == q[0] as nat * 0x1_0000 + q[1] as nat * 0x100 + q[2] as nat;
  }

  /** The wire layout of every frame that passes the checks: "SGN", version 1, and the fields at their places. */
  lemma HeaderLayout(frame: Frame)
    requires PeekHeader(frame).Ok?
    ensures var h := PeekHeader(frame).value;
      && |frame| >= 16
      && frame[0] as char == 'S' && frame[1] as char == 'G' && frame[2] as char == 'N' && frame[3] == 1
      && h.codec == frame[4] <= 1 && h.cls == frame[5] && h.typ == frame[6] && h.flags == frame[7]
      && h.msgId == Quad(frame, 8) && h.plen == Quad(frame, 12) == |frame| - 16
  {
    QuadIs(frame, 8);
    QuadIs(frame, 12);
    assert frame[..3][0] == frame[0] && frame[..3][1] == frame[1] && frame[..3][2] == frame[2];
  }

  /**
    No byte of the medium is wasted: every segment but the last is exactly as long as the medium allows, and
    the last one carries at least one byte of payload.
   */
  lemma SegmentsAreFull(frame: Frame, chunkSize: int, i: nat)
    requires Segments(frame, chunkSize).Ok? && |frame| > chunkSize
    requires i < |Segments(frame, chunkSize).value|
    ensures var all := Segments(frame, chunkSize).value;
      && (i < |all| - 1 ==> |all[i]| == chunkSize)
      && (i == |all| - 1 ==> SEG_OVERHEAD < |all[i]| <= chunkSize)
  {
    hide PackHeader, PackBE, PeekHeader;
    var payload, per := frame[HEADER_LEN..], chunkSize - SEG_OVERHEAD;
    PiecesFull(payload, per, i);
  }

  lemma PiecesFull(payload: Frame, per: nat, i: nat)
    requires per > 0 && i < CeilDiv(|payload|, per)
    ensures var count := CeilDiv(|payload|, per);
      && (i < count - 1 ==> |Piece(payload, per, i)| == per)
      && |Piece(payload, per, i)| >= 1
  {
    var count := CeilDiv(|payload|, per);
    BeforeLast(|payload|, per);
    NoFarther(i, count - 1, per);
    if i < count - 1 { NoFarther(i + 1, count - 1, per); }
    OneStep(i, per);
  }

  lemma BeforeLast(a: nat, b: nat)
    requires b > 0
    ensures (CeilDiv(a, b) - 1) * b < a || CeilDiv(a, b) == 0
  {
    var q := (a + b - 1) / b;
    Divided(a + b - 1, b);
    Less(q, b);
  }

  lemma Divided(a: nat, b: nat)
    requires b > 0
    ensures a / b * b <= a
  {
    assert a == a / b * b + a % b;
  }

  lemma Less(q: int, b: int)
    ensures (q - 1) * b == q * b - b
  {
  }

  lemma NoFarther(i: int, j: int, b: int)
    requires i <= j && b >= 0
    ensures i * b <= j * b
  {
  }

  lemma OneStep(i: int, b: int)
    ensures (i + 1) * b == i * b + b
  {
  }
}
