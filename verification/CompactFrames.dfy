/** The compact codec end to end: exactly which envelopes survive `decode(encode(env, CODEC_COMPACT))`. */
module CompactFrames {
  import opened Common
  import opened Bytes
  import opened Frames
  import opened Payloads
  import opened Codec
  import opened CodecRoundTrip
  import Utf8

  // ----- text fields -------------------------------------------------------------------------------

  /** The bytes of a text field: at most 255 of them. */
  ghost function Raw(py: Python, s: string, cap: nat): seq<Byte> {
    Slice(Utf8.Encode(py.Sanitize(s, cap)), 0, 255)
  }

  /** What the decoder makes of a text field. */
  ghost function Received(py: Python, s: string, cap: nat): string {
    py.Sanitize(Utf8.Decode(Raw(py, s, cap)), cap)
  }

  lemma TextRead(py: Python, s: string, cap: nat, data: seq<Byte>, off: nat)
    requires At(data, off, EncodeText(py, s, cap))
    ensures ReadText(data, off) == Ok((Raw(py, s, cap), off + |EncodeText(py, s, cap)|))
    ensures |EncodeText(py, s, cap)| == 1 + |Raw(py, s, cap)|
  {
    hide Utf8.Encode, Python.Sanitize;
    var raw := Raw(py, s, cap);
    assert EncodeText(py, s, cap) == [|raw|] + raw;
    var size: seq<Byte> := [|raw|];
    AtConcat(data, off, size, raw);
    assert data[off] == data[off..off + 1][0] == size[0];
  }

  /** A text within its cap survives when its encoding fits the one-byte length. */
  lemma ShortText(py: Python, s: string, cap: nat)
    requires py.Sanitize(s, cap) == s && |Utf8.Encode(s)| <= 255
    ensures Received(py, s, cap) == s
  {
    hide Utf8.Encode, Utf8.Decode, Python.Sanitize;
    Utf8.DecodeEncode(s);
    assert Slice(Utf8.Encode(s), 0, 255) == Utf8.Encode(s);
  }

  /** At most 63 characters always fit. */
  lemma SmallText(py: Python, s: string, cap: nat)
    requires py.Sanitize(s, cap) == s && cap <= 63
    ensures Received(py, s, cap) == s
  {
    hide Utf8.Encode, Utf8.Decode;
    Utf8.EncodedLength(s);
    ShortText(py, s, cap);
  }

  /** A topic of 64 four-byte characters loses its last one: the 256th byte is cut off. */
  lemma TopicSurvivesExactly(py: Python, s: string)
    requires py.printable(' ') && py.Sanitize(s, MAX_TOPIC) == s
    ensures Received(py, s, MAX_TOPIC) == s <==> |Utf8.Encode(s)| <= 255
  {
    hide Utf8.Encode, Utf8.Decode;
    if |Utf8.Encode(s)| <= 255 {
      ShortText(py, s, MAX_TOPIC);
    } else {
      Utf8.EncodedLength(s);
      assert |s| == 64 && |Utf8.Encode(s)| == 256;
      Utf8.TruncatedTail(s);
      assert Raw(py, s, MAX_TOPIC) == Utf8.Encode(s)[..255];
      var got := s[..63] + [Utf8.REPLACEMENT];
      assert py.Sanitize(got, MAX_TOPIC)[63] == ' ' || py.Sanitize(got, MAX_TOPIC)[63] == Utf8.REPLACEMENT;
      assert s[63] as int >= 0x10000;
    }
  }

  // ----- the body ----------------------------------------------------------------------------------

  /** Where the parts of an encoded body start. */
  lemma BodyLayout(a: seq<Byte>, b: seq<Byte>, c: seq<Byte>, d: seq<Byte>, u: seq<Byte>, n: seq<Byte>, e: seq<Byte>)
    ensures var data := a + b + c + d + u + n + e;
      && At(data, 0, a) && At(data, |a|, b) && At(data, |a| + |b|, c) && At(data, |a| + |b| + |c|, d)
      && At(data, |a| + |b| + |c| + |d|, u)
      && At(data, |a| + |b| + |c| + |d| + |u|, n)
      && At(data, |a| + |b| + |c| + |d| + |u| + |n|, e)
  {
    var data := a + b + c + d + u + n + e;
    assert At(data, 0, data);
    AtConcat(data, 0, a + b + c + d + u + n, e);
    AtConcat(data, 0, a + b + c + d + u, n);
    AtConcat(data, 0, a + b + c + d, u);
    AtConcat(data, 0, a + b + c, d);
    AtConcat(data, 0, a + b, c);
    AtConcat(data, 0, a, b);
  }

  /** What the decoder gets out of a body, before the payload is bounded again. */
  ghost function Arrived(py: Python, env: Envelope, payload: Value): Envelope {
    Envelope(env.msgId, env.typ, Received(py, env.sender, MAX_AGENT_ID),
             OrStar(Received(py, env.recipient, MAX_AGENT_ID)), Received(py, env.topic, MAX_TOPIC),
             OrStar(Received(py, env.realm, MAX_REALM)), payload, env.createdAt)
  }

  /** A body is its four text fields, the timestamp, the entry count and the entries. */
  lemma BodyParts(py: Python, env: Envelope)
    requires EncodeBody(py, env).Ok?
    ensures EncodeEntries(py, PayloadEntries(env.payload)).Ok?
    ensures var entries := EncodeEntries(py, PayloadEntries(env.payload)).value;
      && |entries| <= 65535 && |entries| < Pow256(2)
      && EncodeBody(py, env).value
         == EncodeText(py, env.sender, MAX_AGENT_ID) + EncodeText(py, env.recipient, MAX_AGENT_ID)
            + EncodeText(py, env.topic, MAX_TOPIC) + EncodeText(py, env.realm, MAX_REALM) + U64(env.createdAt)
            + PackBE(|entries|, 2) + entries
  {
    FieldWidths();
  }

  /** The fixed part of a body reads back, and the entries start right behind it. */
  lemma FieldsRead(py: Python, env: Envelope) returns (ends: seq<nat>)
    requires EncodeBody(py, env).Ok?
    ensures |ends| == 4
    ensures var data := EncodeBody(py, env).value;
      && |data| >= 13
      && ReadText(data, 0) == Ok((Raw(py, env.sender, MAX_AGENT_ID), ends[0]))
      && ReadText(data, ends[0]) == Ok((Raw(py, env.recipient, MAX_AGENT_ID), ends[1]))
      && ReadText(data, ends[1]) == Ok((Raw(py, env.topic, MAX_TOPIC), ends[2]))
      && ReadText(data, ends[2]) == Ok((Raw(py, env.realm, MAX_REALM), ends[3]))
      && ReadU64(data, ends[3]) == Ok(env.createdAt)
    ensures EncodeEntries(py, PayloadEntries(env.payload)).Ok?
    ensures var data, bytes := EncodeBody(py, env).value, EncodeEntries(py, PayloadEntries(env.payload)).value;
      && |bytes| <= 65535
      && ReadUint(data, ends[3] + 8, 2) == Ok(|bytes|)
      && At(data, ends[3] + 10, bytes)
      && |data| == ends[3] + 10 + |bytes|
  {
    hide EncodeText, U64, At, EncodeEntries, ReadText, ReadU64, ReadUint, PackBE, EncodeBody, Raw;
    BodyParts(py, env);
    var data := EncodeBody(py, env).value;
    var a, b := EncodeText(py, env.sender, MAX_AGENT_ID), EncodeText(py, env.recipient, MAX_AGENT_ID);
    var c, d := EncodeText(py, env.topic, MAX_TOPIC), EncodeText(py, env.realm, MAX_REALM);
    var bytes := EncodeEntries(py, PayloadEntries(env.payload)).value;
    BodyLayout(a, b, c, d, U64(env.createdAt), PackBE(|bytes|, 2), bytes);
    TextRead(py, env.sender, MAX_AGENT_ID, data, 0);
    TextRead(py, env.recipient, MAX_AGENT_ID, data, |a|);
    TextRead(py, env.topic, MAX_TOPIC, data, |a| + |b|);
    TextRead(py, env.realm, MAX_REALM, data, |a| + |b| + |c|);
    var off := |a| + |b| + |c| + |d|;
    ReadPackedU64(data, off, env.createdAt);
    ReadPacked(data, off + 8, |bytes|, 2);
    ends := [|a|, |a| + |b|, |a| + |b| + |c|, off];
  }

  /** What decoding a body gives, once its entries have been collected. */
  ghost function Delivered(py: Python, env: Envelope, entries: seq<Entry>): Result<Envelope, CodecError> {
    if |entries| > MAX_PAYLOAD_ITEMS then Err(Payload(TooManyKeys)) else Ok(Arrived(py, env, Dict(entries)))
  }

  /** Decoding a body reads every part back; only the payload may have changed shape. */
  lemma BodyRead(py: Python, env: Envelope, es: seq<Entry>)
    requires py.Valid() && env.msgId >= 0 && EncodeBody(py, env).Ok?
    requires env.payload == Dict(es) && GoodEntries(py, es, 0) && |es| <= MAX_PAYLOAD_ITEMS
    ensures DecodeBody(py, EncodeBody(py, env).value, env.msgId, env.typ) == Delivered(py, env, RebuiltAll(es))
  {
    hide At, EncodeEntries, DecodeEntries, ReadText, ReadU64, ReadUint, EncodeBody, Bound, RebuiltAll, GoodEntries,
         Utf8.Decode, Python.Sanitize, Raw;
    var ends := FieldsRead(py, env);
    EntriesRoundTrip(py, es, EncodeBody(py, env).value, ends[3] + 10);
    RebuiltAllGood(py, es);
    DictFixed(py, RebuiltAll(es));
  }

  // ----- the theorem -------------------------------------------------------------------------------

  /** Equal envelopes, with payload dicts compared as maps. */
  ghost predicate SameEnvelope(a: Envelope, b: Envelope) {
    && a.(payload := Null) == b.(payload := Null)
    && a.payload.Dict? && b.payload.Dict? && ToMap(a.payload.entries) == ToMap(b.payload.entries)
  }

  /**
    What a caller can look at before sending: the payload is a dict, no registered integer is
    outside 0..2^64-1, no dict sits under `_blob`, and the topic encodes to at most 255 bytes.
   */
  ghost predicate Transportable(n: Envelope) {
    n.payload.Dict? && Transparent(n.payload.entries) && |Utf8.Encode(n.topic)| <= 255
  }

  /** Decoding undoes encoding. */
  ghost predicate Survives(py: Python, env: Envelope, frame: Frame)
    requires PeekHeader(frame).Ok? ==> PeekHeader(frame).value.codec == CODEC_COMPACT
  {
    DecodeFrame(py, frame).Ok? && Normalized(py, env).Ok?
    && SameEnvelope(DecodeFrame(py, frame).value, Normalized(py, env).value)
  }

  lemma FrameRead(py: Python, env: Envelope, frame: Frame)
    requires EncodeFrame(py, env) == Ok(frame)
    ensures Normalized(py, env).Ok?
    ensures PeekHeader(frame).Ok? && PeekHeader(frame).value.codec == CODEC_COMPACT
    ensures var n := Normalized(py, env).value;
      && EncodeBody(py, n).Ok? && n.sender != ""
      && DecodeFrame(py, frame) == DecodeBody(py, EncodeBody(py, n).value, n.msgId, n.typ)
  {
    hide EncodeBody, DecodeBody, PackHeader, PeekHeader, Bound, Python.Sanitize;
    var n := Normalized(py, env).value;
    var body := EncodeBody(py, n).value;
    PeekPack(CompactHead(n, |body|), body);
    assert frame[HEADER_LEN..] == body;
  }

  lemma StarText(py: Python, s: string, cap: nat)
    requires py.Valid() && 1 <= cap <= 63
    ensures OrStar(Received(py, OrStar(py.Sanitize(s, cap)), cap)) == OrStar(py.Sanitize(s, cap))
  {
    hide Received;
    SanitizeTwice(py, s, cap, cap);
    var t := OrStar(py.Sanitize(s, cap));
    assert py.Sanitize("*", cap) == "*";
    SmallText(py, t, cap);
  }

  /** All fields but the payload come back, the topic exactly when it fits. */
  lemma FieldsArrive(py: Python, env: Envelope, payload: Value)
    requires py.Valid() && Normalized(py, env).Ok?
    ensures var n := Normalized(py, env).value;
      Arrived(py, n, payload).(payload := Null) == n.(payload := Null) <==> |Utf8.Encode(n.topic)| <= 255
  {
    hide Received, Python.Sanitize, Bound, Utf8.Encode;
    SanitizeTwice(py, env.sender, MAX_AGENT_ID, MAX_AGENT_ID);
    SmallText(py, py.Sanitize(env.sender, MAX_AGENT_ID), MAX_AGENT_ID);
    StarText(py, env.recipient, MAX_AGENT_ID);
    StarText(py, env.realm, MAX_REALM);
    SanitizeTwice(py, env.topic, MAX_TOPIC, MAX_TOPIC);
    TopicSurvivesExactly(py, py.Sanitize(env.topic, MAX_TOPIC));
  }

  lemma PayloadGood(py: Python, v: Value)
    requires py.Valid() && Bound(py, v, 0).Ok? && v.Dict?
    ensures var w := Bound(py, v, 0).value;
      w.Dict? && GoodEntries(py, w.entries, 0) && |w.entries| <= MAX_PAYLOAD_ITEMS
  {
    BoundEntriesGood(py, v.entries, 0, 0);
  }

  /** Decoding an encoded frame, when the payload is a dict. */
  lemma DictArrives(py: Python, env: Envelope, frame: Frame)
    requires py.Valid() && EncodeFrame(py, env) == Ok(frame) && env.payload.Dict?
    ensures Normalized(py, env).Ok? && Normalized(py, env).value.payload.Dict?
    ensures PeekHeader(frame).Ok? && PeekHeader(frame).value.codec == CODEC_COMPACT
    ensures var n := Normalized(py, env).value;
      && GoodEntries(py, n.payload.entries, 0)
      && DecodeFrame(py, frame) == Delivered(py, n, RebuiltAll(n.payload.entries))
  {
    hide EncodeBody, DecodeBody, EncodeFrame, DecodeFrame, Bound, GoodEntries, RebuiltAll, Delivered, Python.Sanitize;
    FrameRead(py, env, frame);
    PayloadGood(py, env.payload);
    BodyRead(py, Normalized(py, env).value, Normalized(py, env).value.payload.entries);
  }

  lemma RebuiltExactly(py: Python, es: seq<Entry>)
    requires py.Valid() && GoodEntries(py, es, 0) && |es| <= MAX_PAYLOAD_ITEMS
    ensures |RebuiltAll(es)| <= MAX_PAYLOAD_ITEMS && ToMap(RebuiltAll(es)) == ToMap(es) <==> Transparent(es)
  {
    if NoBlobDict(es) {
      TransparentExactly(es);
    } else {
      BlobDictLost(py, es);
    }
  }

  /**
    Every envelope the compact codec accepts: decoding its frame gives the normalized envelope back
    if and only if the normalized envelope is transportable.
   */
  lemma CompactRoundTrip(py: Python, env: Envelope, frame: Frame)
    requires py.Valid() && EncodeFrame(py, env) == Ok(frame)
    ensures PeekHeader(frame).Ok? && PeekHeader(frame).value.codec == CODEC_COMPACT
    ensures Normalized(py, env).Ok?
    ensures Survives(py, env, frame) <==> Transportable(Normalized(py, env).value)
  {
    hide EncodeFrame, DecodeFrame, GoodEntries, RebuiltAll, Transparent, Utf8.Encode, Python.Sanitize, Arrived;
    FrameRead(py, env, frame);
    if env.payload.Dict? {
      DictArrives(py, env, frame);
      PayloadGood(py, env.payload);
      var n := Normalized(py, env).value;
      RebuiltExactly(py, n.payload.entries);
      FieldsArrive(py, env, Dict(RebuiltAll(n.payload.entries)));
      ArrivedPayload(py, n, Dict(RebuiltAll(n.payload.entries)));
    }
  }

  lemma ArrivedPayload(py: Python, env: Envelope, payload: Value)
    ensures Arrived(py, env, payload).payload == payload
  {
  }
}
