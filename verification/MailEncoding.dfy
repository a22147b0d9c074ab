/**
  What the chain of `transport_fallback.py` gets from `encode` of `protocol.py`: an envelope whose compact
  encoding fails while its JSON encoding succeeds.
 */
module MailEncoding {
  import opened Common
  import opened Bytes
  import opened Frames
  import opened Payloads
  import opened Codec
  import opened Breaker
  import opened ChainWalk
  import opened ChainSafety

  /** `encode(envelope, CODEC_JSON)`, where `body` is the JSON text of the normalized fields. */
  function JsonFrame(py: Python, env: Envelope, body: seq<Byte>): Result<Frame, CodecError> {
    if env.typ >= |TYPE_CLASS| then Err(UnknownMessageType)
    else
      var n :- Normalized(py, env);
      if n.sender == "" then Err(SenderRequired)
      else if |body| > Codec.MAX_ENVELOPE_BYTES - HEADER_LEN then Err(EnvelopeTooLarge)
      else Ok(PackHeader(Head(CODEC_JSON, TYPE_CLASS[n.typ], n.typ, 0, n.msgId, |body|)) + body)
  }

  /** `send` catches the protocol's own error and no other. */
  function Caught(r: Result<Frame, CodecError>): Encoding {
    match r
    case Ok(frame) => Encoded(frame)
    case Err(OutOfBounds) => OtherFailure
    case Err(_) => ProtocolFailure
  }

  function MailOf(py: Python, env: Envelope, body: seq<Byte>): Mail
    requires env.typ < |TYPE_CLASS|
  {
    Mail(env.msgId, env.recipient, TYPE_CLASS[env.typ], Caught(EncodeFrame(py, env)), Caught(JsonFrame(py, env, body)))
  }

  lemma ValueKeyUnregistered()
    ensures FieldId("_value") == None
  {
    hide Position;
    var v := "_value";
    assert v[0] == '_' && |v| == 6;
    NotRegistered(v);
  }

  lemma NotRegistered(v: string)
    requires |v| == 6 && v[0] == '_'
    ensures v !in FIELD_NAMES
  {
  }

  /** A payload that is not a dict is wrapped in one, a level deeper than it was checked at. */
  lemma WrappedFails(py: Python, env: Envelope, e: PayloadError)
    requires env.typ < |TYPE_CLASS| && Normalized(py, env).Ok? && py.Sanitize(env.sender, MAX_AGENT_ID) != ""
    requires var v := Normalized(py, env).value.payload; !v.Dict? && Bound(py, v, 1) == Err(e)
    ensures EncodeFrame(py, env) == Err(CodecError.Payload(e))
  {
    hide Position, Python.Sanitize, EncodeFields, EncodeValue, PackHeader;
    var v := Normalized(py, env).value.payload;
    var es := [Entry("_value", v)];
    ValueKeyUnregistered();
    OneEntry(py, es, e);
    assert EncodeBody(py, Normalized(py, env).value) == Err(CodecError.Payload(e));
  }

  lemma OneEntry(py: Python, es: seq<Entry>, e: PayloadError)
    requires |es| == 1 && FieldId(es[0].key) == None && Bound(py, es[0].val, 1) == Err(e)
    ensures EncodeEntries(py, es) == Err(CodecError.Payload(e))
  {
    hide FieldId, EncodeValue, Python.Sanitize, Bound;
    var none: seq<Entry> := [];
    assert es[..0] == none;
    assert Blob(es) == es;
    assert EncodeRegistered(py, es) == Ok([]);
    assert BoundEntries(py, es, 0) == Err(e);
    DictFails(py, es, e);
  }

  lemma DictFails(py: Python, es: seq<Entry>, e: PayloadError)
    requires |es| <= MAX_PAYLOAD_ITEMS && BoundEntries(py, es, 0) == Err(e)
    ensures Bound(py, Dict(es), 0) == Err(e)
  {
    hide BoundEntries;
  }

  /** n lists around a number. */
  function Nested(n: nat): Value { if n == 0 then Int(0) else List([Nested(n - 1)]) }

  lemma BoundOneItem(py: Python, v: Value, depth: nat)
    ensures BoundItems(py, [v], depth)
         == (var b := Bound(py, v, depth + 1); if b.Err? then Err(b.error) else Ok([b.value]))
  {
    hide Bound;
    var none: seq<Value> := [];
    assert [v][..0] == none && BoundItems(py, none, depth) == Ok(none);
    var b := Bound(py, v, depth + 1);
    assert b.Ok? ==> none + [b.value] == [b.value];
  }

  lemma {:induction false} BoundNested(py: Python, n: nat, depth: nat)
    ensures Bound(py, Nested(n), depth) == if depth + n > MAX_PAYLOAD_DEPTH then Err(TooDeep) else Ok(Nested(n))
    decreases n
  {
    hide BoundItems, BoundEntries, Python.Sanitize;
    if n > 0 && depth <= MAX_PAYLOAD_DEPTH {
      BoundNested(py, n - 1, depth + 1);
      BoundOneItem(py, Nested(n - 1), depth);
    }
  }

  /**
    An envelope that only JSON can carry: a number four lists deep is as deep as the caps allow, and the
    compact codec wraps it in one more dict.
   */
  lemma OnlyJsonCarries(py: Python, env: Envelope, body: seq<Byte>)
    requires env.typ < |TYPE_CLASS| && env.payload == Nested(4) && py.Sanitize(env.sender, MAX_AGENT_ID) != ""
    requires |body| <= Codec.MAX_ENVELOPE_BYTES - HEADER_LEN
    ensures EncodeFrame(py, env) == Err(CodecError.Payload(TooDeep))
    ensures JsonFrame(py, env, body).Ok? && |JsonFrame(py, env, body).value| == HEADER_LEN + |body|
    ensures var mail := MailOf(py, env, body); mail.compact == ProtocolFailure && mail.json.Encoded?
  {
    hide Python.Sanitize, EncodeBody, PackHeader, Nested;
    BoundNested(py, 4, 0);
    BoundNested(py, 4, 1);
    NestedIsList();
    WrappedFails(py, env, TooDeep);
  }

  lemma NestedIsList()
    ensures Nested(4).List?
  {
  }

  /**
    Such an envelope is not sent at all when a constrained transport is ranked before one that could carry
    it, whichever accept.
   */
  lemma EncodingFailureStops(py: Python, env: Envelope, body: seq<Byte>, links: seq<Link>, k: nat, j: nat, ch: Chain,
                             rep: Report, lim: Limits, clock: Clock, tick: nat, port: Port, call: nat)
    requires env.typ < |TYPE_CLASS| && env.payload == Nested(4) && py.Sanitize(env.sender, MAX_AGENT_ID) != ""
    requires |body| <= Codec.MAX_ENVELOPE_BYTES - HEADER_LEN
    requires k < j < |links| && Known(links, ch) && !rep.ok
    requires links[k].ChunkSize() <= 1024 && (env.recipient == "*" ==> links[k].broadcast)
    requires ch.circuits[links[k].name].openUntil <= clock(tick)
    requires links[j].ChunkSize() == 65535 && (env.recipient == "*" ==> links[j].broadcast)
    ensures var mail := MailOf(py, env, body);
      && Fits(links[j], mail)
      && Walk(links, k, ch, rep, mail, lim, clock, tick, port, call) == Walked(ch, tick + 1, call, Ok(rep))
  {
    hide Python.Sanitize, EncodeFrame, JsonFrame, Nested, Segments, Offered;
    OnlyJsonCarries(py, env, body);
  }
}
