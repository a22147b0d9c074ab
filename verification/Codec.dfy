/**
  The compact codec of `protocol.py`, byte for byte: length-prefixed text fields, a timestamp, and
  self-describing tag-length-value entries with a JSON entry for the keys outside the registry.
 */
module Codec {
  import opened Common
  import opened Bytes
  import opened Frames
  import opened Payloads
  import Utf8

  const MAX_ENVELOPE_BYTES := 65535
  const MAX_AGENT_ID := 48
  const MAX_REALM := 8

  const TAG_STR: Byte := 0
  const TAG_UINT: Byte := 1
  const TAG_FLOAT: Byte := 2
  const TAG_JSON: Byte := 3

  const BLOB := "_blob"

  /** FIELD_NAMES: a field's number is its position. */
  const FIELD_NAMES: seq<string> := [
    "_blob", "fact_id", "content", "kind", "salience", "origin", "vector", "target", "amount", "digests",
    "query", "top_k", "results", "task", "status", "error", "manifest", "count", "since", "grants",
    "reason", "ttl", "qos", "realm", "port", "entity_id", "frame_id", "confidence", "orientation", "size",
    "observations", "descriptor", "result", "request_id", "event", "entities", "motion_events"]

  datatype Envelope = Envelope(msgId: int, typ: nat, sender: string, recipient: string, topic: string,
                               realm: string, payload: Value, createdAt: F64)

  datatype CodecError =
    | UnknownMessageType | SenderRequired | EntriesTooLarge | EnvelopeTooLarge
    | BodyTruncated | EntriesTruncated | CorruptJson | UnknownTag
    | Payload(cause: PayloadError) | Header(wire: WireError)
    | OutOfBounds   // the IndexError or struct.error of a read or pack beyond its limits

  // ----- the field registry ----------------------------------------------------------------------

  function Position(names: seq<string>, key: string): (r: Option<nat>)
    ensures r.Some? ==> r.value < |names| && names[r.value] == key
    ensures r.None? ==> key !in names
  {
    if names == [] then None
    else if names[0] == key then Some(0)
    else
      var r := Position(names[1..], key);
      if r.None? then None else Some(r.value + 1)
  }

  function FieldId(key: string): (r: Option<Byte>)
    ensures r.Some? ==> FieldName(r.value) == key
    ensures r == Some(0) <==> key == BLOB
  {
    var p := Position(FIELD_NAMES, key);
    if p.None? then None else Some(p.value)
  }

  function Decimal(n: nat): string {
    if n < 10 then [(n + '0' as int) as char] else Decimal(n / 10) + Decimal(n % 10)
  }

  function FieldName(fid: Byte): string {
    if fid < |FIELD_NAMES| then FIELD_NAMES[fid] else "f" + Decimal(fid)
  }

  predicate Registered(key: string) { FieldId(key).Some? }

  // ----- encoding --------------------------------------------------------------------------------

  /** `data[:65535]` behind its two-byte length. */
  function Sized(data: seq<Byte>): (bs: seq<Byte>)
    ensures |bs| == 2 + Min(65535, |data|)
  {
    var n := Min(65535, |data|);
    FieldWidths();
    PackBE(n, 2) + data[..n]
  }

  function U64(n: int): (bs: seq<Byte>)
    ensures |bs| == 8
  {
    FieldWidths();
    PackBE(n % 0x1_0000_0000_0000_0000, 8)
  }

  function Lift<T>(r: Result<T, PayloadError>): Result<T, CodecError> {
    if r.Err? then Err(Payload(r.error)) else Ok(r.value)
  }

  /** `_encode_value`: the bytes of one entry. */
  function EncodeValue(py: Python, fid: Byte, v: Value): (r: Result<seq<Byte>, CodecError>)
    ensures r.Ok? ==> |r.value| >= 4 && r.value[0] == fid
  {
    match v
    case Null =>
      if |py.dumps(v)| > 65535 then Err(OutOfBounds) else Ok([fid, TAG_JSON] + Sized(py.dumps(v)))
    case Bool(_) =>
      if |py.dumps(v)| > 65535 then Err(OutOfBounds) else Ok([fid, TAG_JSON] + Sized(py.dumps(v)))
    case Int(i) => Ok([fid, TAG_UINT] + U64(i))
    case Float(bits) => Ok([fid, TAG_FLOAT] + U64(bits))
    case Str(s) => Ok([fid, TAG_STR] + Sized(Utf8.Encode(py.Sanitize(s, MAX_STR_VALUE))))
    case _ =>
      var b :- Lift(Bound(py, v, 0));
      Ok([fid, TAG_JSON] + Sized(py.dumps(b)))
  }

  /** The entries of the registered keys, in order. */
  function EncodeRegistered(py: Python, es: seq<Entry>): Result<seq<Byte>, CodecError>
  {
    if es == [] then Ok([])
    else
      var last := es[|es| - 1];
      var init :- EncodeRegistered(py, es[..|es| - 1]);
      if FieldId(last.key).None? then Ok(init)
      else
        var bs :- EncodeValue(py, FieldId(last.key).value, last.val);
        Ok(init + bs)
  }

  /** The entries outside the registry, in order. */
  function Blob(es: seq<Entry>): seq<Entry>
  {
    if es == [] then []
    else
      var last := es[|es| - 1];
      if FieldId(last.key).None? then Blob(es[..|es| - 1]) + [last] else Blob(es[..|es| - 1])
  }

  function EncodeEntries(py: Python, es: seq<Entry>): Result<seq<Byte>, CodecError>
  {
    var entries :- EncodeRegistered(py, es);
    var blob := Blob(es);
    if blob == [] then Ok(entries)
    else
      var b :- Lift(Bound(py, Dict(blob), 0));
      var tail :- EncodeValue(py, 0, b);
      Ok(entries + tail)
  }

  function EncodeText(py: Python, s: string, cap: nat): seq<Byte>
  {
    var raw := Slice(Utf8.Encode(py.Sanitize(s, cap)), 0, 255);
    [|raw|] + raw
  }

  function PayloadEntries(payload: Value): seq<Entry> {
    if payload.Dict? then payload.entries else [Entry("_value", payload)]
  }

  /** The four text fields and the timestamp. */
  function EncodeFields(py: Python, env: Envelope): seq<Byte> {
    EncodeText(py, env.sender, MAX_AGENT_ID) + EncodeText(py, env.recipient, MAX_AGENT_ID)
    + EncodeText(py, env.topic, MAX_TOPIC) + EncodeText(py, env.realm, MAX_REALM) + U64(env.createdAt)
  }

  /** `_encode_compact_body` */
  function EncodeBody(py: Python, env: Envelope): Result<seq<Byte>, CodecError>
  {
    var entries :- EncodeEntries(py, PayloadEntries(env.payload));
    if |entries| > 65535 then Err(EntriesTooLarge)
    else
      FieldWidths();
      Ok(EncodeFields(py, env) + PackBE(|entries|, 2) + entries)
  }

  function OrStar(s: string): string { if s == "" then "*" else s }

  /** `Envelope.normalized` */
  function Normalized(py: Python, env: Envelope): (r: Result<Envelope, CodecError>)
    ensures r.Ok? ==> 0 <= r.value.msgId < 0x1_0000_0000
  {
    var payload :- Lift(Bound(py, env.payload, 0));
    Ok(Envelope(env.msgId % 0x1_0000_0000, env.typ,
                py.Sanitize(env.sender, MAX_AGENT_ID), OrStar(py.Sanitize(env.recipient, MAX_AGENT_ID)),
                py.Sanitize(env.topic, MAX_TOPIC), OrStar(py.Sanitize(env.realm, MAX_REALM)),
                payload, env.createdAt))
  }

  function CompactHead(env: Envelope, plen: nat): Head
    requires env.typ < |TYPE_CLASS| && 0 <= env.msgId
  {
    Head(CODEC_COMPACT, TYPE_CLASS[env.typ], env.typ, 0, env.msgId, plen)
  }

  /** `encode(envelope, CODEC_COMPACT)` */
  function EncodeFrame(py: Python, env: Envelope): Result<Frame, CodecError>
  {
    if env.typ >= |TYPE_CLASS| then Err(UnknownMessageType)
    else
      var n :- Normalized(py, env);
      if n.sender == "" then Err(SenderRequired)
      else
        var body :- EncodeBody(py, n);
        if |body| > MAX_ENVELOPE_BYTES - HEADER_LEN then Err(EnvelopeTooLarge)
        else Ok(PackHeader(CompactHead(n, |body|)) + body)
  }

  /** `_encode_compact_body` as it grows its two byte arrays. */
  method EncodeCompactBody(py: Python, env: Envelope) returns (r: Result<seq<Byte>, CodecError>)
    ensures r == EncodeBody(py, env)
  {
    hide EncodeFields, EncodeValue, FieldId, PackBE, Bound, PayloadEntries;
    var buf := EncodeFields(py, env);
    var es := PayloadEntries(env.payload);
    var entries: seq<Byte> := [];
    var blob: seq<Entry> := [];
    for k := 0 to |es|
      invariant EncodeRegistered(py, es[..k]) == Ok(entries)
      invariant Blob(es[..k]) == blob
    {
      assert es[..k + 1][..k] == es[..k];
      var fid := FieldId(es[k].key);
      if fid.None? {
        blob := blob + [es[k]];
      } else {
        var bs := EncodeValue(py, fid.value, es[k].val);
        if bs.Err? {
          EncodingStops(py, es, k, bs.error);
          return Err(bs.error);
        }
        entries := entries + bs.value;
      }
    }
    assert es[..|es|] == es;
    if blob != [] {
      var b :- Lift(Bound(py, Dict(blob), 0));
      var tail :- EncodeValue(py, 0, b);
      entries := entries + tail;
    }
    if |entries| > 65535 { return Err(EntriesTooLarge); }
    FieldWidths();
    return Ok(buf + PackBE(|entries|, 2) + entries);
  }

  lemma {:induction false} EncodingStops(py: Python, es: seq<Entry>, k: nat, e: CodecError)
    requires k < |es| && EncodeRegistered(py, es[..k]).Ok? && FieldId(es[k].key).Some?
    requires EncodeValue(py, FieldId(es[k].key).value, es[k].val) == Err(e)
    ensures EncodeRegistered(py, es) == Err(e)
    decreases |es|
  {
    hide EncodeValue, FieldId, Position, FieldName, Blob, Bound;
    var n := |es| - 1;
    if k < n {
      assert es[..n][..k] == es[..k];
      EncodingStops(py, es[..n], k, e);
    }
  }

  // ----- decoding --------------------------------------------------------------------------------

  function ReadText(data: seq<Byte>, off: nat): (r: Result<(seq<Byte>, nat), CodecError>)
    ensures r.Ok? ==> off < r.value.1 <= |data|
  {
    if off >= |data| then Err(OutOfBounds)
    else if off + 1 + data[off] > |data| then Err(BodyTruncated)
    else Ok((data[off + 1..off + 1 + data[off]], off + 1 + data[off]))
  }

  function ReadUint(data: seq<Byte>, off: nat, w: nat): Result<nat, CodecError> {
    if off + w > |data| then Err(OutOfBounds) else Ok(UnpackBE(data[off..off + w]))
  }

  function ReadU64(data: seq<Byte>, off: nat): (r: Result<F64, CodecError>) {
    FieldWidths();
    var n :- ReadUint(data, off, 8);
    Ok(n)
  }

  /** A two-byte length and the bytes behind it, clipped where the data ends. */
  function ReadSized(data: seq<Byte>, off: nat): (r: Result<(seq<Byte>, nat), CodecError>)
    ensures r.Ok? ==> r.value.1 > off
  {
    var n :- ReadUint(data, off, 2);
    Ok((Slice(data, off + 2, off + 2 + n), off + 2 + n))
  }

  /** `_decode_value`: the value and the offset behind it. */
  function DecodeValue(py: Python, tag: Byte, data: seq<Byte>, off: nat): (r: Result<(Value, nat), CodecError>)
    ensures r.Ok? ==> r.value.1 > off
  {
    if tag == TAG_STR then
      var text :- ReadSized(data, off);
      Ok((Str(Utf8.Decode(text.0)), text.1))
    else if tag == TAG_UINT then
      var n :- ReadU64(data, off);
      Ok((Int(n), off + 8))
    else if tag == TAG_FLOAT then
      var n :- ReadU64(data, off);
      Ok((Float(n), off + 8))
    else if tag == TAG_JSON then
      var json :- ReadSized(data, off);
      var v := py.loads(json.0);
      if v.None? then Err(CorruptJson) else Ok((v.value, json.1))
    else Err(UnknownTag)
  }

  /** What a decoded entry does to the payload dict. */
  function Stored(payload: seq<Entry>, fid: Byte, v: Value): seq<Entry> {
    if fid == 0 && v.Dict? then Update(payload, v.entries) else Put(payload, FieldName(fid), v)
  }

  function DecodeEntries(py: Python, data: seq<Byte>, off: nat, end: nat, payload: seq<Entry>)
    : Result<seq<Entry>, CodecError>
    decreases end - off
  {
    if off >= end then Ok(payload)
    else if off + 1 >= |data| then Err(OutOfBounds)
    else
      var v :- DecodeValue(py, data[off + 1], data, off + 2);
      DecodeEntries(py, data, v.1, end, Stored(payload, data[off], v.0))
  }

  /** `_decode_compact_body`; the message id and type are filled in from the header. */
  function DecodeBody(py: Python, data: seq<Byte>, msgId: nat, typ: nat): (r: Result<Envelope, CodecError>)
    ensures r.Ok? ==> r.value.payload.Dict?
  {
    if |data| < 13 then Err(BodyTruncated)
    else
      var sender :- ReadText(data, 0);
      var recipient :- ReadText(data, sender.1);
      var topic :- ReadText(data, recipient.1);
      var realm :- ReadText(data, topic.1);
      var ts :- ReadU64(data, realm.1);
      var n :- ReadUint(data, realm.1 + 8, 2);
      var off := realm.1 + 10;
      if off + n > |data| then Err(EntriesTruncated)
      else
        var entries :- DecodeEntries(py, data, off, off + n, []);
        var payload :- Lift(Bound(py, Dict(entries), 0));
        Ok(Envelope(msgId, typ, py.Sanitize(Utf8.Decode(sender.0), MAX_AGENT_ID),
                    OrStar(py.Sanitize(Utf8.Decode(recipient.0), MAX_AGENT_ID)),
                    py.Sanitize(Utf8.Decode(topic.0), MAX_TOPIC),
                    OrStar(py.Sanitize(Utf8.Decode(realm.0), MAX_REALM)), payload, ts))
  }

  /** `decode`, for frames whose header names the compact codec. */
  function DecodeFrame(py: Python, frame: Frame): Result<Envelope, CodecError>
    requires PeekHeader(frame).Ok? ==> PeekHeader(frame).value.codec == CODEC_COMPACT
  {
    var head := PeekHeader(frame);
    if head.Err? then Err(Header(head.error))
    else DecodeBody(py, frame[HEADER_LEN..], head.value.msgId, head.value.typ)
  }

  /** The entry loop of `_decode_compact_body`. */
  method DecodeEntryLoop(py: Python, data: seq<Byte>, start: nat, end: nat) returns (r: Result<seq<Entry>, CodecError>)
    ensures r == DecodeEntries(py, data, start, end, [])
  {
    hide DecodeValue, Stored;
    var off := start;
    var payload: seq<Entry> := [];
    while off < end
      invariant DecodeEntries(py, data, off, end, payload) == DecodeEntries(py, data, start, end, [])
    {
      if off + 1 >= |data| { return Err(OutOfBounds); }
      var v :- DecodeValue(py, data[off + 1], data, off + 2);
      payload := Stored(payload, data[off], v.0);
      off := v.1;
    }
    return Ok(payload);
  }
}
