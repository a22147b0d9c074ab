/**
  What the caps of `protocol.py` do to a payload and an envelope: which are refused, which are left as they
  are, and what the others become.
 */
module Normalization {
  import opened Common
  import opened Bytes
  import opened Frames
  import opened Payloads
  import opened Codec
  import opened CodecRoundTrip
  import opened CompactFrames
  import Utf8

  // ----- texts -----------------------------------------------------------------------------------------------

  /** A text that is short enough and has printable characters only. */
  ghost predicate Tidy(py: Python, s: string, cap: nat) {
    |s| <= cap && forall k :: 0 <= k < |s| ==> py.printable(s[k])
  }

  /** A text loses what is beyond the cap and has spaces for what cannot be printed; a tidy one is left alone. */
  lemma SanitizeMeans(py: Python, s: string, cap: nat)
    ensures var t := py.Sanitize(s, cap);
      && |t| == (if |s| <= cap then |s| else cap)
      && (forall k :: 0 <= k < |t| ==> (py.printable(s[k]) ==> t[k] == s[k]) && (!py.printable(s[k]) ==> t[k] == ' '))
      && (py.printable(' ') ==> Tidy(py, t, cap))
      && (Tidy(py, s, cap) ==> t == s)
      && (py.printable(' ') && t == s ==> Tidy(py, s, cap))
  {
  }

  // ----- which payloads are refused --------------------------------------------------------------------------

  /** Somewhere a container is nested more than four deep or has more than 64 members. */
  ghost predicate Oversized(v: Value, depth: nat)
    decreases v
  {
    || depth > 4
    || (v.Dict? && (|v.entries| > 64 || exists i :: 0 <= i < |v.entries| && Oversized(v.entries[i].val, depth + 1)))
    || (v.List? && (|v.items| > 64 || exists i :: 0 <= i < |v.items| && Oversized(v.items[i], depth + 1)))
  }

  /** The caps refuse exactly the payloads that are nested too deep or have too many members somewhere. */
  lemma {:induction false} RefusedExactly(py: Python, v: Value, depth: nat)
    ensures Bound(py, v, depth).Err? <==> Oversized(v, depth)
    decreases v, 1
  {
    if depth <= 4 {
      match v
      case Dict(es) => EntriesRefused(py, es, depth);
      case List(vs) => ItemsRefused(py, vs, depth);
      case _ =>
    }
  }

  lemma {:induction false} EntriesRefused(py: Python, es: seq<Entry>, depth: nat)
    ensures BoundEntries(py, es, depth).Err? <==> exists i :: 0 <= i < |es| && Oversized(es[i].val, depth + 1)
    decreases es, 0
  {
    hide Bound, Oversized;
    if es != [] {
      var n := |es| - 1;
      EntriesRefused(py, es[..n], depth);
      RefusedExactly(py, es[n].val, depth + 1);
      if BoundEntries(py, es[..n], depth).Err? {
        var i :| 0 <= i < n && Oversized(es[..n][i].val, depth + 1);
        assert Oversized(es[i].val, depth + 1);
      } else {
        assert forall i :: 0 <= i < n ==> es[i] == es[..n][i];
      }
    }
  }

  lemma {:induction false} ItemsRefused(py: Python, vs: seq<Value>, depth: nat)
    ensures BoundItems(py, vs, depth).Err? <==> exists i :: 0 <= i < |vs| && Oversized(vs[i], depth + 1)
    decreases vs, 0
  {
    hide Bound, Oversized;
    if vs != [] {
      var n := |vs| - 1;
      ItemsRefused(py, vs[..n], depth);
      RefusedExactly(py, vs[n], depth + 1);
      if BoundItems(py, vs[..n], depth).Err? {
        var i :| 0 <= i < n && Oversized(vs[..n][i], depth + 1);
        assert Oversized(vs[i], depth + 1);
      } else {
        assert forall i :: 0 <= i < n ==> vs[i] == vs[..n][i];
      }
    }
  }

  // ----- which payloads are left alone -----------------------------------------------------------------------

  /** Within the caps: texts and keys tidy, floats finite, containers small and shallow, keys all different. */
  ghost predicate WithinCaps(py: Python, v: Value, depth: nat)
    decreases v
  {
    && depth <= 4
    && match v
       case Dict(es) =>
         && |es| <= 64 && UniqueKeys(es)
         && forall i :: 0 <= i < |es| ==> Tidy(py, es[i].key, 64) && WithinCaps(py, es[i].val, depth + 1)
       case List(vs) => |vs| <= 64 && forall i :: 0 <= i < |vs| ==> WithinCaps(py, vs[i], depth + 1)
       case Str(s) => Tidy(py, s, 2048)
       case Float(bits) => IsFinite(bits)
       case _ => true
  }

  /** A payload is left as it is exactly when it is within the caps. */
  lemma {:induction false} UnchangedExactly(py: Python, v: Value, depth: nat)
    requires py.printable(' ')
    ensures Bound(py, v, depth) == Ok(v) <==> WithinCaps(py, v, depth)
    decreases v
  {
    if depth <= 4 {
      match v
      case Dict(es) =>
        forall i | 0 <= i < |es|
          ensures GoodEntry(py, es[i], depth) <==> Tidy(py, es[i].key, 64) && WithinCaps(py, es[i].val, depth + 1)
        {
          UnchangedExactly(py, es[i].val, depth + 1);
          SanitizeMeans(py, es[i].key, 64);
        }
        EntriesUnchanged(py, es, depth);
      case List(vs) =>
        forall i | 0 <= i < |vs| ensures Fixed(py, vs[i], depth + 1) <==> WithinCaps(py, vs[i], depth + 1) {
          UnchangedExactly(py, vs[i], depth + 1);
        }
        ItemsUnchanged(py, vs, depth);
      case Str(s) => SanitizeMeans(py, s, 2048);
      case Float(bits) => ZeroIsFinite();
      case _ =>
    }
  }

  lemma ZeroIsFinite()
    ensures IsFinite(0)
  {
  }

  lemma EntriesUnchanged(py: Python, es: seq<Entry>, depth: nat)
    requires py.printable(' ')
    ensures BoundEntries(py, es, depth) == Ok(es) <==> GoodEntries(py, es, depth)
  {
    hide BoundEntries, GoodEntries;
    if BoundEntries(py, es, depth).Ok? { BoundEntriesGood(py, es, depth, depth); }
    if GoodEntries(py, es, depth) { GoodEntriesFixed(py, es, depth); }
  }

  lemma ItemsUnchanged(py: Python, vs: seq<Value>, depth: nat)
    requires py.printable(' ')
    ensures BoundItems(py, vs, depth) == Ok(vs) <==> forall i :: 0 <= i < |vs| ==> Fixed(py, vs[i], depth + 1)
  {
    hide BoundItems, Fixed;
    if BoundItems(py, vs, depth).Ok? { BoundItemsFixed(py, vs, depth, depth); }
    if forall i :: 0 <= i < |vs| ==> Fixed(py, vs[i], depth + 1) { FixedItems(py, vs, depth); }
  }

  // ----- what the others become --------------------------------------------------------------------------------

  /** No later entry ends up under the same key. */
  ghost predicate LastOfKey(py: Python, es: seq<Entry>, i: nat) {
    i < |es| && forall j :: i < j < |es| ==> py.Sanitize(es[j].key, 64) != py.Sanitize(es[i].key, 64)
  }

  /** Entry i, the last one of its key, becomes e. */
  ghost predicate Yields(py: Python, es: seq<Entry>, depth: nat, i: nat, e: Entry) {
    LastOfKey(py, es, i) && e.key == py.Sanitize(es[i].key, 64) && Bound(py, es[i].val, depth + 1) == Ok(e.val)
  }

  ghost predicate From(py: Python, es: seq<Entry>, depth: nat, e: Entry) {
    exists i: nat :: Yields(py, es, depth, i, e)
  }

  /**
    What a payload becomes, level by level: members keep their places and are treated the same way, keys are
    cleaned and the last of equal ones wins, texts are cleaned, and a float that is no number becomes zero.
   */
  lemma BoundMeans(py: Python, v: Value, depth: nat)
    requires Bound(py, v, depth).Ok?
    ensures var w := Bound(py, v, depth).value;
      match v
      case List(vs) => w.List? && |w.items| == |vs| && forall i :: 0 <= i < |vs| ==> Bound(py, vs[i], depth + 1) == Ok(w.items[i])
      case Dict(es) =>
        && w.Dict? && UniqueKeys(w.entries)
        && (forall e :: e in w.entries <==> From(py, es, depth, e))
      case Str(s) => w == Str(py.Sanitize(s, 2048))
      case Float(bits) => w.Float? && (IsFinite(bits) ==> w == v) && (!IsFinite(bits) ==> w.bits == 0)
      case _ => w == v
  {
    match v
    case Dict(es) => EntriesMean(py, es, depth);
    case List(vs) => ItemsMean(py, vs, depth);
    case _ =>
  }

  lemma {:induction false} ItemsMean(py: Python, vs: seq<Value>, depth: nat)
    requires BoundItems(py, vs, depth).Ok?
    ensures var ws := BoundItems(py, vs, depth).value;
      |ws| == |vs| && forall i :: 0 <= i < |vs| ==> Bound(py, vs[i], depth + 1) == Ok(ws[i])
  {
    hide Bound;
    if vs != [] {
      var n := |vs| - 1;
      ItemsMean(py, vs[..n], depth);
      assert forall i :: 0 <= i < n ==> vs[..n][i] == vs[i];
    }
  }

  lemma YieldsNext(py: Python, es: seq<Entry>, depth: nat, i: nat, e: Entry)
    requires es != [] && i < |es| - 1 && e.key != py.Sanitize(es[|es| - 1].key, 64)
    ensures Yields(py, es, depth, i, e) <==> Yields(py, es[..|es| - 1], depth, i, e)
  {
    hide Bound, Python.Sanitize;
  }

  /** One entry more replaces what came from an earlier one under its key. */
  lemma FromNext(py: Python, es: seq<Entry>, depth: nat, e: Entry)
    requires es != [] && Bound(py, es[|es| - 1].val, depth + 1).Ok?
    ensures var n, last := |es| - 1, es[|es| - 1];
      From(py, es, depth, e) <==>
        if e.key == py.Sanitize(last.key, 64) then Bound(py, last.val, depth + 1) == Ok(e.val) else From(py, es[..n], depth, e)
  {
    var n := |es| - 1;
    if e.key == py.Sanitize(es[n].key, 64) {
      LastYields(py, es, depth, e);
    } else {
      hide Yields, Bound, Python.Sanitize;
      forall i: nat | i < n ensures Yields(py, es, depth, i, e) <==> Yields(py, es[..n], depth, i, e) {
        YieldsNext(py, es, depth, i, e);
      }
      YieldsInside(py, es, depth, e);
      YieldsInside(py, es[..n], depth, e);
    }
  }

  lemma LastYields(py: Python, es: seq<Entry>, depth: nat, e: Entry)
    requires es != [] && e.key == py.Sanitize(es[|es| - 1].key, 64)
    ensures From(py, es, depth, e) <==> Bound(py, es[|es| - 1].val, depth + 1) == Ok(e.val)
  {
    hide Bound, Python.Sanitize;
    if Bound(py, es[|es| - 1].val, depth + 1) == Ok(e.val) { assert Yields(py, es, depth, |es| - 1, e); }
  }

  lemma YieldsInside(py: Python, es: seq<Entry>, depth: nat, e: Entry)
    ensures forall i: nat :: Yields(py, es, depth, i, e) ==> i < |es| && (i == |es| - 1 ==> e.key == py.Sanitize(es[i].key, 64))
  {
    hide Bound, Python.Sanitize;
  }

  lemma PutMembers(d: seq<Entry>, key: string, val: Value)
    requires UniqueKeys(d)
    ensures UniqueKeys(Put(d, key, val))
    ensures forall e :: e in Put(d, key, val) <==> if e.key == key then e.val == val else e in d
  {
    hide Put;
    PutKeys(d, key, val);
    if HasKey(d, key) {
      var i := PutOver(d, key, val);
      var p := Put(d, key, val);
      assert p[i] == Entry(key, val);
      forall e | e in d && e.key != key ensures e in p {
        var j :| 0 <= j < |d| && d[j] == e;
        assert p[j] == e;
      }
      forall e | e in p && e.key == key ensures e.val == val {
        var j :| 0 <= j < |p| && p[j] == e;
        assert j == i;
      }
    } else {
      PutFresh(d, key, val);
      forall e | e in d ensures e.key != key { var j :| 0 <= j < |d| && d[j] == e; }
    }
  }

  lemma {:induction false} EntriesMean(py: Python, es: seq<Entry>, depth: nat)
    requires BoundEntries(py, es, depth).Ok?
    ensures var ws := BoundEntries(py, es, depth).value;
      UniqueKeys(ws) && forall e :: e in ws <==> From(py, es, depth, e)
  {
    hide Bound, Python.Sanitize, From, UniqueKeys, Put;
    if es == [] {
      NothingFrom(py, depth);
    } else {
      var n := |es| - 1;
      EntriesMean(py, es[..n], depth);
      var ws := BoundEntries(py, es[..n], depth).value;
      var key, val := py.Sanitize(es[n].key, 64), Bound(py, es[n].val, depth + 1).value;
      PutMembers(ws, key, val);
      forall e ensures e in Put(ws, key, val) <==> From(py, es, depth, e) { FromNext(py, es, depth, e); }
    }
  }

  lemma NothingFrom(py: Python, depth: nat)
    ensures UniqueKeys([]) && forall e :: !From(py, [], depth, e)
  {
  }

  // ----- envelopes -----------------------------------------------------------------------------------------------

  /** An envelope that a caller may expect back as it is. */
  ghost predicate Normal(py: Python, env: Envelope) {
    && 0 <= env.msgId <= 0xFFFF_FFFF
    && Tidy(py, env.sender, 48) && Tidy(py, env.recipient, 48) && Tidy(py, env.topic, 64) && Tidy(py, env.realm, 8)
    && env.recipient != "" && env.realm != ""
    && WithinCaps(py, env.payload, 0)
  }

  /** Normalizing leaves an envelope as it is exactly when it is normal, and it refuses exactly the oversized payloads. */
  lemma NormalExactly(py: Python, env: Envelope)
    requires py.printable(' ') && py.printable('*')
    ensures Normalized(py, env) == Ok(env) <==> Normal(py, env)
    ensures Normalized(py, env).Err? <==> Oversized(env.payload, 0)
  {
    hide Python.Sanitize, Bound, WithinCaps, Oversized, Tidy;
    SanitizeMeans(py, env.sender, 48);
    SanitizeMeans(py, env.recipient, 48);
    SanitizeMeans(py, env.topic, 64);
    SanitizeMeans(py, env.realm, 8);
    UnchangedExactly(py, env.payload, 0);
    RefusedExactly(py, env.payload, 0);
    MaskedSame(env.msgId);
    StarTidy(py, env.recipient, 48);
    StarTidy(py, env.realm, 8);
  }

  lemma MaskedSame(id: int)
    ensures id % 0x1_0000_0000 == id <==> 0 <= id <= 0xFFFF_FFFF
  {
  }

  lemma StarTidy(py: Python, s: string, cap: nat)
    requires py.printable('*') && cap >= 1
    ensures OrStar(py.Sanitize(s, cap)) == s <==> py.Sanitize(s, cap) == s && s != ""
  {
  }

  /**
    The round trip without a detour: an envelope within the caps that the compact codec accepts comes back
    exactly as it was, its payload compared as a map, if and only if it is transportable.
   */
  lemma NormalRoundTrip(py: Python, env: Envelope, frame: Frame)
    requires py.Valid() && Normal(py, env) && EncodeFrame(py, env) == Ok(frame)
    ensures PeekHeader(frame).Ok? && PeekHeader(frame).value.codec == CODEC_COMPACT
    ensures (DecodeFrame(py, frame).Ok? && SameEnvelope(DecodeFrame(py, frame).value, env)) <==> Transportable(env)
  {
    hide EncodeFrame, DecodeFrame, Normal, Transportable, SameEnvelope;
    NormalExactly(py, env);
    CompactRoundTrip(py, env, frame);
  }

  // ----- which envelopes are encoded -------------------------------------------------------------------------------

  /** A value within the caps always has an entry. */
  lemma ValueEncodes(py: Python, fid: Byte, v: Value, depth: nat)
    requires py.Valid() && Fixed(py, v, depth)
    ensures EncodeValue(py, fid, v).Ok?
  {
    hide Sized, U64, Utf8.Encode, Bound;
    match v
    case Bool(b) => assert |py.dumps(Bool(b))| <= 5;
    case List(_) => BoundFixed(py, v, depth, 0);
    case Dict(_) => BoundFixed(py, v, depth, 0);
    case _ =>
  }

  lemma {:induction false} RegisteredEncode(py: Python, es: seq<Entry>)
    requires py.Valid() && GoodEntries(py, es, 0)
    ensures EncodeRegistered(py, es).Ok?
  {
    hide EncodeValue, FieldId, Python.Valid, Fixed, Python.Sanitize;
    if es != [] {
      var n := |es| - 1;
      RegisteredEncode(py, es[..n]);
      assert GoodEntry(py, es[n], 0);
      if FieldId(es[n].key).Some? { ValueEncodes(py, FieldId(es[n].key).value, es[n].val, 1); }
    }
  }

  lemma EntriesEncode(py: Python, es: seq<Entry>)
    requires py.Valid() && GoodEntries(py, es, 0) && |es| <= MAX_PAYLOAD_ITEMS
    ensures EncodeEntries(py, es).Ok?
  {
    hide EncodeValue, EncodeRegistered, Blob, GoodEntries, Bound, Python.Valid;
    RegisteredEncode(py, es);
    BlobGood(py, es);
    DictFixed(py, Blob(es));
    if Blob(es) != [] { ValueEncodes(py, 0, Dict(Blob(es)), 0); }
  }

  /** The four texts and the timestamp take up to 1032 bytes. */
  lemma FieldsShort(py: Python, env: Envelope)
    ensures |EncodeFields(py, env)| <= 1032
  {
    hide Utf8.Encode, Python.Sanitize;
  }

  /**
    The compact codec takes every envelope within the caps whose payload is a dict, if and only if its type is
    known, it names a sender, and its body, header included, fits 65535 bytes.
   */
  lemma EncodesExactly(py: Python, env: Envelope)
    requires py.Valid() && Normal(py, env) && env.payload.Dict?
    ensures EncodeEntries(py, env.payload.entries).Ok?
    ensures EncodeFrame(py, env).Ok? <==>
      var size := 16 + |EncodeFields(py, env)| + 2 + |EncodeEntries(py, env.payload.entries).value|;
      env.typ < 24 && env.sender != "" && size <= 65535
    ensures |EncodeEntries(py, env.payload.entries).value| <= 64485 && env.typ < 24 && env.sender != ""
        ==> EncodeFrame(py, env).Ok?
  {
    hide EncodeFields, EncodeEntries, PackBE, Normalized, Normal, PackHeader;
    NormalExactly(py, env);
    NormalPayload(py, env);
    EntriesEncode(py, env.payload.entries);
    FieldsShort(py, env);
  }

  lemma NormalPayload(py: Python, env: Envelope)
    requires py.Valid() && Normal(py, env) && env.payload.Dict?
    ensures GoodEntries(py, env.payload.entries, 0) && |env.payload.entries| <= MAX_PAYLOAD_ITEMS && env.msgId >= 0
  {
    hide GoodEntries, Bound, Tidy;
    UnchangedExactly(py, env.payload, 0);
    PayloadGood(py, env.payload);
  }
}
