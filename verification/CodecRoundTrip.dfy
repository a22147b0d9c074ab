/** When decoding what the compact codec wrote gives the normalized envelope back. */
module CodecRoundTrip {
  import opened Common
  import opened Bytes
  import opened Frames
  import opened Payloads
  import opened Codec
  import Utf8

  /** The part of `data` from `off` on starts with `bs`. */
  ghost predicate At(data: seq<Byte>, off: nat, bs: seq<Byte>) {
    off + |bs| <= |data| && data[off..off + |bs|] == bs
  }

  lemma AtParts<T>(data: seq<T>, off: nat, a: seq<T>, b: seq<T>)
    requires off + |a| + |b| <= |data| && data[off..off + |a| + |b|] == a + b
    ensures data[off..off + |a|] == a && data[off + |a|..off + |a| + |b|] == b
  {
    var s := data[off..off + |a| + |b|];
    assert s[..|a|] == a && s[|a|..] == b;
  }

  lemma AtConcat(data: seq<Byte>, off: nat, a: seq<Byte>, b: seq<Byte>)
    requires At(data, off, a + b)
    ensures At(data, off, a) && At(data, off + |a|, b)
  {
    AtParts(data, off, a, b);
  }

  lemma ReadPacked(data: seq<Byte>, off: nat, n: nat, w: nat)
    requires n < Pow256(w) && At(data, off, PackBE(n, w))
    ensures ReadUint(data, off, w) == Ok(n)
  {
    UnpackPack(n, w);
  }

  lemma ReadPackedU64(data: seq<Byte>, off: nat, n: int)
    requires At(data, off, U64(n))
    ensures ReadU64(data, off) == Ok(n % 0x1_0000_0000_0000_0000)
  {
    FieldWidths();
    ReadPacked(data, off, n % 0x1_0000_0000_0000_0000, 8);
  }

  /** A length-prefixed field of at most 65535 bytes reads back whole. */
  lemma ReadBack(data: seq<Byte>, off: nat, content: seq<Byte>)
    requires |content| <= 65535 && At(data, off, Sized(content))
    ensures ReadSized(data, off) == Ok((content, off + 2 + |content|))
  {
    FieldWidths();
    assert Sized(content) == PackBE(|content|, 2) + content;
    AtConcat(data, off, PackBE(|content|, 2), content);
    ReadPacked(data, off, |content|, 2);
  }

  // ----- one entry ---------------------------------------------------------------------------------

  /** What a registered value has become when it has crossed the wire: integers keep 64 bits. */
  ghost function Carried(v: Value): Value {
    if v.Int? then Int(v.i % 0x1_0000_0000_0000_0000) else v
  }

  lemma {:induction false} CarriedFixed(py: Python, v: Value, depth: nat)
    requires Fixed(py, v, depth)
    ensures Fixed(py, Carried(v), depth)
  {
  }

  lemma TagFirst(data: seq<Byte>, off: nat, fid: Byte, tag: Byte, rest: seq<Byte>)
    requires At(data, off, [fid, tag] + rest)
    ensures off + 1 < |data| && data[off] == fid && data[off + 1] == tag && At(data, off + 2, rest)
  {
    AtConcat(data, off, [fid, tag], rest);
    assert data[off..off + 2] == [fid, tag];
    assert data[off] == data[off..off + 2][0] && data[off + 1] == data[off..off + 2][1];
  }

  lemma NumberRoundTrip(py: Python, fid: Byte, v: Value, data: seq<Byte>, off: nat)
    requires v.Int? || v.Float?
    requires At(data, off, EncodeValue(py, fid, v).value)
    ensures off + 1 < |data| && data[off] == fid
    ensures DecodeValue(py, data[off + 1], data, off + 2)
         == Ok((Carried(v), off + |EncodeValue(py, fid, v).value|))
  {
    hide At, U64, ReadU64;
    var n := if v.Int? then v.i else v.bits;
    TagFirst(data, off, fid, if v.Int? then TAG_UINT else TAG_FLOAT, U64(n));
    ReadPackedU64(data, off + 2, n);
  }

  lemma SizedRoundTrip(py: Python, fid: Byte, tag: Byte, content: seq<Byte>, v: Value, data: seq<Byte>, off: nat)
    requires |content| <= 65535 && At(data, off, [fid, tag] + Sized(content))
    requires tag == TAG_STR || tag == TAG_JSON
    requires if tag == TAG_STR then v == Str(Utf8.Decode(content)) else py.loads(content) == Some(v)
    ensures off + 1 < |data| && data[off] == fid
    ensures DecodeValue(py, data[off + 1], data, off + 2) == Ok((v, off + 4 + |content|))
  {
    hide At, Sized, ReadSized, ReadU64, Utf8.Decode;
    TagFirst(data, off, fid, tag, Sized(content));
    ReadBack(data, off + 2, content);
  }

  lemma TextRoundTrip(py: Python, fid: Byte, s: string, depth: nat, data: seq<Byte>, off: nat)
    requires Fixed(py, Str(s), depth)
    requires At(data, off, EncodeValue(py, fid, Str(s)).value)
    ensures off + 1 < |data| && data[off] == fid
    ensures DecodeValue(py, data[off + 1], data, off + 2)
         == Ok((Str(s), off + |EncodeValue(py, fid, Str(s)).value|))
  {
    hide At, DecodeValue, Utf8.Decode, Utf8.Encode, Sized;
    assert py.Sanitize(s, MAX_STR_VALUE) == s;
    Utf8.DecodeEncode(s);
    Utf8.EncodedLength(s);
    SizedRoundTrip(py, fid, TAG_STR, Utf8.Encode(s), Str(s), data, off);
  }

  lemma JsonRoundTrip(py: Python, fid: Byte, v: Value, depth: nat, data: seq<Byte>, off: nat)
    requires py.Valid() && Fixed(py, v, depth) && !v.Int? && !v.Float? && !v.Str?
    requires EncodeValue(py, fid, v).Ok? && |EncodeValue(py, fid, v).value| <= 65535
    requires At(data, off, EncodeValue(py, fid, v).value)
    ensures off + 1 < |data| && data[off] == fid
    ensures DecodeValue(py, data[off + 1], data, off + 2)
         == Ok((v, off + |EncodeValue(py, fid, v).value|))
  {
    hide At, DecodeValue, Bound;
    BoundFixed(py, v, depth, 0);
    SizedRoundTrip(py, fid, TAG_JSON, py.dumps(v), v, data, off);
  }

  /** A value within the caps, encoded in at most 65535 bytes, decodes to its carried form. */
  lemma EntryRoundTrip(py: Python, fid: Byte, v: Value, depth: nat, data: seq<Byte>, off: nat)
    requires py.Valid() && Fixed(py, v, depth)
    requires EncodeValue(py, fid, v).Ok? && |EncodeValue(py, fid, v).value| <= 65535
    requires At(data, off, EncodeValue(py, fid, v).value)
    ensures off + 1 < |data| && data[off] == fid
    ensures DecodeValue(py, data[off + 1], data, off + 2)
         == Ok((Carried(v), off + |EncodeValue(py, fid, v).value|))
  {
    hide DecodeValue, EncodeValue, At, Bound;
    if v.Int? || v.Float? {
      NumberRoundTrip(py, fid, v, data, off);
    } else if v.Str? {
      TextRoundTrip(py, fid, v.s, depth, data, off);
    } else {
      JsonRoundTrip(py, fid, v, depth, data, off);
    }
  }

  // ----- the entry list ----------------------------------------------------------------------------

  /** The dict the decoder has built when it has read the entries of the registered keys. */
  ghost function Rebuilt(es: seq<Entry>): seq<Entry> {
    if es == [] then []
    else
      var last := es[|es| - 1];
      var init := Rebuilt(es[..|es| - 1]);
      if FieldId(last.key).None? then init
      else Stored(init, FieldId(last.key).value, Carried(last.val))
  }

  /** ... and when it has also read the fallback entry. */
  ghost function RebuiltAll(es: seq<Entry>): seq<Entry> {
    if Blob(es) == [] then Rebuilt(es) else Update(Rebuilt(es), Blob(es))
  }

  lemma GoodInit(py: Python, es: seq<Entry>)
    requires GoodEntries(py, es, 0) && es != []
    ensures GoodEntries(py, es[..|es| - 1], 0) && GoodEntry(py, es[|es| - 1], 0)
    ensures Fixed(py, es[|es| - 1].val, 1)
  {
    hide Fixed;
  }

  /** The decoding loop, one entry on. */
  lemma NextEntry(py: Python, fid: Byte, v: Value, depth: nat, data: seq<Byte>, off: nat, end: nat, payload: seq<Entry>)
    requires py.Valid() && Fixed(py, v, depth)
    requires EncodeValue(py, fid, v).Ok? && |EncodeValue(py, fid, v).value| <= 65535
    requires At(data, off, EncodeValue(py, fid, v).value) && off < end
    ensures DecodeEntries(py, data, off, end, payload)
         == DecodeEntries(py, data, off + |EncodeValue(py, fid, v).value|, end, Stored(payload, fid, Carried(v)))
  {
    hide EncodeValue, DecodeValue, Stored, Carried, At, Fixed;
    EntryRoundTrip(py, fid, v, depth, data, off);
  }

  lemma {:induction false} RegisteredRoundTrip(py: Python, es: seq<Entry>, data: seq<Byte>, off: nat, end: nat)
    requires py.Valid() && GoodEntries(py, es, 0)
    requires EncodeRegistered(py, es).Ok? && |EncodeRegistered(py, es).value| <= 65535
    requires At(data, off, EncodeRegistered(py, es).value) && off + |EncodeRegistered(py, es).value| <= end
    ensures DecodeEntries(py, data, off, end, [])
         == DecodeEntries(py, data, off + |EncodeRegistered(py, es).value|, end, Rebuilt(es))
  {
    hide EncodeValue, DecodeEntries, FieldId, Stored, Fixed, At, GoodEntries, GoodEntry, Carried;
    if es != [] {
      var n := |es| - 1;
      var init, last := es[..n], es[n];
      GoodInit(py, es);
      if FieldId(last.key).None? {
        RegisteredRoundTrip(py, init, data, off, end);
      } else {
        var a := EncodeRegistered(py, init).value;
        var fid := FieldId(last.key).value;
        AtConcat(data, off, a, EncodeValue(py, fid, last.val).value);
        RegisteredRoundTrip(py, init, data, off, end);
        NextEntry(py, fid, last.val, 1, data, off + |a|, end, Rebuilt(init));
      }
    }
  }

  lemma {:induction false} BlobGood(py: Python, es: seq<Entry>)
    requires GoodEntries(py, es, 0)
    ensures GoodEntries(py, Blob(es), 0) && |Blob(es)| <= |es|
    ensures forall i :: 0 <= i < |Blob(es)| ==> Blob(es)[i] in es && FieldId(Blob(es)[i].key).None?
  {
    hide GoodEntry, FieldId;
    if es != [] {
      var n := |es| - 1;
      Snoc(es);
      BlobGood(py, es[..n]);
    }
  }

  lemma DictFixed(py: Python, es: seq<Entry>)
    requires GoodEntries(py, es, 0)
    ensures Bound(py, Dict(es), 0) == if |es| > MAX_PAYLOAD_ITEMS then Err(TooManyKeys) else Ok(Dict(es))
  {
    GoodEntriesFixed(py, es, 0);
  }

  /** Reading back all entries of a payload within the caps. */
  lemma EntriesRoundTrip(py: Python, es: seq<Entry>, data: seq<Byte>, off: nat)
    requires py.Valid() && GoodEntries(py, es, 0) && |es| <= MAX_PAYLOAD_ITEMS
    requires EncodeEntries(py, es).Ok? && |EncodeEntries(py, es).value| <= 65535
    requires At(data, off, EncodeEntries(py, es).value)
    ensures DecodeEntries(py, data, off, off + |EncodeEntries(py, es).value|, []) == Ok(RebuiltAll(es))
  {
    hide EncodeValue, DecodeEntries, EncodeRegistered, Bound, At, GoodEntries, Blob, Rebuilt, Update;
    var end := off + |EncodeEntries(py, es).value|;
    var a := EncodeRegistered(py, es).value;
    var blob := Blob(es);
    if blob == [] {
      RegisteredRoundTrip(py, es, data, off, end);
    } else {
      BlobGood(py, es);
      DictFixed(py, blob);
      var b := EncodeValue(py, 0, Dict(blob)).value;
      AtConcat(data, off, a, b);
      RegisteredRoundTrip(py, es, data, off, end);
      NextEntry(py, 0, Dict(blob), 0, data, off + |a|, end, Rebuilt(es));
    }
    NoMoreEntries(py, data, end, RebuiltAll(es));
  }

  lemma NoMoreEntries(py: Python, data: seq<Byte>, end: nat, payload: seq<Entry>)
    ensures DecodeEntries(py, data, end, end, payload) == Ok(payload)
  {
  }

  // ----- the rebuilt dict stays within the caps --------------------------------------------------

  lemma {:induction false} UpdateGood(py: Python, d: seq<Entry>, es: seq<Entry>)
    requires GoodEntries(py, d, 0) && GoodEntries(py, es, 0)
    ensures GoodEntries(py, Update(d, es), 0)
    ensures forall e :: e in Update(d, es) ==> e in d || e in es
    decreases |es|
  {
    hide GoodEntry;
    if es != [] {
      var n := |es| - 1;
      Snoc(es);
      UpdateGood(py, d, es[..n]);
      GoodPut(py, Update(d, es[..n]), es[n], 0);
      PutKeys(Update(d, es[..n]), es[n].key, es[n].val);
      assert Entry(es[n].key, es[n].val) == es[n];
    }
  }

  lemma InnerGood(py: Python, e: Entry)
    requires py.printable(' ') && GoodEntry(py, e, 0) && e.val.Dict?
    ensures GoodEntries(py, e.val.entries, 0)
  {
    BoundEntriesGood(py, e.val.entries, 1, 0);
  }

  lemma CarriedGood(py: Python, e: Entry)
    requires GoodEntry(py, e, 0)
    ensures GoodEntry(py, Entry(e.key, Carried(e.val)), 0)
  {
    CarriedFixed(py, e.val, 1);
  }

  /** One decoded entry keeps the dict within the caps, and adds only what it carried. */
  lemma StoredGood(py: Python, d: seq<Entry>, e: Entry)
    requires py.printable(' ') && GoodEntries(py, d, 0) && GoodEntry(py, e, 0) && Registered(e.key)
    ensures GoodEntries(py, Stored(d, FieldId(e.key).value, Carried(e.val)), 0)
    ensures forall x :: x in Stored(d, FieldId(e.key).value, Carried(e.val)) ==>
              || x in d
              || (if e.key == BLOB && e.val.Dict? then x in e.val.entries else x == Entry(e.key, Carried(e.val)))
  {
    hide GoodEntries, GoodEntry, FieldId, FieldName;
    if e.key == BLOB && e.val.Dict? {
      InnerGood(py, e);
      UpdateGood(py, d, e.val.entries);
    } else {
      CarriedGood(py, e);
      GoodPut(py, d, Entry(e.key, Carried(e.val)), 0);
      PutMembers(py, d, Entry(e.key, Carried(e.val)));
    }
  }

  lemma PutMembers(py: Python, d: seq<Entry>, e: Entry)
    requires GoodEntries(py, d, 0)
    ensures forall x :: x in Put(d, e.key, e.val) ==> x in d || x == e
  {
    PutKeys(d, e.key, e.val);
  }

  lemma {:induction false} RebuiltGood(py: Python, es: seq<Entry>)
    requires py.printable(' ') && GoodEntries(py, es, 0)
    ensures GoodEntries(py, Rebuilt(es), 0)
  {
    hide GoodEntries, GoodEntry, FieldId, Stored;
    if es == [] {
      EmptyGood(py);
    } else {
      GoodInit(py, es);
      RebuiltGood(py, es[..|es| - 1]);
      if Registered(es[|es| - 1].key) { StoredGood(py, Rebuilt(es[..|es| - 1]), es[|es| - 1]); }
    }
  }

  lemma EmptyGood(py: Python)
    ensures GoodEntries(py, [], 0)
  {
  }

  lemma RebuiltAllGood(py: Python, es: seq<Entry>)
    requires py.printable(' ') && GoodEntries(py, es, 0)
    ensures GoodEntries(py, RebuiltAll(es), 0)
  {
    hide GoodEntries, Update;
    RebuiltGood(py, es);
    BlobGood(py, es);
    UpdateGood(py, Rebuilt(es), Blob(es));
  }

  // ----- when the rebuilt dict is the original one ------------------------------------------------

  /** No registered integer outside 64 bits, and no dict under the reserved key. */
  ghost predicate Transparent(es: seq<Entry>) {
    forall i :: 0 <= i < |es| ==> TransparentEntry(es[i])
  }

  ghost predicate TransparentEntry(e: Entry) {
    && (Registered(e.key) && e.val.Int? ==> 0 <= e.val.i < 0x1_0000_0000_0000_0000)
    && (e.key == BLOB ==> !e.val.Dict?)
  }

  /** How an entry looks on the far side, when no dict sits under the reserved key. */
  ghost function Image(e: Entry): Entry {
    if Registered(e.key) then Entry(e.key, Carried(e.val)) else e
  }

  lemma ImageTransparent(e: Entry)
    requires !(e.key == BLOB && e.val.Dict?)
    ensures Image(e) == e <==> TransparentEntry(e)
  {
    hide FieldId;
    if Registered(e.key) && e.val.Int? {
      assert Carried(e.val) == e.val <==> 0 <= e.val.i < 0x1_0000_0000_0000_0000;
    }
  }

  ghost function Kept(es: seq<Entry>): seq<Entry> {
    if es == [] then []
    else if Registered(es[|es| - 1].key) then Kept(es[..|es| - 1]) + [Image(es[|es| - 1])]
    else Kept(es[..|es| - 1])
  }

  /** The registered and the other entries together are the images of all entries. */
  lemma {:induction false} PartsAreImages(es: seq<Entry>)
    ensures |Kept(es)| + |Blob(es)| == |es|
    ensures forall x :: x in Kept(es) ==> Registered(x.key) && exists e :: e in es && x == Image(e)
    ensures forall x :: x in Blob(es) ==> !Registered(x.key) && x in es
    ensures forall e :: e in es ==> Image(e) in Kept(es) + Blob(es)
  {
    hide FieldId, Carried;
    if es != [] {
      var n := |es| - 1;
      Snoc(es);
      PartsAreImages(es[..n]);
    }
  }

  lemma {:induction false} PartsUnique(es: seq<Entry>)
    requires UniqueKeys(es)
    ensures UniqueKeys(Kept(es)) && UniqueKeys(Blob(es))
  {
    hide FieldId, Carried;
    if es != [] {
      var n := |es| - 1;
      Snoc(es);
      PartsUnique(es[..n]);
      PartsAreImages(es[..n]);
      forall x | x in Kept(es[..n]) || x in Blob(es[..n]) ensures x.key != es[n].key {
        if x in Kept(es[..n]) {
          var e :| e in es[..n] && x == Image(e);
          assert e.key != es[n].key;
        }
      }
    }
  }

  lemma UniqueInit(d: seq<Entry>, e: Entry)
    requires UniqueKeys(d + [e])
    ensures UniqueKeys(d) && !HasKey(d, e.key)
  {
    var all := d + [e];
    assert all[|d|] == e;
    forall i | 0 <= i < |d| ensures d[i].key != e.key { assert all[i] == d[i]; }
    forall i, j | 0 <= i < j < |d| ensures d[i].key != d[j].key { assert all[i] == d[i] && all[j] == d[j]; }
  }

  lemma {:induction false} UpdateFresh(d: seq<Entry>, es: seq<Entry>)
    requires UniqueKeys(d + es)
    ensures Update(d, es) == d + es
    decreases |es|
  {
    if es != [] {
      var n := |es| - 1;
      Snoc(es);
      assert d + es == (d + es[..n]) + [es[n]];
      UniqueInit(d + es[..n], es[n]);
      UpdateFresh(d, es[..n]);
      PutFresh(d + es[..n], es[n].key, es[n].val);
    }
  }

  ghost predicate NoBlobDict(es: seq<Entry>) {
    forall i :: 0 <= i < |es| ==> !(es[i].key == BLOB && es[i].val.Dict?)
  }

  lemma {:induction false} RebuiltIsKept(es: seq<Entry>)
    requires UniqueKeys(es) && NoBlobDict(es)
    ensures Rebuilt(es) == Kept(es)
  {
    hide FieldId, Carried, FieldName;
    if es != [] {
      var n := |es| - 1;
      Snoc(es);
      RebuiltIsKept(es[..n]);
      PartsAreImages(es[..n]);
      forall x | x in Kept(es[..n]) ensures x.key != es[n].key {
        var e :| e in es[..n] && x == Image(e);
      }
      PutFresh(Kept(es[..n]), es[n].key, Carried(es[n].val));
      assert !(es[n].key == BLOB && es[n].val.Dict?);
      if Registered(es[n].key) { StoredPlain(Kept(es[..n]), es[n]); }
    }
  }

  lemma StoredPlain(d: seq<Entry>, e: Entry)
    requires Registered(e.key) && !(e.key == BLOB && e.val.Dict?)
    ensures Stored(d, FieldId(e.key).value, Carried(e.val)) == Put(d, e.key, Carried(e.val))
  {
    hide FieldName, FieldId;
    var id := FieldId(e.key);
    assert FieldName(id.value) == e.key;
  }

  lemma RebuiltAllIsImages(es: seq<Entry>)
    requires UniqueKeys(es) && NoBlobDict(es)
    ensures RebuiltAll(es) == Kept(es) + Blob(es)
    ensures UniqueKeys(RebuiltAll(es))
  {
    RebuiltIsKept(es);
    PartsUnique(es);
    PartsAreImages(es);
    var all := Kept(es) + Blob(es);
    forall i, j | 0 <= i < j < |all| ensures all[i].key != all[j].key {
      if i < |Kept(es)| <= j {
        assert all[i] in Kept(es) && all[j] in Blob(es);
      }
    }
    UpdateFresh(Kept(es), Blob(es));
  }

  /** Two dicts whose entries correspond, one the images of the other, are equal iff every entry is its own image. */
  lemma ImagesEqual(es: seq<Entry>, all: seq<Entry>)
    requires UniqueKeys(es) && UniqueKeys(all)
    requires forall e :: e in es ==> Image(e) in all
    requires forall x :: x in all ==> exists e :: e in es && x == Image(e)
    ensures ToMap(all) == ToMap(es) <==> forall e :: e in es ==> Image(e) == e
  {
    hide FieldId, Carried, UniqueKeys, ToMap;
    forall e | e in es ensures ImageLookup(es, all, e) { ImageFound(es, all, e); }
    if forall e :: e in es ==> Image(e) == e {
      forall k ensures k in ToMap(all) <==> k in ToMap(es) {
        KeysMatch(es, all, k);
        ToMapEntries(es);
        ToMapEntries(all);
      }
      forall k | k in ToMap(es) ensures ToMap(all)[k] == ToMap(es)[k] {
        ToMapEntries(es);
        var i :| 0 <= i < |es| && es[i].key == k;
        assert ImageLookup(es, all, es[i]);
      }
    } else {
      var e :| e in es && Image(e) != e;
      assert ImageLookup(es, all, e);
    }
  }

  ghost predicate ImageLookup(es: seq<Entry>, all: seq<Entry>, e: Entry) {
    && e.key in ToMap(es) && ToMap(es)[e.key] == e.val
    && e.key in ToMap(all) && ToMap(all)[e.key] == Image(e).val
  }

  lemma ImageFound(es: seq<Entry>, all: seq<Entry>, e: Entry)
    requires UniqueKeys(es) && UniqueKeys(all) && e in es && Image(e) in all
    ensures ImageLookup(es, all, e)
  {
    hide FieldId, Carried, UniqueKeys, ToMap;
    ToMapEntries(es);
    ToMapEntries(all);
    var i :| 0 <= i < |es| && es[i] == e;
    assert es[i].key in ToMap(es);
    var j :| 0 <= j < |all| && all[j] == Image(e);
    assert all[j].key in ToMap(all);
  }

  lemma KeysMatch(es: seq<Entry>, all: seq<Entry>, k: string)
    requires forall e :: e in es ==> Image(e) in all
    requires forall x :: x in all ==> exists e :: e in es && x == Image(e)
    ensures HasKey(es, k) <==> HasKey(all, k)
  {
    hide FieldId, Carried;
    if HasKey(es, k) {
      var i :| 0 <= i < |es| && es[i].key == k;
      assert es[i] in es;
      var j :| 0 <= j < |all| && all[j] == Image(es[i]);
    }
    if HasKey(all, k) {
      var j :| 0 <= j < |all| && all[j].key == k;
      assert all[j] in all;
      var e :| e in es && all[j] == Image(e);
      var i :| 0 <= i < |es| && es[i] == e;
    }
  }

  lemma TransparentExactly(es: seq<Entry>)
    requires UniqueKeys(es) && NoBlobDict(es)
    ensures |RebuiltAll(es)| == |es|
    ensures ToMap(RebuiltAll(es)) == ToMap(es) <==> Transparent(es)
  {
    hide RebuiltAll, TransparentEntry, Image;
    RebuiltAllIsImages(es);
    PartsAreImages(es);
    var all := Kept(es) + Blob(es);
    forall x | x in all ensures exists e :: e in es && x == Image(e) {
      if x !in Kept(es) { UnregisteredImage(x); }
    }
    ImagesEqual(es, all);
    forall i | 0 <= i < |es| ensures Image(es[i]) == es[i] <==> TransparentEntry(es[i]) { ImageTransparent(es[i]); }
    if Transparent(es) {
      forall e | e in es ensures Image(e) == e { var i :| 0 <= i < |es| && es[i] == e; }
    } else {
      var i :| 0 <= i < |es| && !TransparentEntry(es[i]);
      assert es[i] in es && Image(es[i]) != es[i];
    }
  }

  lemma UnregisteredImage(e: Entry)
    requires !Registered(e.key)
    ensures Image(e) == e
  {
  }

  // ----- a dict under the reserved key is lost ------------------------------------------------------

  ghost function Size(v: Value): nat
    decreases v, 1
  {
    if v.Dict? then 1 + SizeAll(v.entries) else 1
  }

  ghost function SizeAll(es: seq<Entry>): nat
    decreases es, 0
  {
    if es == [] then 0 else SizeAll(es[..|es| - 1]) + Size(es[|es| - 1].val)
  }

  lemma {:induction false} MemberSmaller(es: seq<Entry>, e: Entry)
    requires e in es
    ensures Size(e.val) < Size(Dict(es))
    decreases |es|
  {
    Snoc(es);
    var n := |es| - 1;
    if e != es[n] {
      MemberSmaller(es[..n], e);
    }
  }

  lemma {:induction false} BlobDictShrinks(py: Python, es: seq<Entry>, v: Value)
    requires py.printable(' ') && GoodEntries(py, es, 0)
    requires v.Dict? && forall i :: 0 <= i < |es| && es[i].key == BLOB ==> es[i].val == v
    ensures forall x :: x in Rebuilt(es) && x.key == BLOB ==> Size(x.val) < Size(v)
  {
    hide GoodEntries, GoodEntry, FieldId, Stored, Size;
    if es != [] {
      var n := |es| - 1;
      GoodInit(py, es);
      BlobDictShrinks(py, es[..n], v);
      RebuiltGood(py, es[..n]);
      if Registered(es[n].key) {
        StoredGood(py, Rebuilt(es[..n]), es[n]);
        if es[n].key == BLOB {
          forall x | x in v.entries ensures Size(x.val) < Size(v) { MemberSmaller(v.entries, x); }
        }
      }
    }
  }

  lemma NotUnderBlob(all: seq<Entry>, v: Value)
    requires UniqueKeys(all) && forall x :: x in all && x.key == BLOB ==> x.val != v
    ensures BLOB in ToMap(all) ==> ToMap(all)[BLOB] != v
  {
    ToMapEntries(all);
    if BLOB in ToMap(all) {
      var j :| 0 <= j < |all| && all[j].key == BLOB;
      assert all[j] in all && all[j].key in ToMap(all);
    }
  }

  /** The dict that was under `_blob` is gone from there. */
  lemma BlobDictLost(py: Python, es: seq<Entry>)
    requires py.printable(' ') && GoodEntries(py, es, 0) && !NoBlobDict(es)
    ensures ToMap(RebuiltAll(es)) != ToMap(es)
  {
    hide GoodEntry, Size, FieldId;
    var k :| 0 <= k < |es| && es[k].key == BLOB && es[k].val.Dict?;
    var v := es[k].val;
    BlobDictShrinks(py, es, v);
    RebuiltGood(py, es);
    BlobGood(py, es);
    UpdateGood(py, Rebuilt(es), Blob(es));
    RebuiltAllGood(py, es);
    var all := RebuiltAll(es);
    assert forall i :: 0 <= i < |Blob(es)| ==> Blob(es)[i].key != BLOB;
    assert forall x :: x in all && x.key == BLOB ==> x.val != v;
    NotUnderBlob(all, v);
    ToMapEntries(es);
    assert es[k].key in ToMap(es) && ToMap(es)[es[k].key] == v;
  }
}
