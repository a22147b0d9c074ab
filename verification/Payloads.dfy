/**
  Payload values and the caps that `_bound_payload` of `protocol.py` puts on them.

  A Python dict is the sequence of its entries in insertion order, each key once. A float is the
  64-bit pattern `struct` packs. Character classes and JSON text are not modelled: `Python` holds
  the two facts used about them.
 */
module Payloads {
  import opened Common
  import opened Bytes

  const MAX_TOPIC := 64
  const MAX_STR_VALUE := 2048
  const MAX_PAYLOAD_DEPTH := 4
  const MAX_PAYLOAD_ITEMS := 64

  type F64 = x: int | 0 <= x < 0x1_0000_0000_0000_0000

  datatype Entry = Entry(key: string, val: Value)

  datatype Value =
    | Null | Bool(b: bool) | Int(i: int) | Float(bits: F64) | Str(s: string)
    | List(items: seq<Value>) | Dict(entries: seq<Entry>)

  datatype PayloadError = TooDeep | TooManyKeys | ListTooLong

  /** An exponent of all ones encodes an infinity or a NaN. */
  predicate IsFinite(bits: F64) { bits / 0x10_0000_0000_0000 % 2048 != 2047 }

  /** `str.isprintable`, and JSON text as UTF-8 bytes. */
  datatype Python = Python(printable: char -> bool, dumps: Value -> seq<Byte>, loads: seq<Byte> -> Option<Value>) {

    /**
      A space and a star are printable; JSON text of a value that the caps leave unchanged parses
      back to that value; `null`, `true` and `false` are at most five bytes.
     */
    ghost predicate Valid() {
      && printable(' ') && printable('*')
      && (forall v, d :: Bound(this, v, d) == Ok(v) ==> loads(dumps(v)) == Some(v))
      && |dumps(Null)| <= 5 && forall b :: |dumps(Bool(b))| <= 5
    }

    function Clean(s: string): string {
      seq(|s|, i requires 0 <= i < |s| => if printable(s[i]) then s[i] else ' ')
    }

    /** `sanitize_text(s, cap)` */
    function Sanitize(s: string, cap: nat): (r: string)
      ensures |r| <= cap
    {
      Clean(s)[..Min(cap, |s|)]
    }
  }

  lemma SanitizeTwice(py: Python, s: string, cap: nat, wider: nat)
    requires py.printable(' ') && cap <= wider
    ensures py.Sanitize(py.Sanitize(s, cap), wider) == py.Sanitize(s, cap)
  {
  }

  // ----- dicts -----------------------------------------------------------------------------------

  /** `d[key] = val`: an existing key keeps its place, a new one goes last. */
  function Put(d: seq<Entry>, key: string, val: Value): seq<Entry> {
    if d == [] then [Entry(key, val)]
    else if d[0].key == key then [Entry(key, val)] + d[1..]
    else [d[0]] + Put(d[1..], key, val)
  }

  /** `d.update(es)` */
  function Update(d: seq<Entry>, es: seq<Entry>): seq<Entry> {
    if es == [] then d
    else Put(Update(d, es[..|es| - 1]), es[|es| - 1].key, es[|es| - 1].val)
  }

  ghost predicate HasKey(d: seq<Entry>, key: string) {
    exists i :: 0 <= i < |d| && d[i].key == key
  }

  ghost predicate UniqueKeys(d: seq<Entry>) {
    forall i, j :: 0 <= i < j < |d| ==> d[i].key != d[j].key
  }

  ghost function ToMap(d: seq<Entry>): map<string, Value> {
    if d == [] then map[] else ToMap(d[1..])[d[0].key := d[0].val]
  }

  /** Lookup in the map is lookup of the entry with that key. */
  lemma {:induction false} ToMapEntries(d: seq<Entry>)
    requires UniqueKeys(d)
    ensures forall i :: 0 <= i < |d| ==> d[i].key in ToMap(d) && ToMap(d)[d[i].key] == d[i].val
    ensures forall k :: k in ToMap(d) <==> HasKey(d, k)
  {
    if d != [] {
      ToMapEntries(d[1..]);
      forall i | 0 <= i < |d| ensures d[i].key in ToMap(d) && ToMap(d)[d[i].key] == d[i].val {
        if i > 0 { assert d[i] == d[1..][i - 1]; }
      }
      forall k ensures k in ToMap(d) <==> HasKey(d, k) {
        if HasKey(d, k) && k != d[0].key {
          var i :| 0 <= i < |d| && d[i].key == k;
          assert d[1..][i - 1].key == k;
        }
        if HasKey(d[1..], k) {
          var i :| 0 <= i < |d[1..]| && d[1..][i].key == k;
          assert d[i + 1].key == k;
        }
      }
    }
  }

  lemma {:induction false} PutFresh(d: seq<Entry>, key: string, val: Value)
    requires !HasKey(d, key)
    ensures Put(d, key, val) == d + [Entry(key, val)]
  {
    if d != [] {
      assert d[0].key != key;
      forall i | 0 <= i < |d[1..]| ensures d[1..][i].key != key { assert d[1..][i] == d[i + 1]; }
      PutFresh(d[1..], key, val);
    }
  }

  lemma {:induction false} PutOver(d: seq<Entry>, key: string, val: Value) returns (i: nat)
    requires HasKey(d, key)
    ensures i < |d| && d[i].key == key && Put(d, key, val) == d[i := Entry(key, val)]
    decreases |d|
  {
    if d[0].key == key {
      i := 0;
    } else {
      var k :| 0 <= k < |d| && d[k].key == key;
      assert d[1..][k - 1].key == key;
      var j := PutOver(d[1..], key, val);
      i := j + 1;
    }
  }

  /** Storing a key keeps the keys unique. */
  lemma PutKeys(d: seq<Entry>, key: string, val: Value)
    requires UniqueKeys(d)
    ensures UniqueKeys(Put(d, key, val)) && |Put(d, key, val)| <= |d| + 1
    ensures forall i :: 0 <= i < |Put(d, key, val)| ==>
              Put(d, key, val)[i] == Entry(key, val) || Put(d, key, val)[i] in d
  {
    if HasKey(d, key) { var i := PutOver(d, key, val); } else { PutFresh(d, key, val); }
  }

  // ----- the caps --------------------------------------------------------------------------------

  /** `_bound_payload(v, depth)` */
  function Bound(py: Python, v: Value, depth: nat): (r: Result<Value, PayloadError>)
    ensures r.Ok? ==> depth <= MAX_PAYLOAD_DEPTH && (r.value.Dict? <==> v.Dict?) && (r.value.Int? <==> v.Int?)
    decreases v, 1
  {
    if depth > MAX_PAYLOAD_DEPTH then Err(TooDeep)
    else
      match v
      case Dict(entries) =>
        if |entries| > MAX_PAYLOAD_ITEMS then Err(TooManyKeys)
        else
          var es :- BoundEntries(py, entries, depth);
          Ok(Dict(es))
      case List(items) =>
        if |items| > MAX_PAYLOAD_ITEMS then Err(ListTooLong)
        else
          var vs :- BoundItems(py, items, depth);
          Ok(List(vs))
      case Str(s) => Ok(Str(py.Sanitize(s, MAX_STR_VALUE)))
      case Float(bits) => Ok(Float(if IsFinite(bits) then bits else 0))
      case _ => Ok(v)
  }

  function BoundEntries(py: Python, es: seq<Entry>, depth: nat): Result<seq<Entry>, PayloadError>
    decreases es, 0
  {
    if es == [] then Ok([])
    else
      var last := es[|es| - 1];
      var init :- BoundEntries(py, es[..|es| - 1], depth);
      var val :- Bound(py, last.val, depth + 1);
      Ok(Put(init, py.Sanitize(last.key, MAX_TOPIC), val))
  }

  function BoundItems(py: Python, vs: seq<Value>, depth: nat): (r: Result<seq<Value>, PayloadError>)
    ensures r.Ok? ==> |r.value| == |vs|
    decreases vs, 0
  {
    if vs == [] then Ok([])
    else
      var init :- BoundItems(py, vs[..|vs| - 1], depth);
      var val :- Bound(py, vs[|vs| - 1], depth + 1);
      Ok(init + [val])
  }

  /** The value is within the caps at this depth. */
  ghost predicate Fixed(py: Python, v: Value, depth: nat) { Bound(py, v, depth) == Ok(v) }

  ghost predicate GoodEntry(py: Python, e: Entry, depth: nat) {
    py.Sanitize(e.key, MAX_TOPIC) == e.key && Fixed(py, e.val, depth + 1)
  }

  ghost predicate GoodEntries(py: Python, es: seq<Entry>, depth: nat) {
    UniqueKeys(es) && forall i :: 0 <= i < |es| ==> GoodEntry(py, es[i], depth)
  }

  lemma GoodPut(py: Python, es: seq<Entry>, e: Entry, depth: nat)
    requires GoodEntries(py, es, depth) && GoodEntry(py, e, depth)
    ensures GoodEntries(py, Put(es, e.key, e.val), depth)
  {
    hide GoodEntry;
    PutKeys(es, e.key, e.val);
  }

  /** Entries within the caps are left exactly as they are. */
  lemma {:induction false} GoodEntriesFixed(py: Python, es: seq<Entry>, depth: nat)
    requires GoodEntries(py, es, depth)
    ensures BoundEntries(py, es, depth) == Ok(es)
  {
    if es != [] {
      var n := |es| - 1;
      Snoc(es);
      GoodEntriesFixed(py, es[..n], depth);
      assert GoodEntry(py, es[n], depth);
      PutFresh(es[..n], es[n].key, es[n].val);
      assert Entry(es[n].key, es[n].val) == es[n];
    }
  }

  lemma {:induction false} FixedItems(py: Python, vs: seq<Value>, depth: nat)
    requires forall i :: 0 <= i < |vs| ==> Fixed(py, vs[i], depth + 1)
    ensures BoundItems(py, vs, depth) == Ok(vs)
  {
    if vs != [] {
      var n := |vs| - 1;
      Snoc(vs);
      FixedItems(py, vs[..n], depth);
      assert Fixed(py, vs[n], depth + 1);
    }
  }

  /** Bounding is idempotent, also at any shallower depth. */
  lemma {:induction false} BoundFixed(py: Python, v: Value, depth: nat, depth': nat)
    requires py.printable(' ') && depth' <= depth && Bound(py, v, depth).Ok?
    ensures Fixed(py, Bound(py, v, depth).value, depth')
    decreases v, 1
  {
    match v
    case Dict(es) =>
      BoundEntriesGood(py, es, depth, depth');
      GoodEntriesFixed(py, BoundEntries(py, es, depth).value, depth');
    case List(vs) =>
      BoundItemsFixed(py, vs, depth, depth');
      FixedItems(py, BoundItems(py, vs, depth).value, depth');
    case Str(s) => SanitizeTwice(py, s, MAX_STR_VALUE, MAX_STR_VALUE);
    case _ =>
  }

  lemma {:induction false} BoundEntriesGood(py: Python, es: seq<Entry>, depth: nat, depth': nat)
    requires py.printable(' ') && depth' <= depth && BoundEntries(py, es, depth).Ok?
    ensures GoodEntries(py, BoundEntries(py, es, depth).value, depth')
    ensures |BoundEntries(py, es, depth).value| <= |es|
    decreases es, 0
  {
    if es != [] {
      var n := |es| - 1;
      BoundEntriesGood(py, es[..n], depth, depth');
      BoundFixed(py, es[n].val, depth + 1, depth' + 1);
      SanitizeTwice(py, es[n].key, MAX_TOPIC, MAX_TOPIC);
      var init := BoundEntries(py, es[..n], depth).value;
      var e := Entry(py.Sanitize(es[n].key, MAX_TOPIC), Bound(py, es[n].val, depth + 1).value);
      GoodPut(py, init, e, depth');
      PutKeys(init, e.key, e.val);
    }
  }

  lemma {:induction false} BoundItemsFixed(py: Python, vs: seq<Value>, depth: nat, depth': nat)
    requires py.printable(' ') && depth' <= depth && BoundItems(py, vs, depth).Ok?
    ensures forall i :: 0 <= i < |vs| ==> Fixed(py, BoundItems(py, vs, depth).value[i], depth' + 1)
    decreases vs, 0
  {
    if vs != [] {
      var n := |vs| - 1;
      BoundItemsFixed(py, vs[..n], depth, depth');
      BoundFixed(py, vs[n], depth + 1, depth' + 1);
    }
  }
}
