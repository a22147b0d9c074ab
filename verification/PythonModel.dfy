/**
  The two facts that `Payloads` uses about Python's texts and JSON can be had together: an encoding of
  values as bytes from which every value can be read back.
 */
module PythonModel {
  import opened Common
  import opened Bytes
  import opened Payloads

  // Each encoder puts its bytes in front of what follows, so that nothing has to be regrouped.

  function Unary(n: nat, rest: seq<Byte>): seq<Byte> { if n == 0 then [0] + rest else [1] + Unary(n - 1, rest) }

  function Text(s: string, rest: seq<Byte>): seq<Byte> {
    if s == "" then [0] + rest else [1] + Unary(s[0] as int, Text(s[1..], rest))
  }

  function Code(v: Value, rest: seq<Byte>): seq<Byte>
    decreases v
  {
    match v
    case Null => [0] + rest
    case Bool(b) => [1] + Unary(if b then 1 else 0, rest)
    case Int(i) => [2] + Unary(if i < 0 then 1 else 0, Unary(if i < 0 then -i else i, rest))
    case Float(bits) => [3] + Unary(bits, rest)
    case Str(s) => [4] + Text(s, rest)
    case List(items) => [5] + Items(items, rest)
    case Dict(entries) => [6] + Entries(entries, rest)
  }

  function Items(vs: seq<Value>, rest: seq<Byte>): seq<Byte>
    decreases vs
  {
    if vs == [] then [0] + rest else [1] + Code(vs[0], Items(vs[1..], rest))
  }

  function Entries(es: seq<Entry>, rest: seq<Byte>): seq<Byte>
    decreases es
  {
    if es == [] then [0] + rest else [1] + Text(es[0].key, Code(es[0].val, Entries(es[1..], rest)))
  }

  // ----- nothing is encoded like anything else -----------------------------------------------------------------

  lemma Head(a: Byte, x: seq<Byte>, b: Byte, y: seq<Byte>)
    requires [a] + x == [b] + y
    ensures a == b && x == y
  {
    assert ([a] + x)[0] == a && ([b] + y)[0] == b;
    assert ([a] + x)[1..] == x && ([b] + y)[1..] == y;
  }

  lemma {:induction false} UnaryApart(m: nat, x: seq<Byte>, n: nat, y: seq<Byte>)
    requires Unary(m, x) == Unary(n, y)
    ensures m == n && x == y
  {
    Head(if m == 0 then 0 else 1, if m == 0 then x else Unary(m - 1, x), if n == 0 then 0 else 1, if n == 0 then y else Unary(n - 1, y));
    if m > 0 { UnaryApart(m - 1, x, n - 1, y); }
  }

  lemma {:induction false} TextApart(s: string, x: seq<Byte>, t: string, y: seq<Byte>)
    requires Text(s, x) == Text(t, y)
    ensures s == t && x == y
    decreases |s|
  {
    var xs := if s == "" then x else Unary(s[0] as int, Text(s[1..], x));
    var ys := if t == "" then y else Unary(t[0] as int, Text(t[1..], y));
    Head(if s == "" then 0 else 1, xs, if t == "" then 0 else 1, ys);
    if s != "" {
      UnaryApart(s[0] as int, Text(s[1..], x), t[0] as int, Text(t[1..], y));
      TextApart(s[1..], x, t[1..], y);
      assert s == [s[0]] + s[1..] && t == [t[0]] + t[1..];
    }
  }

  function Tag(v: Value): Byte {
    match v
    case Null => 0
    case Bool(_) => 1
    case Int(_) => 2
    case Float(_) => 3
    case Str(_) => 4
    case List(_) => 5
    case Dict(_) => 6
  }

  function Behind(v: Value, rest: seq<Byte>): seq<Byte> {
    match v
    case Null => rest
    case Bool(b) => Unary(if b then 1 else 0, rest)
    case Int(i) => Unary(if i < 0 then 1 else 0, Unary(if i < 0 then -i else i, rest))
    case Float(bits) => Unary(bits, rest)
    case Str(s) => Text(s, rest)
    case List(items) => Items(items, rest)
    case Dict(entries) => Entries(entries, rest)
  }

  lemma CodeParts(v: Value, rest: seq<Byte>)
    ensures Code(v, rest) == [Tag(v)] + Behind(v, rest)
  {
  }

  lemma {:induction false} CodeApart(v: Value, x: seq<Byte>, w: Value, y: seq<Byte>)
    requires Code(v, x) == Code(w, y)
    ensures v == w && x == y
    decreases v
  {
    hide Code, Unary, Text, Items, Entries;
    CodeParts(v, x);
    CodeParts(w, y);
    Head(Tag(v), Behind(v, x), Tag(w), Behind(w, y));
    match v
    case Null =>
    case Bool(b) => UnaryApart(if b then 1 else 0, x, if w.b then 1 else 0, y);
    case Int(i) =>
      var m, n := if i < 0 then -i else i, if w.i < 0 then -w.i else w.i;
      UnaryApart(if i < 0 then 1 else 0, Unary(m, x), if w.i < 0 then 1 else 0, Unary(n, y));
      UnaryApart(m, x, n, y);
    case Float(bits) => UnaryApart(bits, x, w.bits, y);
    case Str(s) => TextApart(s, x, w.s, y);
    case List(items) => ItemsApart(items, x, w.items, y);
    case Dict(entries) => EntriesApart(entries, x, w.entries, y);
  }

  lemma {:induction false} ItemsApart(vs: seq<Value>, x: seq<Byte>, ws: seq<Value>, y: seq<Byte>)
    requires Items(vs, x) == Items(ws, y)
    ensures vs == ws && x == y
    decreases vs
  {
    hide Code;
    var xs := if vs == [] then x else Code(vs[0], Items(vs[1..], x));
    var ys := if ws == [] then y else Code(ws[0], Items(ws[1..], y));
    Head(if vs == [] then 0 else 1, xs, if ws == [] then 0 else 1, ys);
    if vs != [] {
      CodeApart(vs[0], Items(vs[1..], x), ws[0], Items(ws[1..], y));
      ItemsApart(vs[1..], x, ws[1..], y);
      assert vs == [vs[0]] + vs[1..] && ws == [ws[0]] + ws[1..];
    }
  }

  lemma {:induction false} EntriesApart(es: seq<Entry>, x: seq<Byte>, fs: seq<Entry>, y: seq<Byte>)
    requires Entries(es, x) == Entries(fs, y)
    ensures es == fs && x == y
    decreases es
  {
    hide Code, Text;
    var xs := if es == [] then x else Text(es[0].key, Code(es[0].val, Entries(es[1..], x)));
    var ys := if fs == [] then y else Text(fs[0].key, Code(fs[0].val, Entries(fs[1..], y)));
    Head(if es == [] then 0 else 1, xs, if fs == [] then 0 else 1, ys);
    if es != [] {
      TextApart(es[0].key, Code(es[0].val, Entries(es[1..], x)), fs[0].key, Code(fs[0].val, Entries(fs[1..], y)));
      CodeApart(es[0].val, Entries(es[1..], x), fs[0].val, Entries(fs[1..], y));
      EntriesApart(es[1..], x, fs[1..], y);
      assert es == [es[0]] + es[1..] && fs == [fs[0]] + fs[1..];
    }
  }

  // ----- the witness ---------------------------------------------------------------------------------------------

  function Dump(v: Value): seq<Byte> { Code(v, []) }

  ghost function Load(bs: seq<Byte>): Option<Value> {
    if exists v :: Dump(v) == bs then
      var v :| Dump(v) == bs;
      Some(v)
    else None
  }

  lemma LoadDump(v: Value)
    ensures Load(Dump(v)) == Some(v)
  {
    hide Code;
    forall w | Dump(w) == Dump(v) ensures w == v { CodeApart(w, [], v, []); }
  }

  /** The assumptions about Python can be met. */
  lemma PythonExists() returns (py: Python)
    ensures py.Valid()
  {
    hide Bound, Load;
    py := Python(_ => true, v => Dump(v), bs => Load(bs));
    forall v ensures py.loads(py.dumps(v)) == Some(v) { LoadDump(v); }
    assert Dump(Null) == [0];
    assert forall b :: |Dump(Bool(b))| <= 5;
  }
}
