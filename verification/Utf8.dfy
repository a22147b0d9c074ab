/**
  UTF-8 as `str.encode("utf-8")` writes it and `bytes.decode("utf-8", "replace")` reads it.
  A `char` is a Unicode scalar value; strings that passed `sanitize_text` hold no surrogates.
 */
module Utf8 {
  import opened Common
  import opened Bytes

  const REPLACEMENT: char := '\U{FFFD}'

  function EncodeChar(c: char): (bs: seq<Byte>)
    ensures 1 <= |bs| <= 4
    ensures |bs| == 4 <==> c as int >= 0x10000
  {
    var n := c as int;
    var n1 := n / 64;
    var n2 := n1 / 64;
    if n < 0x80 then [n]
    else if n < 0x800 then [0xC0 + n1, 0x80 + n % 64]
    else if n < 0x10000 then [0xE0 + n2, 0x80 + n1 % 64, 0x80 + n % 64]
    else [0xF0 + n2 / 64, 0x80 + n2 % 64, 0x80 + n1 % 64, 0x80 + n % 64]
  }

  function Encode(s: string): (bs: seq<Byte>)
  {
    if s == "" then [] else Encode(s[..|s| - 1]) + EncodeChar(s[|s| - 1])
  }

  /** How many continuation bytes a lead byte asks for; 0 for a byte that cannot lead. */
  function Continuations(lead: Byte): nat {
    if 0xC2 <= lead < 0xE0 then 1
    else if 0xE0 <= lead < 0xF0 then 2
    else if 0xF0 <= lead < 0xF5 then 3
    else 0
  }

  /** The first continuation byte is further restricted, which rules out overlong forms and surrogates. */
  predicate SecondOk(lead: Byte, b: Byte) {
    (if lead == 0xE0 then 0xA0 else if lead == 0xF0 then 0x90 else 0x80)
    <= b <=
    (if lead == 0xED then 0x9F else if lead == 0xF4 then 0x8F else 0xBF)
  }

  predicate Continues(bs: seq<Byte>, i: nat) { i < |bs| && 0x80 <= bs[i] <= 0xBF }

  /** The payload bits of a continuation byte. */
  function Six(b: int): int { b - 0x80 }

  /** The next character and the bytes it took; a maximal ill-formed run becomes one U+FFFD. */
  function DecodeChar(bs: seq<Byte>): (r: (char, nat))
    requires bs != []
    ensures 1 <= r.1 <= |bs|
  {
    var lead: int := bs[0];
    var k := Continuations(lead);
    if lead < 0x80 then (lead as char, 1)
    else if k == 0 || |bs| < 2 || !SecondOk(lead, bs[1]) then (REPLACEMENT, 1)
    else if k == 1 then (((lead - 0xC0) * 64 + Six(bs[1])) as char, 2)
    else if !Continues(bs, 2) then (REPLACEMENT, 2)
    else if k == 2 then (((lead - 0xE0) * 4096 + Six(bs[1]) * 64 + Six(bs[2])) as char, 3)
    else if !Continues(bs, 3) then (REPLACEMENT, 3)
    else (((lead - 0xF0) * 262144 + Six(bs[1]) * 4096 + Six(bs[2]) * 64 + Six(bs[3])) as char, 4)
  }

  function Decode(bs: seq<Byte>): string
  {
    if bs == [] then ""
    else
      var (c, k) := DecodeChar(bs);
      [c] + Decode(bs[k..])
  }

  lemma DecodeEncodedChar(c: char, rest: seq<Byte>)
    ensures DecodeChar(EncodeChar(c) + rest) == (c, |EncodeChar(c)|)
  {
    var n := c as int;
    var n1 := n / 64;
    var n2 := n1 / 64;
    assert n == n1 * 64 + n % 64 && n1 == n2 * 64 + n1 % 64 && n2 == n2 / 64 * 64 + n2 % 64;
    var bs := EncodeChar(c) + rest;
    if n >= 0x10000 {
      assert Continuations(bs[0]) == 3 && SecondOk(bs[0], bs[1]);
    } else if n >= 0x800 {
      assert Continuations(bs[0]) == 2 && SecondOk(bs[0], bs[1]);
    } else if n >= 0x80 {
      assert Continuations(bs[0]) == 1 && SecondOk(bs[0], bs[1]);
    }
  }

  lemma DecodeAfterChar(c: char, rest: seq<Byte>)
    ensures Decode(EncodeChar(c) + rest) == [c] + Decode(rest)
  {
    hide DecodeChar, EncodeChar;
    DecodeEncodedChar(c, rest);
    assert (EncodeChar(c) + rest)[|EncodeChar(c)|..] == rest;
  }

  /** Decoding an encoded string gives it back, whatever bytes follow it. */
  lemma {:induction false} DecodeAfter(s: string, rest: seq<Byte>)
    ensures Decode(Encode(s) + rest) == s + Decode(rest)
    decreases |s|
  {
    hide DecodeChar, EncodeChar;
    if s == "" {
      assert Encode(s) + rest == rest;
    } else {
      var n := |s| - 1;
      var init, last := s[..n], s[n];
      assert Encode(s) + rest == Encode(init) + (EncodeChar(last) + rest);
      DecodeAfter(init, EncodeChar(last) + rest);
      DecodeAfterChar(last, rest);
      assert s + Decode(rest) == init + ([last] + Decode(rest)) by { Snoc(s); }
    }
  }

  /** `s.encode("utf-8").decode("utf-8", "replace") == s`. */
  lemma DecodeEncode(s: string)
    ensures Decode(Encode(s)) == s
  {
    DecodeAfter(s, []);
    assert Encode(s) + [] == Encode(s);
  }

  /** At most four bytes a character, and exactly four only outside the Basic Multilingual Plane. */
  lemma {:induction false} EncodedLength(s: string)
    ensures |Encode(s)| <= 4 * |s|
    ensures |Encode(s)| == 4 * |s| ==> forall i :: 0 <= i < |s| ==> s[i] as int >= 0x10000
  {
    if s != "" {
      EncodedLength(s[..|s| - 1]);
    }
  }

  /** One byte short of a final four-byte character: that character is lost, U+FFFD stands for it. */
  lemma TruncatedTail(s: string)
    requires s != "" && s[|s| - 1] as int >= 0x10000
    ensures |Encode(s)| >= 4
    ensures Decode(Encode(s)[..|Encode(s)| - 1]) == s[..|s| - 1] + [REPLACEMENT]
  {
    var init, last := s[..|s| - 1], s[|s| - 1];
    var stub := EncodeChar(last)[..3];
    assert Encode(s)[..|Encode(s)| - 1] == Encode(init) + stub;
    StubDecodes(last);
    hide DecodeChar, EncodeChar;
    DecodeAfter(init, stub);
  }

  lemma StubDecodes(c: char)
    requires c as int >= 0x10000
    ensures Decode(EncodeChar(c)[..3]) == [REPLACEMENT]
  {
    var stub := EncodeChar(c)[..3];
    assert DecodeChar(stub) == (REPLACEMENT, 3);
    assert stub[3..] == [];
  }
}
