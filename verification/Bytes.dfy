/** Big-endian integers as `struct.pack` writes them and `struct.unpack_from` reads them. */
module Bytes {

  type Byte = x: int | 0 <= x < 256

  function Pow256(w: nat): (r: nat)
    ensures r > 0
  {
    if w == 0 then 1 else 256 * Pow256(w - 1)
  }

  lemma FieldWidths()
    ensures Pow256(1) == 0x100
    ensures Pow256(2) == 0x1_0000
    ensures Pow256(4) == 0x1_0000_0000
    ensures Pow256(8) == 0x1_0000_0000_0000_0000
  {
    assert Pow256(3) == 0x100_0000;
    assert Pow256(5) == 0x100_0000_0000;
    assert Pow256(6) == 0x1_0000_0000_0000;
    assert Pow256(7) == 0x100_0000_0000_0000;
  }

  function PackBE(n: nat, w: nat): (bs: seq<Byte>)
    requires n < Pow256(w)
    ensures |bs| == w
  {
    if w == 0 then [] else PackBE(n / 256, w - 1) + [n % 256]
  }

  function UnpackBE(bs: seq<Byte>): (n: nat)
    ensures n < Pow256(|bs|)
  {
    if bs == [] then 0 else UnpackBE(bs[..|bs| - 1]) * 256 + bs[|bs| - 1]
  }

  lemma {:induction false} UnpackPack(n: nat, w: nat)
    requires n < Pow256(w)
    ensures UnpackBE(PackBE(n, w)) == n
  {
    if w > 0 {
      UnpackPack(n / 256, w - 1);
      var bs := PackBE(n, w);
      assert bs[..w - 1] == PackBE(n / 256, w - 1);
    }
  }

  lemma {:induction false} PackUnpack(bs: seq<Byte>)
    ensures PackBE(UnpackBE(bs), |bs|) == bs
  {
    if bs != [] {
      var init := bs[..|bs| - 1];
      PackUnpack(init);
      var n := UnpackBE(bs);
      assert n / 256 == UnpackBE(init) && n % 256 == bs[|bs| - 1];
      assert bs == init + [bs[|bs| - 1]];
    }
  }

  /** The most significant byte comes first. */
  lemma {:induction false} FirstByteHighest(bs: seq<Byte>)
    requires bs != []
    ensures UnpackBE(bs) == bs[0] * Pow256(|bs| - 1) + UnpackBE(bs[1..])
  {
    var n := |bs| - 1;
    if n > 0 {
      FirstByteHighest(bs[..n]);
      assert bs[..n][1..] == bs[1..][..n - 1];
      Shifted(bs[0], Pow256(n - 1), UnpackBE(bs[1..][..n - 1]));
    } else {
      assert bs[..0] == [] && bs[1..] == [];
      assert UnpackBE([]) == 0;
    }
  }

  lemma Shifted(b: nat, p: nat, m: nat)
    ensures (b * p + m) * 256 == b * (256 * p) + m * 256
  {
  }
}
