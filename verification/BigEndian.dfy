/** Big-endian integers: `int.to_bytes(width, "big")` and `int.from_bytes(_, "big")`. */
module BigEndian {

  type Byte = b: int | 0 <= b < 256

  function Pow256(width: nat): (r: nat)
    ensures r > 0
  {
    if width == 0 then 1 else 256 * Pow256(width - 1)
  }

  function ToBytes(n: nat, width: nat): (r: seq<Byte>)
    ensures |r| == width
  {
    if width == 0 then [] else ToBytes(n / 256, width - 1) + [n % 256]
  }

  function FromBytes(s: seq<Byte>): (r: nat)
    ensures r < Pow256(|s|)
  {
    if s == [] then 0 else FromBytes(s[..|s| - 1]) * 256 + s[|s| - 1]
  }

  lemma {:induction false} FromToBytes(n: nat, width: nat)
    requires n < Pow256(width)
    ensures FromBytes(ToBytes(n, width)) == n
  {
    if width > 0 {
      var r := ToBytes(n, width);
      FromToBytes(n / 256, width - 1);
      assert r[..|r| - 1] == ToBytes(n / 256, width - 1);
    }
  }

  lemma {:induction false} ToFromBytes(s: seq<Byte>)
    ensures ToBytes(FromBytes(s), |s|) == s
  {
    if s != [] {
      var init := s[..|s| - 1];
      ToFromBytes(init);
      assert FromBytes(s) / 256 == FromBytes(init);
    }
  }

  lemma Powers()
    ensures Pow256(1) == 0x100 && Pow256(2) == 0x1_0000
    ensures Pow256(4) == 0x1_0000_0000 && Pow256(8) == 0x1_0000_0000_0000_0000
  {
  }
}
