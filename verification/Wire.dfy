/** Big-endian numbers and counted strings on a migration stream. */
module Wire {
  type Byte = x: nat | x < 256

  const TWO64: nat := 0x1_0000_0000_0000_0000

  /** The `n` low bytes of `v`, most significant first. */
  function BeBytes(v: nat, n: nat): (s: seq<Byte>)
    ensures |s| == n
  {
    if n == 0 then [] else BeBytes(v / 256, n - 1) + [v % 256]
  }

  function BeValue(s: seq<Byte>): nat {
    if s == [] then 0 else BeValue(s[..|s| - 1]) * 256 + s[|s| - 1]
  }

  function Pow256(n: nat): nat {
    if n == 0 then 1 else 256 * Pow256(n - 1)
  }

  lemma {:induction false} BeRoundTrip(v: nat, n: nat)
    requires v < Pow256(n)
    ensures BeValue(BeBytes(v, n)) == v
  {
    if n == 0 {
    } else {
      BeRoundTrip(v / 256, n - 1);
      assert BeBytes(v, n)[..n - 1] == BeBytes(v / 256, n - 1);
    }
  }

  function Be64(v: nat): (s: seq<Byte>)
    ensures |s| == 8
  {
    BeBytes(v, 8)
  }

  lemma Pow256Eight()
    ensures Pow256(8) == TWO64
  {
    assert Pow256(2) == 0x1_0000;
    assert Pow256(4) == 0x1_0000_0000;
    assert Pow256(6) == 0x1_0000_0000_0000;
  }

  /** The eight bytes, the most significant first. */
  lemma Be64Bytes(v: nat)
    ensures var v1 := v / 256; var v2 := v1 / 256; var v3 := v2 / 256; var v4 := v3 / 256;
            var v5 := v4 / 256; var v6 := v5 / 256; var v7 := v6 / 256;
            Be64(v) == [v7 % 256, v6 % 256, v5 % 256, v4 % 256, v3 % 256, v2 % 256, v1 % 256, v % 256]
  {
    var v1 := v / 256; var v2 := v1 / 256; var v3 := v2 / 256; var v4 := v3 / 256;
    var v5 := v4 / 256; var v6 := v5 / 256; var v7 := v6 / 256;
    assert BeBytes(v7, 1) == [v7 % 256];
    assert BeBytes(v6, 2) == [v7 % 256, v6 % 256];
    assert BeBytes(v5, 3) == [v7 % 256, v6 % 256, v5 % 256];
    assert BeBytes(v4, 4) == [v7 % 256, v6 % 256, v5 % 256, v4 % 256];
    assert BeBytes(v3, 5) == BeBytes(v4, 4) + [v3 % 256];
    assert BeBytes(v2, 6) == BeBytes(v3, 5) + [v2 % 256];
    assert BeBytes(v1, 7) == BeBytes(v2, 6) + [v1 % 256];
  }

  /** Reads a 64-bit number off the front of what follows it. */
  lemma Be64Front(v: nat, rest: seq<Byte>)
    requires v < TWO64
    ensures BeValue((Be64(v) + rest)[..8]) == v && (Be64(v) + rest)[8..] == rest
  {
    Pow256Eight();
    BeRoundTrip(v, 8);
    assert (Be64(v) + rest)[..8] == Be64(v);
  }

  /** A length byte and the characters of a name. */
  function Counted(id: seq<Byte>): seq<Byte>
    requires |id| < 256
  {
    [|id|] + id
  }

  lemma CountedFront(id: seq<Byte>, rest: seq<Byte>)
    requires |id| < 256
    ensures var s := Counted(id) + rest;
            s[0] == |id| && s[1..][..|id|] == id && s[1..][|id|..] == rest
  {
  }

  /** What C string functions see of a buffer. */
  function CStr(s: seq<Byte>): seq<Byte> {
    if s == [] || s[0] == 0 then [] else [s[0]] + CStr(s[1..])
  }

  lemma {:induction false} CStrOfName(id: seq<Byte>)
    requires forall i :: 0 <= i < |id| ==> id[i] != 0
    ensures CStr(id) == id
  {
    if id == [] {
    } else {
      CStrOfName(id[1..]);
    }
  }
}
