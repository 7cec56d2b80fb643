/** 32-bit words as the cipher code holds columns, most significant byte first. */
module AesWords {
  import opened AesField

  function Xor32(v: bv32, w: bv32): bv32 { v ^ w }

  /** GETU32 on the four bytes of a column. */
  function Pack(c: Col): bv32 {
    ((c.b0 as bv32) << 24) ^ ((c.b1 as bv32) << 16) ^ ((c.b2 as bv32) << 8) ^ (c.b3 as bv32)
  }

  function Byte0(w: bv32): bv8 { (w >> 24) as bv8 }
  function Byte1(w: bv32): bv8 { ((w >> 16) & 0xff) as bv8 }
  function Byte2(w: bv32): bv8 { ((w >> 8) & 0xff) as bv8 }
  function Byte3(w: bv32): bv8 { (w & 0xff) as bv8 }

  /** PUTU32. */
  function Unpack(w: bv32): Col {
    Col(Byte0(w), Byte1(w), Byte2(w), Byte3(w))
  }

  /** Masks that keep one byte. */
  function Keep0(w: bv32): bv32 { w & 0xff000000 }
  function Keep1(w: bv32): bv32 { w & 0x00ff0000 }
  function Keep2(w: bv32): bv32 { w & 0x0000ff00 }
  function Keep3(w: bv32): bv32 { w & 0x000000ff }

  lemma PackUnpack(w: bv32)
    ensures Pack(Unpack(w)) == w
  {
  }

  lemma UnpackPack(c: Col)
    ensures Unpack(Pack(c)) == c
  {
  }

  lemma PackAdd(c: Col, d: Col)
    ensures Pack(Add(c, d)) == Xor32(Pack(c), Pack(d))
  {
  }

  lemma MaskedBytes(a: bv8)
    ensures Keep0(Pack(Col(a, a, a, a))) == Pack(Col(a, 0, 0, 0))
    ensures Keep1(Pack(Col(a, a, a, a))) == Pack(Col(0, a, 0, 0))
    ensures Keep2(Pack(Col(a, a, a, a))) == Pack(Col(0, 0, a, 0))
    ensures Keep3(Pack(Col(a, a, a, a))) == Pack(Col(0, 0, 0, a))
  {
  }

  function Xor32x4(u: bv32, v: bv32, w: bv32, x: bv32): bv32 {
    Xor32(Xor32(Xor32(u, v), w), x)
  }

  lemma PackAdd4(c: Col, d: Col, e: Col, f: Col)
    ensures Xor32x4(Pack(c), Pack(d), Pack(e), Pack(f)) == Pack(Add(Add(Add(c, d), e), f))
  {
    hide Pack, Xor32, Add;
    PackAdd(c, d);
    PackAdd(Add(c, d), e);
    PackAdd(Add(Add(c, d), e), f);
  }

  lemma XorZero(a: bv8)
    ensures Xor(a, 0) == a && Xor(0, a) == a
  {
  }

  /** The last round picks one byte of each of four table words. */
  lemma PackMasked(a: bv8, b: bv8, c: bv8, d: bv8)
    ensures Xor32x4(Keep0(Pack(Col(a, a, a, a))), Keep1(Pack(Col(b, b, b, b))),
                    Keep2(Pack(Col(c, c, c, c))), Keep3(Pack(Col(d, d, d, d))))
         == Pack(Col(a, b, c, d))
  {
    hide Pack, Xor32, Xor32x4, Xor, Keep0, Keep1, Keep2, Keep3;
    MaskedBytes(a);
    MaskedBytes(b);
    MaskedBytes(c);
    MaskedBytes(d);
    PackAdd4(Col(a, 0, 0, 0), Col(0, b, 0, 0), Col(0, 0, c, 0), Col(0, 0, 0, d));
    XorZero(a);
    XorZero(b);
    XorZero(c);
    XorZero(d);
    XorZero(0);
  }
}
