/** Bytes as elements of GF(2^8), and columns of four bytes, with the column
    transformations of FIPS 197 (sections 4.2, 5.1.3 and 5.3.3). */
module AesField {

  function Xor(a: bv8, b: bv8): bv8 { a ^ b }

  function Xor4(a: bv8, b: bv8, c: bv8, d: bv8): bv8 { Xor(Xor(Xor(a, b), c), d) }

  /** Multiplication by {02}: shift, then reduce by {1b} if a bit fell out
      (section 4.2.1 of FIPS 197). */
  function Xtime(b: bv8): bv8 {
    var t := b >> 7;
    (b << 1) ^ (t << 4) ^ (t << 3) ^ (t << 1) ^ t
  }

  function Mul3(b: bv8): bv8 { Xor(Xtime(b), b) }
  function Mul9(b: bv8): bv8 { Xor(Xtime(Xtime(Xtime(b))), b) }
  function MulB(b: bv8): bv8 { Xor(Xor(Xtime(Xtime(Xtime(b))), Xtime(b)), b) }
  function MulD(b: bv8): bv8 { Xor(Xor(Xtime(Xtime(Xtime(b))), Xtime(Xtime(b))), b) }
  function MulE(b: bv8): bv8 { Xor(Xor(Xtime(Xtime(Xtime(b))), Xtime(Xtime(b))), Xtime(b)) }

  datatype Col = Col(b0: bv8, b1: bv8, b2: bv8, b3: bv8)

  function Add(c: Col, d: Col): Col {
    Col(Xor(c.b0, d.b0), Xor(c.b1, d.b1), Xor(c.b2, d.b2), Xor(c.b3, d.b3))
  }

  /** Rows of the two circulant matrices. */
  function MixRow(a: bv8, b: bv8, c: bv8, d: bv8): bv8 {
    Xor4(Xtime(a), Mul3(b), c, d)
  }

  function InvMixRow(a: bv8, b: bv8, c: bv8, d: bv8): bv8 {
    Xor4(MulE(a), MulB(b), MulD(c), Mul9(d))
  }

  function MixColumn(c: Col): Col {
    Col(MixRow(c.b0, c.b1, c.b2, c.b3), MixRow(c.b1, c.b2, c.b3, c.b0),
        MixRow(c.b2, c.b3, c.b0, c.b1), MixRow(c.b3, c.b0, c.b1, c.b2))
  }

  function InvMixColumn(c: Col): Col {
    Col(InvMixRow(c.b0, c.b1, c.b2, c.b3), InvMixRow(c.b1, c.b2, c.b3, c.b0),
        InvMixRow(c.b2, c.b3, c.b0, c.b1), InvMixRow(c.b3, c.b0, c.b1, c.b2))
  }

  lemma XtimeIsConditional(b: bv8)
    ensures b & 0x80 == 0x80 ==> Xtime(b) == (b << 1) ^ 0x1b
    ensures b & 0x80 == 0 ==> Xtime(b) == b << 1
  {
  }

  // ----------------------------------------------------------------- linearity

  lemma XtimeLinear(a: bv8, b: bv8)
    ensures Xtime(Xor(a, b)) == Xor(Xtime(a), Xtime(b))
  {
  }

  lemma Xtime2Linear(a: bv8, b: bv8)
    ensures Xtime(Xtime(Xor(a, b))) == Xor(Xtime(Xtime(a)), Xtime(Xtime(b)))
  {
    hide Xtime, Xor;
    XtimeLinear(a, b);
    XtimeLinear(Xtime(a), Xtime(b));
  }

  lemma Xtime3Linear(a: bv8, b: bv8)
    ensures Xtime(Xtime(Xtime(Xor(a, b)))) == Xor(Xtime(Xtime(Xtime(a))), Xtime(Xtime(Xtime(b))))
  {
    hide Xtime, Xor;
    Xtime2Linear(a, b);
    XtimeLinear(Xtime(Xtime(a)), Xtime(Xtime(b)));
  }

  lemma Commute(a: bv8, b: bv8)
    ensures Xor(a, b) == Xor(b, a)
  {
  }

  lemma Associate(a: bv8, b: bv8, c: bv8)
    ensures Xor(Xor(a, b), c) == Xor(a, Xor(b, c))
  {
  }

  lemma Swap2(a: bv8, b: bv8, c: bv8, d: bv8)
    ensures Xor(Xor(a, b), Xor(c, d)) == Xor(Xor(a, c), Xor(b, d))
  {
    hide Xor;
    Associate(a, b, Xor(c, d));
    Associate(b, c, d);
    Commute(b, c);
    Associate(c, b, d);
    Associate(a, c, Xor(b, d));
  }

  lemma Pairwise(a: bv8, b: bv8, c: bv8, d: bv8, e: bv8, f: bv8, g: bv8, h: bv8)
    ensures Xor4(Xor(a, e), Xor(b, f), Xor(c, g), Xor(d, h)) == Xor(Xor4(a, b, c, d), Xor4(e, f, g, h))
  {
    hide Xor;
    Swap2(a, e, b, f);
    Swap2(Xor(a, b), Xor(e, f), c, g);
    Swap2(Xor(Xor(a, b), c), Xor(Xor(e, f), g), d, h);
  }

  lemma Mul9Linear(a: bv8, b: bv8)
    ensures Mul9(Xor(a, b)) == Xor(Mul9(a), Mul9(b))
  {
    hide Xtime, Xor;
    Xtime3Linear(a, b);
    Swap2(Xtime(Xtime(Xtime(a))), Xtime(Xtime(Xtime(b))), a, b);
  }

  lemma MulBLinear(a: bv8, b: bv8)
    ensures MulB(Xor(a, b)) == Xor(MulB(a), MulB(b))
  {
    hide Xtime, Xor;
    XtimeLinear(a, b);
    Xtime3Linear(a, b);
    Swap2(Xtime(Xtime(Xtime(a))), Xtime(Xtime(Xtime(b))), Xtime(a), Xtime(b));
    Swap2(Xor(Xtime(Xtime(Xtime(a))), Xtime(a)), Xor(Xtime(Xtime(Xtime(b))), Xtime(b)), a, b);
  }

  lemma MulDLinear(a: bv8, b: bv8)
    ensures MulD(Xor(a, b)) == Xor(MulD(a), MulD(b))
  {
    hide Xtime, Xor;
    Xtime2Linear(a, b);
    Xtime3Linear(a, b);
    Swap2(Xtime(Xtime(Xtime(a))), Xtime(Xtime(Xtime(b))), Xtime(Xtime(a)), Xtime(Xtime(b)));
    Swap2(Xor(Xtime(Xtime(Xtime(a))), Xtime(Xtime(a))), Xor(Xtime(Xtime(Xtime(b))), Xtime(Xtime(b))), a, b);
  }

  lemma MulELinear(a: bv8, b: bv8)
    ensures MulE(Xor(a, b)) == Xor(MulE(a), MulE(b))
  {
    hide Xtime, Xor;
    XtimeLinear(a, b);
    Xtime2Linear(a, b);
    Xtime3Linear(a, b);
    Swap2(Xtime(Xtime(Xtime(a))), Xtime(Xtime(Xtime(b))), Xtime(Xtime(a)), Xtime(Xtime(b)));
    Swap2(
      Xor(Xtime(Xtime(Xtime(a))), Xtime(Xtime(a))), Xor(Xtime(Xtime(Xtime(b))), Xtime(Xtime(b))), Xtime(a), Xtime(b));
  }

  lemma Mul9Linear4(a: bv8, b: bv8, c: bv8, d: bv8)
    ensures Mul9(Xor4(a, b, c, d)) == Xor4(Mul9(a), Mul9(b), Mul9(c), Mul9(d))
  {
    hide Mul9, Xor;
    Mul9Linear(Xor(Xor(a, b), c), d);
    Mul9Linear(Xor(a, b), c);
    Mul9Linear(a, b);
  }

  lemma MulBLinear4(a: bv8, b: bv8, c: bv8, d: bv8)
    ensures MulB(Xor4(a, b, c, d)) == Xor4(MulB(a), MulB(b), MulB(c), MulB(d))
  {
    hide MulB, Xor;
    MulBLinear(Xor(Xor(a, b), c), d);
    MulBLinear(Xor(a, b), c);
    MulBLinear(a, b);
  }

  lemma MulDLinear4(a: bv8, b: bv8, c: bv8, d: bv8)
    ensures MulD(Xor4(a, b, c, d)) == Xor4(MulD(a), MulD(b), MulD(c), MulD(d))
  {
    hide MulD, Xor;
    MulDLinear(Xor(Xor(a, b), c), d);
    MulDLinear(Xor(a, b), c);
    MulDLinear(a, b);
  }

  lemma MulELinear4(a: bv8, b: bv8, c: bv8, d: bv8)
    ensures MulE(Xor4(a, b, c, d)) == Xor4(MulE(a), MulE(b), MulE(c), MulE(d))
  {
    hide MulE, Xor;
    MulELinear(Xor(Xor(a, b), c), d);
    MulELinear(Xor(a, b), c);
    MulELinear(a, b);
  }

  // ------------------------------------------------------------------- inverse

  /** The products of the coefficients of MixColumns and InvMixColumns. */
  lemma UnitProduct(x: bv8)
    ensures Xor4(MulE(Xtime(x)), MulB(x), MulD(x), Mul9(Mul3(x))) == x
  {
  }

  lemma ZeroProducts(x: bv8)
    ensures Xor4(MulE(Mul3(x)), MulB(Xtime(x)), MulD(x), Mul9(x)) == 0
    ensures Xor4(MulE(x), MulB(Mul3(x)), MulD(Xtime(x)), Mul9(x)) == 0
    ensures Xor4(MulE(x), MulB(x), MulD(Mul3(x)), Mul9(Xtime(x))) == 0
  {
  }

  lemma Regroup(
    a0: bv8, a1: bv8, a2: bv8, a3: bv8, b0: bv8, b1: bv8, b2: bv8, b3: bv8,
    c0: bv8, c1: bv8, c2: bv8, c3: bv8, d0: bv8, d1: bv8, d2: bv8, d3: bv8)
    ensures Xor4(Xor4(a0, a1, a2, a3), Xor4(b0, b1, b2, b3), Xor4(c0, c1, c2, c3), Xor4(d0, d1, d2, d3))
         == Xor4(Xor4(a0, b0, c0, d0), Xor4(a1, b1, c1, d1), Xor4(a2, b2, c2, d2), Xor4(a3, b3, c3, d3))
  {
    hide Xor;
    Pairwise(a0, a1, a2, a3, b0, b1, b2, b3);
    Pairwise(Xor(a0, b0), Xor(a1, b1), Xor(a2, b2), Xor(a3, b3), c0, c1, c2, c3);
    Pairwise(Xor(Xor(a0, b0), c0), Xor(Xor(a1, b1), c1), Xor(Xor(a2, b2), c2), Xor(Xor(a3, b3), c3), d0, d1, d2, d3);
  }

  lemma RotateXor(a: bv8, b: bv8, c: bv8, d: bv8)
    ensures Xor4(b, c, d, a) == Xor4(a, b, c, d)
  {
    hide Xor;
    Commute(Xor(Xor(b, c), d), a);
    Associate(a, Xor(b, c), d);
    Associate(a, b, c);
  }

  lemma XorZeros(a: bv8)
    ensures Xor4(a, 0, 0, 0) == a
  {
  }

  /** One row of InvMixColumns applied to a mixed column; the other rows are the
      same statement with the bytes rotated. */
  lemma UnmixRow(a: bv8, b: bv8, c: bv8, d: bv8)
    ensures InvMixRow(MixRow(a, b, c, d), MixRow(b, c, d, a), MixRow(c, d, a, b), MixRow(d, a, b, c)) == a
  {
    hide Xtime, Mul3, Mul9, MulB, MulD, MulE, Xor4;
    RotateXor(a, Xtime(b), Mul3(c), d);
    RotateXor(b, Xtime(c), Mul3(d), a);
    RotateXor(a, b, Xtime(c), Mul3(d));
    RotateXor(c, Xtime(d), Mul3(a), b);
    RotateXor(b, c, Xtime(d), Mul3(a));
    RotateXor(Mul3(a), b, c, Xtime(d));
    MulELinear4(Xtime(a), Mul3(b), c, d);
    MulBLinear4(a, Xtime(b), Mul3(c), d);
    MulDLinear4(a, b, Xtime(c), Mul3(d));
    Mul9Linear4(Mul3(a), b, c, Xtime(d));
    Regroup(MulE(Xtime(a)), MulE(Mul3(b)), MulE(c), MulE(d),
            MulB(a), MulB(Xtime(b)), MulB(Mul3(c)), MulB(d),
            MulD(a), MulD(b), MulD(Xtime(c)), MulD(Mul3(d)),
            Mul9(Mul3(a)), Mul9(b), Mul9(c), Mul9(Xtime(d)));
    UnitProduct(a);
    ZeroProducts(b);
    ZeroProducts(c);
    ZeroProducts(d);
    XorZeros(a);
  }

  lemma InvMixUndoesMix(c: Col)
    ensures InvMixColumn(MixColumn(c)) == c
  {
    hide MixRow, InvMixRow;
    UnmixRow(c.b0, c.b1, c.b2, c.b3);
    UnmixRow(c.b1, c.b2, c.b3, c.b0);
    UnmixRow(c.b2, c.b3, c.b0, c.b1);
    UnmixRow(c.b3, c.b0, c.b1, c.b2);
  }

  lemma InvRowLinear(a: bv8, b: bv8, c: bv8, d: bv8, e: bv8, f: bv8, g: bv8, h: bv8)
    ensures InvMixRow(Xor(a, e), Xor(b, f), Xor(c, g), Xor(d, h)) == Xor(InvMixRow(a, b, c, d), InvMixRow(e, f, g, h))
  {
    hide Mul9, MulB, MulD, MulE, Xor, Xor4;
    MulELinear(a, e);
    MulBLinear(b, f);
    MulDLinear(c, g);
    Mul9Linear(d, h);
    Pairwise(MulE(a), MulB(b), MulD(c), Mul9(d), MulE(e), MulB(f), MulD(g), Mul9(h));
  }

  lemma InvMixColumnLinear(c: Col, d: Col)
    ensures InvMixColumn(Add(c, d)) == Add(InvMixColumn(c), InvMixColumn(d))
  {
    hide InvMixRow, Xor;
    InvRowLinear(c.b0, c.b1, c.b2, c.b3, d.b0, d.b1, d.b2, d.b3);
    InvRowLinear(c.b1, c.b2, c.b3, c.b0, d.b1, d.b2, d.b3, d.b0);
    InvRowLinear(c.b2, c.b3, c.b0, c.b1, d.b2, d.b3, d.b0, d.b1);
    InvRowLinear(c.b3, c.b0, c.b1, c.b2, d.b3, d.b0, d.b1, d.b2);
  }

  lemma AddTwice(c: Col, d: Col)
    ensures Add(Add(c, d), d) == c
  {
  }
}
