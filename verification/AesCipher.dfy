/** The cipher and the equivalent inverse cipher of FIPS 197 (sections 5.1 and
    5.3.5), over any substitution box and its inverse. */
module AesCipher {
  import opened AesField

  /** The S-box and the inverse S-box as lookup functions. */
  datatype Boxes = Boxes(s: bv8 -> bv8, si: bv8 -> bv8)

  ghost predicate MutuallyInverse(b: Boxes) {
    forall x: bv8 :: b.si(b.s(x)) == x
  }

  datatype State = State(c0: Col, c1: Col, c2: Col, c3: Col)

  function SubColumn(f: bv8 -> bv8, c: Col): Col {
    Col(f(c.b0), f(c.b1), f(c.b2), f(c.b3))
  }

  function SubBytes(f: bv8 -> bv8, st: State): State {
    State(SubColumn(f, st.c0), SubColumn(f, st.c1), SubColumn(f, st.c2), SubColumn(f, st.c3))
  }

  function ShiftRows(st: State): State {
    State(Col(st.c0.b0, st.c1.b1, st.c2.b2, st.c3.b3),
          Col(st.c1.b0, st.c2.b1, st.c3.b2, st.c0.b3),
          Col(st.c2.b0, st.c3.b1, st.c0.b2, st.c1.b3),
          Col(st.c3.b0, st.c0.b1, st.c1.b2, st.c2.b3))
  }

  function InvShiftRows(st: State): State {
    State(Col(st.c0.b0, st.c3.b1, st.c2.b2, st.c1.b3),
          Col(st.c1.b0, st.c0.b1, st.c3.b2, st.c2.b3),
          Col(st.c2.b0, st.c1.b1, st.c0.b2, st.c3.b3),
          Col(st.c3.b0, st.c2.b1, st.c1.b2, st.c0.b3))
  }

  function MixColumns(st: State): State {
    State(MixColumn(st.c0), MixColumn(st.c1), MixColumn(st.c2), MixColumn(st.c3))
  }

  function InvMixColumns(st: State): State {
    State(InvMixColumn(st.c0), InvMixColumn(st.c1), InvMixColumn(st.c2), InvMixColumn(st.c3))
  }

  function AddRoundKey(st: State, k: State): State {
    State(Add(st.c0, k.c0), Add(st.c1, k.c1), Add(st.c2, k.c2), Add(st.c3, k.c3))
  }

  function Round(b: Boxes, st: State, k: State): State {
    AddRoundKey(MixColumns(ShiftRows(SubBytes(b.s, st))), k)
  }

  function FinalRound(b: Boxes, st: State, k: State): State {
    AddRoundKey(ShiftRows(SubBytes(b.s, st)), k)
  }

  function InvRound(b: Boxes, st: State, k: State): State {
    AddRoundKey(InvMixColumns(InvShiftRows(SubBytes(b.si, st))), k)
  }

  function InvFinalRound(b: Boxes, st: State, k: State): State {
    AddRoundKey(InvShiftRows(SubBytes(b.si, st)), k)
  }

  /** The state after the initial key addition and `r` full rounds. */
  function Rounds(b: Boxes, ks: seq<State>, st: State, r: nat): State
    requires r < |ks|
  {
    if r == 0 then AddRoundKey(st, ks[0]) else Round(b, Rounds(b, ks, st, r - 1), ks[r])
  }

  function InvRounds(b: Boxes, ks: seq<State>, st: State, r: nat): State
    requires r < |ks|
  {
    if r == 0 then AddRoundKey(st, ks[0]) else InvRound(b, InvRounds(b, ks, st, r - 1), ks[r])
  }

  /** The cipher with Nr = |ks| - 1 rounds. */
  function Cipher(b: Boxes, ks: seq<State>, st: State): State
    requires |ks| >= 2
  {
    FinalRound(b, Rounds(b, ks, st, |ks| - 2), ks[|ks| - 1])
  }

  function EqInvCipher(b: Boxes, ks: seq<State>, st: State): State
    requires |ks| >= 2
  {
    InvFinalRound(b, InvRounds(b, ks, st, |ks| - 2), ks[|ks| - 1])
  }

  /** Round keys in reverse order, the inner ones passed through InvMixColumns. */
  function DecryptionKeys(ks: seq<State>): (dk: seq<State>)
    requires |ks| >= 2
    ensures |dk| == |ks|
  {
    seq(|ks|, r requires 0 <= r < |ks| =>
          if r == 0 || r == |ks| - 1 then ks[|ks| - 1 - r] else InvMixColumns(ks[|ks| - 1 - r]))
  }

  // ------------------------------------------------------------------- inverse

  lemma SubThenInvSub(b: Boxes, st: State)
    requires MutuallyInverse(b)
    ensures InvShiftRows(SubBytes(b.si, ShiftRows(SubBytes(b.s, st)))) == st
  {
  }

  lemma InvMixColumnsUndoes(st: State)
    ensures InvMixColumns(MixColumns(st)) == st
  {
    hide InvMixColumn, MixColumn;
    InvMixUndoesMix(st.c0);
    InvMixUndoesMix(st.c1);
    InvMixUndoesMix(st.c2);
    InvMixUndoesMix(st.c3);
  }

  lemma InvMixColumnsLinear(st: State, k: State)
    ensures InvMixColumns(AddRoundKey(st, k)) == AddRoundKey(InvMixColumns(st), InvMixColumns(k))
  {
    hide InvMixColumn, Add;
    InvMixColumnLinear(st.c0, k.c0);
    InvMixColumnLinear(st.c1, k.c1);
    InvMixColumnLinear(st.c2, k.c2);
    InvMixColumnLinear(st.c3, k.c3);
  }

  lemma AddRoundKeyTwice(st: State, k: State)
    ensures AddRoundKey(AddRoundKey(st, k), k) == st
  {
    hide Add;
    AddTwice(st.c0, k.c0);
    AddTwice(st.c1, k.c1);
    AddTwice(st.c2, k.c2);
    AddTwice(st.c3, k.c3);
  }

  /** One inverse round, with the transformed key, takes the substituted and
      shifted output of a round back to the same point of its input. */
  lemma InvRoundUndoesRound(b: Boxes, st: State, k: State)
    requires MutuallyInverse(b)
    ensures InvRound(b, ShiftRows(SubBytes(b.s, Round(b, st, k))), InvMixColumns(k)) == ShiftRows(SubBytes(b.s, st))
  {
    hide AddRoundKey, MixColumns, InvMixColumns, ShiftRows, InvShiftRows, SubBytes;
    var x := ShiftRows(SubBytes(b.s, st));
    SubThenInvSub(b, Round(b, st, k));
    InvMixColumnsLinear(MixColumns(x), k);
    InvMixColumnsUndoes(x);
    AddRoundKeyTwice(x, InvMixColumns(k));
  }

  /** After `r` inverse rounds the inverse cipher stands where the cipher stood
      `r` rounds before its last. */
  lemma {:induction false} InvRoundsMeet(b: Boxes, ks: seq<State>, st: State, r: nat)
    requires MutuallyInverse(b) && |ks| >= 2 && r <= |ks| - 2
    ensures InvRounds(b, DecryptionKeys(ks), Cipher(b, ks, st), r)
         == ShiftRows(SubBytes(b.s, Rounds(b, ks, st, |ks| - 2 - r)))
  {
    hide AddRoundKey, Round, InvRound, ShiftRows, SubBytes, InvMixColumns;
    var n := |ks| - 1;
    if r == 0 {
      AddRoundKeyTwice(ShiftRows(SubBytes(b.s, Rounds(b, ks, st, n - 1))), ks[n]);
    } else {
      InvRoundsMeet(b, ks, st, r - 1);
      InvRoundUndoesRound(b, Rounds(b, ks, st, n - 1 - r), ks[n - r]);
      assert DecryptionKeys(ks)[r] == InvMixColumns(ks[n - r]);
    }
  }

  /** Decryption with the transformed schedule undoes encryption. */
  lemma InverseCipher(b: Boxes, ks: seq<State>, st: State)
    requires MutuallyInverse(b) && |ks| >= 2
    ensures EqInvCipher(b, DecryptionKeys(ks), Cipher(b, ks, st)) == st
  {
    hide AddRoundKey, Round, InvRound, ShiftRows, InvShiftRows, SubBytes, InvMixColumns, Cipher;
    InvRoundsMeet(b, ks, st, |ks| - 2);
    SubThenInvSub(b, Rounds(b, ks, st, 0));
    AddRoundKeyTwice(st, ks[0]);
  }
}
