/** The lookup-table form of the rounds: words, tables, and the encryption and
    decryption of one block, refined against the FIPS 197 cipher. */
module AesTables {
  import opened AesField
  import opened AesWords
  import opened AesCipher

  function Te0(b: Boxes, x: bv8): bv32 { Pack(Col(Xtime(b.s(x)), b.s(x), b.s(x), Mul3(b.s(x)))) }
  function Te1(b: Boxes, x: bv8): bv32 { Pack(Col(Mul3(b.s(x)), Xtime(b.s(x)), b.s(x), b.s(x))) }
  function Te2(b: Boxes, x: bv8): bv32 { Pack(Col(b.s(x), Mul3(b.s(x)), Xtime(b.s(x)), b.s(x))) }
  function Te3(b: Boxes, x: bv8): bv32 { Pack(Col(b.s(x), b.s(x), Mul3(b.s(x)), Xtime(b.s(x)))) }
  function Te4(b: Boxes, x: bv8): bv32 { Pack(Col(b.s(x), b.s(x), b.s(x), b.s(x))) }

  function Td0(b: Boxes, x: bv8): bv32 { Pack(Col(MulE(b.si(x)), Mul9(b.si(x)), MulD(b.si(x)), MulB(b.si(x)))) }
  function Td1(b: Boxes, x: bv8): bv32 { Pack(Col(MulB(b.si(x)), MulE(b.si(x)), Mul9(b.si(x)), MulD(b.si(x)))) }
  function Td2(b: Boxes, x: bv8): bv32 { Pack(Col(MulD(b.si(x)), MulB(b.si(x)), MulE(b.si(x)), Mul9(b.si(x)))) }
  function Td3(b: Boxes, x: bv8): bv32 { Pack(Col(Mul9(b.si(x)), MulD(b.si(x)), MulB(b.si(x)), MulE(b.si(x)))) }
  function Td4(b: Boxes, x: bv8): bv32 { Pack(Col(b.si(x), b.si(x), b.si(x), b.si(x))) }

  /** Four table words and a key word, exclusive-ored. */
  function TeWord(b: Boxes, w: bv32, x: bv32, y: bv32, z: bv32, k: bv32): bv32 {
    Xor32(Xor32x4(Te0(b, Byte0(w)), Te1(b, Byte1(x)), Te2(b, Byte2(y)), Te3(b, Byte3(z))), k)
  }

  function TdWord(b: Boxes, w: bv32, x: bv32, y: bv32, z: bv32, k: bv32): bv32 {
    Xor32(Xor32x4(Td0(b, Byte0(w)), Td1(b, Byte1(x)), Td2(b, Byte2(y)), Td3(b, Byte3(z))), k)
  }

  function TeLast(b: Boxes, w: bv32, x: bv32, y: bv32, z: bv32, k: bv32): bv32 {
    Xor32(Xor32x4(Keep0(Te4(b, Byte0(w))), Keep1(Te4(b, Byte1(x))),
                  Keep2(Te4(b, Byte2(y))), Keep3(Te4(b, Byte3(z)))), k)
  }

  function TdLast(b: Boxes, w: bv32, x: bv32, y: bv32, z: bv32, k: bv32): bv32 {
    Xor32(Xor32x4(Keep0(Td4(b, Byte0(w))), Keep1(Td4(b, Byte1(x))),
                  Keep2(Td4(b, Byte2(y))), Keep3(Td4(b, Byte3(z)))), k)
  }

  datatype Words = Words(w0: bv32, w1: bv32, w2: bv32, w3: bv32)

  function ToState(w: Words): State {
    State(Unpack(w.w0), Unpack(w.w1), Unpack(w.w2), Unpack(w.w3))
  }

  /** The four key words of round `r`. */
  function KeyWords(rk: seq<bv32>, r: nat): Words
    requires 4 * r + 4 <= |rk|
  {
    Words(rk[4 * r], rk[4 * r + 1], rk[4 * r + 2], rk[4 * r + 3])
  }

  function KeyStates(rk: seq<bv32>, rounds: nat): (ks: seq<State>)
    requires 4 * (rounds + 1) <= |rk|
    ensures |ks| == rounds + 1
  {
    seq(rounds + 1, r requires 0 <= r <= rounds => ToState(KeyWords(rk, r)))
  }

  function EncryptRound(b: Boxes, s: Words, k: Words): Words {
    Words(TeWord(b, s.w0, s.w1, s.w2, s.w3, k.w0), TeWord(b, s.w1, s.w2, s.w3, s.w0, k.w1),
          TeWord(b, s.w2, s.w3, s.w0, s.w1, k.w2), TeWord(b, s.w3, s.w0, s.w1, s.w2, k.w3))
  }

  function EncryptLast(b: Boxes, t: Words, k: Words): Words {
    Words(TeLast(b, t.w0, t.w1, t.w2, t.w3, k.w0), TeLast(b, t.w1, t.w2, t.w3, t.w0, k.w1),
          TeLast(b, t.w2, t.w3, t.w0, t.w1, k.w2), TeLast(b, t.w3, t.w0, t.w1, t.w2, k.w3))
  }

  function DecryptRound(b: Boxes, s: Words, k: Words): Words {
    Words(TdWord(b, s.w0, s.w3, s.w2, s.w1, k.w0), TdWord(b, s.w1, s.w0, s.w3, s.w2, k.w1),
          TdWord(b, s.w2, s.w1, s.w0, s.w3, k.w2), TdWord(b, s.w3, s.w2, s.w1, s.w0, k.w3))
  }

  function DecryptLast(b: Boxes, t: Words, k: Words): Words {
    Words(TdLast(b, t.w0, t.w3, t.w2, t.w1, k.w0), TdLast(b, t.w1, t.w0, t.w3, t.w2, k.w1),
          TdLast(b, t.w2, t.w1, t.w0, t.w3, k.w2), TdLast(b, t.w3, t.w2, t.w1, t.w0, k.w3))
  }

  function AddKey(s: Words, k: Words): Words {
    Words(Xor32(s.w0, k.w0), Xor32(s.w1, k.w1), Xor32(s.w2, k.w2), Xor32(s.w3, k.w3))
  }

  // ------------------------------------------------------- one word of a round

  lemma UnpackXor(v: bv32, k: bv32)
    ensures Unpack(Xor32(v, k)) == Add(Unpack(v), Unpack(k))
  {
    hide Pack, Unpack, Xor32, Add;
    PackUnpack(v);
    PackUnpack(k);
    PackAdd(Unpack(v), Unpack(k));
    UnpackPack(Add(Unpack(v), Unpack(k)));
  }

  /** A packed column exclusive-ored with a key word. */
  lemma UnpackPackedXor(c: Col, k: bv32)
    ensures Unpack(Xor32(Pack(c), k)) == Add(c, Unpack(k))
  {
    hide Pack, Unpack, Xor32, Add;
    UnpackXor(Pack(c), k);
    UnpackPack(c);
  }

  /** The four encryption table columns add up to a mixed column. */
  lemma MixColumnAsSum(w: bv8, x: bv8, y: bv8, z: bv8)
    ensures Add(Add(Add(Col(Xtime(w), w, w, Mul3(w)), Col(Mul3(x), Xtime(x), x, x)),
                    Col(y, Mul3(y), Xtime(y), y)), Col(z, z, Mul3(z), Xtime(z)))
         == MixColumn(Col(w, x, y, z))
  {
    hide Xtime, Mul3, Xor;
    RotateXor(w, Xtime(x), Mul3(y), z);
    RotateXor(x, Xtime(y), Mul3(z), w);
    RotateXor(w, x, Xtime(y), Mul3(z));
    RotateXor(y, Xtime(z), Mul3(w), x);
    RotateXor(x, y, Xtime(z), Mul3(w));
    RotateXor(Mul3(w), x, y, Xtime(z));
  }

  lemma InvMixColumnAsSum(w: bv8, x: bv8, y: bv8, z: bv8)
    ensures Add(Add(Add(Col(MulE(w), Mul9(w), MulD(w), MulB(w)), Col(MulB(x), MulE(x), Mul9(x), MulD(x))),
                    Col(MulD(y), MulB(y), MulE(y), Mul9(y))), Col(Mul9(z), MulD(z), MulB(z), MulE(z)))
         == InvMixColumn(Col(w, x, y, z))
  {
    hide Mul9, MulB, MulD, MulE, Xor;
    RotateXor(Mul9(w), MulE(x), MulB(y), MulD(z));
    RotateXor(Mul9(x), MulE(y), MulB(z), MulD(w));
    RotateXor(MulD(w), Mul9(x), MulE(y), MulB(z));
    RotateXor(Mul9(y), MulE(z), MulB(w), MulD(x));
    RotateXor(MulD(x), Mul9(y), MulE(z), MulB(w));
    RotateXor(MulB(w), MulD(x), Mul9(y), MulE(z));
  }

  lemma TeWordIsRound(b: Boxes, w: bv32, x: bv32, y: bv32, z: bv32, k: bv32)
    ensures Unpack(TeWord(b, w, x, y, z, k)) ==
            Add(MixColumn(Col(b.s(Byte0(w)), b.s(Byte1(x)), b.s(Byte2(y)), b.s(Byte3(z)))), Unpack(k))
  {
    hide Pack, Unpack, Xor32, Add, MixColumn, Xtime, Mul3, Byte0, Byte1, Byte2, Byte3, Xor32x4;
    var p, q, r, s := b.s(Byte0(w)), b.s(Byte1(x)), b.s(Byte2(y)), b.s(Byte3(z));
    PackAdd4(Col(Xtime(p), p, p, Mul3(p)), Col(Mul3(q), Xtime(q), q, q),
             Col(r, Mul3(r), Xtime(r), r), Col(s, s, Mul3(s), Xtime(s)));
    MixColumnAsSum(p, q, r, s);
    UnpackPackedXor(MixColumn(Col(p, q, r, s)), k);
  }

  lemma TdWordIsRound(b: Boxes, w: bv32, x: bv32, y: bv32, z: bv32, k: bv32)
    ensures Unpack(TdWord(b, w, x, y, z, k)) ==
            Add(InvMixColumn(Col(b.si(Byte0(w)), b.si(Byte1(x)), b.si(Byte2(y)), b.si(Byte3(z)))), Unpack(k))
  {
    hide Pack, Unpack, Xor32, Add, InvMixColumn, Mul9, MulB, MulD, MulE, Byte0, Byte1, Byte2, Byte3, Xor32x4;
    var p, q, r, s := b.si(Byte0(w)), b.si(Byte1(x)), b.si(Byte2(y)), b.si(Byte3(z));
    PackAdd4(Col(MulE(p), Mul9(p), MulD(p), MulB(p)), Col(MulB(q), MulE(q), Mul9(q), MulD(q)),
             Col(MulD(r), MulB(r), MulE(r), Mul9(r)), Col(Mul9(s), MulD(s), MulB(s), MulE(s)));
    InvMixColumnAsSum(p, q, r, s);
    UnpackPackedXor(InvMixColumn(Col(p, q, r, s)), k);
  }

  lemma TeLastIsRound(b: Boxes, w: bv32, x: bv32, y: bv32, z: bv32, k: bv32)
    ensures Unpack(TeLast(b, w, x, y, z, k)) ==
            Add(Col(b.s(Byte0(w)), b.s(Byte1(x)), b.s(Byte2(y)), b.s(Byte3(z))), Unpack(k))
  {
    hide Pack, Unpack, Xor32, Add, Byte0, Byte1, Byte2, Byte3, Xor32x4, Keep0, Keep1, Keep2, Keep3;
    PackMasked(b.s(Byte0(w)), b.s(Byte1(x)), b.s(Byte2(y)), b.s(Byte3(z)));
    UnpackPackedXor(Col(b.s(Byte0(w)), b.s(Byte1(x)), b.s(Byte2(y)), b.s(Byte3(z))), k);
  }

  lemma TdLastIsRound(b: Boxes, w: bv32, x: bv32, y: bv32, z: bv32, k: bv32)
    ensures Unpack(TdLast(b, w, x, y, z, k)) ==
            Add(Col(b.si(Byte0(w)), b.si(Byte1(x)), b.si(Byte2(y)), b.si(Byte3(z))), Unpack(k))
  {
    hide Pack, Unpack, Xor32, Add, Byte0, Byte1, Byte2, Byte3, Xor32x4, Keep0, Keep1, Keep2, Keep3;
    PackMasked(b.si(Byte0(w)), b.si(Byte1(x)), b.si(Byte2(y)), b.si(Byte3(z)));
    UnpackPackedXor(Col(b.si(Byte0(w)), b.si(Byte1(x)), b.si(Byte2(y)), b.si(Byte3(z))), k);
  }

  // -------------------------------------------------------------- whole rounds

  lemma EncryptRoundIsRound(b: Boxes, s: Words, k: Words)
    ensures ToState(EncryptRound(b, s, k)) == Round(b, ToState(s), ToState(k))
  {
    hide TeWord, Add, MixColumn, Byte0, Byte1, Byte2, Byte3;
    TeWordIsRound(b, s.w0, s.w1, s.w2, s.w3, k.w0);
    TeWordIsRound(b, s.w1, s.w2, s.w3, s.w0, k.w1);
    TeWordIsRound(b, s.w2, s.w3, s.w0, s.w1, k.w2);
    TeWordIsRound(b, s.w3, s.w0, s.w1, s.w2, k.w3);
  }

  lemma EncryptLastIsFinalRound(b: Boxes, s: Words, k: Words)
    ensures ToState(EncryptLast(b, s, k)) == FinalRound(b, ToState(s), ToState(k))
  {
    hide TeLast, Add, Byte0, Byte1, Byte2, Byte3;
    TeLastIsRound(b, s.w0, s.w1, s.w2, s.w3, k.w0);
    TeLastIsRound(b, s.w1, s.w2, s.w3, s.w0, k.w1);
    TeLastIsRound(b, s.w2, s.w3, s.w0, s.w1, k.w2);
    TeLastIsRound(b, s.w3, s.w0, s.w1, s.w2, k.w3);
  }

  lemma DecryptRoundIsInvRound(b: Boxes, s: Words, k: Words)
    ensures ToState(DecryptRound(b, s, k)) == InvRound(b, ToState(s), ToState(k))
  {
    hide TdWord, Add, InvMixColumn, Byte0, Byte1, Byte2, Byte3;
    TdWordIsRound(b, s.w0, s.w3, s.w2, s.w1, k.w0);
    TdWordIsRound(b, s.w1, s.w0, s.w3, s.w2, k.w1);
    TdWordIsRound(b, s.w2, s.w1, s.w0, s.w3, k.w2);
    TdWordIsRound(b, s.w3, s.w2, s.w1, s.w0, k.w3);
  }

  lemma DecryptLastIsInvFinalRound(b: Boxes, s: Words, k: Words)
    ensures ToState(DecryptLast(b, s, k)) == InvFinalRound(b, ToState(s), ToState(k))
  {
    hide TdLast, Add, Byte0, Byte1, Byte2, Byte3;
    TdLastIsRound(b, s.w0, s.w3, s.w2, s.w1, k.w0);
    TdLastIsRound(b, s.w1, s.w0, s.w3, s.w2, k.w1);
    TdLastIsRound(b, s.w2, s.w1, s.w0, s.w3, k.w2);
    TdLastIsRound(b, s.w3, s.w2, s.w1, s.w0, k.w3);
  }

  lemma AddKeyIsAddRoundKey(s: Words, k: Words)
    ensures ToState(AddKey(s, k)) == AddRoundKey(ToState(s), ToState(k))
  {
    hide Unpack, Xor32, Add;
    UnpackXor(s.w0, k.w0);
    UnpackXor(s.w1, k.w1);
    UnpackXor(s.w2, k.w2);
    UnpackXor(s.w3, k.w3);
  }

  // ------------------------------------------------------------------- a block

  type Block = s: seq<bv8> | |s| == 16 witness seq(16, _ => 0 as bv8)

  function ColumnAt(s: Block, j: nat): Col
    requires j < 4
  {
    Col(s[4 * j], s[4 * j + 1], s[4 * j + 2], s[4 * j + 3])
  }

  function StateOf(s: Block): State {
    State(ColumnAt(s, 0), ColumnAt(s, 1), ColumnAt(s, 2), ColumnAt(s, 3))
  }

  function BytesOfCol(c: Col): seq<bv8> { [c.b0, c.b1, c.b2, c.b3] }

  function BytesOf(st: State): Block {
    BytesOfCol(st.c0) + BytesOfCol(st.c1) + BytesOfCol(st.c2) + BytesOfCol(st.c3)
  }

  lemma StateBytes(s: Block, st: State)
    ensures BytesOf(StateOf(s)) == s && StateOf(BytesOf(st)) == st
  {
  }

  function LoadWords(s: Block): (w: Words) {
    Words(Pack(ColumnAt(s, 0)), Pack(ColumnAt(s, 1)), Pack(ColumnAt(s, 2)), Pack(ColumnAt(s, 3)))
  }

  lemma LoadedState(s: Block)
    ensures ToState(LoadWords(s)) == StateOf(s)
  {
    hide Pack, Unpack;
    UnpackPack(ColumnAt(s, 0));
    UnpackPack(ColumnAt(s, 1));
    UnpackPack(ColumnAt(s, 2));
    UnpackPack(ColumnAt(s, 3));
  }

  /** What encrypting and decrypting one block mean for a schedule. */
  function EncryptBlock(b: Boxes, rk: seq<bv32>, rounds: nat, s: Block): Block
    requires rounds >= 1 && 4 * (rounds + 1) <= |rk|
  {
    BytesOf(Cipher(b, KeyStates(rk, rounds), StateOf(s)))
  }

  function DecryptBlock(b: Boxes, rk: seq<bv32>, rounds: nat, s: Block): Block
    requires rounds >= 1 && 4 * (rounds + 1) <= |rk|
  {
    BytesOf(EqInvCipher(b, KeyStates(rk, rounds), StateOf(s)))
  }

  /** PUTU32 of the four words. */
  function StoreWords(w: Words): Block {
    BytesOfCol(Unpack(w.w0)) + BytesOfCol(Unpack(w.w1)) + BytesOfCol(Unpack(w.w2)) + BytesOfCol(Unpack(w.w3))
  }

  lemma StoredBytes(w: Words)
    ensures StoreWords(w) == BytesOf(ToState(w))
  {
  }

  /** The encryption loop: two rounds per turn, the last half-turn left open. */
  method Encrypt(b: Boxes, rk: seq<bv32>, rounds: nat, input: Block) returns (output: Block)
    requires rounds >= 2 && rounds % 2 == 0 && 4 * (rounds + 1) <= |rk|
    ensures output == EncryptBlock(b, rk, rounds, input)
  {
    hide Round, FinalRound, EncryptRound, EncryptLast, AddKey, AddRoundKey, ToState, LoadWords, StoreWords, StateOf,
         Unpack, BytesOf;
    ghost var ks, st := KeyStates(rk, rounds), StateOf(input);
    var s := AddKey(LoadWords(input), KeyWords(rk, 0));
    LoadedState(input);
    AddKeyIsAddRoundKey(LoadWords(input), KeyWords(rk, 0));
    var r, p := rounds / 2, 0;
    var t: Words;
    while true
      invariant 1 <= r && p + 2 * r == rounds
      invariant ToState(s) == Rounds(b, ks, st, p)
      decreases r
    {
      t := EncryptRound(b, s, KeyWords(rk, p + 1));
      EncryptRoundIsRound(b, s, KeyWords(rk, p + 1));
      p, r := p + 2, r - 1;
      if r == 0 {
        break;
      }
      s := EncryptRound(b, t, KeyWords(rk, p));
      EncryptRoundIsRound(b, t, KeyWords(rk, p));
    }
    var last := EncryptLast(b, t, KeyWords(rk, p));
    EncryptLastIsFinalRound(b, t, KeyWords(rk, p));
    StoredBytes(last);
    output := StoreWords(last);
  }

  method Decrypt(b: Boxes, rk: seq<bv32>, rounds: nat, input: Block) returns (output: Block)
    requires rounds >= 2 && rounds % 2 == 0 && 4 * (rounds + 1) <= |rk|
    ensures output == DecryptBlock(b, rk, rounds, input)
  {
    hide InvRound, InvFinalRound, DecryptRound, DecryptLast, AddKey, AddRoundKey, ToState, LoadWords, StoreWords,
         StateOf, Unpack, BytesOf;
    ghost var ks, st := KeyStates(rk, rounds), StateOf(input);
    var s := AddKey(LoadWords(input), KeyWords(rk, 0));
    LoadedState(input);
    AddKeyIsAddRoundKey(LoadWords(input), KeyWords(rk, 0));
    var r, p := rounds / 2, 0;
    var t: Words;
    while true
      invariant 1 <= r && p + 2 * r == rounds
      invariant ToState(s) == InvRounds(b, ks, st, p)
      decreases r
    {
      t := DecryptRound(b, s, KeyWords(rk, p + 1));
      DecryptRoundIsInvRound(b, s, KeyWords(rk, p + 1));
      p, r := p + 2, r - 1;
      if r == 0 {
        break;
      }
      s := DecryptRound(b, t, KeyWords(rk, p));
      DecryptRoundIsInvRound(b, t, KeyWords(rk, p));
    }
    var last := DecryptLast(b, t, KeyWords(rk, p));
    DecryptLastIsInvFinalRound(b, t, KeyWords(rk, p));
    StoredBytes(last);
    output := StoreWords(last);
  }
}
