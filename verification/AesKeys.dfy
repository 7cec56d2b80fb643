/** The key schedules: expansion of the user key in place, and its inversion for
    the equivalent inverse cipher. */
module AesKeys {
  import opened AesField
  import opened AesWords
  import opened AesCipher
  import opened AesTables

  // ------------------------------------- key expansion (section 5.2 of FIPS 197)

  function RotWord(w: bv32): bv32 { Pack(Col(Byte1(w), Byte2(w), Byte3(w), Byte0(w))) }

  function SubWord(b: Boxes, w: bv32): bv32 { Pack(SubColumn(b.s, Unpack(w))) }

  /** The powers of {02}. */
  function RoundConstant(i: nat): bv8 {
    if i <= 1 then 1 else Xtime(RoundConstant(i - 1))
  }

  function Rcon(i: nat): bv32 { Pack(Col(RoundConstant(i), 0, 0, 0)) }

  function KeyWord(key: seq<bv8>, i: nat): bv32
    requires 4 * i + 4 <= |key|
  {
    Pack(Col(key[4 * i], key[4 * i + 1], key[4 * i + 2], key[4 * i + 3]))
  }

  /** What is added to the word `nk` places back to give word `i`. */
  function Mask(b: Boxes, nk: nat, i: nat, prev: bv32): bv32
    requires nk > 0
  {
    if i % nk == 0 then Xor32(SubWord(b, RotWord(prev)), Rcon(i / nk))
    else if nk > 6 && i % nk == 4 then SubWord(b, prev)
    else prev
  }

  /** The first `n` words of the expanded key. */
  function Expand(b: Boxes, nk: nat, key: seq<bv8>, n: nat): (w: seq<bv32>)
    requires nk > 0 && |key| == 4 * nk
    ensures |w| == n
  {
    if n == 0 then []
    else if n <= nk then Expand(b, nk, key, n - 1) + [KeyWord(key, n - 1)]
    else
      var w := Expand(b, nk, key, n - 1);
      w + [Xor32(w[n - 1 - nk], Mask(b, nk, n - 1, w[n - 2]))]
  }

  // ------------------------------------------------------------------ the code

  const RCON: seq<bv32> := [
    0x01000000, 0x02000000, 0x04000000, 0x08000000, 0x10000000,
    0x20000000, 0x40000000, 0x80000000, 0x1B000000, 0x36000000]

  lemma RconTable(i: nat)
    requires i < 10
    ensures |RCON| == 10 && RCON[i] == Rcon(i + 1)
  {
    assert RoundConstant(1) == 0x01;
    assert RoundConstant(2) == 0x02;
    assert RoundConstant(3) == 0x04;
    assert RoundConstant(4) == 0x08;
    assert RoundConstant(5) == 0x10;
    assert RoundConstant(6) == 0x20;
    assert RoundConstant(7) == 0x40;
    assert RoundConstant(8) == 0x80;
    assert RoundConstant(9) == 0x1b;
    assert RoundConstant(10) == 0x36;
  }

  /** rk[0] ^ four masked table words ^ rcon[i], in the order of the code. */
  function RotatedKeyWord(b: Boxes, w: bv32, temp: bv32, rc: bv32): bv32 {
    Xor32(Xor32(Xor32(Xor32(Xor32(w,
      Keep0(Te4(b, Byte1(temp)))),
      Keep1(Te4(b, Byte2(temp)))),
      Keep2(Te4(b, Byte3(temp)))),
      Keep3(Te4(b, Byte0(temp)))),
      rc)
  }

  /** The extra substitution of 256-bit keys, which has no rotation. */
  function PlainKeyWord(b: Boxes, w: bv32, temp: bv32): bv32 {
    Xor32(Xor32(Xor32(Xor32(w,
      Keep0(Te4(b, Byte0(temp)))),
      Keep1(Te4(b, Byte1(temp)))),
      Keep2(Te4(b, Byte2(temp)))),
      Keep3(Te4(b, Byte3(temp))))
  }

  lemma Associate32(u: bv32, v: bv32, w: bv32)
    ensures Xor32(Xor32(u, v), w) == Xor32(u, Xor32(v, w))
  {
  }

  lemma Chain(w: bv32, m0: bv32, m1: bv32, m2: bv32, m3: bv32)
    ensures Xor32(Xor32(Xor32(Xor32(w, m0), m1), m2), m3) == Xor32(w, Xor32x4(m0, m1, m2, m3))
  {
    hide Xor32;
    Associate32(w, m0, m1);
    Associate32(w, Xor32(m0, m1), m2);
    Associate32(w, Xor32(Xor32(m0, m1), m2), m3);
  }

  lemma PlainKeyWordIsMask(b: Boxes, w: bv32, temp: bv32)
    ensures PlainKeyWord(b, w, temp) == Xor32(w, SubWord(b, temp))
  {
    hide Xor32, Xor32x4, Pack, Byte0, Byte1, Byte2, Byte3, Keep0, Keep1, Keep2, Keep3;
    Chain(w, Keep0(Te4(b, Byte0(temp))), Keep1(Te4(b, Byte1(temp))),
          Keep2(Te4(b, Byte2(temp))), Keep3(Te4(b, Byte3(temp))));
    PackMasked(b.s(Byte0(temp)), b.s(Byte1(temp)), b.s(Byte2(temp)), b.s(Byte3(temp)));
  }

  lemma SubRotWord(b: Boxes, temp: bv32)
    ensures SubWord(b, RotWord(temp)) ==
            Pack(Col(b.s(Byte1(temp)), b.s(Byte2(temp)), b.s(Byte3(temp)), b.s(Byte0(temp))))
  {
    hide Pack, Unpack, Byte0, Byte1, Byte2, Byte3;
    UnpackPack(Col(Byte1(temp), Byte2(temp), Byte3(temp), Byte0(temp)));
  }

  lemma RotatedKeyWordIsMask(b: Boxes, w: bv32, temp: bv32, rc: bv32)
    ensures RotatedKeyWord(b, w, temp, rc) == Xor32(w, Xor32(SubWord(b, RotWord(temp)), rc))
  {
    hide Xor32, Xor32x4, Pack, Byte0, Byte1, Byte2, Byte3, Keep0, Keep1, Keep2, Keep3, SubWord, RotWord;
    Chain(w, Keep0(Te4(b, Byte1(temp))), Keep1(Te4(b, Byte2(temp))),
          Keep2(Te4(b, Byte3(temp))), Keep3(Te4(b, Byte0(temp))));
    PackMasked(b.s(Byte1(temp)), b.s(Byte2(temp)), b.s(Byte3(temp)), b.s(Byte0(temp)));
    SubRotWord(b, temp);
    Associate32(w, SubWord(b, RotWord(temp)), rc);
  }

  lemma ExpandNext(b: Boxes, nk: nat, key: seq<bv8>, m: nat)
    requires nk > 0 && |key| == 4 * nk && m >= nk
    ensures Expand(b, nk, key, m + 1) ==
            Expand(b, nk, key, m) + [Xor32(Expand(b, nk, key, m)[m - nk], Mask(b, nk, m, Expand(b, nk, key, m)[m - 1]))]
  {
  }

  class AesKey {
    const rdKey: array<bv32>
    var rounds: nat

    constructor ()
      ensures fresh(rdKey) && rdKey.Length == 60
    {
      rdKey, rounds := new bv32[60], 0;
    }

    method Append(m: nat, x: bv32)
      requires m < rdKey.Length
      modifies rdKey
      ensures rdKey[..m + 1] == old(rdKey[..m]) + [x]
    {
      rdKey[m] := x;
      assert rdKey[..m + 1] == rdKey[..m] + [x];
    }

    /** The user key itself, four bytes at a time. */
    method LoadUserKey(b: Boxes, nk: nat, userKey: seq<bv8>)
      requires 4 <= nk <= 8 && |userKey| == 4 * nk && rdKey.Length == 60
      modifies rdKey
      ensures rdKey[..nk] == Expand(b, nk, userKey, nk)
    {
      var i := 0;
      while i < nk
        invariant i <= nk && rdKey[..i] == Expand(b, nk, userKey, i)
      {
        Append(i, KeyWord(userKey, i));
        i := i + 1;
      }
    }

    /** Word `m`, a multiple of `nk`: rotated, substituted, round constant. */
    method AppendRotated(b: Boxes, ghost nk: nat, ghost userKey: seq<bv8>, m: nat, back: bv32, temp: bv32, i: nat)
      requires nk > 0 && |userKey| == 4 * nk && nk <= m < rdKey.Length
      requires rdKey[..m] == Expand(b, nk, userKey, m)
      requires back == rdKey[m - nk] && temp == rdKey[m - 1] && i < 10 && m % nk == 0 && m / nk == i + 1
      modifies rdKey
      ensures rdKey[..m + 1] == Expand(b, nk, userKey, m + 1)
    {
      hide Xor32, Rcon, SubWord, RotWord, RotatedKeyWord, Expand;
      RconTable(i);
      RotatedKeyWordIsMask(b, back, temp, RCON[i]);
      ExpandNext(b, nk, userKey, m);
      assert rdKey[..m][m - nk] == back && rdKey[..m][m - 1] == temp;
      Append(m, RotatedKeyWord(b, back, temp, RCON[i]));
    }

    /** A word that is only added to the one `nk` places back. */
    method AppendPlain(b: Boxes, ghost nk: nat, ghost userKey: seq<bv8>, m: nat, back: bv32)
      requires nk > 0 && |userKey| == 4 * nk && nk <= m < rdKey.Length
      requires rdKey[..m] == Expand(b, nk, userKey, m)
      requires back == rdKey[m - nk] && m % nk != 0 && (nk > 6 ==> m % nk != 4)
      modifies rdKey
      ensures rdKey[..m + 1] == Expand(b, nk, userKey, m + 1)
    {
      hide Xor32, Expand;
      ExpandNext(b, nk, userKey, m);
      assert rdKey[..m][m - nk] == back && rdKey[..m][m - 1] == rdKey[m - 1];
      Append(m, Xor32(back, rdKey[m - 1]));
    }

    /** Three such words in a row. */
    method AppendThree(b: Boxes, nk: nat, ghost userKey: seq<bv8>, m: nat)
      requires nk >= 4 && |userKey| == 4 * nk && nk <= m && m + 3 <= rdKey.Length
      requires rdKey[..m] == Expand(b, nk, userKey, m)
      requires m % nk != 0 && (m + 1) % nk != 0 && (m + 2) % nk != 0
      requires nk > 6 ==> m % nk != 4 && (m + 1) % nk != 4 && (m + 2) % nk != 4
      modifies rdKey
      ensures rdKey[..m + 3] == Expand(b, nk, userKey, m + 3)
    {
      hide Expand;
      AppendPlain(b, nk, userKey, m, rdKey[m - nk]);
      AppendPlain(b, nk, userKey, m + 1, rdKey[m + 1 - nk]);
      AppendPlain(b, nk, userKey, m + 2, rdKey[m + 2 - nk]);
    }

    method AppendSubstituted(b: Boxes, ghost nk: nat, ghost userKey: seq<bv8>, m: nat, back: bv32, temp: bv32)
      requires nk > 6 && |userKey| == 4 * nk && nk <= m < rdKey.Length
      requires rdKey[..m] == Expand(b, nk, userKey, m)
      requires back == rdKey[m - nk] && temp == rdKey[m - 1] && m % nk == 4
      modifies rdKey
      ensures rdKey[..m + 1] == Expand(b, nk, userKey, m + 1)
    {
      hide Xor32, SubWord, PlainKeyWord, Expand;
      PlainKeyWordIsMask(b, back, temp);
      ExpandNext(b, nk, userKey, m);
      assert rdKey[..m][m - nk] == back && rdKey[..m][m - 1] == temp;
      Append(m, PlainKeyWord(b, back, temp));
    }

    method Fill128(b: Boxes, userKey: seq<bv8>)
      requires |userKey| == 16 && rdKey.Length == 60
      requires rdKey[..4] == Expand(b, 4, userKey, 4)
      modifies rdKey
      ensures rdKey[..44] == Expand(b, 4, userKey, 44)
    {
      hide Expand;
      var i, p := 0, 0;
      while true
        invariant 0 <= i < 10 && p == 4 * i && rdKey[..p + 4] == Expand(b, 4, userKey, p + 4)
        decreases 10 - i
      {
        AppendRotated(b, 4, userKey, p + 4, rdKey[p], rdKey[p + 3], i);
        AppendThree(b, 4, userKey, p + 5);
        i := i + 1;
        if i == 10 {
          return;
        }
        p := p + 4;
      }
    }

    method Fill192(b: Boxes, userKey: seq<bv8>)
      requires |userKey| == 24 && rdKey.Length == 60
      requires rdKey[..6] == Expand(b, 6, userKey, 6)
      modifies rdKey
      ensures rdKey[..52] == Expand(b, 6, userKey, 52)
    {
      hide Expand;
      var i, p := 0, 0;
      while true
        invariant 0 <= i < 8 && p == 6 * i && rdKey[..p + 6] == Expand(b, 6, userKey, p + 6)
        decreases 8 - i
      {
        AppendRotated(b, 6, userKey, p + 6, rdKey[p], rdKey[p + 5], i);
        AppendThree(b, 6, userKey, p + 7);
        i := i + 1;
        if i == 8 {
          return;
        }
        AppendPlain(b, 6, userKey, p + 10, rdKey[p + 4]);
        AppendPlain(b, 6, userKey, p + 11, rdKey[p + 5]);
        p := p + 6;
      }
    }

    method Fill256(b: Boxes, userKey: seq<bv8>)
      requires |userKey| == 32 && rdKey.Length == 60
      requires rdKey[..8] == Expand(b, 8, userKey, 8)
      modifies rdKey
      ensures rdKey[..60] == Expand(b, 8, userKey, 60)
    {
      hide Expand;
      var i, p := 0, 0;
      while true
        invariant 0 <= i < 7 && p == 8 * i && rdKey[..p + 8] == Expand(b, 8, userKey, p + 8)
        decreases 7 - i
      {
        AppendRotated(b, 8, userKey, p + 8, rdKey[p], rdKey[p + 7], i);
        AppendThree(b, 8, userKey, p + 9);
        i := i + 1;
        if i == 7 {
          return;
        }
        AppendSubstituted(b, 8, userKey, p + 12, rdKey[p + 4], rdKey[p + 11]);
        AppendThree(b, 8, userKey, p + 13);
        p := p + 8;
      }
    }

    /** Expands the key; any other length is refused and changes nothing. */
    method SetEncryptKey(b: Boxes, userKey: seq<bv8>, bits: int) returns (status: int)
      requires rdKey.Length == 60 && (ValidBits(bits) ==> |userKey| == bits / 8)
      modifies this`rounds, rdKey
      ensures status == if ValidBits(bits) then 0 else -2
      ensures status != 0 ==> rounds == old(rounds) && rdKey[..] == old(rdKey[..])
      ensures status == 0 ==>
                rounds == RoundsFor(bits) && rdKey[..4 * (rounds + 1)] == EncryptionSchedule(b, userKey, bits)
      ensures status == 0 ==> forall i: nat :: i < bits / 32 ==> Spells(rdKey[i], userKey, i)
    {
      hide Expand, Spells;
      if bits != 128 && bits != 192 && bits != 256 {
        return -2;
      }
      if bits == 128 {
        rounds := 10;
        LoadUserKey(b, 4, userKey);
        Fill128(b, userKey);
      } else if bits == 192 {
        rounds := 12;
        LoadUserKey(b, 6, userKey);
        Fill192(b, userKey);
      } else {
        rounds := 14;
        LoadUserKey(b, 8, userKey);
        Fill256(b, userKey);
      }
      forall i: nat | i < bits / 32 ensures Spells(rdKey[i], userKey, i) {
        ScheduleSpellsKey(b, userKey, bits, i);
        assert rdKey[..4 * (rounds + 1)][i] == rdKey[i];
      }
      status := 0;
    }

    method SwapFour(i: nat, j: nat)
      requires i + 4 <= j && j + 4 <= rdKey.Length
      modifies rdKey
      ensures Swapped(old(rdKey[..]), rdKey[..], i, j)
    {
      rdKey[i], rdKey[j] := rdKey[j], rdKey[i];
      rdKey[i + 1], rdKey[j + 1] := rdKey[j + 1], rdKey[i + 1];
      rdKey[i + 2], rdKey[j + 2] := rdKey[j + 2], rdKey[i + 2];
      rdKey[i + 3], rdKey[j + 3] := rdKey[j + 3], rdKey[i + 3];
    }

    /** Inverts the order of the round keys. */
    method ReverseRoundKeys()
      requires 4 * (rounds + 1) <= rdKey.Length
      modifies rdKey
      ensures RoundKeysReversed(old(rdKey[..]), rdKey[..], rounds)
    {
      hide PartlyReversed, Swapped, RoundKeysReversed;
      ghost var was := rdKey[..];
      var i, j: int := 0, rounds;
      StartReversal(was, rounds);
      while i < j
        invariant 0 <= i && i + j == rounds && -1 <= j && i <= j + 2
        invariant PartlyReversed(was, rdKey[..], rounds, i)
      {
        ghost var before := rdKey[..];
        SwapFour(4 * i, 4 * j);
        ReverseOneMore(was, before, rdKey[..], rounds, i);
        i, j := i + 1, j - 1;
      }
      FullyReversed(was, rdKey[..], rounds, i);
    }

    /** Applies the inverse MixColumn transform to the key of round `r`. */
    method InvMixRoundKey(b: Boxes, r: nat)
      requires MutuallyInverse(b) && 4 * r + 4 <= rdKey.Length
      modifies rdKey
      ensures KeyWords(rdKey[..], r) == InvMixKey(old(KeyWords(rdKey[..], r)))
      ensures forall k: nat :: 4 * k + 4 <= rdKey.Length && k != r ==>
                KeyWords(rdKey[..], k) == old(KeyWords(rdKey[..], k))
    {
      hide TdKeyWord, InvMixWord;
      var p := 4 * r;
      var w0, w1, w2, w3 := rdKey[p], rdKey[p + 1], rdKey[p + 2], rdKey[p + 3];
      TdKeyWordInverts(b, w0);
      TdKeyWordInverts(b, w1);
      TdKeyWordInverts(b, w2);
      TdKeyWordInverts(b, w3);
      rdKey[p] := TdKeyWord(b, w0);
      rdKey[p + 1] := TdKeyWord(b, w1);
      rdKey[p + 2] := TdKeyWord(b, w2);
      rdKey[p + 3] := TdKeyWord(b, w3);
    }

    method InvMixInnerKeys(b: Boxes)
      requires MutuallyInverse(b) && 1 <= rounds && 4 * (rounds + 1) <= rdKey.Length
      modifies rdKey
      ensures KeyWords(rdKey[..], 0) == old(KeyWords(rdKey[..], 0))
      ensures KeyWords(rdKey[..], rounds) == old(KeyWords(rdKey[..], rounds))
      ensures forall k: nat :: 0 < k < rounds ==> KeyWords(rdKey[..], k) == InvMixKey(old(KeyWords(rdKey[..], k)))
    {
      hide KeyWords, InvMixKey;
      ghost var was := rdKey[..];
      var i := 1;
      while i < rounds
        invariant 1 <= i <= rounds
        invariant forall k: nat :: 0 < k < i ==> KeyWords(rdKey[..], k) == InvMixKey(KeyWords(was, k))
        invariant forall k: nat :: k <= rounds && (k == 0 || i <= k) ==> KeyWords(rdKey[..], k) == KeyWords(was, k)
      {
        InvMixRoundKey(b, i);
        i := i + 1;
      }
    }

    /** Expands the key and turns the schedule into that of the equivalent
        inverse cipher. */
    method SetDecryptKey(b: Boxes, userKey: seq<bv8>, bits: int) returns (status: int)
      requires MutuallyInverse(b) && rdKey.Length == 60 && (ValidBits(bits) ==> |userKey| == bits / 8)
      modifies this`rounds, rdKey
      ensures status == if ValidBits(bits) then 0 else -2
      ensures status != 0 ==> rounds == old(rounds) && rdKey[..] == old(rdKey[..])
      ensures status == 0 ==> rounds == RoundsFor(bits)
      ensures status == 0 ==>
                KeyStates(rdKey[..], rounds) == DecryptionKeys(KeyStates(EncryptionSchedule(b, userKey, bits), rounds))
    {
      hide KeyWords, InvMixKey, InvMixColumns, ToState, EncryptionSchedule;
      status := SetEncryptKey(b, userKey, bits);
      if status < 0 {
        return;
      }
      ghost var ek := EncryptionSchedule(b, userKey, bits);
      ghost var expanded := rdKey[..];
      ReverseRoundKeys();
      ghost var reversed := rdKey[..];
      InvMixInnerKeys(b);
      forall k: nat | k <= rounds
        ensures KeyStates(rdKey[..], rounds)[k] == DecryptionKeys(KeyStates(ek, rounds))[k]
      {
        KeyWordsPrefix(expanded, ek, rounds - k);
        InvMixKeyState(KeyWords(ek, rounds - k));
      }
    }
  }

  predicate ValidBits(bits: int) { bits == 128 || bits == 192 || bits == 256 }

  function RoundsFor(bits: int): nat
    requires ValidBits(bits)
  {
    bits / 32 + 6
  }

  /** The 4 * (Nr + 1) words of the expanded key. */
  function EncryptionSchedule(b: Boxes, userKey: seq<bv8>, bits: int): (rk: seq<bv32>)
    requires ValidBits(bits) && |userKey| == bits / 8
    ensures |rk| == 4 * (RoundsFor(bits) + 1)
  {
    Expand(b, bits / 32, userKey, 4 * (RoundsFor(bits) + 1))
  }

  /** Word `i` has the key bytes from `4 * i` on, the most significant first. */
  ghost predicate Spells(w: bv32, key: seq<bv8>, i: nat)
    requires 4 * i + 4 <= |key|
  {
    && (w >> 24) & 0xff == key[4 * i] as bv32 && (w >> 16) & 0xff == key[4 * i + 1] as bv32
    && (w >> 8) & 0xff == key[4 * i + 2] as bv32 && w & 0xff == key[4 * i + 3] as bv32
  }

  lemma KeyWordSpells(key: seq<bv8>, i: nat)
    requires 4 * i + 4 <= |key|
    ensures Spells(KeyWord(key, i), key, i)
  {
    ShiftedBytes(key[4 * i], key[4 * i + 1], key[4 * i + 2], key[4 * i + 3]);
  }

  lemma ShiftedBytes(b0: bv8, b1: bv8, b2: bv8, b3: bv8)
    ensures var w := Pack(Col(b0, b1, b2, b3));
            && (w >> 24) & 0xff == b0 as bv32 && (w >> 16) & 0xff == b1 as bv32
            && (w >> 8) & 0xff == b2 as bv32 && w & 0xff == b3 as bv32
  {
  }

  /** The expanded key begins with the words of the key itself. */
  lemma {:induction false} ExpandBegins(b: Boxes, nk: nat, key: seq<bv8>, n: nat, i: nat)
    requires nk > 0 && |key| == 4 * nk && i < nk && i < n
    ensures Expand(b, nk, key, n)[i] == KeyWord(key, i)
    decreases n
  {
    hide KeyWord, Mask;
    if n == i + 1 {
    } else {
      ExpandBegins(b, nk, key, n - 1, i);
    }
  }

  /** So the first words of the schedule spell the user key. */
  lemma ScheduleSpellsKey(b: Boxes, userKey: seq<bv8>, bits: int, i: nat)
    requires ValidBits(bits) && |userKey| == bits / 8 && 4 * i + 4 <= |userKey|
    ensures i < |EncryptionSchedule(b, userKey, bits)| && Spells(EncryptionSchedule(b, userKey, bits)[i], userKey, i)
  {
    hide Expand, KeyWord, Spells;
    ExpandBegins(b, bits / 32, userKey, 4 * (RoundsFor(bits) + 1), i);
    KeyWordSpells(userKey, i);
  }

  predicate Swapped(was: seq<bv32>, now: seq<bv32>, i: nat, j: nat)
    requires i + 4 <= j && j + 4 <= |was|
  {
    && |now| == |was|
    && now[i] == was[j] && now[i + 1] == was[j + 1] && now[i + 2] == was[j + 2] && now[i + 3] == was[j + 3]
    && now[j] == was[i] && now[j + 1] == was[i + 1] && now[j + 2] == was[i + 2] && now[j + 3] == was[i + 3]
    && forall x :: 0 <= x < |was| && !(i <= x < i + 4) && !(j <= x < j + 4) ==> now[x] == was[x]
  }

  lemma SwappedKeyWords(was: seq<bv32>, now: seq<bv32>, q: nat, r: nat, k: nat)
    requires q < r && 4 * r + 4 <= |was| && Swapped(was, now, 4 * q, 4 * r) && 4 * k + 4 <= |was|
    ensures KeyWords(now, k) == KeyWords(was, if k == q then r else if k == r then q else k)
  {
  }

  ghost predicate RoundKeysReversed(was: seq<bv32>, now: seq<bv32>, rounds: nat)
    requires 4 * (rounds + 1) <= |was| == |now|
  {
    forall k: nat :: k <= rounds ==> KeyWords(now, k) == KeyWords(was, rounds - k)
  }

  /** Round keys outside `i..rounds - i` are in place, those inside untouched. */
  ghost predicate PartlyReversed(was: seq<bv32>, now: seq<bv32>, rounds: nat, i: nat)
    requires 4 * (rounds + 1) <= |was| == |now|
  {
    && (forall k: nat :: k <= rounds && (k < i || rounds < k + i) ==> KeyWords(now, k) == KeyWords(was, rounds - k))
    && (forall k: nat :: i <= k && k + i <= rounds ==> KeyWords(now, k) == KeyWords(was, k))
  }

  lemma StartReversal(was: seq<bv32>, rounds: nat)
    requires 4 * (rounds + 1) <= |was|
    ensures PartlyReversed(was, was, rounds, 0)
  {
  }

  lemma ReverseOneMore(was: seq<bv32>, now: seq<bv32>, next: seq<bv32>, rounds: nat, i: nat)
    requires 4 * (rounds + 1) <= |was| == |now| == |next| && 2 * i < rounds
    requires PartlyReversed(was, now, rounds, i) && Swapped(now, next, 4 * i, 4 * (rounds - i))
    ensures PartlyReversed(was, next, rounds, i + 1)
  {
    hide KeyWords, Swapped;
    forall k: nat | k <= rounds
      ensures KeyWords(next, k) == KeyWords(now, if k == i then rounds - i else if k == rounds - i then i else k)
    {
      SwappedKeyWords(now, next, i, rounds - i, k);
    }
  }

  lemma FullyReversed(was: seq<bv32>, now: seq<bv32>, rounds: nat, i: nat)
    requires 4 * (rounds + 1) <= |was| == |now| && 2 * i >= rounds
    requires PartlyReversed(was, now, rounds, i)
    ensures RoundKeysReversed(was, now, rounds)
  {
    hide KeyWords;
  }

  function InvMixWord(w: bv32): bv32 { Pack(InvMixColumn(Unpack(w))) }

  function InvMixKey(k: Words): Words {
    Words(InvMixWord(k.w0), InvMixWord(k.w1), InvMixWord(k.w2), InvMixWord(k.w3))
  }

  lemma InvMixKeyState(k: Words)
    ensures ToState(InvMixKey(k)) == InvMixColumns(ToState(k))
  {
    hide Pack, Unpack, InvMixColumn;
    UnpackPack(InvMixColumn(Unpack(k.w0)));
    UnpackPack(InvMixColumn(Unpack(k.w1)));
    UnpackPack(InvMixColumn(Unpack(k.w2)));
    UnpackPack(InvMixColumn(Unpack(k.w3)));
  }

  lemma KeyWordsPrefix(whole: seq<bv32>, part: seq<bv32>, r: nat)
    requires part <= whole && 4 * r + 4 <= |part|
    ensures KeyWords(whole, r) == KeyWords(part, r)
  {
  }

  /** The inverse tables looked up at substituted bytes. */
  function TdKeyWord(b: Boxes, w: bv32): bv32 {
    Xor32x4(Td0(b, Byte3(Te4(b, Byte0(w)))), Td1(b, Byte3(Te4(b, Byte1(w)))),
            Td2(b, Byte3(Te4(b, Byte2(w)))), Td3(b, Byte3(Te4(b, Byte3(w)))))
  }

  lemma LowByteOfTe4(b: Boxes, x: bv8)
    ensures Byte3(Te4(b, x)) == b.s(x)
  {
    hide Pack, Byte0, Byte1, Byte2, Byte3;
    UnpackPack(Col(b.s(x), b.s(x), b.s(x), b.s(x)));
  }

  /** The substitution and its inverse cancel, which leaves InvMixColumn. */
  lemma TdKeyWordInverts(b: Boxes, w: bv32)
    requires MutuallyInverse(b)
    ensures TdKeyWord(b, w) == InvMixWord(w)
  {
    hide Te4, Pack, Byte0, Byte1, Byte2, Byte3, Xor32x4, Add, InvMixColumn, Mul9, MulB, MulD, MulE;
    var p, q, r, s := Byte0(w), Byte1(w), Byte2(w), Byte3(w);
    LowByteOfTe4(b, p);
    LowByteOfTe4(b, q);
    LowByteOfTe4(b, r);
    LowByteOfTe4(b, s);
    PackAdd4(Col(MulE(p), Mul9(p), MulD(p), MulB(p)), Col(MulB(q), MulE(q), Mul9(q), MulD(q)),
             Col(MulD(r), MulB(r), MulE(r), Mul9(r)), Col(Mul9(s), MulD(s), MulB(s), MulE(s)));
    InvMixColumnAsSum(p, q, r, s);
  }

  /** For every key size, key and block: the decryption schedule undoes what the
      encryption schedule did. */
  lemma DecryptUndoesEncrypt(b: Boxes, userKey: seq<bv8>, bits: int, dk: seq<bv32>, s: Block)
    requires MutuallyInverse(b) && ValidBits(bits) && |userKey| == bits / 8
    requires 4 * (RoundsFor(bits) + 1) <= |dk|
    requires KeyStates(dk, RoundsFor(bits)) ==
             DecryptionKeys(KeyStates(EncryptionSchedule(b, userKey, bits), RoundsFor(bits)))
    ensures DecryptBlock(b, dk, RoundsFor(bits),
              EncryptBlock(b, EncryptionSchedule(b, userKey, bits), RoundsFor(bits), s)) == s
  {
    hide Cipher, EqInvCipher, DecryptionKeys, EncryptionSchedule, BytesOf, StateOf;
    var ks := KeyStates(EncryptionSchedule(b, userKey, bits), RoundsFor(bits));
    StateBytes(s, Cipher(b, ks, StateOf(s)));
    InverseCipher(b, ks, StateOf(s));
  }
}
