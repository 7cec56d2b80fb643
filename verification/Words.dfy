/** 64-bit machine words as rows of bits, with the operators of the bit library. */
module Words {
  import opened Arithmetic

  const BITS: nat := 64

  type Word = w: seq<bool> | |w| == BITS witness seq(BITS, _ => false)

  function Zero(): Word { seq(BITS, _ => false) }
  function Ones(): Word { seq(BITS, _ => true) }

  function And(v: Word, w: Word): (r: Word)
    ensures forall i :: 0 <= i < BITS ==> r[i] == (v[i] && w[i])
  {
    seq(BITS, i requires 0 <= i < BITS => v[i] && w[i])
  }

  function Or(v: Word, w: Word): (r: Word)
    ensures forall i :: 0 <= i < BITS ==> r[i] == (v[i] || w[i])
  {
    seq(BITS, i requires 0 <= i < BITS => v[i] || w[i])
  }

  function Xor(v: Word, w: Word): (r: Word)
    ensures forall i :: 0 <= i < BITS ==> r[i] == (v[i] != w[i])
  {
    seq(BITS, i requires 0 <= i < BITS => v[i] != w[i])
  }

  function Not(w: Word): (r: Word)
    ensures forall i :: 0 <= i < BITS ==> r[i] == !w[i]
  {
    seq(BITS, i requires 0 <= i < BITS => !w[i])
  }

  function Shl(w: Word, k: nat): (r: Word)
    ensures forall i :: 0 <= i < BITS ==> r[i] == (i >= k && w[i - k])
  {
    seq(BITS, i requires 0 <= i < BITS => i >= k && w[i - k])
  }

  function Shr(w: Word, k: nat): (r: Word)
    ensures forall i :: 0 <= i < BITS ==> r[i] == (i + k < BITS && w[i + k])
  {
    seq(BITS, i requires 0 <= i < BITS => i + k < BITS && w[i + k])
  }

  /** (1UL << k) - 1. */
  function LowMask(k: nat): (r: Word)
    ensures forall i :: 0 <= i < BITS ==> r[i] == (i < k)
  {
    seq(BITS, i => i < k)
  }

  /** BITMAP_LAST_WORD_MASK. */
  function LastWordMask(n: nat): Word {
    if n % BITS != 0 then LowMask(n % BITS) else Ones()
  }

  // ------------------------------------------------------------ numeric reading

  function Pow2(n: nat): (r: nat)
    ensures r > 0
  {
    if n == 0 then 1 else 2 * Pow2(n - 1)
  }

  /** The number a row of bits stands for, least significant bit first. */
  function Value(bits: seq<bool>): nat {
    if bits == [] then 0 else (if bits[0] then 1 else 0) + 2 * Value(bits[1..])
  }

  lemma {:induction false} LowOnesValue(k: nat, n: nat)
    requires k <= n
    ensures Value(seq(n, i => i < k)) == Pow2(k) - 1
    decreases n
  {
    if n == 0 {
    } else {
      var s := seq(n, i => i < k);
      if k == 0 {
        assert s[1..] == seq(n - 1, i => i < 0);
        LowOnesValue(0, n - 1);
      } else {
        assert s[1..] == seq(n - 1, i => i < k - 1);
        LowOnesValue(k - 1, n - 1);
      }
    }
  }

  /** The mask is the number (1UL << k) - 1 it is written as. */
  lemma LowMaskValue(k: nat)
    requires k <= BITS
    ensures Value(LowMask(k)) == Pow2(k) - 1
  {
    LowOnesValue(k, BITS);
    assert LowMask(k) == seq(BITS, i => i < k);
  }

  /** Clearing the low `k` bits rounds down to a multiple of their weight. */
  lemma {:induction false} ClearedValue(bits: seq<bool>, low: seq<bool>, k: nat)
    requires k <= |bits| == |low| && forall i :: 0 <= i < |bits| ==> low[i] == (bits[i] && i >= k)
    ensures Value(low) == Value(bits) / Pow2(k) * Pow2(k)
    decreases k
  {
    if k == 0 {
      assert low == bits;
    } else {
      var b, t, p := if bits[0] then 1 else 0, bits[1..], Pow2(k - 1);
      ClearedValue(t, low[1..], k - 1);
      HalfDiv(b, Value(t), p);
      assert Value(low) == 2 * (Value(t) / p * p);
      Double(Value(t) / p, p);
    }
  }

  // ------------------------------------------------------- first and last set bit

  ghost predicate FirstSet(w: Word, r: nat) {
    r < BITS && w[r] && forall i :: 0 <= i < r ==> !w[i]
  }

  ghost predicate LastSet(w: Word, r: nat) {
    r < BITS && w[r] && forall i :: r < i < BITS ==> !w[i]
  }

  lemma HasFirst(w: Word) returns (f: nat)
    requires w != Zero()
    ensures FirstSet(w, f)
  {
    f := 0;
    while f < BITS && !w[f]
      invariant f <= BITS && forall i :: 0 <= i < f ==> !w[i]
    {
      f := f + 1;
    }
    assert f == BITS ==> w == Zero();
  }

  lemma HasLast(w: Word) returns (f: nat)
    requires w != Zero()
    ensures LastSet(w, f)
  {
    var n: nat := BITS;
    while n > 0 && !w[n - 1]
      invariant n <= BITS && forall i :: n <= i < BITS ==> !w[i]
    {
      n := n - 1;
    }
    assert n == 0 ==> w == Zero();
    f := n - 1;
  }

  /** The test of one halving step, after `num` bits have been shifted out. */
  lemma LowClear(w: Word, num: nat, k: nat, f: nat)
    requires FirstSet(w, f) && num <= f
    ensures And(Shr(w, num), LowMask(k)) == Zero() <==> num + k <= f
  {
    var t := And(Shr(w, num), LowMask(k));
    if num + k <= f {
      assert forall i :: 0 <= i < BITS ==> !t[i];
      assert t == Zero();
    } else {
      assert t[f - num];
    }
  }

  lemma HighClear(w: Word, num: nat, k: nat, f: nat)
    requires LastSet(w, f) && f + num < BITS && k <= BITS
    ensures And(Shl(w, num), Shl(Ones(), BITS - k)) == Zero() <==> f + num + k < BITS
  {
    var t := And(Shl(w, num), Shl(Ones(), BITS - k));
    if f + num + k < BITS {
      assert forall i :: 0 <= i < BITS ==> !t[i];
      assert t == Zero();
    } else {
      assert t[f + num];
    }
  }

  lemma ShrTwice(w: Word, a: nat, b: nat)
    ensures Shr(Shr(w, a), b) == Shr(w, a + b)
  {
  }

  lemma ShlTwice(w: Word, a: nat, b: nat)
    ensures Shl(Shl(w, a), b) == Shl(w, a + b)
  {
  }

  ghost predicate ShiftedDown(w: Word, num: nat, word: Word) { word == Shr(w, num) }

  ghost predicate ShiftedUp(w: Word, num: nat, word: Word) {
    num < BITS && word == Shl(w, BITS - 1 - num)
  }

  /** One halving step: if the low `k` bits are clear they are shifted out. */
  method DropLow(ghost w: Word, ghost f: nat, word: Word, num: nat, k: nat) returns (word': Word, num': nat)
    requires FirstSet(w, f) && ShiftedDown(w, num, word) && num <= f < num + 2 * k
    ensures ShiftedDown(w, num', word') && num' <= f < num' + k
  {
    hide And, Shr, LowMask, Zero;
    LowClear(w, num, k, f);
    ShrTwice(w, num, k);
    word', num' := word, num;
    if And(word, LowMask(k)) == Zero() {
      word', num' := Shr(word, k), num + k;
    }
  }

  /** Finds the first set bit by halving. */
  method Ffsl(w: Word) returns (num: nat)
    requires w != Zero()
    ensures FirstSet(w, num)
  {
    hide FirstSet, ShiftedDown, Zero;
    ghost var f := HasFirst(w);
    NoShift(w);
    var word := w;
    num := 0;
    word, num := DropLow(w, f, word, num, 32);
    word, num := DropLow(w, f, word, num, 16);
    word, num := DropLow(w, f, word, num, 8);
    word, num := DropLow(w, f, word, num, 4);
    word, num := DropLow(w, f, word, num, 2);
    word, num := DropLow(w, f, word, num, 1);
  }

  lemma NoShift(w: Word)
    ensures ShiftedDown(w, 0, w) && ShiftedUp(w, BITS - 1, w)
  {
  }

  method DropHigh(ghost w: Word, ghost f: nat, word: Word, num: nat, k: nat) returns (word': Word, num': nat)
    requires LastSet(w, f) && k <= BITS && ShiftedUp(w, num, word) && f <= num < f + 2 * k
    ensures ShiftedUp(w, num', word') && f <= num' < f + k
  {
    hide And, Shl, Ones, Zero;
    HighClear(w, BITS - 1 - num, k, f);
    ShlTwice(w, BITS - 1 - num, k);
    word', num' := word, num;
    if And(word, Shl(Ones(), BITS - k)) == Zero() {
      word', num' := Shl(word, k), num - k;
    }
  }

  /** Finds the last set bit by halving. */
  method Flsl(w: Word) returns (num: nat)
    requires w != Zero()
    ensures LastSet(w, num)
  {
    hide LastSet, ShiftedUp, Zero;
    ghost var f := HasLast(w);
    NoShift(w);
    var word := w;
    num := BITS - 1;
    word, num := DropHigh(w, f, word, num, 32);
    word, num := DropHigh(w, f, word, num, 16);
    word, num := DropHigh(w, f, word, num, 8);
    word, num := DropHigh(w, f, word, num, 4);
    word, num := DropHigh(w, f, word, num, 2);
    word, num := DropHigh(w, f, word, num, 1);
  }

  lemma NotNonzero(w: Word)
    requires w != Ones()
    ensures Not(w) != Zero()
  {
    assert (forall i :: 0 <= i < BITS ==> w[i]) ==> w == Ones();
    var j :| 0 <= j < BITS && !w[j];
    assert Not(w)[j];
  }

  /** Finds the first clear bit. */
  method Ffz(w: Word) returns (num: nat)
    requires w != Ones()
    ensures num < BITS && !w[num] && forall i :: 0 <= i < num ==> w[i]
  {
    NotNonzero(w);
    num := Ffsl(Not(w));
  }
}
