/** Bit sets packed into words: searches, range updates, whole-set predicates and
    the aligned free-area allocator. */
module Bitmaps {
  import opened Arithmetic
  import opened Words

  type Bitmap = seq<Word>

  predicate Bit(bm: Bitmap, i: nat)
    requires i < BITS * |bm|
  {
    bm[i / BITS][i % BITS]
  }

  lemma BitAt(bm: Bitmap, p: nat, k: nat)
    requires p < |bm| && k < BITS
    ensures BITS * p + k < BITS * |bm| && Bit(bm, BITS * p + k) == bm[p][k]
  {
    assert (BITS * p + k) / BITS == p && (BITS * p + k) % BITS == k;
  }

  // ------------------------------------------------------------------ searches

  /** No bit from `a` up to `b` equals `v`. */
  ghost predicate NoneBetween(bm: Bitmap, v: bool, a: nat, b: nat)
    requires b <= BITS * |bm|
  {
    forall i :: a <= i < b ==> Bit(bm, i) != v
  }

  /** `r` is the least position from `offset` on, below `size`, whose bit is `v`,
      or `size` if there is none. */
  ghost predicate Least(bm: Bitmap, v: bool, size: nat, offset: nat, r: nat)
    requires size <= BITS * |bm|
  {
    if offset >= size then r == size
    else offset <= r <= size && NoneBetween(bm, v, offset, r) && (r < size ==> Bit(bm, r) == v)
  }

  lemma NoneInWord(bm: Bitmap, v: bool, p: nat, lo: nat, hi: nat)
    requires p < |bm| && lo <= hi <= BITS && forall k :: lo <= k < hi ==> bm[p][k] != v
    ensures NoneBetween(bm, v, BITS * p + lo, BITS * p + hi)
  {
    forall i | BITS * p + lo <= i < BITS * p + hi ensures Bit(bm, i) != v {
      BitAt(bm, p, i - BITS * p);
    }
  }

  lemma NoneJoin(bm: Bitmap, v: bool, a: nat, b: nat, c: nat)
    requires b <= c <= BITS * |bm| && NoneBetween(bm, v, a, b) && NoneBetween(bm, v, b, c)
    ensures NoneBetween(bm, v, a, c)
  {
  }

  /** found_first: the word with index `p`, of which `n` bits belong to the map. */
  method FoundFirst(bm: Bitmap, ghost size: nat, ghost offset: nat, p: nat, word: Word, n: nat) returns (r: nat)
    requires p < |bm| && 0 < n < BITS && size == BITS * p + n && size <= BITS * |bm| && offset < size
    requires forall k :: 0 <= k < BITS ==> word[k] == (bm[p][k] && offset <= BITS * p + k)
    requires NoneBetween(bm, true, offset, BITS * p)
    ensures Least(bm, true, size, offset, r)
  {
    var tmp := And(word, Shr(Ones(), BITS - n));
    var lo := if offset > BITS * p then offset - BITS * p else 0;
    if tmp == Zero() {
      forall k | lo <= k < n ensures !bm[p][k] { assert !tmp[k]; }
      NoneInWord(bm, true, p, lo, n);
      NoneJoin(bm, true, offset, BITS * p + lo, BITS * p + n);
      return BITS * p + n;
    }
    r := FoundMiddle(bm, size, offset, p, tmp, n);
  }

  /** found_middle: a nonzero word, masked to positions from `offset` up to `n`. */
  method FoundMiddle(bm: Bitmap, ghost size: nat, ghost offset: nat, p: nat, tmp: Word, ghost n: nat) returns (r: nat)
    requires p < |bm| && n <= BITS && BITS * p + n <= size <= BITS * |bm| && offset < size && tmp != Zero()
    requires forall k :: 0 <= k < BITS ==> tmp[k] == (bm[p][k] && offset <= BITS * p + k && k < n)
    requires NoneBetween(bm, true, offset, BITS * p)
    ensures Least(bm, true, size, offset, r)
  {
    var f := Ffsl(tmp);
    r := BITS * p + f;
    ghost var lo := if offset > BITS * p then offset - BITS * p else 0;
    BitAt(bm, p, f);
    NoneInWord(bm, true, p, lo, f);
    NoneJoin(bm, true, offset, BITS * p + lo, r);
  }

  /** Finds the next set bit: a partial first word, whole words, a partial last. */
  method FindNextBit(bm: Bitmap, size: nat, offset: nat) returns (r: nat)
    requires size <= BITS * |bm|
    ensures Least(bm, true, size, offset, r)
  {
    if offset >= size {
      return size;
    }
    var p, result, left := offset / BITS, offset - offset % BITS, size - (offset - offset % BITS);
    var off := offset % BITS;
    if off != 0 {
      var tmp := And(bm[p], Shl(Ones(), off));
      if left < BITS {
        r := FoundFirst(bm, size, offset, p, tmp, left);
        return;
      }
      if tmp != Zero() {
        r := FoundMiddle(bm, size, offset, p, tmp, BITS);
        return;
      }
      forall k | off <= k < BITS ensures !bm[p][k] { assert !tmp[k]; }
      NoneInWord(bm, true, p, off, BITS);
      p, left, result := p + 1, left - BITS, result + BITS;
    }
    r := ScanWords(bm, size, offset, p, left);
  }

  /** Whole words from `p` on, then a partial last one. */
  method ScanWords(bm: Bitmap, size: nat, ghost offset: nat, first: nat, length: nat) returns (r: nat)
    requires size <= BITS * |bm| && BITS * first + length == size && offset <= BITS * first && offset < size
    requires NoneBetween(bm, true, offset, BITS * first)
    ensures Least(bm, true, size, offset, r)
  {
    var p: nat, left: nat := first, length;
    while left >= BITS
      invariant BITS * p + left == size && offset <= BITS * p && NoneBetween(bm, true, offset, BITS * p)
    {
      var tmp := bm[p];
      if tmp != Zero() {
        r := FoundMiddle(bm, size, offset, p, tmp, BITS);
        return;
      }
      NoneInWord(bm, true, p, 0, BITS);
      NoneJoin(bm, true, offset, BITS * p, BITS * p + BITS);
      p, left := p + 1, left - BITS;
    }
    if left == 0 {
      return BITS * p;
    }
    r := FoundFirst(bm, size, offset, p, bm[p], left);
  }

  /** The same search for a clear bit, with the excluded positions set. */
  method FoundFirstZero(bm: Bitmap, ghost size: nat, ghost offset: nat, p: nat, word: Word, n: nat) returns (r: nat)
    requires p < |bm| && 0 < n < BITS && size == BITS * p + n && size <= BITS * |bm| && offset < size
    requires forall k :: 0 <= k < BITS ==> word[k] == (bm[p][k] || offset > BITS * p + k)
    requires NoneBetween(bm, false, offset, BITS * p)
    ensures Least(bm, false, size, offset, r)
  {
    var tmp := Or(word, Shl(Ones(), n));
    var lo := if offset > BITS * p then offset - BITS * p else 0;
    if tmp == Ones() {
      forall k | lo <= k < n ensures bm[p][k] { assert tmp[k]; }
      NoneInWord(bm, false, p, lo, n);
      NoneJoin(bm, false, offset, BITS * p + lo, BITS * p + n);
      return BITS * p + n;
    }
    r := FoundMiddleZero(bm, size, offset, p, tmp, n);
  }

  method FoundMiddleZero(bm: Bitmap, ghost size: nat, ghost offset: nat, p: nat, tmp: Word, ghost n: nat)
    returns (r: nat)
    requires p < |bm| && n <= BITS && BITS * p + n <= size <= BITS * |bm| && offset < size && tmp != Ones()
    requires forall k :: 0 <= k < BITS ==> tmp[k] == (bm[p][k] || offset > BITS * p + k || k >= n)
    requires NoneBetween(bm, false, offset, BITS * p)
    ensures Least(bm, false, size, offset, r)
  {
    var f := Ffz(tmp);
    r := BITS * p + f;
    ghost var lo := if offset > BITS * p then offset - BITS * p else 0;
    BitAt(bm, p, f);
    NoneInWord(bm, false, p, lo, f);
    NoneJoin(bm, false, offset, BITS * p + lo, r);
  }

  method FindNextZeroBit(bm: Bitmap, size: nat, offset: nat) returns (r: nat)
    requires size <= BITS * |bm|
    ensures Least(bm, false, size, offset, r)
  {
    if offset >= size {
      return size;
    }
    var p, left := offset / BITS, size - (offset - offset % BITS);
    var off := offset % BITS;
    if off != 0 {
      var tmp := Or(bm[p], Shr(Ones(), BITS - off));
      if left < BITS {
        r := FoundFirstZero(bm, size, offset, p, tmp, left);
        return;
      }
      if tmp != Ones() {
        r := FoundMiddleZero(bm, size, offset, p, tmp, BITS);
        return;
      }
      forall k | off <= k < BITS ensures bm[p][k] { assert tmp[k]; }
      NoneInWord(bm, false, p, off, BITS);
      p, left := p + 1, left - BITS;
    }
    r := ScanWordsZero(bm, size, offset, p, left);
  }

  method ScanWordsZero(bm: Bitmap, size: nat, ghost offset: nat, first: nat, length: nat) returns (r: nat)
    requires size <= BITS * |bm| && BITS * first + length == size && offset <= BITS * first && offset < size
    requires NoneBetween(bm, false, offset, BITS * first)
    ensures Least(bm, false, size, offset, r)
  {
    var p: nat, left: nat := first, length;
    while left >= BITS
      invariant BITS * p + left == size && offset <= BITS * p && NoneBetween(bm, false, offset, BITS * p)
    {
      var tmp := bm[p];
      if tmp != Ones() {
        r := FoundMiddleZero(bm, size, offset, p, tmp, BITS);
        return;
      }
      NoneInWord(bm, false, p, 0, BITS);
      NoneJoin(bm, false, offset, BITS * p, BITS * p + BITS);
      p, left := p + 1, left - BITS;
    }
    if left == 0 {
      return BITS * p;
    }
    r := FoundFirstZero(bm, size, offset, p, bm[p], left);
  }

  /** `r` is the greatest set position below `size`, or `size` if there is none. */
  ghost predicate Greatest(bm: Bitmap, size: nat, r: nat)
    requires size <= BITS * |bm|
  {
    r <= size && (r < size ==> Bit(bm, r)) && NoneBetween(bm, true, if r < size then r + 1 else 0, size)
  }

  method FoundLast(bm: Bitmap, ghost size: nat, p: nat, tmp: Word, ghost n: nat) returns (r: nat)
    requires p < |bm| && n <= BITS && BITS * p + n <= size <= BITS * |bm| && tmp != Zero()
    requires forall k :: 0 <= k < BITS ==> tmp[k] == (bm[p][k] && k < n)
    requires NoneBetween(bm, true, BITS * p + n, size)
    ensures Greatest(bm, size, r)
  {
    var f := Flsl(tmp);
    r := BITS * p + f;
    BitAt(bm, p, f);
    NoneInWord(bm, true, p, f + 1, n);
    NoneJoin(bm, true, r + 1, BITS * p + n, size);
  }

  method FindLastBit(bm: Bitmap, size: nat) returns (r: nat)
    requires size <= BITS * |bm|
    ensures Greatest(bm, size, r)
  {
    var words: nat, part := size / BITS, size % BITS;
    if part != 0 {
      var tmp := And(bm[words], Shr(Ones(), BITS - part));
      if tmp != Zero() {
        r := FoundLast(bm, size, words, tmp, part);
        return;
      }
      forall k | 0 <= k < part ensures !bm[words][k] { assert !tmp[k]; }
      NoneInWord(bm, true, words, 0, part);
    }
    while words > 0
      invariant BITS * words <= size && NoneBetween(bm, true, BITS * words, size)
    {
      words := words - 1;
      var tmp := bm[words];
      if tmp != Zero() {
        r := FoundLast(bm, size, words, tmp, BITS);
        return;
      }
      NoneInWord(bm, true, words, 0, BITS);
      NoneJoin(bm, true, BITS * words, BITS * words + BITS, size);
    }
    r := size;
  }

  // ---------------------------------------------------------------- free areas

  /** `nr` clear bits from the aligned position `i` on, below `size`. */
  ghost predicate Free(bm: Bitmap, size: nat, nr: nat, align: nat, i: nat)
    requires size <= BITS * |bm| && align > 0
  {
    i % align == 0 && i + nr <= size && NoneBetween(bm, true, i, i + nr)
  }

  /** ALIGN_MASK with a mask of `align - 1`; see AlignMask. */
  function AlignUp(x: nat, align: nat): nat
    requires align > 0
  {
    (x + align - 1) / align * align
  }

  /** For a power of two, adding the mask and clearing its bits rounds up. */
  lemma AlignMask(w: Word, x: nat, k: nat)
    requires k <= BITS && Value(w) == x + Pow2(k) - 1
    ensures Value(And(w, Not(LowMask(k)))) == AlignUp(x, Pow2(k))
  {
    ClearedValue(w, And(w, Not(LowMask(k))), k);
  }

  lemma AlignUpLeast(x: nat, align: nat, i: nat)
    requires align > 0
    ensures AlignUp(x, align) % align == 0 && x <= AlignUp(x, align)
    ensures x <= i && i % align == 0 ==> AlignUp(x, align) <= i
  {
    var q, k := (x + align - 1) / align, i / align;
    DivSplit(x + align - 1, align);
    MulMod(q, align);
    if x <= i && i % align == 0 {
      DivSplit(i, align);
      if k < q { MulMonotone(k + 1, q, align); } else { MulMonotone(q, k, align); }
    }
  }

  /** Finds the least aligned position from `start` on with `nr` clear bits; a
      result beyond `size` means that there is none. */
  method FindNextZeroArea(bm: Bitmap, size: nat, start: nat, nr: nat, align: nat) returns (r: nat)
    requires size <= BITS * |bm| && nr > 0 && align > 0
    ensures r <= size <==> exists i: nat :: start <= i && Free(bm, size, nr, align, i)
    ensures r <= size ==> start <= r && Free(bm, size, nr, align, r)
    ensures r <= size ==> forall i: nat :: start <= i < r ==> !Free(bm, size, nr, align, i)
  {
    hide AlignUp;
    var from := start;
    while true
      invariant start <= from && forall i: nat :: start <= i < from ==> !Free(bm, size, nr, align, i)
      decreases size - from
    {
      var zero := FindNextZeroBit(bm, size, from);
      var index := AlignUp(zero, align);
      forall i: nat | from <= i < index ensures !Free(bm, size, nr, align, i) {
        SkippedNotFree(bm, size, from, zero, nr, align, i);
      }
      AlignUpLeast(zero, align, 0);
      var end := index + nr;
      if end > size {
        return end;
      }
      assert from <= zero;
      var i := FindNextBit(bm, end, index);
      if i >= end {
        assert Free(bm, size, nr, align, index);
        return index;
      }
      assert Bit(bm, i);
      from := i + 1;
    }
  }

  /** What the search for a clear bit and the alignment skip cannot be free. */
  lemma SkippedNotFree(bm: Bitmap, size: nat, from: nat, zero: nat, nr: nat, align: nat, i: nat)
    requires size <= BITS * |bm| && nr > 0 && align > 0 && Least(bm, false, size, from, zero)
    requires from <= i < AlignUp(zero, align)
    ensures !Free(bm, size, nr, align, i)
  {
    hide AlignUp;
    AlignUpLeast(zero, align, i);
    if i < zero {
      assert Bit(bm, i);
    }
  }

  // ------------------------------------------------------------- range updates

  /** `*p |= mask` or `*p &= ~mask`. */
  function Updated(w: Word, mask: Word, v: bool): (r: Word)
    ensures forall k :: 0 <= k < BITS ==> r[k] == if mask[k] then v else w[k]
  {
    if v then Or(w, mask) else And(w, Not(mask))
  }

  /** Bits from `a` up to `b` are `v`, the others as they were. */
  ghost predicate Changed(was: Bitmap, now: Bitmap, a: nat, b: nat, v: bool) {
    |now| == |was| && forall i: nat :: i < BITS * |was| ==> Bit(now, i) == if a <= i < b then v else Bit(was, i)
  }

  lemma ChangeWord(was: Bitmap, now: Bitmap, a: nat, pos: nat, next: nat, mask: Word, v: bool)
    requires Changed(was, now, a, pos, v) && a <= pos <= next && pos / BITS < |was| &&
             next <= BITS * (pos / BITS) + BITS
    requires forall k :: 0 <= k < BITS ==> mask[k] == (pos <= BITS * (pos / BITS) + k < next)
    ensures Changed(was, now[pos / BITS := Updated(now[pos / BITS], mask, v)], a, next, v)
  {
    hide Updated;
    var p := pos / BITS;
    var e := now[p := Updated(now[p], mask, v)];
    forall i: nat | i < BITS * |was| ensures Bit(e, i) == if a <= i < next then v else Bit(was, i) {
      assert Bit(now, i) == if a <= i < pos then v else Bit(was, i);
      if i / BITS == p {
        assert e[p][i % BITS] == if mask[i % BITS] then v else now[p][i % BITS];
      }
    }
  }

  /** Sets or clears `nr` bits from `start` on, a word at a time. */
  method UpdateRange(bm: array<Word>, start: nat, nr: nat, v: bool)
    requires start + nr <= BITS * bm.Length
    modifies bm
    ensures Changed(old(bm[..]), bm[..], start, start + nr, v)
  {
    hide Changed, Updated;
    ghost var was, pos := bm[..], start;
    var p, left: nat, size := start / BITS, nr, start + nr;
    var bits, mask := BITS - start % BITS, Shl(Ones(), start % BITS);
    Unchanged(was, start, v);
    while left >= bits
      invariant pos + left == size && p == pos / BITS && bits == BITS - pos % BITS && start <= pos
      invariant forall k :: 0 <= k < BITS ==> mask[k] == (pos % BITS <= k)
      invariant Changed(was, bm[..], start, pos, v)
      decreases left
    {
      ChangeWord(was, bm[..], start, pos, pos + bits, mask, v);
      assert bm[..][p := Updated(bm[p], mask, v)] == bm[..p] + [Updated(bm[p], mask, v)] + bm[p + 1..];
      bm[p] := Updated(bm[p], mask, v);
      pos := pos + bits;
      left, bits, mask, p := left - bits, BITS, Ones(), p + 1;
    }
    if left != 0 {
      mask := And(mask, LastWordMask(size));
      ChangeWord(was, bm[..], start, pos, size, mask, v);
      assert bm[..][p := Updated(bm[p], mask, v)] == bm[..p] + [Updated(bm[p], mask, v)] + bm[p + 1..];
      bm[p] := Updated(bm[p], mask, v);
    }
  }

  lemma Unchanged(was: Bitmap, a: nat, v: bool)
    ensures Changed(was, was, a, a, v)
  {
  }

  // ------------------------------------------------------- whole-set predicates

  method SlowEmpty(bm: Bitmap, n: nat) returns (r: bool)
    requires n <= BITS * |bm|
    ensures r <==> NoneBetween(bm, true, 0, n)
  {
    var k := 0;
    while k < n / BITS
      invariant k <= n / BITS && NoneBetween(bm, true, 0, BITS * k)
    {
      if bm[k] != Zero() {
        SomeSet(bm, k, bm[k], BITS);
        return false;
      }
      NoneInWord(bm, true, k, 0, BITS);
      NoneJoin(bm, true, 0, BITS * k, BITS * k + BITS);
      k := k + 1;
    }
    if n % BITS != 0 {
      var tmp := And(bm[k], LastWordMask(n));
      if tmp != Zero() {
        SomeSet(bm, k, tmp, n % BITS);
        return false;
      }
      forall j | 0 <= j < n % BITS ensures !bm[k][j] { assert !tmp[j]; }
      NoneInWord(bm, true, k, 0, n % BITS);
      NoneJoin(bm, true, 0, BITS * k, n);
    }
    r := true;
  }

  /** A nonzero word, masked to its low `n` bits, has a set bit there. */
  lemma SomeSet(bm: Bitmap, p: nat, tmp: Word, n: nat)
    requires p < |bm| && n <= BITS && tmp != Zero()
    requires forall k :: 0 <= k < BITS ==> tmp[k] == (bm[p][k] && k < n)
    ensures !NoneBetween(bm, true, 0, BITS * p + n)
  {
    var f := HasFirst(tmp);
    BitAt(bm, p, f);
  }

  /** bitmap_empty: one masked word, or the loop.  For no bits the mask is a whole
      word. */
  method Empty(bm: Bitmap, n: nat) returns (r: bool)
    requires 0 < |bm| && n <= BITS * |bm|
    ensures n > 0 ==> (r <==> NoneBetween(bm, true, 0, n))
    ensures n == 0 ==> (r <==> bm[0] == Zero())
  {
    if n > BITS {
      r := SlowEmpty(bm, n);
      return;
    }
    var tmp := And(bm[0], LastWordMask(n));
    r := tmp == Zero();
    if n == 0 {
      assert tmp == bm[0];
    } else if r {
      forall j | 0 <= j < n ensures !bm[0][j] { assert !tmp[j]; }
      NoneInWord(bm, true, 0, 0, n);
    } else {
      SomeSet(bm, 0, tmp, n);
    }
  }

  /** The four one-word forms for no bits at all, against what the loops say then:
      empty, full and equal, and no intersection. */
  lemma NoBits(v: Word, w: Word)
    ensures And(w, LastWordMask(0)) == Zero() <==> w == Zero()
    ensures And(Not(w), LastWordMask(0)) == Zero() <==> w == Ones()
    ensures And(Xor(v, w), LastWordMask(0)) == Zero() <==> v == w
    ensures And(And(v, w), LastWordMask(0)) == Zero() <==> forall i :: 0 <= i < BITS ==> !(v[i] && w[i])
  {
    assert And(w, Ones()) == w && And(Not(w), Ones()) == Not(w);
    assert And(Xor(v, w), Ones()) == Xor(v, w) && And(And(v, w), Ones()) == And(v, w);
    if Not(w) == Zero() { assert forall i :: 0 <= i < BITS ==> Not(w)[i] == false; assert w == Ones(); }
    if Xor(v, w) == Zero() { assert forall i :: 0 <= i < BITS ==> Xor(v, w)[i] == false; assert v == w; }
    if And(v, w) == Zero() { assert forall i :: 0 <= i < BITS ==> And(v, w)[i] == false; }
    if w == Ones() { assert Not(w) == Zero(); }
    if v == w { assert Xor(v, w) == Zero(); }
    if forall i :: 0 <= i < BITS ==> !(v[i] && w[i]) { assert And(v, w) == Zero(); }
  }

  /** The words of the complement, the difference and the intersection. */
  function NotAll(a: Bitmap): (r: Bitmap)
    ensures |r| == |a| && forall i: nat :: i < BITS * |a| ==> Bit(r, i) == !Bit(a, i)
  {
    var r: Bitmap := seq(|a|, i requires 0 <= i < |a| => Not(a[i]));
    r
  }

  function XorAll(a: Bitmap, b: Bitmap): (r: Bitmap)
    requires |a| == |b|
    ensures |r| == |a| && forall i: nat :: i < BITS * |a| ==> Bit(r, i) == (Bit(a, i) != Bit(b, i))
  {
    var r: Bitmap := seq(|a|, i requires 0 <= i < |a| => Xor(a[i], b[i]));
    r
  }

  function AndAll(a: Bitmap, b: Bitmap): (r: Bitmap)
    requires |a| == |b|
    ensures |r| == |a| && forall i: nat :: i < BITS * |a| ==> Bit(r, i) == (Bit(a, i) && Bit(b, i))
  {
    var r: Bitmap := seq(|a|, i requires 0 <= i < |a| => And(a[i], b[i]));
    r
  }

  lemma NotWord(a: Bitmap)
    requires 0 < |a|
    ensures NotAll(a)[0] == Zero() <==> a[0] == Ones()
  {
    NoBits(a[0], a[0]);
    assert NotAll(a)[0] == Not(a[0]);
    assert And(Not(a[0]), Ones()) == Not(a[0]);
  }

  lemma XorWord(a: Bitmap, b: Bitmap)
    requires 0 < |a| == |b|
    ensures XorAll(a, b)[0] == Zero() <==> a[0] == b[0]
  {
    NoBits(a[0], b[0]);
    assert XorAll(a, b)[0] == Xor(a[0], b[0]);
    assert And(Xor(a[0], b[0]), Ones()) == Xor(a[0], b[0]);
  }

  lemma AndWord(a: Bitmap, b: Bitmap)
    requires 0 < |a| == |b|
    ensures AndAll(a, b)[0] == Zero() <==> forall i :: 0 <= i < BITS ==> !(a[0][i] && b[0][i])
  {
    NoBits(a[0], b[0]);
    assert AndAll(a, b)[0] == And(a[0], b[0]);
    assert And(And(a[0], b[0]), Ones()) == And(a[0], b[0]);
  }

  /** The other predicates run the same loop over the complemented, differing or
      common words; each depends on the first `n` bits only, and for no bits on
      the whole first word. */
  method Full(bm: Bitmap, n: nat) returns (r: bool)
    requires 0 < |bm| && n <= BITS * |bm|
    ensures n > 0 ==> (r <==> forall i: nat :: i < n ==> Bit(bm, i))
    ensures n == 0 ==> (r <==> bm[0] == Ones())
  {
    r := Empty(NotAll(bm), n);
    NotWord(bm);
    if n == 0 { return; }
    if !r {
      var i: nat :| i < n && Bit(NotAll(bm), i);
      assert !Bit(bm, i);
    } else {
      forall i: nat | i < n ensures Bit(bm, i) { assert !Bit(NotAll(bm), i); }
    }
  }

  method Equal(a: Bitmap, b: Bitmap, n: nat) returns (r: bool)
    requires 0 < |a| == |b| && n <= BITS * |a|
    ensures n > 0 ==> (r <==> forall i: nat :: i < n ==> Bit(a, i) == Bit(b, i))
    ensures n == 0 ==> (r <==> a[0] == b[0])
  {
    r := Empty(XorAll(a, b), n);
    XorWord(a, b);
    if n == 0 { return; }
    if !r {
      var i: nat :| i < n && Bit(XorAll(a, b), i);
      assert Bit(a, i) != Bit(b, i);
    } else {
      forall i: nat | i < n ensures Bit(a, i) == Bit(b, i) { assert !Bit(XorAll(a, b), i); }
    }
  }

  method Intersects(a: Bitmap, b: Bitmap, n: nat) returns (r: bool)
    requires 0 < |a| == |b| && n <= BITS * |a|
    ensures n > 0 ==> (r <==> exists i: nat :: i < n && Bit(a, i) && Bit(b, i))
    ensures n == 0 ==> (r <==> exists i :: 0 <= i < BITS && a[0][i] && b[0][i])
  {
    var none := Empty(AndAll(a, b), n);
    r := !none;
    AndWord(a, b);
    if n == 0 { return; }
    if r {
      var i: nat :| i < n && Bit(AndAll(a, b), i);
      assert Bit(a, i) && Bit(b, i);
    } else {
      forall i: nat | i < n ensures !(Bit(a, i) && Bit(b, i)) { assert !Bit(AndAll(a, b), i); }
    }
  }
}
