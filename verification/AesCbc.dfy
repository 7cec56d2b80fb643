/** Cipher block chaining over byte buffers (section 6.2 of NIST SP 800-38A),
    with the code's own treatment of a partial last block. */
module AesCbc {
  import opened AesCipher
  import opened AesTables
  import opened AesKeys

  function XorBlock(x: Block, y: Block): Block {
    seq(16, i requires 0 <= i < 16 => x[i] ^ y[i])
  }

  /** A last block shorter than 16 bytes, filled up with zeroes. */
  function Padded(d: seq<bv8>): Block
    requires |d| <= 16
  {
    d + seq(16 - |d|, _ => 0 as bv8)
  }

  function RoundUp(n: nat): nat { (n + 15) / 16 * 16 }

  /** Chained encryption; a partial last block yields a whole block. */
  function CbcEnc(f: Block -> Block, iv: Block, d: seq<bv8>): (c: seq<bv8>)
    ensures |c| == RoundUp(|d|)
    decreases |d|
  {
    if d == [] then []
    else if |d| < 16 then f(XorBlock(Padded(d), iv))
    else
      var c := f(XorBlock(d[..16], iv));
      c + CbcEnc(f, c, d[16..])
  }

  /** The chaining vector left behind. */
  function EncIv(f: Block -> Block, iv: Block, d: seq<bv8>): Block
    decreases |d|
  {
    if d == [] then iv
    else if |d| < 16 then f(XorBlock(Padded(d), iv))
    else EncIv(f, f(XorBlock(d[..16], iv)), d[16..])
  }

  /** Chained decryption to `n` bytes. */
  function CbcDec(g: Block -> Block, iv: Block, c: seq<bv8>, n: nat): (d: seq<bv8>)
    requires |c| >= RoundUp(n)
    ensures |d| == n
    decreases n
  {
    if n == 0 then []
    else if n < 16 then XorBlock(g(c[..16]), iv)[..n]
    else XorBlock(g(c[..16]), iv) + CbcDec(g, c[..16], c[16..], n - 16)
  }

  function DecIv(g: Block -> Block, iv: Block, c: seq<bv8>, n: nat): Block
    requires |c| >= RoundUp(n)
    decreases n
  {
    if n == 0 then iv
    else if n < 16 then g(c[..16])
    else DecIv(g, c[..16], c[16..], n - 16)
  }

  // ---------------------------------------------------------------- properties

  lemma XorTwice(x: Block, y: Block)
    ensures XorBlock(XorBlock(x, y), y) == x
  {
    forall i | 0 <= i < 16 ensures XorBlock(XorBlock(x, y), y)[i] == x[i] {
      assert (x[i] ^ y[i]) ^ y[i] == x[i];
    }
  }

  ghost predicate Undoes(g: Block -> Block, f: Block -> Block) {
    forall x: Block :: g(f(x)) == x
  }

  /** Decrypting the encryption returns the plaintext, for every length. */
  lemma {:induction false} CbcRoundTrip(f: Block -> Block, g: Block -> Block, iv: Block, d: seq<bv8>)
    requires Undoes(g, f)
    ensures CbcDec(g, iv, CbcEnc(f, iv, d), |d|) == d
    decreases |d|
  {
    hide XorBlock;
    var e := CbcEnc(f, iv, d);
    if 0 < |d| < 16 {
      XorTwice(Padded(d), iv);
      assert e[..16] == f(XorBlock(Padded(d), iv));
      assert Padded(d)[..|d|] == d;
    } else if |d| >= 16 {
      var c := f(XorBlock(d[..16], iv));
      XorTwice(d[..16], iv);
      assert e[..16] == c && e[16..] == CbcEnc(f, c, d[16..]);
      CbcRoundTrip(f, g, c, d[16..]);
      assert d == d[..16] + d[16..];
    }
  }

  /** A call on whole blocks followed by another that carries the chaining vector
      on is the same as one call. */
  lemma {:induction false} CbcEncSplit(f: Block -> Block, iv: Block, a: seq<bv8>, d: seq<bv8>)
    requires |a| % 16 == 0
    ensures CbcEnc(f, iv, a + d) == CbcEnc(f, iv, a) + CbcEnc(f, EncIv(f, iv, a), d)
    ensures EncIv(f, iv, a + d) == EncIv(f, EncIv(f, iv, a), d)
    decreases |a|
  {
    if a == [] {
      assert a + d == d;
    } else {
      assert (a + d)[..16] == a[..16] && (a + d)[16..] == a[16..] + d;
      CbcEncSplit(f, f(XorBlock(a[..16], iv)), a[16..], d);
    }
  }

  lemma {:induction false} CbcDecSplit(g: Block -> Block, iv: Block, c: seq<bv8>, m: nat, n: nat)
    requires m % 16 == 0 && |c| >= m + RoundUp(n)
    ensures RoundUp(m + n) == m + RoundUp(n)
    ensures CbcDec(g, iv, c, m + n) == CbcDec(g, iv, c, m) + CbcDec(g, DecIv(g, iv, c, m), c[m..], n)
    ensures DecIv(g, iv, c, m + n) == DecIv(g, DecIv(g, iv, c, m), c[m..], n)
    decreases m
  {
    if m == 0 {
      assert c[0..] == c;
    } else {
      CbcDecSplit(g, c[..16], c[16..], m - 16, n);
      assert c[16..][m - 16..] == c[m..];
    }
  }

  /** The last cipher block of an encryption. */
  lemma {:induction false} ChainingVectors(f: Block -> Block, g: Block -> Block, iv: Block, d: seq<bv8>)
    requires Undoes(g, f)
    ensures |d| % 16 == 0 ==> DecIv(g, iv, CbcEnc(f, iv, d), |d|) == EncIv(f, iv, d)
    ensures |d| % 16 != 0 ==> DecIv(g, iv, CbcEnc(f, iv, d), |d|) == g(EncIv(f, iv, d))
    decreases |d|
  {
    hide XorBlock;
    var e := CbcEnc(f, iv, d);
    if 0 < |d| < 16 {
      assert e[..16] == f(XorBlock(Padded(d), iv));
    } else if |d| >= 16 {
      var c := f(XorBlock(d[..16], iv));
      assert e[..16] == c && e[16..] == CbcEnc(f, c, d[16..]);
      ChainingVectors(f, g, c, d[16..]);
    }
  }

  /** The bytes a block of the cipher text is made from: the message, filled up with
      zeroes, exclusive-ored with the previous cipher block. */
  ghost predicate BlockInput(x: Block, prev: Block, d: seq<bv8>, k: nat) {
    forall j :: 0 <= j < 16 ==> x[j] == (if 16 * k + j < |d| then d[16 * k + j] else 0) ^ prev[j]
  }

  /** Block `k` of an encryption. */
  lemma {:induction false} EncryptedBlock(f: Block -> Block, iv: Block, d: seq<bv8>, k: nat) returns (x: Block)
    requires 16 * k < |d|
    ensures var c := CbcEnc(f, iv, d);
            16 * k + 16 <= |c| && BlockAt(c, k) == f(x) && BlockInput(x, if k == 0 then iv else BlockAt(c, k - 1), d, k)
    decreases k
  {
    hide CbcEnc, BlockAt, BlockInput;
    if k == 0 {
      x := EncryptedFirst(f, iv, d);
    } else {
      var c0 := EncryptedLater(f, iv, d);
      var c := CbcEnc(f, iv, d);
      x := EncryptedBlock(f, c0, d[16..], k - 1);
      BlockAtLater(c, k);
      if k == 1 { BlockAtFirst(c); } else { BlockAtLater(c, k - 1); }
      InputLater(x, if k == 1 then c0 else BlockAt(c, k - 1), d, k);
    }
  }

  lemma EncryptedFirst(f: Block -> Block, iv: Block, d: seq<bv8>) returns (x: Block)
    requires d != []
    ensures var c := CbcEnc(f, iv, d); |c| >= 16 && BlockAt(c, 0) == f(x) && BlockInput(x, iv, d, 0)
  {
    var first := if |d| < 16 then d else d[..16];
    x := XorBlock(Padded(first), iv);
    assert |d| >= 16 ==> Padded(first) == first;
  }

  lemma EncryptedLater(f: Block -> Block, iv: Block, d: seq<bv8>) returns (c0: Block)
    requires |d| > 16
    ensures var c := CbcEnc(f, iv, d); |c| >= 16 && c[..16] == c0 && c[16..] == CbcEnc(f, c0, d[16..])
  {
    hide XorBlock;
    c0 := f(XorBlock(d[..16], iv));
  }

  lemma InputLater(x: Block, prev: Block, d: seq<bv8>, k: nat)
    requires k > 0 && |d| >= 16 && BlockInput(x, prev, d[16..], k - 1)
    ensures BlockInput(x, prev, d, k)
  {
    forall j | 0 <= j < 16 ensures x[j] == (if 16 * k + j < |d| then d[16 * k + j] else 0) ^ prev[j] {
      if 16 * k + j < |d| { assert d[16..][16 * (k - 1) + j] == d[16 * k + j]; }
    }
  }

  lemma DecryptedFirst(g: Block -> Block, iv: Block, c: seq<bv8>, n: nat, i: nat)
    requires |c| >= RoundUp(n) && i < n && i < 16
    ensures |c| >= 16 && CbcDec(g, iv, c, n)[i] == g(c[..16])[i] ^ iv[i]
  {
  }

  lemma DecryptedLater(g: Block -> Block, iv: Block, c: seq<bv8>, n: nat, i: nat)
    requires |c| >= RoundUp(n) && 16 <= i < n
    ensures |c| >= 16 && |c[16..]| >= RoundUp(n - 16)
    ensures CbcDec(g, iv, c, n)[i] == CbcDec(g, c[..16], c[16..], n - 16)[i - 16]
  {
    hide XorBlock;
  }

  /** Block `k` of a byte sequence. */
  function BlockAt(c: seq<bv8>, k: nat): Block
    requires 16 * k + 16 <= |c|
  {
    c[16 * k..16 * k + 16]
  }

  lemma BlockAtLater(c: seq<bv8>, k: nat)
    requires k > 0 && 16 * k + 16 <= |c|
    ensures BlockAt(c[16..], k - 1) == BlockAt(c, k)
  {
  }

  lemma BlockAtFirst(c: seq<bv8>)
    requires 16 <= |c|
    ensures BlockAt(c, 0) == c[..16]
  {
  }

  /** Byte `j` of block `k` of a decryption. */
  lemma {:induction false} DecryptedByte(g: Block -> Block, iv: Block, c: seq<bv8>, n: nat, k: nat, j: nat)
    requires |c| >= RoundUp(n) && j < 16 && 16 * k + j < n
    ensures 16 * k + 16 <= |c|
    ensures CbcDec(g, iv, c, n)[16 * k + j] == g(BlockAt(c, k))[j] ^ (if k == 0 then iv else BlockAt(c, k - 1))[j]
    decreases k
  {
    hide CbcDec, RoundUp, BlockAt;
    if k == 0 {
      DecryptedFirst(g, iv, c, n, j);
      BlockAtFirst(c);
    } else {
      DecryptedLater(g, iv, c, n, 16 * k + j);
      DecryptedByte(g, c[..16], c[16..], n - 16, k - 1, j);
      BlockAtLater(c, k);
      if k == 1 { BlockAtFirst(c); } else { BlockAtLater(c, k - 1); }
    }
  }

  /** A cipher that is its own inverse and leaves no block alone. */
  function Flip(x: Block): Block {
    XorBlock(x, seq(16, _ => 1 as bv8))
  }

  lemma FlipUndoesFlip()
    ensures Undoes(Flip, Flip) && forall x: Block :: Flip(x) != x
  {
    var ones: Block := seq(16, _ => 1 as bv8);
    forall x: Block ensures Flip(Flip(x)) == x && Flip(x) != x {
      XorTwice(x, ones);
      assert Flip(x)[0] == x[0] ^ 1;
    }
  }

  /** With that cipher the two sides disagree after every partial last block. */
  lemma PartialBlockDisagrees(iv: Block, d: seq<bv8>)
    requires |d| % 16 != 0
    ensures DecIv(Flip, iv, CbcEnc(Flip, iv, d), |d|) != EncIv(Flip, iv, d)
  {
    hide Flip, CbcEnc, DecIv, EncIv;
    FlipUndoesFlip();
    ChainingVectors(Flip, Flip, iv, d);
  }

  /** After a partial last block the decrypting side keeps the decrypted block as
      chaining vector: for every cipher both sides end with the same vector if and
      only if the message is whole blocks. */
  lemma ChainingVectorsAgree(iv: Block, d: seq<bv8>)
    ensures (forall f: Block -> Block, g: Block -> Block :: Undoes(g, f) ==>
               DecIv(g, iv, CbcEnc(f, iv, d), |d|) == EncIv(f, iv, d)) <==> |d| % 16 == 0
  {
    hide CbcEnc, DecIv, EncIv, Flip, Undoes;
    if |d| % 16 == 0 {
      forall f: Block -> Block, g: Block -> Block | Undoes(g, f)
        ensures DecIv(g, iv, CbcEnc(f, iv, d), |d|) == EncIv(f, iv, d)
      {
        ChainingVectors(f, g, iv, d);
      }
    } else {
      FlipUndoesFlip();
      PartialBlockDisagrees(iv, d);
    }
  }

  // ------------------------------------------------------------------ the code

  /** A key schedule with an even number of rounds, as the block code needs it. */
  predicate Usable(rk: seq<bv32>, rounds: nat) {
    rounds >= 2 && rounds % 2 == 0 && 4 * (rounds + 1) <= |rk|
  }

  function Encryptor(b: Boxes, rk: seq<bv32>, rounds: nat): Block -> Block
    requires Usable(rk, rounds)
  {
    (x: Block) => EncryptBlock(b, rk, rounds, x)
  }

  function Decryptor(b: Boxes, rk: seq<bv32>, rounds: nat): Block -> Block
    requires Usable(rk, rounds)
  {
    (x: Block) => DecryptBlock(b, rk, rounds, x)
  }

  /** tmp = in ^ ivec for the first `len` bytes, ivec for the rest. */
  method XorInput(input: array<bv8>, p: nat, len: nat, ivec: array<bv8>) returns (tmp: Block)
    requires p + len <= input.Length && len <= 16 && ivec.Length == 16
    ensures tmp == XorBlock(Padded(input[p..p + len]), ivec[..])
  {
    var t: seq<bv8> := [];
    var n := 0;
    while n < len
      invariant n <= len && |t| == n
      invariant forall i :: 0 <= i < n ==> t[i] == input[p + i] ^ ivec[i]
    {
      t := t + [input[p + n] ^ ivec[n]];
      n := n + 1;
    }
    while n < 16
      invariant len <= n <= 16 && |t| == n
      invariant forall i :: 0 <= i < len ==> t[i] == input[p + i] ^ ivec[i]
      invariant forall i :: len <= i < n ==> t[i] == 0 ^ ivec[i]
    {
      assert 0 ^ ivec[n] == ivec[n];
      t := t + [ivec[n]];
      n := n + 1;
    }
    tmp := t;
  }

  /** memcpy of `|d|` bytes to offset `p`. */
  method Store(buf: array<bv8>, p: nat, d: seq<bv8>)
    requires p + |d| <= buf.Length
    modifies buf
    ensures buf[..] == old(buf[..p]) + d + old(buf[p + |d|..])
  {
    var n := 0;
    while n < |d|
      invariant n <= |d|
      invariant forall i :: 0 <= i < n ==> buf[p + i] == d[i]
      invariant forall i :: 0 <= i < buf.Length && !(p <= i < p + n) ==> buf[i] == old(buf[i])
    {
      buf[p + n] := d[n];
      n := n + 1;
    }
  }

  /** One step of chained encryption, whole or partial. */
  method EncryptOne(b: Boxes, rk: seq<bv32>, rounds: nat, input: array<bv8>, output: array<bv8>, p: nat, len: nat,
                    ivec: array<bv8>)
    returns (ghost c: Block)
    requires Usable(rk, rounds)
    requires len <= 16 && p + len <= input.Length && p + 16 <= output.Length
    requires ivec.Length == 16 && ivec != input && ivec != output
    modifies output, ivec
    ensures c == Encryptor(b, rk, rounds)(XorBlock(Padded(old(input[p..p + len])), old(ivec[..])))
    ensures output[p..p + 16] == c && ivec[..] == c
    ensures forall i :: 0 <= i < output.Length && !(p <= i < p + 16) ==> output[i] == old(output[i])
  {
    hide EncryptBlock, Padded, XorBlock;
    var tmp := XorInput(input, p, len, ivec);
    var e := Encrypt(b, rk, rounds, tmp);
    Store(output, p, e);
    Store(ivec, 0, e);
    c := e;
  }

  lemma EncStep(f: Block -> Block, vec: Block, d: seq<bv8>, p: nat, done: seq<bv8>, c: Block)
    requires p + 16 <= |d| && c == f(XorBlock(Padded(d[p..p + 16]), vec))
    ensures done + CbcEnc(f, vec, d[p..]) == (done + c) + CbcEnc(f, c, d[p + 16..])
    ensures EncIv(f, vec, d[p..]) == EncIv(f, c, d[p + 16..])
  {
    assert d[p..][..16] == d[p..p + 16] == Padded(d[p..p + 16]);
    assert d[p..][16..] == d[p + 16..];
  }

  /** Encrypts `length` bytes; `output` may be `input` itself. */
  method CbcEncrypt(b: Boxes, rk: seq<bv32>, rounds: nat, input: array<bv8>, output: array<bv8>, length: nat,
                    ivec: array<bv8>)
    requires Usable(rk, rounds)
    requires length <= input.Length && RoundUp(length) <= output.Length
    requires ivec.Length == 16 && ivec != input && ivec != output
    modifies output, ivec
    ensures output[..RoundUp(length)] == CbcEnc(Encryptor(b, rk, rounds), old(ivec[..]), old(input[..length]))
    ensures output[RoundUp(length)..] == old(output[RoundUp(length)..])
    ensures ivec[..] == EncIv(Encryptor(b, rk, rounds), old(ivec[..]), old(input[..length]))
  {
    hide Encryptor, CbcEnc, EncIv, Padded, XorBlock, RoundUp;
    RoundUpStep(length);
    ghost var f, iv, d := Encryptor(b, rk, rounds), ivec[..], input[..length];
    var len, p := length, 0;
    assert d[0..] == d;
    while len >= 16
      invariant p + len == length && RoundUp(length) == p + RoundUp(len)
      invariant forall i :: p <= i < length ==> input[i] == d[i]
      invariant forall i :: RoundUp(length) <= i < output.Length ==> output[i] == old(output[i])
      invariant output[..p] + CbcEnc(f, ivec[..], d[p..]) == CbcEnc(f, iv, d)
      invariant EncIv(f, ivec[..], d[p..]) == EncIv(f, iv, d)
    {
      ghost var done, vec := output[..p], ivec[..];
      RoundUpStep(len);
      assert input[p..p + 16] == d[p..p + 16];
      ghost var c := EncryptOne(b, rk, rounds, input, output, p, 16, ivec);
      assert output[..p + 16] == done + c;
      EncStep(f, vec, d, p, done, c);
      len, p := len - 16, p + 16;
    }
    FinishEncrypt(b, rk, rounds, input, output, p, len, ivec, d[p..]);
  }

  /** Rounding up to whole blocks, a block at a time. */
  lemma RoundUpStep(n: nat)
    ensures n <= RoundUp(n) && (n >= 16 ==> RoundUp(n) == 16 + RoundUp(n - 16))
  {
  }

  lemma EncEnd(f: Block -> Block, vec: Block, d: seq<bv8>)
    requires |d| < 16
    ensures d == [] ==> CbcEnc(f, vec, d) == [] && EncIv(f, vec, d) == vec
    ensures d != [] ==>
              CbcEnc(f, vec, d) == f(XorBlock(Padded(d), vec)) && EncIv(f, vec, d) == f(XorBlock(Padded(d), vec))
  {
  }

  /** The partial last block, if there is one. */
  method FinishEncrypt(b: Boxes, rk: seq<bv32>, rounds: nat, input: array<bv8>, output: array<bv8>, p: nat, len: nat,
                       ivec: array<bv8>, ghost d: seq<bv8>)
    requires Usable(rk, rounds) && len < 16 && p + len <= input.Length && p + RoundUp(len) <= output.Length
    requires ivec.Length == 16 && ivec != input && ivec != output && input[p..p + len] == d
    modifies output, ivec
    ensures output[..p + RoundUp(len)] == old(output[..p]) + CbcEnc(Encryptor(b, rk, rounds), old(ivec[..]), d)
    ensures output[p + RoundUp(len)..] == old(output[p + RoundUp(len)..])
    ensures ivec[..] == EncIv(Encryptor(b, rk, rounds), old(ivec[..]), d)
  {
    hide Encryptor, CbcEnc, EncIv, Padded, XorBlock;
    EncEnd(Encryptor(b, rk, rounds), ivec[..], d);
    if len != 0 {
      ghost var done := output[..p];
      ghost var c := EncryptOne(b, rk, rounds, input, output, p, len, ivec);
      assert output[..p + 16] == done + c;
    }
  }

  /** One step of chained decryption: `len` of the 16 bytes are wanted. */
  method DecryptOne(b: Boxes, rk: seq<bv32>, rounds: nat, input: array<bv8>, output: array<bv8>, p: nat, len: nat,
                    ivec: array<bv8>)
    returns (ghost plain: Block)
    requires Usable(rk, rounds)
    requires len <= 16 && p + 16 <= input.Length && p + len <= output.Length
    requires ivec.Length == 16 && ivec != input && ivec != output
    modifies output, ivec
    ensures plain == Decryptor(b, rk, rounds)(old(input[p..p + 16]))
    ensures output[p..p + len] == XorBlock(plain, old(ivec[..]))[..len]
    ensures ivec[..] == if len == 16 then old(input[p..p + 16]) else plain
    ensures forall i :: 0 <= i < output.Length && !(p <= i < p + len) ==> output[i] == old(output[i])
  {
    hide DecryptBlock, XorBlock;
    var tmp := input[p..p + 16];
    var out := Decrypt(b, rk, rounds, tmp);
    plain := out;
    StoreXored(output, p, len, out, ivec);
    Store(ivec, 0, if len == 16 then tmp else out);
  }

  /** out[n] = plain[n] ^ ivec[n] for the bytes wanted. */
  method StoreXored(output: array<bv8>, p: nat, len: nat, plain: Block, ivec: array<bv8>)
    requires len <= 16 && p + len <= output.Length && ivec.Length == 16 && ivec != output
    modifies output
    ensures output[p..p + len] == XorBlock(plain, ivec[..])[..len]
    ensures forall i :: 0 <= i < output.Length && !(p <= i < p + len) ==> output[i] == old(output[i])
  {
    var n := 0;
    while n < len
      invariant n <= len
      invariant forall i :: 0 <= i < n ==> output[p + i] == plain[i] ^ ivec[i]
      invariant forall i :: 0 <= i < output.Length && !(p <= i < p + len) ==> output[i] == old(output[i])
    {
      output[p + n] := plain[n] ^ ivec[n];
      n := n + 1;
    }
    ghost var stored := output[p..p + len];
    assert forall i :: 0 <= i < len ==> stored[i] == plain[i] ^ ivec[i];
  }

  lemma DecStep(g: Block -> Block, vec: Block, c: seq<bv8>, p: nat, done: seq<bv8>, n: nat)
    requires n >= 16 && p + RoundUp(n) <= |c|
    ensures done + CbcDec(g, vec, c[p..], n) ==
              (done + XorBlock(g(c[p..p + 16]), vec)) + CbcDec(g, c[p..p + 16], c[p + 16..], n - 16)
    ensures DecIv(g, vec, c[p..], n) == DecIv(g, c[p..p + 16], c[p + 16..], n - 16)
  {
    assert c[p..][..16] == c[p..p + 16];
    assert c[p..][16..] == c[p + 16..];
  }

  lemma DecEnd(g: Block -> Block, vec: Block, c: seq<bv8>, n: nat)
    requires n < 16 && |c| >= RoundUp(n)
    ensures n == 0 ==> CbcDec(g, vec, c, n) == [] && DecIv(g, vec, c, n) == vec
    ensures n != 0 ==> CbcDec(g, vec, c, n) == XorBlock(g(c[..16]), vec)[..n] && DecIv(g, vec, c, n) == g(c[..16])
  {
  }

  /** Decrypts to `length` bytes; `output` may be `input` itself. */
  method CbcDecrypt(b: Boxes, rk: seq<bv32>, rounds: nat, input: array<bv8>, output: array<bv8>, length: nat,
                    ivec: array<bv8>)
    requires Usable(rk, rounds)
    requires RoundUp(length) <= input.Length && length <= output.Length
    requires ivec.Length == 16 && ivec != input && ivec != output
    modifies output, ivec
    ensures output[..length] == CbcDec(Decryptor(b, rk, rounds), old(ivec[..]), old(input[..RoundUp(length)]), length)
    ensures output[length..] == old(output[length..])
    ensures ivec[..] == DecIv(Decryptor(b, rk, rounds), old(ivec[..]), old(input[..RoundUp(length)]), length)
  {
    hide Decryptor, CbcDec, DecIv, XorBlock, RoundUp;
    RoundUpStep(length);
    ghost var g, iv, c := Decryptor(b, rk, rounds), ivec[..], input[..RoundUp(length)];
    var len: nat, p: nat := length, 0;
    assert c[0..] == c;
    while len >= 16
      invariant p + len == length && RoundUp(length) == p + RoundUp(len)
      invariant forall i :: p <= i < RoundUp(length) ==> input[i] == c[i]
      invariant forall i :: length <= i < output.Length ==> output[i] == old(output[i])
      invariant output[..p] + CbcDec(g, ivec[..], c[p..], len) == CbcDec(g, iv, c, length)
      invariant DecIv(g, ivec[..], c[p..], len) == DecIv(g, iv, c, length)
    {
      ghost var done, vec := output[..p], ivec[..];
      RoundUpStep(len);
      assert input[p..p + 16] == c[p..p + 16];
      ghost var plain := DecryptOne(b, rk, rounds, input, output, p, 16, ivec);
      assert output[..p + 16] == done + XorBlock(plain, vec);
      DecStep(g, vec, c, p, done, len);
      len, p := len - 16, p + 16;
    }
    FinishDecrypt(b, rk, rounds, input, output, p, len, ivec, c[p..]);
  }

  method FinishDecrypt(b: Boxes, rk: seq<bv32>, rounds: nat, input: array<bv8>, output: array<bv8>, p: nat, len: nat,
                       ivec: array<bv8>, ghost c: seq<bv8>)
    requires Usable(rk, rounds) && len < 16 && p + RoundUp(len) <= input.Length && p + len <= output.Length
    requires ivec.Length == 16 && ivec != input && ivec != output && input[p..p + RoundUp(len)] == c
    modifies output, ivec
    ensures output[..p + len] == old(output[..p]) + CbcDec(Decryptor(b, rk, rounds), old(ivec[..]), c, len)
    ensures output[p + len..] == old(output[p + len..])
    ensures ivec[..] == DecIv(Decryptor(b, rk, rounds), old(ivec[..]), c, len)
  {
    hide Decryptor, CbcDec, DecIv, XorBlock;
    DecEnd(Decryptor(b, rk, rounds), ivec[..], c, len);
    if len != 0 {
      ghost var done := output[..p];
      assert input[p..p + 16] == c[..16];
      ghost var plain := DecryptOne(b, rk, rounds, input, output, p, len, ivec);
      assert output[..p + len] == done + output[p..p + len];
    }
  }

  /** The whole library: for every key, chaining vector and message, decrypting
      under the decryption schedule returns the message. */
  lemma AesCbcRoundTrip(b: Boxes, userKey: seq<bv8>, bits: int, dk: seq<bv32>, iv: Block, d: seq<bv8>)
    requires MutuallyInverse(b) && ValidBits(bits) && |userKey| == bits / 8
    requires 4 * (RoundsFor(bits) + 1) <= |dk|
    requires KeyStates(dk, RoundsFor(bits)) ==
             DecryptionKeys(KeyStates(EncryptionSchedule(b, userKey, bits), RoundsFor(bits)))
    ensures var n := RoundsFor(bits);
            var f := Encryptor(b, EncryptionSchedule(b, userKey, bits), n);
            CbcDec(Decryptor(b, dk, n), iv, CbcEnc(f, iv, d), |d|) == d
  {
    hide EncryptionSchedule, EncryptBlock, DecryptBlock, CbcDec, CbcEnc, DecryptionKeys;
    var n := RoundsFor(bits);
    var ek := EncryptionSchedule(b, userKey, bits);
    var f, g := Encryptor(b, ek, n), Decryptor(b, dk, n);
    forall x: Block ensures g(f(x)) == x {
      DecryptUndoesEncrypt(b, userKey, bits, dk, x);
    }
    CbcRoundTrip(f, g, iv, d);
  }
}
