/** Powers of two. */
module Powers {
  function Pow2(n: nat): (p: nat)
    ensures p >= 1
  {
    if n == 0 then 1 else 2 * Pow2(n - 1)
  }

  lemma {:induction false} PowSum(m: nat, n: nat)
    ensures Pow2(m) * Pow2(n) == Pow2(m + n)
  {
    if m > 0 {
      PowSum(m - 1, n);
      assert Pow2(m) * Pow2(n) == 2 * (Pow2(m - 1) * Pow2(n));
    }
  }

  lemma {:induction false} PowMonotone(m: nat, n: nat)
    requires m <= n
    ensures Pow2(m) <= Pow2(n)
    ensures m < n ==> Pow2(m) < Pow2(n)
  {
    if m < n {
      PowMonotone(m, n - 1);
    }
  }
}

/**
  The RC5 permutation of 32-bit words (three rounds): security/rc5.cc.

  The rounds are written over any word type with the operations they use; `WORD` is the instance of the code, 16-bit
  words.  Invertibility needs only the three laws in `Lawful`.
 */
module RC5 {
  import opened Powers

  const ROUNDS := 3

  datatype Ops<!W> = Ops(add: (W, W) -> W, sub: (W, W) -> W, xor: (W, W) -> W, rotl: (W, W) -> W, rotr: (W, W) -> W)

  datatype Pair<+W> = Pair(a: W, b: W)

  ghost predicate Lawful<W(!new)>(o: Ops<W>) {
    Additive(o) && Involutive(o) && Rotating(o)
  }

  ghost predicate Additive<W(!new)>(o: Ops<W>) {
    forall x, k :: o.sub(o.add(x, k), k) == x && o.add(o.sub(x, k), k) == x
  }

  ghost predicate Involutive<W(!new)>(o: Ops<W>) {
    forall x, y :: o.xor(o.xor(x, y), y) == x
  }

  ghost predicate Rotating<W(!new)>(o: Ops<W>) {
    forall x, c :: o.rotr(o.rotl(x, c), c) == x && o.rotl(o.rotr(x, c), c) == x
  }

  predicate IsKey<W>(key: seq<W>) {
    |key| == 2 * (ROUNDS + 1)
  }

  // --- Rounds ---------------------------------------------------------------------

  function Mix<W>(o: Ops<W>, x: W, y: W, k: W): W {
    o.add(o.rotl(o.xor(x, y), y), k)
  }

  function Unmix<W>(o: Ops<W>, z: W, y: W, k: W): W {
    o.xor(o.rotr(o.sub(z, k), y), y)
  }

  lemma MixInverse<W(!new)>(o: Ops<W>, x: W, y: W, k: W)
    requires Lawful(o)
    ensures Unmix(o, Mix(o, x, y, k), y, k) == x && Mix(o, Unmix(o, x, y, k), y, k) == x
  {
  }

  function Round<W>(o: Ops<W>, h: Pair<W>, k0: W, k1: W): Pair<W> {
    var a := Mix(o, h.a, h.b, k0);
    Pair(a, Mix(o, h.b, a, k1))
  }

  function Unround<W>(o: Ops<W>, h: Pair<W>, k0: W, k1: W): Pair<W> {
    var b := Unmix(o, h.b, h.a, k1);
    Pair(Unmix(o, h.a, b, k0), b)
  }

  lemma RoundInverse<W(!new)>(o: Ops<W>, h: Pair<W>, k0: W, k1: W)
    requires Lawful(o)
    ensures Unround(o, Round(o, h, k0, k1), k0, k1) == h
    ensures Round(o, Unround(o, h, k0, k1), k0, k1) == h
  {
    var a := Mix(o, h.a, h.b, k0);
    MixInverse(o, h.b, a, k1);
    MixInverse(o, h.a, h.b, k0);
    var b := Unmix(o, h.b, h.a, k1);
    MixInverse(o, h.b, h.a, k1);
    MixInverse(o, h.a, b, k0);
  }

  /** Rounds 1 to n. */
  function Rounds<W>(o: Ops<W>, h: Pair<W>, key: seq<W>, n: nat): Pair<W>
    requires IsKey(key) && n <= ROUNDS
  {
    if n == 0 then h else Round(o, Rounds(o, h, key, n - 1), key[2 * n], key[2 * n + 1])
  }

  /** Rounds n to 1, undone. */
  function Unrounds<W>(o: Ops<W>, h: Pair<W>, key: seq<W>, n: nat): Pair<W>
    requires IsKey(key) && n <= ROUNDS
    decreases n
  {
    if n == 0 then h else Unrounds(o, Unround(o, h, key[2 * n], key[2 * n + 1]), key, n - 1)
  }

  lemma {:induction false} RoundsInverse<W(!new)>(o: Ops<W>, h: Pair<W>, key: seq<W>, n: nat)
    requires Lawful(o) && IsKey(key) && n <= ROUNDS
    ensures Unrounds(o, Rounds(o, h, key, n), key, n) == h
    decreases n
  {
    if n > 0 {
      RoundInverse(o, Rounds(o, h, key, n - 1), key[2 * n], key[2 * n + 1]);
      RoundsInverse(o, h, key, n - 1);
    }
  }

  lemma {:induction false} UnroundsInverse<W(!new)>(o: Ops<W>, h: Pair<W>, key: seq<W>, n: nat)
    requires Lawful(o) && IsKey(key) && n <= ROUNDS
    ensures Rounds(o, Unrounds(o, h, key, n), key, n) == h
    decreases n
  {
    if n > 0 {
      UnroundsInverse(o, Unround(o, h, key[2 * n], key[2 * n + 1]), key, n - 1);
      RoundInverse(o, h, key[2 * n], key[2 * n + 1]);
    }
  }

  function EncryptPair<W>(o: Ops<W>, h: Pair<W>, key: seq<W>): Pair<W>
    requires IsKey(key)
  {
    Rounds(o, Pair(o.add(h.a, key[0]), o.add(h.b, key[1])), key, ROUNDS)
  }

  function DecryptPair<W>(o: Ops<W>, h: Pair<W>, key: seq<W>): Pair<W>
    requires IsKey(key)
  {
    var u := Unrounds(o, h, key, ROUNDS);
    Pair(o.sub(u.a, key[0]), o.sub(u.b, key[1]))
  }

  lemma PairInverse<W(!new)>(o: Ops<W>, h: Pair<W>, key: seq<W>)
    requires Lawful(o) && IsKey(key)
    ensures DecryptPair(o, EncryptPair(o, h, key), key) == h
    ensures EncryptPair(o, DecryptPair(o, h, key), key) == h
  {
    RoundsInverse(o, Pair(o.add(h.a, key[0]), o.add(h.b, key[1])), key, ROUNDS);
    UnroundsInverse(o, h, key, ROUNDS);
  }

  /** The loop of `rc5_encrypt`. */
  method Scramble<W>(o: Ops<W>, h: Pair<W>, key: seq<W>) returns (a: W, b: W)
    requires IsKey(key)
    ensures Pair(a, b) == EncryptPair(o, h, key)
  {
    a, b := o.add(h.a, key[0]), o.add(h.b, key[1]);
    for i := 1 to ROUNDS + 1
      invariant Pair(a, b) == Rounds(o, Pair(o.add(h.a, key[0]), o.add(h.b, key[1])), key, i - 1)
    {
      a := o.xor(a, b);
      a := o.rotl(a, b);
      a := o.add(a, key[2 * i]);
      b := o.rotl(o.xor(b, a), a);
      b := o.add(b, key[2 * i + 1]);
    }
  }

  /** The loop of `rc5_decrypt`. */
  method Unscramble<W>(o: Ops<W>, h: Pair<W>, key: seq<W>) returns (a: W, b: W)
    requires IsKey(key)
    ensures Pair(a, b) == DecryptPair(o, h, key)
  {
    a, b := h.a, h.b;
    var i := ROUNDS;
    while i >= 1
      invariant 0 <= i <= ROUNDS
      invariant Unrounds(o, Pair(a, b), key, i) == Unrounds(o, h, key, ROUNDS)
    {
      b := o.sub(b, key[2 * i + 1]);
      b := o.rotr(b, a);
      b := o.xor(b, a);
      a := o.sub(a, key[2 * i]);
      a := o.rotr(a, b);
      a := o.xor(a, b);
      i := i - 1;
    }
    b := o.sub(b, key[1]);
    a := o.sub(a, key[0]);
  }

  // --- 16-bit words -------------------------------------------------------------------

  const BASE := 0x1_0000

  type Word = x: int | 0 <= x < BASE
  type Word32 = x: int | 0 <= x < BASE * BASE

  /** Bitwise exclusive or. */
  function Xor(x: nat, y: nat): nat
    decreases x + y
  {
    if x == 0 then y else if y == 0 then x else 2 * Xor(x / 2, y / 2) + (if x % 2 == y % 2 then 0 else 1)
  }

  lemma XorStep(x: nat, y: nat)
    ensures Xor(x, y) / 2 == Xor(x / 2, y / 2)
    ensures Xor(x, y) % 2 == if x % 2 == y % 2 then 0 else 1
  {
  }

  lemma {:induction false} XorTwice(x: nat, y: nat)
    ensures Xor(Xor(x, y), y) == x
    decreases x + y
  {
    if x != 0 && y != 0 {
      XorTwice(x / 2, y / 2);
      XorStep(x, y);
      XorStep(Xor(x, y), y);
    } else if y != 0 {
      XorSelf(y);
    }
  }

  lemma {:induction false} XorSelf(y: nat)
    ensures Xor(y, y) == 0
  {
    if y != 0 {
      XorSelf(y / 2);
    }
  }

  lemma {:induction false} XorFits(x: nat, y: nat, n: nat)
    requires x < Pow2(n) && y < Pow2(n)
    ensures Xor(x, y) < Pow2(n)
    decreases n
  {
    if x != 0 && y != 0 {
      XorFits(x / 2, y / 2, n - 1);
    }
  }

  lemma Pow16()
    ensures Pow2(16) == BASE
  {
    assert Pow2(4) == 16;
    PowSum(4, 4);
    PowSum(8, 8);
  }

  /** Shift left by k and cut to 16 bits, together with the k bits that fell out; the parts share no bit, so `|` is `+`. */
  function RotateBy(x: Word, k: nat): int
    requires k <= 16
  {
    Repacked(x, Pow2(k), Pow2(16 - k))
  }

  /** x = hi * q + lo becomes lo * p + hi. */
  function Repacked(x: int, p: nat, q: nat): int
    requires q > 0
  {
    (x % q) * p + x / q
  }

  lemma RepackTwice(x: nat, p: nat, q: nat)
    requires p > 0 && q > 0 && p * q == BASE && x < BASE
    ensures 0 <= Repacked(x, p, q) < BASE
    ensures Repacked(Repacked(x, p, q), q, p) == x
  {
    DivBound(x, p, q);
    Repack(x % q, x / q, p, q);
    assert x == (x / q) * q + x % q;
  }

  lemma PowPair(k: nat)
    requires k <= 16
    ensures Pow2(k) * Pow2(16 - k) == BASE
  {
    Pow16();
    PowSum(k, 16 - k);
  }

  lemma RotateFits(x: Word, k: nat)
    requires k <= 16
    ensures 0 <= RotateBy(x, k) < BASE
  {
    PowPair(k);
    RepackTwice(x, Pow2(k), Pow2(16 - k));
  }

  lemma DivBound(x: nat, p: nat, q: nat)
    requires p > 0 && q > 0 && x < p * q
    ensures x / q < p
  {
    assert x >= (x / q) * q;
    if x / q >= p {
      MulGrows(x / q, p, q);
      assert false;
    }
  }

  lemma MulGrows(a: nat, p: nat, q: nat)
    requires a >= p
    ensures a * q >= p * q
  {
  }

  lemma Repack(lo: nat, hi: nat, p: nat, q: nat)
    requires lo < q && hi < p
    ensures lo * p + hi < p * q
    ensures (lo * p + hi) / p == lo && (lo * p + hi) % p == hi
  {
    MulGrows(q - 1, lo, p);
    assert (q - 1) * p + p == p * q;
    DivUnique(lo * p + hi, lo, hi, p);
  }

  lemma DivUnique(n: nat, lo: nat, hi: nat, p: nat)
    requires p > 0 && n == lo * p + hi && hi < p
    ensures n / p == lo && n % p == hi
  {
    var d, m := n / p, n % p;
    assert n == d * p + m;
    assert (d + 1) * p == d * p + p && (lo + 1) * p == lo * p + p;
    if d < lo {
      MulGrows(lo, d + 1, p);
    } else if d > lo {
      MulGrows(d, lo + 1, p);
    }
  }

  /** Rotating by k and then by 16 - k is the identity. */
  lemma RotateBack(x: Word, k: nat)
    requires k <= 16
    ensures 0 <= RotateBy(x, k) < BASE && RotateBy(RotateBy(x, k), 16 - k) == x
  {
    PowPair(k);
    RepackTwice(x, Pow2(k), Pow2(16 - k));
  }

  /** ROTL16 */
  function RotL(x: Word, c: Word): Word {
    RotateFits(x, c % 16);
    RotateBy(x, c % 16)
  }

  /** ROTR16 */
  function RotR(x: Word, c: Word): Word {
    RotateFits(x, 16 - c % 16);
    RotateBy(x, 16 - c % 16)
  }

  lemma SameResidue(a: nat, b: nat, h: nat)
    requires a == b + h * (BASE - 1)
    ensures a % (BASE - 1) == b % (BASE - 1)
  {
    DivUnique(a, b / (BASE - 1) + h, b % (BASE - 1), BASE - 1);
    assert (b / (BASE - 1) + h) * (BASE - 1) == b / (BASE - 1) * (BASE - 1) + h * (BASE - 1);
  }

  /** The bits that fall out at the top come back at the bottom, 65536 times smaller. */
  lemma RepackMultiplies(x: Word, p: nat, q: nat)
    requires p > 0 && q > 0 && p * q == BASE
    ensures x * p == Repacked(x, p, q) + (x / q) * (BASE - 1)
  {
    assert x == (x / q) * q + x % q;
    assert ((x / q) * q + x % q) * p == (x / q) * q * p + (x % q) * p;
    assert (x / q) * q * p == (x / q) * (p * q);
  }

  lemma RepackResidue(x: Word, p: nat, q: nat)
    requires p > 0 && q > 0 && p * q == BASE
    ensures Repacked(x, p, q) >= 0 && Repacked(x, p, q) % (BASE - 1) == (x * p) % (BASE - 1)
  {
    RepackMultiplies(x, p, q);
    RepackTwice(x, p, q);
    DivBound(x, p, q);
    SameResidue(x * p, Repacked(x, p, q), x / q);
  }

  lemma LeftMultiplies(x: Word, c: Word)
    ensures RotL(x, c) % (BASE - 1) == (x * Pow2(c % 16)) % (BASE - 1)
  {
    RotateFits(x, c % 16);
    PowPair(c % 16);
    RepackResidue(x, Pow2(c % 16), Pow2(16 - c % 16));
  }

  /** Rotating left by c is multiplying by 2^(c mod 16) modulo 65535, with 0 and 65535 fixed; ROTR16 undoes it. */
  lemma RotateMultiplies(x: Word, c: Word)
    ensures RotL(x, c) % (BASE - 1) == (x * Pow2(c % 16)) % (BASE - 1)
    ensures x % (BASE - 1) == (RotR(x, c) * Pow2(c % 16)) % (BASE - 1)
    ensures (RotL(x, c) == 0 <==> x == 0) && (RotR(x, c) == 0 <==> x == 0)
  {
    LeftMultiplies(x, c);
    LeftMultiplies(RotR(x, c), c);
    RotateLaw(x, c);
    RotateZero(x, c);
  }

  lemma RotateZero(x: Word, c: Word)
    ensures (RotL(x, c) == 0 <==> x == 0) && (RotR(x, c) == 0 <==> x == 0)
  {
    RotateLaw(x, c);
    RotateLaw(0, c);
    ZeroRotated(c % 16);
    ZeroRotated(16 - c % 16);
  }

  lemma ZeroRotated(k: nat)
    requires k <= 16
    ensures RotateBy(0, k) == 0
  {
  }

  function XorWord(x: Word, y: Word): Word {
    Pow16();
    XorFits(x, y, 16);
    Xor(x, y)
  }

  function Plus(x: Word, y: Word): Word {
    (x + y) % BASE
  }

  function Minus(x: Word, y: Word): Word {
    (x - y) % BASE
  }

  const WORD: Ops<Word> := Ops<Word>.Ops(Plus, Minus, XorWord, RotL, RotR)

  lemma XorLaw(x: Word, y: Word)
    ensures XorWord(XorWord(x, y), y) == x
  {
    XorTwice(x, y);
  }

  lemma RotateLaw(x: Word, c: Word)
    ensures RotR(RotL(x, c), c) == x && RotL(RotR(x, c), c) == x
  {
    RotateBack(x, c % 16);
    RotateBack(x, 16 - c % 16);
  }

  lemma AddLaw(x: Word, k: Word)
    ensures Minus(Plus(x, k), k) == x && Plus(Minus(x, k), k) == x
  {
  }

  lemma WordAdditive()
    ensures Additive(WORD)
  {
    forall x: Word, k: Word
      ensures WORD.sub(WORD.add(x, k), k) == x && WORD.add(WORD.sub(x, k), k) == x
    {
      AddLaw(x, k);
    }
  }

  lemma WordInvolutive()
    ensures Involutive(WORD)
  {
    forall x: Word, y: Word
      ensures WORD.xor(WORD.xor(x, y), y) == x
    {
      XorLaw(x, y);
    }
  }

  lemma WordRotating()
    ensures Rotating(WORD)
  {
    forall x: Word, c: Word
      ensures WORD.rotr(WORD.rotl(x, c), c) == x && WORD.rotl(WORD.rotr(x, c), c) == x
    {
      RotateLaw(x, c);
    }
  }

  lemma WordLaws()
    ensures Lawful(WORD)
  {
    WordAdditive();
    WordInvolutive();
    WordRotating();
  }

  // --- The cipher on 32-bit words --------------------------------------------------------

  type Key = k: seq<Word> | |k| == 8 witness seq(8, _ => 0)

  function Join(h: Pair<Word>): Word32 {
    h.b * BASE + h.a
  }

  function Split(w: Word32): Pair<Word> {
    Pair(w % BASE, w / BASE)
  }

  function Encrypt(data: Word32, key: Key): Word32 {
    Join(EncryptPair(WORD, Split(data), key))
  }

  function Decrypt(data: Word32, key: Key): Word32 {
    Join(DecryptPair(WORD, Split(data), key))
  }

  lemma JoinSplit(h: Pair<Word>, w: Word32)
    ensures Split(Join(h)) == h && Join(Split(w)) == w
  {
  }

  /** For every key, the cipher is a permutation of the 32-bit words. */
  lemma CipherInverse(data: Word32, key: Key)
    ensures Decrypt(Encrypt(data, key), key) == data
    ensures Encrypt(Decrypt(data, key), key) == data
  {
    WordLaws();
    PairInverse(WORD, Split(data), key);
    JoinSplit(EncryptPair(WORD, Split(data), key), data);
    JoinSplit(DecryptPair(WORD, Split(data), key), data);
  }

  method EncryptWord(data: Word32, key: Key) returns (result: Word32)
    ensures result == Encrypt(data, key) && Decrypt(result, key) == data
  {
    CipherInverse(data, key);
    var a, b := Scramble(WORD, Split(data), key);
    result := Join(Pair(a, b));
  }

  method DecryptWord(data: Word32, key: Key) returns (result: Word32)
    ensures result == Decrypt(data, key) && Encrypt(result, key) == data
  {
    CipherInverse(data, key);
    var a, b := Unscramble(WORD, Split(data), key);
    result := Join(Pair(a, b));
  }
}
