/** The 32-bit MurmurHash3: what its mixing steps cannot confuse. Words are numbers below 2^32. */
module Murmur {
  import opened Common
  import opened Bits

  const M: nat := 0x1_0000_0000

  type word = uint32

  // ---------- exclusive or, on the binary digits ----------

  predicate Odd(n: nat) {
    n % 2 == 1
  }

  function Xor(a: nat, b: nat): nat
    decreases a + b
  {
    if a == 0 && b == 0 then 0 else 2 * Xor(a / 2, b / 2) + if Odd(a) != Odd(b) then 1 else 0
  }

  lemma XorParts(a: nat, b: nat)
    ensures Xor(a, b) / 2 == Xor(a / 2, b / 2) && (Odd(Xor(a, b)) <==> Odd(a) != Odd(b))
  {
  }

  /** Numbers with the same binary digits are the same. */
  lemma SameParts(a: nat, b: nat)
    requires a / 2 == b / 2 && (Odd(a) <==> Odd(b))
    ensures a == b
  {
  }

  lemma {:induction false} XorTwice(a: nat, b: nat)
    ensures Xor(Xor(a, b), b) == a
    decreases a + b
  {
    if a != 0 || b != 0 {
      XorTwice(a / 2, b / 2);
      XorParts(a, b);
      XorParts(Xor(a, b), b);
      SameParts(Xor(Xor(a, b), b), a);
    }
  }

  lemma {:induction false} XorSwap(a: nat, b: nat)
    ensures Xor(a, b) == Xor(b, a)
    decreases a + b
  {
    if a != 0 || b != 0 { XorSwap(a / 2, b / 2); }
  }

  lemma {:induction false} XorAssoc(a: nat, b: nat, c: nat)
    ensures Xor(Xor(a, b), c) == Xor(a, Xor(b, c))
    decreases a + b + c
  {
    if a != 0 || b != 0 || c != 0 {
      XorAssoc(a / 2, b / 2, c / 2);
      XorParts(a, b);
      XorParts(Xor(a, b), c);
      XorParts(b, c);
      XorParts(a, Xor(b, c));
      SameParts(Xor(Xor(a, b), c), Xor(a, Xor(b, c)));
    }
  }

  lemma {:induction false} XorNone(a: nat)
    ensures Xor(a, 0) == a && Xor(0, a) == a
  {
    if a != 0 { XorNone(a / 2); }
  }

  lemma {:induction false} XorBelow(a: nat, b: nat, k: nat)
    requires a < Pow2(k) && b < Pow2(k)
    ensures Xor(a, b) < Pow2(k)
    decreases k
  {
    if k > 0 && (a != 0 || b != 0) { XorBelow(a / 2, b / 2, k - 1); }
  }

  lemma {:induction false} XorDown(a: nat, b: nat, k: nat)
    ensures Down(Xor(a, b), k) == Xor(Down(a, k), Down(b, k))
    decreases k
  {
    if k > 0 { XorDown(a / 2, b / 2, k - 1); }
  }

  /** Bits in different places. */
  lemma {:induction false} XorJoins(a: nat, b: nat, k: nat, w: nat)
    requires b < Pow2(k) && w == a * Pow2(k)
    ensures Xor(w, b) == w + b
    decreases k
  {
    if k == 0 {
      XorNone(a);
    } else {
      PowDouble(a, k);
      XorJoins(a, b / 2, k - 1, a * Pow2(k - 1));
      XorHalves(a * Pow2(k - 1), b, w);
    }
  }

  lemma XorHalves(a: nat, b: nat, w: nat)
    requires Xor(a, b / 2) == a + b / 2 && w == 2 * a
    ensures Xor(w, b) == w + b
  {
    XorParts(w, b);
  }

  function Xor32(a: word, b: word): word {
    assert Xor(a, b) < M by { Pow2Is32(); XorBelow(a, b, 32); }
    Xor(a, b)
  }

  // ---------- multiplication and rotation ----------

  function Times(x: word, c: word): word {
    x * c % 0x1_0000_0000
  }

  /** Multiplying by an odd number is undone by multiplying with its inverse. */
  lemma TimesBack(x: word, c: word, d: word)
    requires c * d % 0x1_0000_0000 == 1
    ensures Times(Times(x, c), d) == x
  {
    var (q, r, k) := (x * c / M, Times(x, c), c * d / M);
    assert x * c == q * M + r;
    assert c * d == k * M + 1;
    calc {
      r * d;
      (x * c - q * M) * d;
      x * (c * d) - q * M * d;
      x * (k * M + 1) - q * M * d;
      (x * k - q * d) * M + x;
    }
    ModIs(r * d, M, x * k - q * d, x);
  }

  lemma ModIs(v: nat, m: nat, q: int, r: nat)
    requires m > 0 && v == q * m + r && r < m
    ensures v % m == r && v / m == q
  {
    assert q >= 0 by {
      if q <= -1 { AtLeastOnce(-q, m); }
    }
    ModUnique(v, m, q, r);
    var d := v / m - q;
    assert d * m == 0;
    if d >= 1 { AtLeastOnce(d, m); } else if d <= -1 { AtLeastOnce(-d, m); }
  }

  /** The high bits that leave at the top come back at the low end. */
  function Rotl(x: word, r: nat): (y: word)
    requires r <= 32
  {
    RotlFits(x, r);
    Turned(x, Pow2(32 - r), Pow2(r))
  }

  function Turned(x: nat, p: nat, s: nat): nat
    requires p > 0
  {
    x % p * s + x / p
  }

  lemma {:induction false} Pow2Adds(j: nat, k: nat)
    ensures Pow2(j) * Pow2(k) == Pow2(j + k)
  {
    if j > 0 {
      Pow2Adds(j - 1, k);
      assert Pow2(j) * Pow2(k) == 2 * (Pow2(j - 1) * Pow2(k));
    }
  }

  lemma Pow2Halves(r: nat)
    requires r <= 32
    ensures Pow2(32 - r) * Pow2(r) == 0x1_0000_0000
  {
    Pow2Adds(32 - r, r);
    Pow2Is32();
  }

  lemma QuotientBelow(x: nat, p: nat, s: nat)
    requires p > 0 && x < p * s
    ensures x / p < s
  {
    var q := x / p;
    assert p * q <= x;
    if q >= s { Scales(p, s, q); }
  }

  lemma SumBelow(m: nat, q: nat, p: nat, s: nat)
    requires m < p && q < s
    ensures m * s + q < p * s
  {
    Scales(s, m + 1, p);
    assert s * (m + 1) == m * s + s;
  }

  lemma TurnedFits(x: nat, p: nat, s: nat)
    requires p > 0 && x < p * s
    ensures x / p < s && Turned(x, p, s) < p * s
  {
    QuotientBelow(x, p, s);
    SumBelow(x % p, x / p, p, s);
  }

  lemma TurnedBack(x: nat, p: nat, s: nat)
    requires p > 0 && s > 0 && x < p * s
    ensures Turned(Turned(x, p, s), s, p) == x
  {
    var (m, q) := (x % p, x / p);
    QuotientBelow(x, p, s);
    ModIs(m * s + q, s, m, q);
    assert x == q * p + m;
  }

  lemma RotlFits(x: word, r: nat)
    requires r <= 32
    ensures 0 <= Turned(x, Pow2(32 - r), Pow2(r)) < 0x1_0000_0000
  {
    Pow2Halves(r);
    TurnedFits(x, Pow2(32 - r), Pow2(r));
  }

  lemma RotlBack(x: word, r: nat)
    requires r <= 32
    ensures Rotl(Rotl(x, r), 32 - r) == x
  {
    var (p, s, back) := (Pow2(32 - r), Pow2(r), 32 - r);
    Pow2Halves(r);
    TurnedBack(x, p, s);
    assert Rotl(Rotl(x, r), back) == Turned(Rotl(x, r), s, p);
  }

  // ---------- the steps of the hash ----------

  const C1: word := 0xcc9e2d51
  const C2: word := 0x1b873593

  function Scramble(k: word): word {
    Times(Rotl(Times(k, C1), 15), C2)
  }

  function Unscramble(k: word): word {
    Times(Rotl(Times(k, 0x56ed309b), 17), 0xdee13bb1)
  }

  lemma ScrambleBack(k: word)
    ensures Unscramble(Scramble(k)) == k
  {
    TimesBack(k, C1, 0xdee13bb1);
    RotlBack(Times(k, C1), 15);
    TimesBack(Rotl(Times(k, C1), 15), C2, 0x56ed309b);
  }

  lemma ScrambleForth(k: word)
    ensures Scramble(Unscramble(k)) == k
  {
    var a := Times(k, 0x56ed309b);
    Inverses();
    TimesBack(k, 0x56ed309b, C2);
    RotlBack(a, 17);
    TimesBack(Rotl(a, 17), 0xdee13bb1, C1);
  }

  lemma Inverses()
    ensures C1 * 0xdee13bb1 % 0x1_0000_0000 == 1 == 0xdee13bb1 * C1 % 0x1_0000_0000
    ensures C2 * 0x56ed309b % 0x1_0000_0000 == 1 == 0x56ed309b * C2 % 0x1_0000_0000
  {
  }

  function Plus(h: word, c: word): word {
    (h + c) % 0x1_0000_0000
  }

  function FiveMore(h: word): word {
    Plus(Times(h, 5), 0xe6546b64)
  }

  function FiveLess(h: word): word {
    Times(Plus(h, 0x1_0000_0000 - 0xe6546b64), 0xcccccccd)
  }

  lemma FiveBack(h: word)
    ensures FiveLess(FiveMore(h)) == h
    ensures FiveMore(FiveLess(h)) == h
  {
    var (c, d) := (0xe6546b64, 0x1_0000_0000 - 0xe6546b64);
    TimesBack(h, 5, 0xcccccccd);
    PlusBack(Times(h, 5), c, d);
    TimesBack(Plus(h, d), 0xcccccccd, 5);
    PlusBack(h, d, c);
  }

  lemma PlusBack(h: word, c: word, d: word)
    requires c + d == 0x1_0000_0000
    ensures Plus(Plus(h, c), d) == h
  {
  }

  /** The state after another word. */
  function Mix(h: word, k: word): word {
    FiveMore(Rotl(Xor32(h, Scramble(k)), 13))
  }

  /** The state before the word `k`. */
  function Unmix(h: word, k: word): word {
    Xor32(Rotl(FiveLess(h), 19), Scramble(k))
  }

  lemma MixBack(h: word, k: word)
    ensures Unmix(Mix(h, k), k) == h
    ensures Mix(Unmix(h, k), k) == h
  {
    var s := Scramble(k);
    XorTwice(h, s);
    RotlBack(Xor32(h, s), 13);
    FiveBack(Rotl(Xor32(h, s), 13));
    var v := Rotl(FiveLess(h), 19);
    XorTwice(v, s);
    RotlBack(FiveLess(h), 19);
    FiveBack(h);
  }

  /** The word that takes the state from `h` to `after`. */
  function Between(h: word, after: word): word {
    Unscramble(Xor32(h, Rotl(FiveLess(after), 19)))
  }

  lemma MixTo(h: word, k: word, after: word)
    ensures Mix(h, k) == after <==> k == Between(h, after)
  {
    var (s, v) := (Scramble(k), Rotl(FiveLess(after), 19));
    ScrambleBack(k);
    ScrambleForth(Xor32(h, v));
    MixBack(h, k);
    MixBack(after, k);
    if Mix(h, k) == after {
      assert h == Xor32(v, s);
      XorSwap(v, s);
      XorTwice(s, v);
    }
    if k == Between(h, after) {
      XorSwap(h, v);
      XorTwice(v, h);
      XorSwap(v, s);
      MixBackAgain(h, v, s, after);
    }
  }

  lemma MixBackAgain(h: word, v: word, s: word, after: word)
    requires v == Rotl(FiveLess(after), 19) && s == Xor32(h, v)
    ensures FiveMore(Rotl(Xor32(h, s), 13)) == after
  {
    XorSwap(h, v);
    XorTwice(v, h);
    XorSwap(h, s);
    RotlBack(FiveLess(after), 19);
    FiveBack(after);
  }

  /** A word and itself shifted down. */
  function Fold(h: word, k: nat): word {
    assert Down(h, k) < 0x1_0000_0000 by { DownSmaller(h, k); }
    Xor32(h, Down(h, k))
  }

  lemma {:induction false} DownSmaller(h: nat, k: nat)
    ensures Down(h, k) <= h
  {
    if k > 0 { DownSmaller(h / 2, k - 1); }
  }

  lemma {:induction false} DownDown(h: nat, j: nat, k: nat)
    ensures Down(Down(h, j), k) == Down(h, j + k)
  {
    if j > 0 { DownDown(h / 2, j - 1, k); }
  }

  lemma {:induction false} DownAll(h: nat, j: nat, k: nat)
    requires h < Pow2(j) && j <= k
    ensures Down(h, k) == 0
    decreases k
  {
    if k > 0 { DownAll(h / 2, if j == 0 then 0 else j - 1, k - 1); }
  }

  lemma FoldBack(h: word, k: nat)
    requires k >= 16
    ensures Fold(Fold(h, k), k) == h
  {
    var d := Down(h, k);
    XorDown(h, d, k);
    DownDown(h, k, k);
    Pow2Is32();
    DownAll(h, 32, 2 * k);
    XorNone(d);
    XorTwice(h, d);
  }

  /** Undoes folding down by thirteen: the word shifted by 39 is zero, so two steps are enough. */
  function Unfold(y: word): word {
    assert Down(y, 26) < 0x1_0000_0000 by { DownSmaller(y, 26); }
    Xor32(Fold(y, 13), Down(y, 26))
  }

  lemma UnfoldBack(h: word)
    ensures Unfold(Fold(h, 13)) == h
  {
    var (y, a, b) := (Fold(h, 13), Down(h, 13), Down(h, 26));
    FoldDown(h, 13);
    FoldDown(h, 26);
    Third(h);
    DownDown(h, 13, 13);
    DownDown(h, 13, 26);
    XorNone(b);
    assert Down(y, 13) == Xor(a, b) && Down(y, 26) == b;
    XorAssoc(Xor(h, a), a, b);
    XorTwice(h, a);
    XorTwice(h, b);
  }

  lemma UnfoldForth(y: word)
    ensures Fold(Unfold(y), 13) == y
  {
    var (a, b) := (Down(y, 13), Down(y, 26));
    XorDown(Xor(y, a), b, 13);
    FoldDown(y, 13);
    DownDown(y, 13, 13);
    DownDown(y, 26, 13);
    Third(y);
    XorNone(Xor(a, b));
    XorAssoc(y, a, b);
    XorTwice(y, Xor(a, b));
  }

  lemma FoldDown(h: word, k: nat)
    ensures Down(Fold(h, 13), k) == Xor(Down(h, k), Down(h, 13 + k))
  {
    XorDown(h, Down(h, 13), k);
    DownDown(h, 13, k);
  }

  lemma Third(h: word)
    ensures Down(h, 39) == 0
  {
    Pow2Is32();
    DownAll(h, 32, 39);
  }

  function Round16(h: word): word {
    Times(Fold(h, 16), 0x85ebca6b)
  }

  function Unround16(h: word): word {
    Fold(Times(h, 0xa5cb9243), 16)
  }

  lemma Round16Back(h: word)
    ensures Unround16(Round16(h)) == h
    ensures Round16(Unround16(h)) == h
  {
    TimesBack(Fold(h, 16), 0x85ebca6b, 0xa5cb9243);
    FoldBack(h, 16);
    FoldBack(Times(h, 0xa5cb9243), 16);
    TimesBack(h, 0xa5cb9243, 0x85ebca6b);
  }

  function Round13(h: word): word {
    Times(Fold(h, 13), 0xc2b2ae35)
  }

  function Unround13(h: word): word {
    Unfold(Times(h, 0x7ed1b41d))
  }

  lemma Round13Back(h: word)
    ensures Unround13(Round13(h)) == h
    ensures Round13(Unround13(h)) == h
  {
    TimesBack(Fold(h, 13), 0xc2b2ae35, 0x7ed1b41d);
    UnfoldBack(h);
    UnfoldForth(Times(h, 0x7ed1b41d));
    TimesBack(h, 0x7ed1b41d, 0xc2b2ae35);
  }

  /** The finaliser. */
  function Fmix(h: word): word {
    Fold(Round13(Round16(h)), 16)
  }

  function Unfmix(h: word): word {
    Unround16(Unround13(Fold(h, 16)))
  }

  lemma FmixBack(h: word)
    ensures Unfmix(Fmix(h)) == h
  {
    Round16Back(h);
    Round13Back(Round16(h));
    FoldBack(Round13(Round16(h)), 16);
  }

  lemma FmixForth(h: word)
    ensures Fmix(Unfmix(h)) == h
  {
    FoldBack(h, 16);
    Round13Back(Fold(h, 16));
    Round16Back(Unround13(Fold(h, 16)));
  }

  // ---------- the hash ----------

  function At(data: seq<byte>, i: nat): byte {
    if i < |data| then data[i] else 0
  }

  /** The aligned word `k`, least significant byte first; past the end of the data there are zeros. */
  function Word(data: seq<byte>, k: nat): word {
    At(data, 4 * k) + 0x100 * At(data, 4 * k + 1) + 0x1_0000 * At(data, 4 * k + 2) + 0x100_0000 * At(data, 4 * k + 3)
  }

  /** The state after the first `n` words. */
  function Body(data: seq<byte>, n: nat, seed: word): word {
    if n == 0 then seed else Mix(Body(data, n - 1, seed), Word(data, n - 1))
  }

  /** The rest of the hash: the bytes after the last whole word, and the length. */
  function Finish(data: seq<byte>, h: word): word
    requires |data| < 0x1_0000_0000
  {
    Fmix(Xor32(Xor32(h, Scramble(Word(data, |data| / 4))), |data|))
  }

  function Hashed(data: seq<byte>, seed: word): word
    requires |data| < 0x1_0000_0000
  {
    Finish(data, Body(data, |data| / 4, seed))
  }

  method FmixOf(h0: word) returns (h: word)
    ensures h == Fmix(h0)
  {
    h := h0;
    h := Fold(h, 16);
    h := Times(h, 0x85ebca6b);
    h := Fold(h, 13);
    h := Times(h, 0xc2b2ae35);
    h := Fold(h, 16);
  }

  lemma NoScramble(k: word)
    requires k == 0
    ensures Scramble(k) == 0
  {
    NoTimes(k, C1);
    NoRotl(k, 15);
    NoTimes(k, C2);
  }

  lemma NoTimes(x: word, c: word)
    requires x == 0
    ensures Times(x, c) == 0
  {
    assert x * c == 0;
  }

  lemma NoRotl(x: word, r: nat)
    requires x == 0 && r <= 32
    ensures Rotl(x, r) == 0
  {
    ModIs(x, Pow2(32 - r), 0, 0);
  }

  lemma TailBytes(b2: byte, b1: byte, b0: byte, p: nat, q: nat)
    requires p == 0x1_0000 * b2 && q == 0x100 * b1
    ensures Xor(p, q) == p + q && Xor(p + q, b0) == p + q + b0
  {
    Pow2Is32();
    assert Pow2(16) == 0x1_0000;
    XorJoins(b2, q, 16, p);
    XorJoins(0x100 * b2 + b1, b0, 8, p + q);
  }

  /** The word the last one to three bytes make up, each case falling through to the next. */
  method TailWord(tail: seq<byte>) returns (k1: word)
    requires |tail| < 4
    ensures k1 == Word(tail, 0)
  {
    k1 := 0;
    if |tail| == 3 {
      var third: word := tail[2];
      XorNone(0x1_0000 * third);
      k1 := Xor32(k1, 0x1_0000 * third);
    }
    TailBytes(At(tail, 2), At(tail, 1), At(tail, 0), 0x1_0000 * At(tail, 2), 0x100 * At(tail, 1));
    assert k1 == 0x1_0000 * At(tail, 2);
    if |tail| >= 2 {
      var second: word := tail[1];
      k1 := Xor32(k1, 0x100 * second);
    }
    if |tail| >= 1 {
      k1 := Xor32(k1, tail[0]);
    }
  }

  method TailMix(tail: seq<byte>, h: word) returns (h': word)
    requires |tail| < 4
    ensures h' == Xor32(h, Scramble(Word(tail, 0)))
  {
    h' := h;
    var k1 := TailWord(tail);
    if |tail| >= 1 {
      k1 := Times(k1, C1);
      k1 := Rotl(k1, 15);
      k1 := Times(k1, C2);
      h' := Xor32(h, k1);
    } else {
      NoScramble(k1);
      XorNone(h);
    }
  }

  method MurmurHash3(data: seq<byte>, seed: word) returns (h: word)
    requires |data| < 0x1_0000_0000
    ensures h == Hashed(data, seed)
  {
    var nblocks := |data| / 4;
    h := seed;
    var i := -nblocks;
    while i != 0
      invariant -nblocks <= i <= 0
      invariant h == Body(data, nblocks + i, seed)
      decreases -i
    {
      var k1 := Word(data, nblocks + i);
      k1 := Times(k1, C1);
      k1 := Rotl(k1, 15);
      k1 := Times(k1, C2);
      h := Xor32(h, k1);
      h := Rotl(h, 13);
      h := FiveMore(h);
      i := i + 1;
    }
    var tail := data[4 * nblocks..];
    assert Word(tail, 0) == Word(data, nblocks);
    h := TailMix(tail, h);
    h := Xor32(h, |data|);
    h := FmixOf(h);
  }

  // ---------- what it cannot confuse ----------

  /** The seed with which the data has hash `h`. */
  function Unhashed(data: seq<byte>, h: word): word
    requires |data| < 0x1_0000_0000
  {
    Unbody(data, |data| / 4, Unfinished(data, h))
  }

  function Unfinished(data: seq<byte>, h: word): word
    requires |data| < 0x1_0000_0000
  {
    Xor32(Xor32(Unfmix(h), |data|), Scramble(Word(data, |data| / 4)))
  }

  function Unbody(data: seq<byte>, n: nat, h: word): word {
    if n == 0 then h else Unbody(data, n - 1, Unmix(h, Word(data, n - 1)))
  }

  lemma {:induction false} BodyBack(data: seq<byte>, n: nat, seed: word)
    ensures Unbody(data, n, Body(data, n, seed)) == seed
    ensures Body(data, n, Unbody(data, n, seed)) == seed
  {
    if n > 0 {
      var k := Word(data, n - 1);
      MixBack(Body(data, n - 1, seed), k);
      BodyBack(data, n - 1, seed);
      MixBack(seed, k);
      BodyBack(data, n - 1, Unmix(seed, k));
    }
  }

  lemma FinishBack(data: seq<byte>, h: word)
    requires |data| < 0x1_0000_0000
    ensures Unfinished(data, Finish(data, h)) == h
    ensures Finish(data, Unfinished(data, h)) == h
  {
    var s := Scramble(Word(data, |data| / 4));
    XorTwice(h, s);
    XorTwice(Xor32(h, s), |data|);
    FmixBack(Xor32(Xor32(h, s), |data|));
    XorTwice(Unfmix(h), |data|);
    XorTwice(Xor32(Unfmix(h), |data|), s);
    FmixForth(h);
  }

  /** For fixed data the hash is a bijection of the seed. */
  lemma SeedBijection(data: seq<byte>, seed: word, h: word)
    requires |data| < 0x1_0000_0000
    ensures Hashed(data, seed) == h <==> seed == Unhashed(data, h)
  {
    var n := |data| / 4;
    BodyBack(data, n, seed);
    FinishBack(data, Body(data, n, seed));
    BodyBack(data, n, Unfinished(data, h));
    FinishBack(data, h);
  }

  /** Data of the same length that differs at most in the aligned word `k`, the last of which may be short. */
  ghost predicate OneWord(a: seq<byte>, b: seq<byte>, k: nat) {
    |a| == |b| && forall i :: 0 <= i < |a| && i / 4 != k ==> a[i] == b[i]
  }

  lemma WordSame(a: seq<byte>, b: seq<byte>, k: nat, j: nat)
    requires OneWord(a, b, k) && j != k
    ensures Word(a, j) == Word(b, j)
  {
  }

  lemma WordDiffers(a: seq<byte>, b: seq<byte>, k: nat)
    requires OneWord(a, b, k) && Word(a, k) == Word(b, k)
    ensures a == b
  {
    assert forall i :: 4 * k <= i < 4 * k + 4 ==> At(a, i) == At(b, i);
    forall i | 0 <= i < |a| ensures a[i] == b[i] {
      assert At(a, i) == a[i] && At(b, i) == b[i];
    }
  }

  lemma {:induction false} BodySame(a: seq<byte>, b: seq<byte>, k: nat, n: nat, seed: word)
    requires OneWord(a, b, k) && n <= k
    ensures Body(a, n, seed) == Body(b, n, seed)
  {
    if n > 0 {
      BodySame(a, b, k, n - 1, seed);
      WordSame(a, b, k, n - 1);
    }
  }

  lemma MixDiffers(h: word, j: word, k: word)
    requires j != k
    ensures Mix(h, j) != Mix(h, k)
  {
    MixTo(h, j, Mix(h, k));
    MixTo(h, k, Mix(h, k));
  }

  lemma {:induction false} BodyDiffers(a: seq<byte>, b: seq<byte>, k: nat, n: nat, seed: word)
    requires OneWord(a, b, k) && k < n && Word(a, k) != Word(b, k)
    ensures Body(a, n, seed) != Body(b, n, seed)
  {
    if n == k + 1 {
      BodySame(a, b, k, k, seed);
      MixDiffers(Body(a, k, seed), Word(a, k), Word(b, k));
    } else {
      BodyDiffers(a, b, k, n - 1, seed);
      WordSame(a, b, k, n - 1);
      MixBack(Body(a, n - 1, seed), Word(a, n - 1));
      MixBack(Body(b, n - 1, seed), Word(a, n - 1));
    }
  }

  /** Inputs that differ in one aligned word only, or only in the bytes after the last whole one, never collide. */
  lemma OneWordNeverCollides(a: seq<byte>, b: seq<byte>, k: nat, seed: word)
    requires OneWord(a, b, k) && |a| < 0x1_0000_0000
    ensures Hashed(a, seed) == Hashed(b, seed) <==> a == b
  {
    if a != b {
      if Word(a, k) == Word(b, k) { WordDiffers(a, b, k); assert false; }
      var n := |a| / 4;
      if k < n {
        BodyDiffers(a, b, k, n, seed);
        WordSame(a, b, k, n);
        FinishBack(a, Body(a, n, seed));
        FinishBack(b, Body(b, n, seed));
      } else {
        assert k == n by { assert forall i :: 0 <= i < |a| ==> i / 4 <= n; }
        BodySame(a, b, k, n, seed);
        TailDiffers(a, b, Body(a, n, seed));
      }
    }
  }

  lemma TailDiffers(a: seq<byte>, b: seq<byte>, h: word)
    requires |a| == |b| < 0x1_0000_0000 && Word(a, |a| / 4) != Word(b, |a| / 4)
    ensures Finish(a, h) != Finish(b, h)
  {
    var (s, t) := (Scramble(Word(a, |a| / 4)), Scramble(Word(b, |a| / 4)));
    ScrambleBack(Word(a, |a| / 4));
    ScrambleBack(Word(b, |a| / 4));
    XorSwap(h, s);
    XorSwap(h, t);
    XorTwice(s, h);
    XorTwice(t, h);
    XorTwice(Xor32(h, s), |a|);
    XorTwice(Xor32(h, t), |a|);
    FmixBack(Xor32(Xor32(h, s), |a|));
    FmixBack(Xor32(Xor32(h, t), |a|));
  }
}
