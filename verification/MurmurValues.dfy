/** The bytes of a word, and published values of the 32-bit MurmurHash3, worked out from its definition. */
module MurmurValues {
  import opened Common
  import opened Bits
  import opened Murmur

  // ---------- exclusive or, on the hexadecimal digits ----------

  function Bit(p: nat, q: nat): nat {
    if Odd(p) != Odd(q) then 1 else 0
  }

  function Digit(p: nat, q: nat): nat {
    8 * Bit(p / 8, q / 8) + 4 * Bit(p / 4, q / 4) + 2 * Bit(p / 2, q / 2) + Bit(p, q)
  }

  /** The low two binary digits. */
  function Pairs(p: nat, q: nat): nat {
    2 * Bit(p / 2, q / 2) + Bit(p, q)
  }

  lemma XorBit(v: nat, w: nat)
    ensures Xor(v, w) == 2 * Xor(v / 2, w / 2) + Bit(v, w)
  {
    XorParts(v, w);
  }

  lemma XorPair(a: nat, b: nat, p: nat, q: nat)
    requires p < 4 && q < 4
    ensures Xor(4 * a + p, 4 * b + q) == 4 * Xor(a, b) + Pairs(p, q)
  {
    var (v, w) := (2 * a + p / 2, 2 * b + q / 2);
    XorBit(4 * a + p, 4 * b + q);
    assert (4 * a + p) / 2 == v && (4 * b + q) / 2 == w;
    XorBit(v, w);
  }

  lemma XorPairs(a: nat, b: nat, p: nat, q: nat)
    requires p < 16 && q < 16
    ensures Xor(16 * a + p, 16 * b + q) == 16 * Xor(a, b) + (4 * Pairs(p / 4, q / 4) + Pairs(p % 4, q % 4))
  {
    var (v, w) := (4 * a + p / 4, 4 * b + q / 4);
    assert 4 * v + p % 4 == 16 * a + p && 4 * w + q % 4 == 16 * b + q;
    XorPair(v, w, p % 4, q % 4);
    XorPair(a, b, p / 4, q / 4);
  }

  lemma DigitParts(p: nat)
    requires p < 16
    ensures p / 4 / 2 == p / 8 && (Odd(p % 4 / 2) <==> Odd(p / 2)) && (Odd(p % 4) <==> Odd(p))
  {
    assert p == 8 * (p / 8) + 4 * (p / 4 % 2) + 2 * (p / 2 % 2) + p % 2;
  }

  lemma DigitPairs(p: nat, q: nat)
    requires p < 16 && q < 16
    ensures Digit(p, q) == 4 * Pairs(p / 4, q / 4) + Pairs(p % 4, q % 4)
  {
    DigitParts(p);
    DigitParts(q);
  }

  ghost predicate Adds(p: nat, q: nat, r: nat) {
    p < 16 && q < 16 && r == Digit(p, q)
  }

  lemma XorDigit(a: nat, b: nat, c: nat, p: nat, q: nat, r: nat)
    requires Xor(a, b) == c && Adds(p, q, r)
    ensures Xor(16 * a + p, 16 * b + q) == 16 * c + r
  {
    XorPairs(a, b, p, q);
    DigitPairs(p, q);
  }

  /** The number with these hexadecimal digits. */
  function Hex(d: seq<nat>): nat {
    if d == [] then 0 else 16 * Hex(d[..|d| - 1]) + d[|d| - 1]
  }

  lemma {:induction false} XorHex(a: seq<nat>, b: seq<nat>, c: seq<nat>)
    requires |a| == |b| == |c| && forall i :: 0 <= i < |a| ==> Adds(a[i], b[i], c[i])
    ensures Xor(Hex(a), Hex(b)) == Hex(c)
  {
    if a != [] {
      var n := |a| - 1;
      XorHex(a[..n], b[..n], c[..n]);
      XorDigit(Hex(a[..n]), Hex(b[..n]), Hex(c[..n]), a[n], b[n], c[n]);
    }
  }

  function Four(a: nat, p: nat, q: nat, r: nat, s: nat): nat {
    0x1_0000 * a + 0x1000 * p + 0x100 * q + 0x10 * r + s
  }

  function Eight(d: seq<nat>): nat
    requires |d| == 8
  {
    Four(Four(0, d[0], d[1], d[2], d[3]), d[4], d[5], d[6], d[7])
  }

  lemma OneMoreDigit(d: seq<nat>, n: nat)
    requires n < |d|
    ensures Hex(d[..n + 1]) == 16 * Hex(d[..n]) + d[n]
  {
    assert d[..n + 1][..n] == d[..n];
  }

  lemma HexEight(d: seq<nat>)
    requires |d| == 8
    ensures Hex(d) == Eight(d)
  {
    OneMoreDigit(d, 0);
    OneMoreDigit(d, 1);
    OneMoreDigit(d, 2);
    OneMoreDigit(d, 3);
    OneMoreDigit(d, 4);
    OneMoreDigit(d, 5);
    OneMoreDigit(d, 6);
    OneMoreDigit(d, 7);
    assert d[..8] == d;
  }

  ghost predicate Spells(d: seq<nat>, v: nat) {
    |d| == 8 && v == Eight(d)
  }

  lemma XorWord(v: nat, w: nat, x: nat, a: seq<nat>, b: seq<nat>, c: seq<nat>)
    requires Spells(a, v) && Spells(b, w) && Spells(c, x)
    requires Adds(a[0], b[0], c[0]) && Adds(a[1], b[1], c[1]) && Adds(a[2], b[2], c[2]) && Adds(a[3], b[3], c[3])
    requires Adds(a[4], b[4], c[4]) && Adds(a[5], b[5], c[5]) && Adds(a[6], b[6], c[6]) && Adds(a[7], b[7], c[7])
    ensures Xor(v, w) == x
  {
    XorHex(a, b, c);
    HexEight(a);
    HexEight(b);
    HexEight(c);
  }

  // ---------- the steps, on numbers ----------

  lemma {:induction false} DownIs(v: nat, k: nat)
    ensures Down(v, k) == v / Pow2(k)
  {
    if k > 0 {
      DownIs(v / 2, k - 1);
      HalfQuotient(v, Pow2(k - 1));
    }
  }

  lemma HalfQuotient(v: nat, p: nat)
    requires p > 0
    ensures v / 2 / p == v / (2 * p)
  {
    var (q, r) := (v / 2 / p, v / 2 % p);
    assert v / 2 == p * q + r;
    assert v == q * (2 * p) + (2 * r + v % 2);
    ModIs(v, 2 * p, q, 2 * r + v % 2);
  }

  lemma Powers()
    ensures Pow2(0) == 1 && Pow2(8) == 0x100 && Pow2(24) == 0x100_0000
    ensures Pow2(13) == 0x2000 && Pow2(15) == 0x8000 && Pow2(16) == 0x1_0000 && Pow2(17) == 0x2_0000
    ensures Pow2(19) == 0x8_0000
  {
    assert Pow2(8) == 0x100;
    assert Pow2(13) == 0x2000;
    assert Pow2(15) == 0x8000;
    assert Pow2(17) == 0x2_0000;
    assert Pow2(19) == 0x8_0000;
    assert Pow2(24) == 0x100_0000;
  }

  lemma Rotl15(x: word)
    ensures Rotl(x, 15) == x % 0x2_0000 * 0x8000 + x / 0x2_0000
  {
    Powers();
  }

  lemma Rotl13(x: word)
    ensures Rotl(x, 13) == x % 0x8_0000 * 0x2000 + x / 0x8_0000
  {
    Powers();
  }

  lemma ScrambleIs(k: word, a: word, r: word, s: word)
    requires a == k * 0xcc9e_2d51 % 0x1_0000_0000
    requires r == a % 0x2_0000 * 0x8000 + a / 0x2_0000
    requires s == r * 0x1b87_3593 % 0x1_0000_0000
    ensures Scramble(k) == s
  {
    Rotl15(a);
  }

  predicate Turns(x: word, r: word) {
    r == x % 0x8_0000 * 0x2000 + x / 0x8_0000
  }

  predicate FivesTo(r: word, m: word) {
    m == (r * 5 + 0xe654_6b64) % 0x1_0000_0000
  }

  lemma FiveMoreIs(r: word, m: word)
    requires FivesTo(r, m)
    ensures FiveMore(r) == m
  {
  }

  lemma MixIs(h: word, k: word, s: word, x: word, r: word, m: word)
    requires Scramble(k) == s && Xor(h, s) == x
    requires Turns(x, r) && FivesTo(r, m)
    ensures Mix(h, k) == m
  {
    Rotl13(x);
    FiveMoreIs(r, m);
  }

  lemma Fold16(h: word)
    ensures Fold(h, 16) == Xor(h, h / 0x1_0000)
  {
    Powers();
    DownIs(h, 16);
  }

  lemma Fold13(h: word)
    ensures Fold(h, 13) == Xor(h, h / 0x2000)
  {
    Powers();
    DownIs(h, 13);
  }

  lemma FmixIs(h: word, x: word, m: word, y: word, n: word, z: word)
    requires Xor(h, h / 0x1_0000) == x && m == x * 0x85eb_ca6b % 0x1_0000_0000
    requires Xor(m, m / 0x2000) == y && n == y * 0xc2b2_ae35 % 0x1_0000_0000
    requires Xor(n, n / 0x1_0000) == z
    ensures Fmix(h) == z
  {
    Fold16(h);
    Fold13(m);
    Fold16(n);
  }

  // ---------- the bytes of a word ----------

  /** Byte `j` of a word, counted from the low end, is byte `j` of that word in memory. */
  lemma WordBytes(data: seq<byte>, k: nat, j: nat)
    requires j < 4
    ensures Down(Word(data, k), 8 * j) % 0x100 == if 4 * k + j < |data| then data[4 * k + j] else 0
  {
    Powers();
    DownIs(Word(data, k), 8 * j);
    Picks(At(data, 4 * k), At(data, 4 * k + 1), At(data, 4 * k + 2), At(data, 4 * k + 3), Word(data, k));
  }

  lemma Picks(a: byte, b: byte, c: byte, d: byte, w: nat)
    requires w == a + 0x100 * b + 0x1_0000 * c + 0x100_0000 * d
    ensures w % 0x100 == a && w / 0x100 % 0x100 == b && w / 0x1_0000 % 0x100 == c && w / 0x100_0000 % 0x100 == d
  {
    assert w == a + 0x100 * (b + 0x100 * c + 0x1_0000 * d);
    assert w == a + 0x100 * b + 0x1_0000 * (c + 0x100 * d);
    assert w / 0x100_0000 == d;
  }

  // ---------- the values, each step with the numbers in the order in which they come up ----------

  lemma EmptyFmixFirst(h: word, x: word)
    requires h == 1 && x == 1
    ensures Xor(h, h / 0x1_0000) == x
  {
    XorWord(h, h / 0x1_0000, x,
            [0, 0, 0, 0, 0, 0, 0, 1],
            [0, 0, 0, 0, 0, 0, 0, 0],
            [0, 0, 0, 0, 0, 0, 0, 1]);
  }

  lemma EmptyFmixSecond(m: word, y: word)
    requires m == 0x85eb_ca6b && y == 0x85ef_e535
    ensures Xor(m, m / 0x2000) == y
  {
    XorWord(m, m / 0x2000, y,
            [8, 5, 0xe, 0xb, 0xc, 0xa, 6, 0xb],
            [0, 0, 0, 4, 2, 0xf, 5, 0xe],
            [8, 5, 0xe, 0xf, 0xe, 5, 3, 5]);
  }

  lemma EmptyFmixThird(n: word, z: word)
    requires n == 0x514e_79f9 && z == 0x514e_28b7
    ensures Xor(n, n / 0x1_0000) == z
  {
    XorWord(n, n / 0x1_0000, z,
            [5, 1, 4, 0xe, 7, 9, 0xf, 9],
            [0, 0, 0, 0, 5, 1, 4, 0xe],
            [5, 1, 4, 0xe, 2, 8, 0xb, 7]);
  }

  lemma EmptyFmix(h: word, x: word, m: word, y: word, n: word, z: word)
    requires h == 1 && x == 1 && m == 0x85eb_ca6b && y == 0x85ef_e535
    requires n == 0x514e_79f9 && z == 0x514e_28b7
    ensures Fmix(h) == z
  {
    EmptyFmixFirst(h, x);
    EmptyFmixSecond(m, y);
    EmptyFmixThird(n, z);
    FmixIs(h, x, m, y, n, z);
  }

  lemma TestMixWord(k: word, a: word, b: word, s: word)
    requires k == 0x7473_6574 && a == 0x2ef0_7db4 && b == 0x3eda_1778 && s == 0x465f_51e8
    ensures Scramble(k) == s
  {
    ScrambleIs(k, a, b, s);
  }

  lemma TestMixSum(h: word, s: word, x: word)
    requires h == 0 && s == 0x465f_51e8 && x == 0x465f_51e8
    ensures Xor(h, s) == x
  {
    XorWord(h, s, x,
            [0, 0, 0, 0, 0, 0, 0, 0],
            [4, 6, 5, 0xf, 5, 1, 0xe, 8],
            [4, 6, 5, 0xf, 5, 1, 0xe, 8]);
  }

  lemma TestMixTurn(x: word, r: word, m: word)
    requires x == 0x465f_51e8 && r == 0xea3d_08cb && m == 0x7985_975b
    ensures Turns(x, r) && FivesTo(r, m)
  {
    assert x == 0x8_0000 * 0x8cb + 0x7_51e8;
  }

  lemma TestMix(h: word, k: word, a: word, b: word, s: word, x: word, r: word, m: word)
    requires h == 0 && k == 0x7473_6574 && a == 0x2ef0_7db4 && b == 0x3eda_1778
    requires s == 0x465f_51e8 && x == 0x465f_51e8 && r == 0xea3d_08cb && m == 0x7985_975b
    ensures Mix(h, k) == m
  {
    TestMixWord(k, a, b, s);
    TestMixSum(h, s, x);
    TestMixTurn(x, r, m);
    MixIs(h, k, s, x, r, m);
  }

  lemma TestFmixFirst(h: word, x: word)
    requires h == 0x7985_975f && x == 0x7985_eeda
    ensures Xor(h, h / 0x1_0000) == x
  {
    XorWord(h, h / 0x1_0000, x,
            [7, 9, 8, 5, 9, 7, 5, 0xf],
            [0, 0, 0, 0, 7, 9, 8, 5],
            [7, 9, 8, 5, 0xe, 0xe, 0xd, 0xa]);
  }

  lemma TestFmixSecond(m: word, y: word)
    requires m == 0xfd90_d91e && y == 0xfd97_3598
    ensures Xor(m, m / 0x2000) == y
  {
    XorWord(m, m / 0x2000, y,
            [0xf, 0xd, 9, 0, 0xd, 9, 1, 0xe],
            [0, 0, 0, 7, 0xe, 0xc, 8, 6],
            [0xf, 0xd, 9, 7, 3, 5, 9, 8]);
  }

  lemma TestFmixThird(n: word, z: word)
    requires n == 0xba6b_6878 && z == 0xba6b_d213
    ensures Xor(n, n / 0x1_0000) == z
  {
    XorWord(n, n / 0x1_0000, z,
            [0xb, 0xa, 6, 0xb, 6, 8, 7, 8],
            [0, 0, 0, 0, 0xb, 0xa, 6, 0xb],
            [0xb, 0xa, 6, 0xb, 0xd, 2, 1, 3]);
  }

  lemma TestFmix(h: word, x: word, m: word, y: word, n: word, z: word)
    requires h == 0x7985_975f && x == 0x7985_eeda && m == 0xfd90_d91e && y == 0xfd97_3598
    requires n == 0xba6b_6878 && z == 0xba6b_d213
    ensures Fmix(h) == z
  {
    TestFmixFirst(h, x);
    TestFmixSecond(m, y);
    TestFmixThird(n, z);
    FmixIs(h, x, m, y, n, z);
  }

  lemma Hello0Word(k: word, a: word, b: word, s: word)
    requires k == 0x6c6c_6548 && a == 0x3e89_b3c8 && b == 0xd9e4_1f44 && s == 0x153_080c
    ensures Scramble(k) == s
  {
    ScrambleIs(k, a, b, s);
  }

  lemma Hello0Sum(h: word, s: word, x: word)
    requires h == 0x9747_b28c && s == 0x153_080c && x == 0x9614_ba80
    ensures Xor(h, s) == x
  {
    XorWord(h, s, x,
            [9, 7, 4, 7, 0xb, 2, 8, 0xc],
            [0, 1, 5, 3, 0, 8, 0, 0xc],
            [9, 6, 1, 4, 0xb, 0xa, 8, 0]);
  }

  lemma Hello0Turn(x: word, r: word, m: word)
    requires x == 0x9614_ba80 && r == 0x9750_12c2 && m == 0xdae4_c92e
    ensures Turns(x, r) && FivesTo(r, m)
  {
    assert x == 0x8_0000 * 0x12c2 + 0x4_ba80;
  }

  lemma Hello0(h: word, k: word, a: word, b: word, s: word, x: word, r: word, m: word)
    requires h == 0x9747_b28c && k == 0x6c6c_6548 && a == 0x3e89_b3c8 && b == 0xd9e4_1f44
    requires s == 0x153_080c && x == 0x9614_ba80 && r == 0x9750_12c2 && m == 0xdae4_c92e
    ensures Mix(h, k) == m
  {
    Hello0Word(k, a, b, s);
    Hello0Sum(h, s, x);
    Hello0Turn(x, r, m);
    MixIs(h, k, s, x, r, m);
  }

  lemma Hello1Word(k: word, a: word, b: word, s: word)
    requires k == 0x7720_2c6f && a == 0x397f_921f && b == 0xc90f_9cbf && s == 0x7d23_8cad
    ensures Scramble(k) == s
  {
    ScrambleIs(k, a, b, s);
  }

  lemma Hello1Sum(h: word, s: word, x: word)
    requires h == 0xdae4_c92e && s == 0x7d23_8cad && x == 0xa7c7_4583
    ensures Xor(h, s) == x
  {
    XorWord(h, s, x,
            [0xd, 0xa, 0xe, 4, 0xc, 9, 2, 0xe],
            [7, 0xd, 2, 3, 8, 0xc, 0xa, 0xd],
            [0xa, 7, 0xc, 7, 4, 5, 8, 3]);
  }

  lemma Hello1Turn(x: word, r: word, m: word)
    requires x == 0xa7c7_4583 && r == 0xe8b0_74f8 && m == 0x71c6_b43c
    ensures Turns(x, r) && FivesTo(r, m)
  {
    assert x == 0x8_0000 * 0x14f8 + 0x7_4583;
  }

  lemma Hello1(h: word, k: word, a: word, b: word, s: word, x: word, r: word, m: word)
    requires h == 0xdae4_c92e && k == 0x7720_2c6f && a == 0x397f_921f && b == 0xc90f_9cbf
    requires s == 0x7d23_8cad && x == 0xa7c7_4583 && r == 0xe8b0_74f8 && m == 0x71c6_b43c
    ensures Mix(h, k) == m
  {
    Hello1Word(k, a, b, s);
    Hello1Sum(h, s, x);
    Hello1Turn(x, r, m);
    MixIs(h, k, s, x, r, m);
  }

  lemma Hello2Word(k: word, a: word, b: word, s: word)
    requires k == 0x646c_726f && a == 0xeaef_b81f && b == 0xdc0f_f577 && s == 0xa9bc_9655
    ensures Scramble(k) == s
  {
    ScrambleIs(k, a, b, s);
  }

  lemma Hello2Sum(h: word, s: word, x: word)
    requires h == 0x71c6_b43c && s == 0xa9bc_9655 && x == 0xd87a_2269
    ensures Xor(h, s) == x
  {
    XorWord(h, s, x,
            [7, 1, 0xc, 6, 0xb, 4, 3, 0xc],
            [0xa, 9, 0xb, 0xc, 9, 6, 5, 5],
            [0xd, 8, 7, 0xa, 2, 2, 6, 9]);
  }

  lemma Hello2Turn(x: word, r: word, m: word)
    requires x == 0xd87a_2269 && r == 0x444d_3b0f && m == 0x3bd6_92af
    ensures Turns(x, r) && FivesTo(r, m)
  {
    assert x == 0x8_0000 * 0x1b0f + 0x2_2269;
  }

  lemma Hello2(h: word, k: word, a: word, b: word, s: word, x: word, r: word, m: word)
    requires h == 0x71c6_b43c && k == 0x646c_726f && a == 0xeaef_b81f && b == 0xdc0f_f577
    requires s == 0xa9bc_9655 && x == 0xd87a_2269 && r == 0x444d_3b0f && m == 0x3bd6_92af
    ensures Mix(h, k) == m
  {
    Hello2Word(k, a, b, s);
    Hello2Sum(h, s, x);
    Hello2Turn(x, r, m);
    MixIs(h, k, s, x, r, m);
  }

  lemma HelloTail(h: word, s: word, x: word, y: word)
    requires h == 0x3bd6_92af && s == 0xac5e_5123 && x == 0x9788_c38c && y == 0x9788_c381
    ensures Xor(Xor(h, Scramble(0x21)), 13) == y
  {
    ScrambleIs(0x21, 0x6063_d771, 0xebb8_b031, s);
    XorWord(h, s, x,
            [3, 0xb, 0xd, 6, 9, 2, 0xa, 0xf],
            [0xa, 0xc, 5, 0xe, 5, 1, 2, 3],
            [9, 7, 8, 8, 0xc, 3, 8, 0xc]);
    XorWord(x, 13, y,
            [9, 7, 8, 8, 0xc, 3, 8, 0xc],
            [0, 0, 0, 0, 0, 0, 0, 0xd],
            [9, 7, 8, 8, 0xc, 3, 8, 1]);
  }

  lemma HelloFmixFirst(h: word, x: word)
    requires h == 0x9788_c381 && x == 0x9788_5409
    ensures Xor(h, h / 0x1_0000) == x
  {
    XorWord(h, h / 0x1_0000, x,
            [9, 7, 8, 8, 0xc, 3, 8, 1],
            [0, 0, 0, 0, 9, 7, 8, 8],
            [9, 7, 8, 8, 5, 4, 0, 9]);
  }

  lemma HelloFmixSecond(m: word, y: word)
    requires m == 0xb98d_39c3 && y == 0xb988_f5aa
    ensures Xor(m, m / 0x2000) == y
  {
    XorWord(m, m / 0x2000, y,
            [0xb, 9, 8, 0xd, 3, 9, 0xc, 3],
            [0, 0, 0, 5, 0xc, 0xc, 6, 9],
            [0xb, 9, 8, 8, 0xf, 5, 0xa, 0xa]);
  }

  lemma HelloFmixThird(n: word, z: word)
    requires n == 0x2488_6832 && z == 0x2488_4cba
    ensures Xor(n, n / 0x1_0000) == z
  {
    XorWord(n, n / 0x1_0000, z,
            [2, 4, 8, 8, 6, 8, 3, 2],
            [0, 0, 0, 0, 2, 4, 8, 8],
            [2, 4, 8, 8, 4, 0xc, 0xb, 0xa]);
  }

  lemma HelloFmix(h: word, x: word, m: word, y: word, n: word, z: word)
    requires h == 0x9788_c381 && x == 0x9788_5409 && m == 0xb98d_39c3 && y == 0xb988_f5aa
    requires n == 0x2488_6832 && z == 0x2488_4cba
    ensures Fmix(h) == z
  {
    HelloFmixFirst(h, x);
    HelloFmixSecond(m, y);
    HelloFmixThird(n, z);
    FmixIs(h, x, m, y, n, z);
  }

  lemma TestLength(h: word, y: word)
    requires h == 0x7985_975b && y == 0x7985_975f
    ensures Xor(h, 4) == y
  {
    XorWord(h, 4, y,
            [7, 9, 8, 5, 9, 7, 5, 0xb],
            [0, 0, 0, 0, 0, 0, 0, 4],
            [7, 9, 8, 5, 9, 7, 5, 0xf]);
  }

  /** No data, with seed 1. */
  lemma HashOfNothing()
    ensures Hashed([], 1) == 0x514e_28b7
  {
    assert Word([], 0) == 0;
    NoScramble(0);
    XorNone(1);
    EmptyFmix(1, 1, 0x85eb_ca6b, 0x85ef_e535, 0x514e_79f9, 0x514e_28b7);
  }

  /** The text "test", with seed 0: one whole word. */
  lemma HashOfTest()
    ensures Hashed([0x74, 0x65, 0x73, 0x74], 0) == 0xba6b_d213
  {
    var data: seq<byte> := [0x74, 0x65, 0x73, 0x74];
    assert Word(data, 0) == 0x7473_6574 && Word(data, 1) == 0;
    TestMix(0, 0x7473_6574, 0x2ef0_7db4, 0x3eda_1778, 0x465f_51e8, 0x465f_51e8, 0xea3d_08cb, 0x7985_975b);
    assert Body(data, 1, 0) == Mix(Body(data, 0, 0), Word(data, 0));
    NoScramble(0);
    XorNone(0x7985_975b);
    TestLength(0x7985_975b, 0x7985_975f);
    TestFmix(0x7985_975f, 0x7985_eeda, 0xfd90_d91e, 0xfd97_3598, 0xba6b_6878, 0xba6b_d213);
  }

  /** The text "Hello, world!": three whole words and a tail. */
  lemma HashOfHello()
    ensures Hashed([0x48, 0x65, 0x6c, 0x6c, 0x6f, 0x2c, 0x20, 0x77, 0x6f, 0x72, 0x6c, 0x64, 0x21], 0x9747_b28c)
            == 0x2488_4cba
  {
    var data: seq<byte> := [0x48, 0x65, 0x6c, 0x6c, 0x6f, 0x2c, 0x20, 0x77, 0x6f, 0x72, 0x6c, 0x64, 0x21];
    HelloWords(data);
    HelloBody(data);
    HelloTail(0x3bd6_92af, 0xac5e_5123, 0x9788_c38c, 0x9788_c381);
    HelloFmix(0x9788_c381, 0x9788_5409, 0xb98d_39c3, 0xb988_f5aa, 0x2488_6832, 0x2488_4cba);
  }

  lemma HelloWords(data: seq<byte>)
    requires data == [0x48, 0x65, 0x6c, 0x6c, 0x6f, 0x2c, 0x20, 0x77, 0x6f, 0x72, 0x6c, 0x64, 0x21]
    ensures Word(data, 0) == 0x6c6c_6548 && Word(data, 1) == 0x7720_2c6f
    ensures Word(data, 2) == 0x646c_726f && Word(data, 3) == 0x21
  {
  }

  lemma HelloBody(data: seq<byte>)
    requires Word(data, 0) == 0x6c6c_6548 && Word(data, 1) == 0x7720_2c6f && Word(data, 2) == 0x646c_726f
    ensures Body(data, 3, 0x9747_b28c) == 0x3bd6_92af
  {
    var seed: word := 0x9747_b28c;
    Hello0(0x9747_b28c, 0x6c6c_6548, 0x3e89_b3c8, 0xd9e4_1f44, 0x153_080c, 0x9614_ba80, 0x9750_12c2, 0xdae4_c92e);
    Hello1(0xdae4_c92e, 0x7720_2c6f, 0x397f_921f, 0xc90f_9cbf, 0x7d23_8cad, 0xa7c7_4583, 0xe8b0_74f8, 0x71c6_b43c);
    Hello2(0x71c6_b43c, 0x646c_726f, 0xeaef_b81f, 0xdc0f_f577, 0xa9bc_9655, 0xd87a_2269, 0x444d_3b0f, 0x3bd6_92af);
    assert Body(data, 1, seed) == Mix(seed, Word(data, 0));
    assert Body(data, 2, seed) == Mix(Body(data, 1, seed), Word(data, 1));
    assert Body(data, 3, seed) == Mix(Body(data, 2, seed), Word(data, 2));
  }
}
