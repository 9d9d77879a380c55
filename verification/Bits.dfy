/** Numbers as strings of bits, the most significant first. */
module Bits {
  import opened Common

  function Pow2(k: nat): (p: nat)
    ensures p > 0
  {
    if k == 0 then 1 else 2 * Pow2(k - 1)
  }

  /** The low `k` bits of `v`. */
  function Low(v: nat, k: nat): (b: seq<bool>)
    ensures |b| == k
  {
    if k == 0 then [] else Low(v / 2, k - 1) + [v % 2 == 1]
  }

  function Number(b: seq<bool>): nat {
    if b == [] then 0
    else 2 * Number(b[..|b| - 1]) + if b[|b| - 1] then 1 else 0
  }

  /** `v` shifted down `k` places. */
  function Down(v: nat, k: nat): nat {
    if k == 0 then v else Down(v / 2, k - 1)
  }

  lemma {:induction false} LowNumber(b: seq<bool>)
    ensures Low(Number(b), |b|) == b && Number(b) < Pow2(|b|)
  {
    if b != [] { LowNumber(b[..|b| - 1]); }
  }

  lemma {:induction false} NumberLow(v: nat, k: nat)
    ensures Number(Low(v, k)) == v % Pow2(k)
  {
    if k > 0 {
      NumberLow(v / 2, k - 1);
      var b := Low(v, k);
      assert b[..|b| - 1] == Low(v / 2, k - 1);
      HalfMod(v, Pow2(k - 1));
    }
  }

  lemma HalfMod(v: nat, p: nat)
    requires p > 0
    ensures v % (2 * p) == v / 2 % p * 2 + v % 2
  {
    var (q, r) := (v / 2 / p, v / 2 % p);
    assert v / 2 == q * p + r;
    assert v == q * (2 * p) + (2 * r + v % 2);
    ModUnique(v, 2 * p, q, 2 * r + v % 2);
  }

  lemma ModUnique(v: nat, m: nat, q: nat, r: nat)
    requires m > 0 && v == q * m + r && r < m
    ensures v % m == r
  {
    var (q', r') := (v / m, v % m);
    var d := q' - q;
    assert d * m == q' * m - q * m == r - r';
    if d >= 1 {
      AtLeastOnce(d, m);
    } else if d <= -1 {
      AtLeastOnce(-d, m);
    }
  }

  /** Shifting down drops the low bits. */
  lemma {:induction false} LowSplit(v: nat, j: nat, k: nat)
    ensures Low(v, j + k) == Low(Down(v, k), j) + Low(v, k)
    decreases k
  {
    if k > 0 { LowSplit(v / 2, j, k - 1); }
  }

  lemma PowDouble(a: nat, k: nat)
    requires k > 0
    ensures a * Pow2(k) == 2 * (a * Pow2(k - 1)) >= 0
  {
  }

  /** Bits above do not matter. */
  lemma {:induction false} LowIgnores(v: nat, q: nat, n: nat, k: nat, w: nat)
    requires k <= n && w == v + q * Pow2(n)
    ensures Low(w, k) == Low(v, k)
    decreases k
  {
    if k > 0 {
      PowDouble(q, n);
      LowIgnores(v / 2, q, n - 1, k - 1, v / 2 + q * Pow2(n - 1));
    }
  }

  /** Shifting up makes room at the low end. */
  lemma {:induction false} LowJoin(v: nat, w: nat, j: nat, k: nat, x: nat)
    requires w < Pow2(k) && x == v * Pow2(k) + w
    ensures Low(x, j + k) == Low(v, j) + Low(w, k)
    decreases k
  {
    if k == 0 {
      assert Low(w, 0) == [];
    } else {
      PowDouble(v, k);
      LowJoin(v, w / 2, j, k - 1, v * Pow2(k - 1) + w / 2);
    }
  }

  /** A 32-bit register keeps its low bits when it wraps. */
  lemma LowWrapped(v: nat, k: nat)
    requires k <= 32
    ensures Low(v % 0x1_0000_0000, k) == Low(v, k)
  {
    Pow2Is32();
    LowIgnores(v % 0x1_0000_0000, v / 0x1_0000_0000, 32, k, v);
  }

  lemma Pow2Is32()
    ensures Pow2(4) == 16 && Pow2(5) == 32 && Pow2(8) == 256 && Pow2(32) == 0x1_0000_0000
  {
    assert Pow2(8) == 256;
    assert Pow2(16) == 65536;
    assert Pow2(24) == 0x100_0000;
  }
}
