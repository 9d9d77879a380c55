/** Types and facts the other modules share. */
module Common {
  datatype Option<+T> = None | Some(value: T)

  type byte = b: nat | b < 0x100
  type uint16 = n: nat | n < 0x1_0000
  type uint32 = n: nat | n < 0x1_0000_0000

  /** Two bytes as a number. */
  function Pair(high: nat, low: nat): nat {
    0x100 * high + low
  }

  /** The bytes before the terminator, or all of them if there is none. */
  function Text(s: seq<byte>): (t: seq<byte>)
    ensures t <= s && 0 !in t
    ensures 0 in s ==> |t| < |s| && s[|t|] == 0
    ensures 0 !in s ==> t == s
  {
    if s == [] || s[0] == 0 then [] else [s[0]] + Text(s[1..])
  }

  /** Memory with `bytes` stored from address `base` on. */
  function Store(ram: seq<byte>, base: nat, bytes: seq<byte>): (r: seq<byte>)
    requires base + |bytes| <= |ram|
    ensures |r| == |ram|
    ensures forall a :: 0 <= a < |r| ==> r[a] == if base <= a < base + |bytes| then bytes[a - base] else ram[a]
  {
    ram[..base] + bytes + ram[base + |bytes|..]
  }

  lemma Assoc<T>(a: seq<T>, b: seq<T>, c: seq<T>)
    ensures a + (b + c) == a + b + c
  {
  }

  lemma SameOfBoth<T>(one: seq<T>, two: seq<T>, more: seq<T>, rest: seq<T>)
    requires |one| == |two|
    ensures one + more == two + rest <==> one == two && more == rest
  {
    if one + more == two + rest {
      assert one == (one + more)[..|one|] && more == (one + more)[|one|..];
      assert two == (two + rest)[..|one|] && rest == (two + rest)[|one|..];
    }
  }

  lemma AtLeastOnce(d: int, m: nat)
    requires d >= 1
    ensures d * m >= m
  {
    assert d * m == (d - 1) * m + m;
  }

  lemma Scales(a: nat, m: nat, n: nat)
    requires m <= n
    ensures a * m <= a * n
  {
    var more := n - m;
    assert a * n == a * m + a * more;
  }
}
