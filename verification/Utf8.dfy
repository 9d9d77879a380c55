/** The table-driven UTF-8 decoder, against RFC 3629. */
module Utf8 {
  import opened Common

  // ---------- RFC 3629 ----------

  /** Section 3: the characters that can be encoded. */
  predicate IsScalar(u: nat) {
    u < 0xD800 || 0xE000 <= u <= 0x10FFFF
  }

  /** Section 3: the encoding, six bits to every byte but the first. */
  function Encode(u: nat): seq<byte>
    requires IsScalar(u)
  {
    var (v, w) := (u / 64, u / 64 / 64);
    if u < 0x80 then [u]
    else if u < 0x800 then [0xC0 + v, 0x80 + u % 64]
    else if u < 0x1_0000 then [0xE0 + w, 0x80 + v % 64, 0x80 + u % 64]
    else [0xF0 + w / 64, 0x80 + w % 64, 0x80 + v % 64, 0x80 + u % 64]
  }

  predicate Tail(b: byte) { 0x80 <= b <= 0xBF }

  /** Section 4: the first byte of a character of three, and the bytes that may follow it. */
  predicate Second3(b: byte, c: byte) {
    || (b == 0xE0 && 0xA0 <= c <= 0xBF)
    || (0xE1 <= b <= 0xEC && Tail(c))
    || (b == 0xED && 0x80 <= c <= 0x9F)
    || (0xEE <= b <= 0xEF && Tail(c))
  }

  predicate Second4(b: byte, c: byte) {
    || (b == 0xF0 && 0x90 <= c <= 0xBF)
    || (0xF1 <= b <= 0xF3 && Tail(c))
    || (b == 0xF4 && 0x80 <= c <= 0x8F)
  }

  /** Section 4: one character. */
  predicate IsChar(s: seq<byte>) {
    || (|s| == 1 && s[0] <= 0x7F)
    || (|s| == 2 && 0xC2 <= s[0] <= 0xDF && Tail(s[1]))
    || (|s| == 3 && Second3(s[0], s[1]) && Tail(s[2]))
    || (|s| == 4 && Second4(s[0], s[1]) && Tail(s[2]) && Tail(s[3]))
  }

  /** How many bytes of `s` make up its first character; none if it does not start with one. */
  function FirstChar(s: seq<byte>): (n: nat)
    ensures n <= |s| && (n > 0 ==> IsChar(s[..n]))
  {
    if |s| >= 1 && IsChar(s[..1]) then 1
    else if |s| >= 2 && IsChar(s[..2]) then 2
    else if |s| >= 3 && IsChar(s[..3]) then 3
    else if |s| >= 4 && IsChar(s[..4]) then 4
    else 0
  }

  lemma FirstCharIsFirst(s: seq<byte>)
    ensures forall k :: 0 <= k < FirstChar(s) ==> !IsChar(s[..k])
    ensures FirstChar(s) == 0 ==> forall k :: 0 <= k <= |s| ==> !IsChar(s[..k])
  {
  }

  /** Section 4: a string of characters. */
  predicate WellFormed(s: seq<byte>)
    decreases |s|
  {
    s == [] || (FirstChar(s) > 0 && WellFormed(s[FirstChar(s)..]))
  }

  /** The bits of a byte above its marker. */
  function Payload(b: byte, marker: byte): nat
    requires marker <= b
  {
    b - marker
  }

  /** Section 3: the bits of a character, put together. */
  function Value(c: seq<byte>): nat
    requires IsChar(c)
  {
    match |c|
    case 1 => c[0]
    case 2 => Payload(c[0], 0xC0) * 64 + Payload(c[1], 0x80)
    case 3 => (Payload(c[0], 0xE0) * 64 + Payload(c[1], 0x80)) * 64 + Payload(c[2], 0x80)
    case _ => ((Payload(c[0], 0xF0) * 64 + Payload(c[1], 0x80)) * 64 + Payload(c[2], 0x80)) * 64 + Payload(c[3], 0x80)
  }

  function CodePoints(s: seq<byte>): seq<nat>
    requires WellFormed(s)
    decreases |s|
  {
    if s == [] then [] else [Value(s[..FirstChar(s)])] + CodePoints(s[FirstChar(s)..])
  }

  /** Every encoding of section 3 is a character of section 4, and its value comes back. */
  lemma EncodeIsChar(u: nat)
    requires IsScalar(u)
    ensures IsChar(Encode(u)) && Value(Encode(u)) == u
  {
    var (v, w) := (u / 64, u / 64 / 64);
    assert u == v * 64 + u % 64 && v == w * 64 + v % 64 && w == w / 64 * 64 + w % 64;
  }

  /** Every character of section 4 is the encoding of section 3 of its value. */
  lemma CharIsEncoded(c: seq<byte>)
    requires IsChar(c)
    ensures IsScalar(Value(c)) && Encode(Value(c)) == c
  {
    match |c|
    case 1 =>
    case 2 => Split(Payload(c[0], 0xC0), Payload(c[1], 0x80));
    case 3 => ThreeEncoded(c);
    case _ => FourEncoded(c);
  }

  lemma ThreeEncoded(c: seq<byte>)
    requires IsChar(c) && |c| == 3
    ensures IsScalar(Value(c)) && Encode(Value(c)) == c
  {
    var v := Payload(c[0], 0xE0) * 64 + Payload(c[1], 0x80);
    Split(v, Payload(c[2], 0x80));
    Split(Payload(c[0], 0xE0), Payload(c[1], 0x80));
  }

  lemma FourEncoded(c: seq<byte>)
    requires IsChar(c) && |c| == 4
    ensures IsScalar(Value(c)) && Encode(Value(c)) == c
  {
    var w := Payload(c[0], 0xF0) * 64 + Payload(c[1], 0x80);
    var v := w * 64 + Payload(c[2], 0x80);
    Split(v, Payload(c[3], 0x80));
    Split(w, Payload(c[2], 0x80));
    Split(Payload(c[0], 0xF0), Payload(c[1], 0x80));
  }

  lemma Split(high: nat, low: nat)
    requires low < 64
    ensures (high * 64 + low) / 64 == high && (high * 64 + low) % 64 == low
  {
  }

  predicate Scalars(us: seq<nat>) {
    forall i :: 0 <= i < |us| ==> IsScalar(us[i])
  }

  function EncodeAll(us: seq<nat>): seq<byte>
    requires Scalars(us)
  {
    if us == [] then [] else Encode(us[0]) + EncodeAll(us[1..])
  }

  /** No character is the start of another. */
  lemma PrefixFree(c: seq<byte>, rest: seq<byte>)
    requires IsChar(c)
    ensures FirstChar(c + rest) == |c| && (c + rest)[..|c|] == c && (c + rest)[|c|..] == rest
  {
    var s := c + rest;
    assert s[..|c|] == c;
    assert forall k :: 0 < k <= |s| ==> s[..k][0] == c[0];
  }

  /** The well-formed strings of section 4 are the encoded strings of section 3: one way ... */
  lemma {:induction false} EncodedIsWellFormed(us: seq<nat>)
    requires Scalars(us)
    ensures WellFormed(EncodeAll(us)) && CodePoints(EncodeAll(us)) == us
  {
    if us != [] {
      EncodedIsWellFormed(us[1..]);
      EncodeIsChar(us[0]);
      PrefixFree(Encode(us[0]), EncodeAll(us[1..]));
    }
  }

  lemma EncodeCons(u: nat, us: seq<nat>)
    requires IsScalar(u) && Scalars(us)
    ensures Scalars([u] + us) && EncodeAll([u] + us) == Encode(u) + EncodeAll(us)
  {
    assert ([u] + us)[1..] == us;
  }

  /** ... and the other. */
  lemma {:induction false} WellFormedIsEncoded(s: seq<byte>)
    requires WellFormed(s)
    ensures Scalars(CodePoints(s)) && EncodeAll(CodePoints(s)) == s
    decreases |s|
  {
    if s != [] {
      var n := FirstChar(s);
      WellFormedIsEncoded(s[n..]);
      CharCons(s[..n], CodePoints(s[n..]));
      assert s == s[..n] + s[n..];
    }
  }

  lemma CharCons(c: seq<byte>, us: seq<nat>)
    requires IsChar(c) && Scalars(us)
    ensures Scalars([Value(c)] + us) && EncodeAll([Value(c)] + us) == c + EncodeAll(us)
  {
    CharIsEncoded(c);
    EncodeCons(Value(c), us);
  }

  // ---------- one byte ----------

  const ACCEPT: nat := 0
  const REJECT: nat := 1

  /** Whether a byte fits what has to come next, in the states after a first byte. */
  predicate Fits(state: nat, b: byte) {
    match state
    case 4 => 0xA0 <= b <= 0xBF
    case 5 => 0x80 <= b <= 0x9F
    case 6 => 0x90 <= b <= 0xBF
    case 8 => 0x80 <= b <= 0x8F
    case _ => Tail(b)
  }

  /** The state after a first byte: what still has to come. */
  function First(b: byte): nat {
    if b < 0x80 then ACCEPT
    else if 0xC2 <= b <= 0xDF then 2
    else if b == 0xE0 then 4
    else if b == 0xED then 5
    else if 0xE1 <= b <= 0xEF then 3
    else if b == 0xF0 then 6
    else if 0xF1 <= b <= 0xF3 then 7
    else if b == 0xF4 then 8
    else REJECT
  }

  function Next(state: nat, b: byte): (next: nat)
    requires state < 9
    ensures next < 9
  {
    if state == ACCEPT then First(b)
    else if state == REJECT || !Fits(state, b) then REJECT
    else if state == 2 then ACCEPT
    else if state <= 5 then 2
    else 3
  }

  /** How far the all-ones mask is shifted down for a first byte. */
  function Class(b: byte): nat {
    if b < 0x80 then 0
    else if b < 0xC0 then (if b < 0x90 then 1 else if b < 0xA0 then 9 else 7)
    else if b < 0xE0 then (if b < 0xC2 then 8 else 2)
    else if b < 0xF0 then (if b == 0xE0 then 10 else if b == 0xED then 4 else 3)
    else if b == 0xF0 then 11 else if b < 0xF4 then 6 else if b == 0xF4 then 5 else 8
  }

  /** How many values the bits left by a mask shifted down `t` places can take. */
  function Kept(t: nat): (n: nat)
    ensures n > 0
  {
    match t
    case 0 => 256
    case 1 => 128
    case 2 => 64
    case 3 => 32
    case 4 => 16
    case 5 => 8
    case 6 => 4
    case 7 => 2
    case _ => 1
  }

  /**
   * The state and codepoint after one byte. The low six bits of a continuation byte join the shifted codepoint,
   * whose own low six bits are zero.
   */
  function DecodeByte(b: byte, state: nat, codepoint: uint32): (nat, uint32)
    requires state < 9
  {
    (Next(state, b),
     if state != ACCEPT then codepoint * 64 % 0x1_0000_0000 + b % 64 else b % Kept(Class(b)))
  }

  // ---------- whole strings ----------

  /** A decoder at work: its state, the codepoint being put together, and those found so far. */
  datatype Scanner = Scanner(state: nat, codepoint: uint32, found: seq<nat>)

  function Feed(d: Scanner, b: byte): (d': Scanner)
    requires d.state < 9
    ensures d'.state < 9
  {
    var (state, codepoint) := DecodeByte(b, d.state, d.codepoint);
    Scanner(state, codepoint, if state == ACCEPT then d.found + [codepoint] else d.found)
  }

  function FeedAll(d: Scanner, s: seq<byte>): (d': Scanner)
    requires d.state < 9
    ensures d'.state < 9
    decreases |s|
  {
    if s == [] then d else FeedAll(Feed(d, s[0]), s[1..])
  }

  /** Reject is absorbing. */
  lemma {:induction false} RejectStays(d: Scanner, s: seq<byte>)
    requires d.state == REJECT
    ensures FeedAll(d, s).state == REJECT && FeedAll(d, s).found == d.found
    decreases |s|
  {
    if s != [] {
      RejectStays(Feed(d, s[0]), s[1..]);
    }
  }

  lemma {:induction false} FeedSplit(d: Scanner, s: seq<byte>, n: nat)
    requires d.state < 9 && n <= |s|
    ensures FeedAll(d, s) == FeedAll(FeedAll(d, s[..n]), s[n..])
    decreases n
  {
    if n == 0 {
      assert s[0..] == s;
    } else {
      FeedSplit(Feed(d, s[0]), s[1..], n - 1);
      assert s[..n][1..] == s[1..][..n - 1] && s[1..][n - 1..] == s[n..];
    }
  }

  /** What has to come in a state is there: the rest of a character. */
  predicate Completes(state: nat, s: seq<byte>) {
    match state
    case 0 => s == []
    case 2 => |s| == 1 && Tail(s[0])
    case 3 => |s| == 2 && Tail(s[0]) && Tail(s[1])
    case 4 => |s| == 2 && Fits(4, s[0]) && Tail(s[1])
    case 5 => |s| == 2 && Fits(5, s[0]) && Tail(s[1])
    case 6 => |s| == 3 && Fits(6, s[0]) && Tail(s[1]) && Tail(s[2])
    case 7 => |s| == 3 && Fits(7, s[0]) && Tail(s[1]) && Tail(s[2])
    case 8 => |s| == 3 && Fits(8, s[0]) && Tail(s[1]) && Tail(s[2])
    case _ => false
  }

  /** The codepoint with the payload of the bytes to come shifted in. */
  function Shifted(v: nat, s: seq<byte>): nat
    decreases |s|
  {
    if s == [] then v else Shifted(v * 64 + s[0] % 64, s[1..])
  }

  /** Room for the bytes to come. */
  predicate Small(state: nat, codepoint: nat) {
    codepoint < if state == 2 then 0x8000 else if state <= 5 then 0x200 else 8
  }

  lemma MiddleByte(d: Scanner, b: byte)
    requires 2 <= d.state < 9 && Small(d.state, d.codepoint)
    ensures var d1 := Feed(d, b);
      && d1.codepoint == d.codepoint * 64 + b % 64
      && d1.found == (if d1.state == ACCEPT then d.found + [d1.codepoint] else d.found)
      && (d1.state >= 2 ==> Small(d1.state, d1.codepoint))
  {
  }

  lemma CompletesByByte(state: nat, s: seq<byte>)
    requires 2 <= state < 9 && s != []
    ensures Completes(state, s) <==> Completes(Next(state, s[0]), s[1..])
  {
  }

  /** In the middle of a character: the decoder accepts again exactly when the character is complete. */
  lemma {:induction false} Middle(d: Scanner, s: seq<byte>)
    requires 2 <= d.state < 9 && Small(d.state, d.codepoint)
    requires forall k :: 0 <= k < |s| ==> !Completes(d.state, s[..k])
    ensures FeedAll(d, s).state == ACCEPT <==> Completes(d.state, s)
    ensures Completes(d.state, s) ==> FeedAll(d, s).found == d.found + [Shifted(d.codepoint, s)]
    decreases |s|
  {
    if s != [] {
      MiddleByte(d, s[0]);
      CompletesByByte(d.state, s);
      var d1 := Feed(d, s[0]);
      if d1.state == REJECT {
        RejectStays(d1, s[1..]);
      } else {
        forall k | 0 <= k < |s| - 1 ensures !Completes(d1.state, s[1..][..k]) {
          assert s[..k + 1][1..] == s[1..][..k];
          CompletesByByte(d.state, s[..k + 1]);
        }
        if d1.state == ACCEPT {
          assert s[1..][..0] == [];
        } else {
          Middle(d1, s[1..]);
        }
      }
    }
  }

  /**
   * From accept, a string that is one character leads back to accept with its value; one that starts with none
   * never does.
   */
  lemma FromAccept(d: Scanner, s: seq<byte>)
    requires d.state == ACCEPT && s != []
    requires forall k :: 0 <= k < |s| ==> !IsChar(s[..k])
    ensures FeedAll(d, s).state == ACCEPT <==> IsChar(s)
    ensures IsChar(s) ==> FeedAll(d, s).found == d.found + [Value(s)]
  {
    var b := s[0];
    var d1 := Feed(d, b);
    var rest := s[1..];
    if d1.state == ACCEPT {
      assert s[..1] == [b] && IsChar([b]);
      assert |s| == 1;
    } else if d1.state == REJECT {
      RejectStays(d1, rest);
    } else {
      forall k | 0 <= k < |rest| ensures !Completes(d1.state, rest[..k]) {
        CompletesChar(s[..k + 1]);
        assert s[..k + 1][1..] == rest[..k];
      }
      CompletesChar(s);
      Middle(d1, rest);
    }
  }

  /** A first byte of several, and what it leaves to come, make a character. */
  lemma CompletesChar(s: seq<byte>)
    requires s != [] && First(s[0]) >= 2
    ensures IsChar(s) <==> Completes(First(s[0]), s[1..])
    ensures IsChar(s) ==> Value(s) == Shifted(s[0] % Kept(Class(s[0])), s[1..])
    ensures Small(First(s[0]), s[0] % Kept(Class(s[0])))
  {
    LeadBits(s[0]);
    CompletesExactly(s);
    if IsChar(s) { CharValue(s); }
  }

  lemma CompletesExactly(s: seq<byte>)
    requires s != [] && First(s[0]) >= 2
    ensures IsChar(s) <==> Completes(First(s[0]), s[1..])
  {
  }

  lemma CharValue(s: seq<byte>)
    requires IsChar(s) && First(s[0]) >= 2
    ensures Value(s) == Shifted(s[0] % Kept(Class(s[0])), s[1..])
  {
    LeadBits(s[0]);
    ShiftedIn(s[0] % Kept(Class(s[0])), s[1..]);
  }

  lemma LeadBits(b: byte)
    requires First(b) >= 2
    ensures b % Kept(Class(b)) == b - if b < 0xE0 then 0xC0 else if b < 0xF0 then 0xE0 else 0xF0
  {
  }

  lemma {:induction false} ShiftedIn(v: nat, s: seq<byte>)
    requires |s| in {1, 2, 3}
    ensures var v1 := v * 64 + s[0] % 64;
      Shifted(v, s) == if |s| == 1 then v1
                       else var v2 := v1 * 64 + s[1] % 64; if |s| == 2 then v2 else v2 * 64 + s[2] % 64
    decreases |s|
  {
    var v1 := v * 64 + s[0] % 64;
    assert Shifted(v, s) == Shifted(v1, s[1..]);
    if |s| > 1 { ShiftedIn(v1, s[1..]); }
  }

  lemma NoFirstChar(d: Scanner, s: seq<byte>)
    requires d.state == ACCEPT && s != [] && FirstChar(s) == 0
    ensures FeedAll(d, s).state != ACCEPT
  {
    FirstCharIsFirst(s);
    assert s[..|s|] == s;
    FromAccept(d, s);
  }

  lemma FirstCharFed(d: Scanner, s: seq<byte>, n: nat) returns (d1: Scanner)
    requires d.state == ACCEPT && n == FirstChar(s) > 0
    ensures d1.state == ACCEPT && d1.found == d.found + [Value(s[..n])]
    ensures FeedAll(d, s) == FeedAll(d1, s[n..])
  {
    var c := s[..n];
    FirstCharIsFirst(s);
    forall k | 0 <= k < |c| ensures !IsChar(c[..k]) { assert c[..k] == s[..k]; }
    FromAccept(d, c);
    FeedSplit(d, s, n);
    d1 := FeedAll(d, c);
  }

  /**
   * Over any byte string, the decoder ends in accept if and only if the string is well formed by section 4 of
   * RFC 3629, and then the codepoints it found are the values of section 3, in order.
   */
  lemma {:induction false} DecodesExactlyRfc3629(d: Scanner, s: seq<byte>)
    requires d.state == ACCEPT
    ensures FeedAll(d, s).state == ACCEPT <==> WellFormed(s)
    ensures WellFormed(s) ==> FeedAll(d, s).found == d.found + CodePoints(s)
    decreases |s|
  {
    if s != [] {
      var n := FirstChar(s);
      if n == 0 {
        NoFirstChar(d, s);
      } else {
        var d1 := FirstCharFed(d, s, n);
        DecodesExactlyRfc3629(d1, s[n..]);
      }
    }
  }

  // ---------- the table ----------

  /** The first 256 entries of the table: the class of each byte, 32 to a row. */
  const ASCII: seq<nat> := [0,0,0,0,0,0,0,0,0,0,0,0,0,0,0,0,0,0,0,0,0,0,0,0,0,0,0,0,0,0,0,0]
  const FROM_80: seq<nat> := [1,1,1,1,1,1,1,1,1,1,1,1,1,1,1,1,9,9,9,9,9,9,9,9,9,9,9,9,9,9,9,9]
  const FROM_A0: seq<nat> := [7,7,7,7,7,7,7,7,7,7,7,7,7,7,7,7,7,7,7,7,7,7,7,7,7,7,7,7,7,7,7,7]
  const FROM_C0: seq<nat> := [8,8,2,2,2,2,2,2,2,2,2,2,2,2,2,2,2,2,2,2,2,2,2,2,2,2,2,2,2,2,2,2]
  const FROM_E0: seq<nat> := [0xa,3,3,3,3,3,3,3,3,3,3,3,3,4,3,3,0xb,6,6,6,5,8,8,8,8,8,8,8,8,8,8,8]
  const CLASSES: seq<seq<nat>> := [ASCII, ASCII, ASCII, ASCII, FROM_80, FROM_A0, FROM_C0, FROM_E0]

  /** The rest of the table: the next state, one row of sixteen classes for each state. */
  const STATE_0: seq<nat> := [0,1,2,3,5,8,7,1,1,1,4,6,1,1,1,1]
  const STATE_1: seq<nat> := [1,1,1,1,1,1,1,1,1,1,1,1,1,1,1,1]
  const STATE_2: seq<nat> := [1,0,1,1,1,1,1,0,1,0,1,1,1,1,1,1]
  const STATE_3: seq<nat> := [1,2,1,1,1,1,1,2,1,2,1,1,1,1,1,1]
  const STATE_4: seq<nat> := [1,1,1,1,1,1,1,2,1,1,1,1,1,1,1,1]
  const STATE_5: seq<nat> := [1,2,1,1,1,1,1,1,1,2,1,1,1,1,1,1]
  const STATE_6: seq<nat> := [1,1,1,1,1,1,1,3,1,3,1,1,1,1,1,1]
  const STATE_7: seq<nat> := [1,3,1,1,1,1,1,3,1,3,1,1,1,1,1,1]
  const STATE_8: seq<nat> := [1,3,1,1,1,1,1,1,1,1,1,1,1,1,1,1]
  const STATES: seq<seq<nat>> := [STATE_0, STATE_1, STATE_2, STATE_3, STATE_4, STATE_5, STATE_6, STATE_7, STATE_8]

  lemma ClassRows(k: nat)
    requires k < 32
    ensures ASCII[k] == 0
    ensures FROM_80[k] == if k < 16 then 1 else 9
    ensures FROM_A0[k] == 7
    ensures FROM_C0[k] == if k < 2 then 8 else 2
    ensures FROM_E0[k] == if k == 0 then 10 else if k == 13 then 4 else if k < 16 then 3 else if k == 16 then 11
                          else if k < 20 then 6 else if k == 20 then 5 else 8
  {
  }

  lemma ClassTable(b: byte)
    ensures CLASSES[b / 32][b % 32] == Class(b) < 12
  {
    ClassRows(b % 32);
    assert b == b / 32 * 32 + b % 32;
  }

  lemma StateTable(state: nat, b: byte)
    requires state < 9
    ensures Class(b) < 16 && STATES[state][Class(b)] == Next(state, b)
  {
  }

  method ClassOf(b: byte) returns (t: nat)
    ensures t == Class(b) < 12
  {
    ClassTable(b);
    t := CLASSES[b / 32][b % 32];
  }

  method StateAfter(state: nat, t: nat, ghost b: byte) returns (next: nat)
    requires state < 9 && t == Class(b)
    ensures next == Next(state, b)
  {
    StateTable(state, b);
    next := STATES[state][t];
  }

  /** The table-driven decoder. */
  method Decode(b: byte, state: nat, codepoint: uint32) returns (state': nat, codepoint': uint32)
    requires state < 9
    ensures (state', codepoint') == DecodeByte(b, state, codepoint)
  {
    var t := ClassOf(b);
    if state != ACCEPT {
      codepoint' := codepoint * 64 % 0x1_0000_0000 + b % 64;
    } else {
      codepoint' := b % Kept(t);
    }
    state' := StateAfter(state, t, b);
  }

  // ---------- counting ----------

  const FRESH := Scanner(ACCEPT, 0, [])

  /** A count as the caller sees it: a 32-bit signed integer. */
  function AsInt(n: nat): (r: int)
    ensures n < 0x8000_0000 ==> r == n
    ensures -0x8000_0000 <= r < 0x8000_0000 && (r - n) % 0x1_0000_0000 == 0
  {
    var m := n % 0x1_0000_0000;
    if m < 0x8000_0000 then m else m - 0x1_0000_0000
  }

  /** The codepoints of a terminated string, or -1 exactly when it is malformed. */
  method Strlen(string_: seq<byte>) returns (n: int)
    requires 0 in string_
    ensures var t := Text(string_);
      && n == (if WellFormed(t) then AsInt(|CodePoints(t)|) else -1)
      && (WellFormed(t) && |CodePoints(t)| < 0x8000_0000 ==> n == |CodePoints(t)|)
  {
    ghost var t := Text(string_);
    ghost var d := FRESH;
    var codepoint: uint32 := *;
    var state, count, i := ACCEPT, 0, 0;
    while string_[i] != 0
      invariant i <= |t| && state < 9
      invariant d.state == state && count == |d.found|
      invariant FeedAll(d, t[i..]) == FeedAll(FRESH, t)
      decreases |t| - i
    {
      assert t[i..][1..] == t[i + 1..];
      d := Feed(d, t[i]);
      state, codepoint := Decode(string_[i], state, codepoint);
      if state == ACCEPT {
        count := count + 1;
      }
      i := i + 1;
    }
    DecodesExactlyRfc3629(FRESH, t);
    assert t[i..] == [];
    if state != ACCEPT {
      return -1;
    }
    return AsInt(count);
  }
}
