/** The base32 coder, against section 6 of RFC 4648, without padding characters. */
module Base32 {
  import opened Common
  import opened Bits

  const MAX_LENGTH: nat := 0x1000_0000

  // ---------- the regrouping of bits ----------

  function Stream(x: seq<byte>): (b: seq<bool>)
    ensures |b| == 8 * |x|
  {
    if x == [] then [] else Low(x[0], 8) + Stream(x[1..])
  }

  /** `bits` made five by adding zeros at the end. */
  function Filled(bits: seq<bool>): seq<bool>
    requires |bits| <= 5
  {
    bits + seq(5 - |bits|, i => false)
  }

  /** Groups of five bits, from the first on. */
  function Groups(bits: seq<bool>): (g: seq<nat>)
    ensures |g| == (|bits| + 4) / 5
    ensures forall i :: 0 <= i < |g| ==> g[i] < 32
  {
    Pow2Is32();
    if bits == [] then []
    else if |bits| < 5 then LowNumber(Filled(bits)); [Number(Filled(bits))]
    else LowNumber(bits[..5]); [Number(bits[..5])] + Groups(bits[5..])
  }

  /** The alphabet: A to Z, then 2 to 7. */
  function Letter(v: nat): byte
    requires v < 32
  {
    if v < 26 then 65 + v else 50 + (v - 26)
  }

  function Letters(g: seq<nat>): (t: seq<byte>)
    requires forall i :: 0 <= i < |g| ==> g[i] < 32
    ensures |t| == |g|
  {
    seq(|g|, i requires 0 <= i < |g| => Letter(g[i]))
  }

  /** The encoding of `x`: one letter for every five bits begun. */
  function Encoded(x: seq<byte>): (t: seq<byte>)
    ensures |t| == (8 * |x| + 4) / 5
  {
    Letters(Groups(Stream(x)))
  }

  // ---------- the encoder ----------

  lemma UpByte(buffer: nat, w: nat)
    requires w < 256
    ensures var t := buffer * 256 % 0x1_0000_0000; t + w < 0x1_0000_0000 && (buffer * 256 + w) % 0x1_0000_0000 == t + w
  {
    var (k, t) := (buffer * 256 / 0x1_0000_0000, buffer * 256 % 0x1_0000_0000);
    assert t == 256 * (buffer - k * 0x100_0000);
    ModUnique(buffer * 256 + w, 0x1_0000_0000, k, t + w);
  }

  lemma UpDigit(buffer: nat, w: nat)
    requires w < 32
    ensures var t := buffer * 32 % 0x1_0000_0000; t + w < 0x1_0000_0000 && (buffer * 32 + w) % 0x1_0000_0000 == t + w
  {
    var (k, t) := (buffer * 32 / 0x1_0000_0000, buffer * 32 % 0x1_0000_0000);
    assert t == 32 * (buffer - k * 0x800_0000);
    ModUnique(buffer * 32 + w, 0x1_0000_0000, k, t + w);
  }

  /** The accumulator after another byte, or another digit: it drops its highest bits, but none that are pending. */
  lemma TakeBits(buffer: nat, bitsLeft: nat, w: nat, k: nat)
    requires bitsLeft + k <= 32 && k in {5, 8} && w < Pow2(k)
    ensures Low(buffer * Pow2(k) % 0x1_0000_0000 + w, bitsLeft + k) == Low(buffer, bitsLeft) + Low(w, k)
    ensures buffer * Pow2(k) % 0x1_0000_0000 + w < 0x1_0000_0000
  {
    Pow2Is32();
    if k == 8 { UpByte(buffer, w); } else { UpDigit(buffer, w); }
    LowWrapped(buffer * Pow2(k) + w, bitsLeft + k);
    LowJoin(buffer, w, bitsLeft, k, buffer * Pow2(k) + w);
  }

  /** The accumulator filled up with zeros at the end of the input. */
  lemma Pad(buffer: nat, bitsLeft: nat)
    requires 0 < bitsLeft < 5
    ensures Low(buffer * Pow2(5 - bitsLeft) % 0x1_0000_0000, 5) == Filled(Low(buffer, bitsLeft))
  {
    var pad := 5 - bitsLeft;
    LowWrapped(buffer * Pow2(pad), 5);
    LowJoin(buffer, 0, bitsLeft, pad, buffer * Pow2(pad));
    LowZero(pad);
  }

  lemma {:induction false} LowZero(k: nat)
    ensures Low(0, k) == seq(k, i => false)
  {
    if k > 0 { LowZero(k - 1); }
  }

  /** The `k` oldest bits in the accumulator. */
  lemma Oldest(buffer: nat, bitsLeft: nat, k: nat)
    requires bitsLeft >= k
    ensures Number(Low(buffer, bitsLeft)[..k]) == Down(buffer, bitsLeft - k) % Pow2(k)
    ensures Low(buffer, bitsLeft)[k..] == Low(buffer, bitsLeft - k)
  {
    var high := Down(buffer, bitsLeft - k);
    LowSplit(buffer, k, bitsLeft - k);
    NumberLow(high, k);
    assert Low(buffer, bitsLeft)[..k] == Low(high, k);
  }

  /** Another byte taken from the input into the accumulator. */
  lemma TakeByte(input: seq<byte>, buffer: nat, bitsLeft: nat, next: nat)
    requires next < |input| && bitsLeft < 5
    ensures var b := buffer * 256 % 0x1_0000_0000 + input[next];
      && b < 0x1_0000_0000
      && Low(b, bitsLeft + 8) + Stream(input[next + 1..]) == Low(buffer, bitsLeft) + Stream(input[next..])
  {
    var w := input[next];
    Pow2Is32();
    TakeBits(buffer, bitsLeft, w, 8);
    assert input[next..][1..] == input[next + 1..];
    Assoc(Low(buffer, bitsLeft), Low(w, 8), Stream(input[next + 1..]));
  }

  lemma PadLast(input: seq<byte>, buffer: nat, bitsLeft: nat, next: nat)
    requires next == |input| && 0 < bitsLeft < 5
    ensures var b := buffer * Pow2(5 - bitsLeft) % 0x1_0000_0000;
      Groups(Low(b, 5) + Stream(input[next..])) == Groups(Low(buffer, bitsLeft) + Stream(input[next..]))
  {
    Pad(buffer, bitsLeft);
    GroupsFilled(Low(buffer, bitsLeft));
    var b := buffer * Pow2(5 - bitsLeft) % 0x1_0000_0000;
    assert Stream(input[next..]) == [];
    assert Low(buffer, bitsLeft) + [] == Low(buffer, bitsLeft) && Low(b, 5) + [] == Low(b, 5);
  }

  /** At least five bits, from the input as long as there is any. */
  method Refill(input: seq<byte>, buffer: nat, bitsLeft: nat, next: nat)
    returns (buffer': nat, bitsLeft': nat, next': nat)
    requires buffer < 0x1_0000_0000 && next <= |input| && bitsLeft <= 12
    requires bitsLeft > 0 || next < |input|
    ensures buffer' < 0x1_0000_0000 && next' <= |input| && 5 <= bitsLeft' <= 12
    ensures Groups(Low(buffer', bitsLeft') + Stream(input[next'..])) ==
            Groups(Low(buffer, bitsLeft) + Stream(input[next..]))
  {
    buffer', bitsLeft', next' := buffer, bitsLeft, next;
    if bitsLeft < 5 {
      if next < |input| {
        TakeByte(input, buffer, bitsLeft, next);
        buffer' := buffer * 256 % 0x1_0000_0000 + input[next];
        next' := next + 1;
        bitsLeft' := bitsLeft + 8;
      } else {
        PadLast(input, buffer, bitsLeft, next);
        buffer' := buffer * Pow2(5 - bitsLeft) % 0x1_0000_0000;
        bitsLeft' := 5;
      }
    }
  }

  lemma GroupsFilled(bits: seq<bool>)
    requires 0 < |bits| < 5
    ensures Groups(Filled(bits)) == Groups(bits)
  {
    assert Filled(bits)[..5] == Filled(bits) && Filled(bits)[5..] == [];
  }

  /** One letter: the oldest five bits leave the accumulator. */
  lemma FirstGroup(buffer: nat, bitsLeft: nat, more: seq<bool>)
    requires bitsLeft >= 5
    ensures Groups(Low(buffer, bitsLeft) + more) ==
      [Down(buffer, bitsLeft - 5) % 32] + Groups(Low(buffer, bitsLeft - 5) + more)
  {
    Pow2Is32();
    Oldest(buffer, bitsLeft, 5);
    var bits := Low(buffer, bitsLeft) + more;
    assert bits[..5] == Low(buffer, bitsLeft)[..5];
    assert bits[5..] == Low(buffer, bitsLeft)[5..] + more;
  }

  lemma NextLetter(goal: seq<nat>, count: nat, buffer: nat, bitsLeft: nat, more: seq<bool>)
    requires count <= |goal| && bitsLeft >= 5
    requires goal[count..] == Groups(Low(buffer, bitsLeft) + more)
    ensures count < |goal| && goal[count] == Down(buffer, bitsLeft - 5) % 32
    ensures goal[count + 1..] == Groups(Low(buffer, bitsLeft - 5) + more)
  {
    FirstGroup(buffer, bitsLeft, more);
    assert goal[count..][0] == goal[count] && goal[count..][1..] == goal[count + 1..];
  }

  /** An output buffer: what was written to it, and then what was there before. */
  ghost predicate Kept(now: seq<byte>, was: seq<byte>, out: seq<byte>) {
    && |out| <= |now| == |was|
    && (forall i :: 0 <= i < |out| ==> now[i] == out[i])
    && (forall i :: |out| <= i < |now| ==> now[i] == was[i])
  }

  /** The encoder after `count` letters: the bits pending and the input left make up the other groups. */
  ghost predicate Grouping(goal: seq<nat>, count: nat, input: seq<byte>, next: nat, buffer: nat, bitsLeft: nat) {
    && count <= |goal| && next <= |input|
    && goal[count..] == Groups(Low(buffer, bitsLeft) + Stream(input[next..]))
  }

  lemma FirstByte(input: seq<byte>)
    requires input != []
    ensures Grouping(Groups(Stream(input)), 0, input, 1, input[0], 8)
  {
  }

  /** The next five bits. */
  method NextGroup(input: seq<byte>, buffer: nat, bitsLeft: nat, next: nat, ghost goal: seq<nat>, ghost count: nat)
    returns (index: nat, buffer': nat, bitsLeft': nat, next': nat)
    requires buffer < 0x1_0000_0000 && bitsLeft <= 12 && (bitsLeft > 0 || next < |input|)
    requires Grouping(goal, count, input, next, buffer, bitsLeft)
    ensures buffer' < 0x1_0000_0000 && bitsLeft' <= 12
    ensures count < |goal| && index == goal[count] < 32 && Grouping(goal, count + 1, input, next', buffer', bitsLeft')
  {
    buffer', bitsLeft', next' := Refill(input, buffer, bitsLeft, next);
    NextLetter(goal, count, buffer', bitsLeft', Stream(input[next'..]));
    index := Down(buffer', bitsLeft' - 5) % 32;
    bitsLeft' := bitsLeft' - 5;
  }

  /** The loop of the encoder. */
  method WriteText(input: seq<byte>, output: array<byte>) returns (count: nat)
    requires input != []
    modifies output
    ensures count == (if |Encoded(input)| < output.Length then |Encoded(input)| else output.Length)
    ensures Kept(output[..], old(output[..]), Encoded(input)[..count])
  {
    count := 0;
    ghost var (goal, text, was) := (Groups(Stream(input)), Encoded(input), output[..]);
    var buffer: nat, next: nat, bitsLeft: nat := input[0], 1, 8;
    FirstByte(input);
    while count < output.Length && (bitsLeft > 0 || next < |input|)
      invariant bitsLeft <= 12 && buffer < 0x1_0000_0000 && count <= |text|
      invariant Grouping(goal, count, input, next, buffer, bitsLeft)
      invariant Kept(output[..], was, text[..count])
      decreases |text| - count
    {
      var index;
      index, buffer, bitsLeft, next := NextGroup(input, buffer, bitsLeft, next, goal, count);
      output[count] := Letter(index);
      count := count + 1;
    }
    if count < output.Length {
      NothingLeft(goal, count, buffer, input, next);
    }
  }

  /**
   * As much of the encoding as there is room for, terminated if there is room for that too; the rest of the output
   * is left alone.
   */
  method Encode(input: seq<byte>, output: array<byte>) returns (n: int)
    modifies output
    ensures |input| > MAX_LENGTH ==> n == -1 && output[..] == old(output[..])
    ensures |input| <= MAX_LENGTH ==>
      var t := Encoded(input);
      && n == (if |t| < output.Length then |t| else output.Length)
      && output[..n] == t[..n]
      && (n < output.Length ==> output[n] == 0)
      && forall i :: n < i < output.Length ==> output[i] == old(output[i])
  {
    if |input| > MAX_LENGTH {
      return -1;
    }
    var count: nat := 0;
    if |input| > 0 {
      count := WriteText(input, output);
    }
    if count < output.Length {
      output[count] := 0;
    }
    n := count;
  }

  lemma NothingLeft(goal: seq<nat>, count: nat, buffer: nat, input: seq<byte>, next: nat)
    requires count <= |goal| && next == |input|
    requires goal[count..] == Groups(Low(buffer, 0) + Stream(input[next..]))
    ensures count == |goal|
  {
    assert input[next..] == [];
  }

  // ---------- the decoder ----------

  /** Space, tab, CR, LF and dash. */
  predicate Ignored(ch: byte) {
    ch in {32, 9, 13, 10, 45}
  }

  /** A zero, one or eight is taken for the letter it looks like. */
  function Corrected(ch: byte): byte {
    if ch == 48 then 79 else if ch == 49 then 76 else if ch == 56 then 66 else ch
  }

  function Digit(ch: byte): (v: Option<nat>)
    ensures v.Some? ==> v.value < 32
  {
    var ch := Corrected(ch);
    if 65 <= ch <= 90 || 97 <= ch <= 122 then Some(ch % 32 - 1)
    else if 50 <= ch <= 55 then Some(ch - 50 + 26)
    else None
  }

  /** Whole bytes, from the first bit on; what is left over is dropped. */
  function Octets(bits: seq<bool>): (x: seq<byte>)
    ensures |x| == |bits| / 8
  {
    Pow2Is32();
    if |bits| < 8 then [] else LowNumber(bits[..8]); [Number(bits[..8])] + Octets(bits[8..])
  }

  predicate Readable(ch: byte) {
    Ignored(ch) || Digit(ch).Some?
  }

  predicate Clean(text: seq<byte>) {
    forall i :: 0 <= i < |text| ==> Readable(text[i])
  }

  /** The length of the longest start of a text that can be read. */
  function CleanLength(text: seq<byte>): (n: nat)
    ensures n <= |text| && Clean(text[..n]) && (n < |text| ==> !Readable(text[n]))
  {
    if text == [] || !Readable(text[0]) then 0
    else
      var n := 1 + CleanLength(text[1..]);
      assert text[..n] == [text[0]] + text[1..][..n - 1];
      n
  }

  function CharBits(ch: byte): seq<bool>
    requires Readable(ch)
  {
    if Ignored(ch) then [] else Low(Digit(ch).value, 5)
  }

  /** The bits the digits of a text stand for. */
  function DigitBits(text: seq<byte>): seq<bool>
    requires Clean(text)
  {
    if text == [] then [] else DigitBits(text[..|text| - 1]) + CharBits(text[|text| - 1])
  }

  /**
   * What a text stands for, in a buffer of `room` bytes: the bytes its bits make up. A character that is no digit
   * spoils it, unless the buffer is full before it comes.
   */
  function Decoded(text: seq<byte>, room: nat): Option<seq<byte>> {
    var n := CleanLength(text);
    var x := Octets(DigitBits(text[..n]));
    if |x| >= room then Some(x[..room])
    else if n == |text| then Some(x)
    else None
  }

  /** Bytes made into bits are found again, whatever follows them. */
  lemma {:induction false} OctetsOfStream(x: seq<byte>, more: seq<bool>)
    ensures Octets(Stream(x) + more) == x + Octets(more)
  {
    if x == [] {
      assert Stream(x) + more == more && x + Octets(more) == Octets(more);
    } else {
      Assoc(Low(x[0], 8), Stream(x[1..]), more);
      OctetsOfByte(x[0], Stream(x[1..]) + more);
      OctetsOfStream(x[1..], more);
      Assoc([x[0]], x[1..], Octets(more));
      assert [x[0]] + x[1..] == x;
    }
  }

  lemma OctetsOfByte(w: byte, rest: seq<bool>)
    ensures Octets(Low(w, 8) + rest) == [w] + Octets(rest)
  {
    NumberOfByte(w, 8);
    OctetsJoin(Low(w, 8), rest);
  }

  lemma NumberOfByte(w: byte, k: nat)
    requires k == 8
    ensures Number(Low(w, k)) == w
  {
    NumberLow(w, k);
    Pow2Is32();
  }

  lemma OctetsJoin(first: seq<bool>, rest: seq<bool>)
    requires |first| == 8
    ensures Octets(first + rest) == [Number(first)] + Octets(rest)
  {
    var bits := first + rest;
    assert bits[..8] == first && bits[8..] == rest;
  }

  lemma {:induction false} StreamGrow(x: seq<byte>, w: byte)
    ensures Stream(x + [w]) == Stream(x) + Low(w, 8)
  {
    if x == [] {
      StreamOne(w);
      assert x + [w] == [w];
      assert Stream(x) + Low(w, 8) == Low(w, 8);
    } else {
      StreamGrow(x[1..], w);
      assert (x + [w])[0] == x[0] && (x + [w])[1..] == x[1..] + [w];
      Assoc(Low(x[0], 8), Stream(x[1..]), Low(w, 8));
    }
  }

  lemma StreamOne(w: byte)
    ensures Stream([w]) == Low(w, 8)
  {
    assert Stream([w][1..]) == [];
  }

  lemma {:induction false} DigitBitsGrow(text: seq<byte>, n: nat) returns (more: seq<bool>)
    requires Clean(text) && n <= |text|
    ensures DigitBits(text) == DigitBits(text[..n]) + more
  {
    if n == |text| {
      more := [];
      assert text[..n] == text;
    } else {
      var init := text[..|text| - 1];
      var some := DigitBitsGrow(init, n);
      assert init[..n] == text[..n];
      more := some + CharBits(text[|text| - 1]);
      Assoc(DigitBits(text[..n]), some, CharBits(text[|text| - 1]));
    }
  }

  /** The decoder `n` characters into the text: bytes written, and bits left over in the accumulator. */
  ghost predicate Reading(text: seq<byte>, n: nat, out: seq<byte>, buffer: nat, bitsLeft: nat) {
    && n <= |text| && Clean(text[..n])
    && DigitBits(text[..n]) == Stream(out) + Low(buffer, bitsLeft)
  }

  lemma ReadChar(text: seq<byte>, n: nat)
    requires n < |text| && Clean(text[..n]) && Readable(text[n])
    ensures Clean(text[..n + 1]) && DigitBits(text[..n + 1]) == DigitBits(text[..n]) + CharBits(text[n])
  {
    assert text[..n + 1][..n] == text[..n];
  }

  lemma ReadDigit(text: seq<byte>, n: nat, out: seq<byte>, buffer: nat, bitsLeft: nat)
    requires n < |text| && Reading(text, n, out, buffer, bitsLeft) && bitsLeft < 8
    requires Readable(text[n]) && !Ignored(text[n])
    ensures var (b, k) := (buffer * 32 % 0x1_0000_0000 + Digit(text[n]).value, bitsLeft + 5);
      b < 0x1_0000_0000 && Reading(text, n + 1, out, b, k)
  {
    Pow2Is32();
    var v := Digit(text[n]).value;
    TakeBits(buffer, bitsLeft, v, 5);
    ReadChar(text, n);
    Assoc(Stream(out), Low(buffer, bitsLeft), Low(v, 5));
  }

  lemma ReadByte(text: seq<byte>, n: nat, out: seq<byte>, buffer: nat, bitsLeft: nat)
    requires Reading(text, n, out, buffer, bitsLeft) && bitsLeft >= 8
    ensures Reading(text, n, out + [Down(buffer, bitsLeft - 8) % 256], buffer, bitsLeft - 8)
  {
    var w := Down(buffer, bitsLeft - 8) % 256;
    Pow2Is32();
    Oldest(buffer, bitsLeft, 8);
    var (high, low) := (Low(buffer, bitsLeft)[..8], Low(buffer, bitsLeft - 8));
    LowNumber(high);
    StreamGrow(out, w);
    Assoc(Stream(out), high, low);
    assert high + low == Low(buffer, bitsLeft);
  }

  lemma ReadIgnored(text: seq<byte>, n: nat, out: seq<byte>, buffer: nat, bitsLeft: nat)
    requires n < |text| && Reading(text, n, out, buffer, bitsLeft) && Ignored(text[n])
    ensures Reading(text, n + 1, out, buffer, bitsLeft)
  {
    ReadChar(text, n);
    var bits := DigitBits(text[..n]);
    assert bits + [] == bits;
  }

  lemma CleanUpTo(text: seq<byte>, n: nat)
    requires n <= |text| && Clean(text[..n])
    ensures n <= CleanLength(text)
    ensures n == |text| || !Readable(text[n]) ==> n == CleanLength(text)
  {
    var c := CleanLength(text);
    assert forall i :: 0 <= i < n ==> text[i] == text[..n][i];
    assert forall i :: 0 <= i < c ==> text[i] == text[..c][i];
  }

  /** A decoder that has read all it can, or all there is room for, has decoded the text. */
  lemma ReadEnough(text: seq<byte>, n: nat, out: seq<byte>, buffer: nat, bitsLeft: nat, room: nat)
    requires Reading(text, n, out, buffer, bitsLeft) && bitsLeft < 8 && |out| <= room
    ensures |out| == room ==> Decoded(text, room) == Some(out)
    ensures |out| < room && n == |text| ==> Decoded(text, room) == Some(out)
    ensures |out| < room && n < |text| && !Readable(text[n]) ==> Decoded(text, room) == None
  {
    var c := CleanLength(text);
    CleanUpTo(text, n);
    var more := DigitBitsGrow(text[..c], n);
    assert text[..c][..n] == text[..n];
    var left := Low(buffer, bitsLeft);
    Assoc(Stream(out), left, more);
    OctetsOfStream(out, left + more);
    var x := Octets(DigitBits(text[..c]));
    assert x == out + Octets(left + more);
    assert x[..|out|] == out;
    if n == c {
      assert |DigitBits(text[..c])| == 8 * |out| + bitsLeft;
      assert |x| == |out| && x == out;
    }
  }

  /** Characters that stand for five bits each. */
  function Digits(text: seq<byte>): nat {
    if text == [] then 0
    else Digits(text[..|text| - 1]) + if Ignored(text[|text| - 1]) then 0 else 1
  }

  lemma {:induction false} FiveBitsEach(text: seq<byte>)
    requires Clean(text)
    ensures |DigitBits(text)| == 5 * Digits(text)
  {
    if text != [] { FiveBitsEach(text[..|text| - 1]); }
  }

  /** Reading goes on past the end of a text that is not spoilt and does not fill the room. */
  predicate Overruns(text: seq<byte>, room: nat) {
    Clean(text) && 5 * Digits(text) / 8 < room
  }

  /** A decoder that is not done yet has something left to read. */
  lemma NotOverrun(input: seq<byte>, n: nat, out: seq<byte>, buffer: nat, bitsLeft: nat, room: nat)
    requires Reading(Text(input), n, out, buffer, bitsLeft) && bitsLeft < 8 && |out| < room
    requires 0 in input || !Overruns(input, room)
    ensures n < |input| && (input[n] == 0 <==> n == |Text(input)|)
  {
    if 0 !in input && n == |input| {
      assert input[..n] == input;
      FiveBitsEach(input);
    }
  }

  ghost function Grown(out: seq<byte>, w: Option<byte>): seq<byte> {
    match w
    case Some(v) => out + [v]
    case None => out
  }

  /** One character into the accumulator, and the byte that leaves it. */
  method ReadOne(ch: byte, buffer: nat, bitsLeft: nat, ghost text: seq<byte>, ghost n: nat, ghost out: seq<byte>)
    returns (ok: bool, buffer': nat, bitsLeft': nat, w: Option<byte>)
    requires n < |text| && text[n] == ch
    requires bitsLeft < 8 && Reading(text, n, out, buffer, bitsLeft)
    ensures ok == Readable(ch)
    ensures ok ==> bitsLeft' < 8 && Reading(text, n + 1, Grown(out, w), buffer', bitsLeft')
  {
    ok, buffer', bitsLeft', w := true, buffer, bitsLeft, None;
    if Ignored(ch) {
      ReadIgnored(text, n, out, buffer, bitsLeft);
      return;
    }
    var digit := Digit(ch);
    if digit.None? {
      ok := false;
      return;
    }
    ReadDigit(text, n, out, buffer, bitsLeft);
    buffer' := buffer * 32 % 0x1_0000_0000 + digit.value;
    bitsLeft' := bitsLeft + 5;
    if bitsLeft' >= 8 {
      ReadByte(text, n + 1, out, buffer', bitsLeft');
      bitsLeft' := bitsLeft' - 8;
      w := Some(Down(buffer', bitsLeft') % 256);
    }
  }

  /** The loop of the decoder: the bytes the text stands for, unless a bad character spoils it. */
  method ReadText(input: seq<byte>, outBuf: array<byte>) returns (ok: bool, count: nat)
    requires 0 in input || !Overruns(input, outBuf.Length)
    modifies outBuf
    ensures ok <==> Decoded(Text(input), outBuf.Length).Some?
    ensures ok ==>
      var x := Decoded(Text(input), outBuf.Length).value;
      count == |x| <= outBuf.Length && Kept(outBuf[..], old(outBuf[..]), x)
  {
    ghost var (text, out: seq<byte>, was) := (Text(input), [], outBuf[..]);
    var buffer: nat, bitsLeft: nat, i: nat := 0, 0, 0;
    count := 0;
    assert text[..0] == [];
    while count < outBuf.Length
      invariant i <= |text| && bitsLeft < 8 && Reading(text, i, out, buffer, bitsLeft)
      invariant Kept(outBuf[..], was, out) && |out| == count
      decreases |text| - i
    {
      var step, w;
      step, buffer, bitsLeft, w := ReadNext(input, i, buffer, bitsLeft, out, outBuf.Length);
      if step == End {
        break;
      }
      if step == Bad {
        return false, count;
      }
      if w.Some? {
        outBuf[count] := w.value;
        count := count + 1;
      }
      out := Grown(out, w);
      i := i + 1;
    }
    ReadEnough(text, i, out, buffer, bitsLeft, outBuf.Length);
    ok := true;
  }

  datatype Step = End | Bad | Taken

  /** What is at place `i`: the end, a character that spoils the text, or one to be read. */
  method ReadNext(input: seq<byte>, i: nat, buffer: nat, bitsLeft: nat, ghost out: seq<byte>, ghost room: nat)
    returns (step: Step, buffer': nat, bitsLeft': nat, w: Option<byte>)
    requires Reading(Text(input), i, out, buffer, bitsLeft) && bitsLeft < 8 && |out| < room
    requires 0 in input || !Overruns(input, room)
    ensures step == End <==> i == |Text(input)|
    ensures step == End ==> buffer' == buffer && bitsLeft' == bitsLeft && w == None
    ensures step == Bad ==> Decoded(Text(input), room) == None
    ensures step == Taken ==> bitsLeft' < 8 && Reading(Text(input), i + 1, Grown(out, w), buffer', bitsLeft')
  {
    NotOverrun(input, i, out, buffer, bitsLeft, room);
    if input[i] == 0 {
      return End, buffer, bitsLeft, None;
    }
    var ok;
    ok, buffer', bitsLeft', w := ReadOne(input[i], buffer, bitsLeft, Text(input), i, out);
    if !ok {
      ReadEnough(Text(input), i, out, buffer, bitsLeft, room);
    }
    step := if ok then Taken else Bad;
  }

  /**
   * The bytes the text stands for, terminated if there is room, or -1. The text needs a terminator unless it is
   * spoilt or fills the buffer.
   */
  method Decode(input: seq<byte>, outBuf: array<byte>) returns (n: int)
    requires 0 in input || !Overruns(input, outBuf.Length)
    modifies outBuf
    ensures match Decoded(Text(input), outBuf.Length)
            case None => n == -1
            case Some(x) =>
              && n == |x| <= outBuf.Length && outBuf[..n] == x && (n < outBuf.Length ==> outBuf[n] == 0)
              && forall i :: n < i < outBuf.Length ==> outBuf[i] == old(outBuf[i])
  {
    var ok, count := ReadText(input, outBuf);
    if !ok {
      return -1;
    }
    if count < outBuf.Length {
      outBuf[count] := 0;
    }
    n := count;
  }

  // ---------- back and forth ----------

  lemma LetterDigit(v: nat)
    requires v < 32
    ensures Readable(Letter(v)) && CharBits(Letter(v)) == Low(v, 5) && Letter(v) != 0
  {
    DigitOfLetter(v);
  }

  lemma DigitOfLetter(v: nat)
    requires v < 32
    ensures Digit(Letter(v)) == Some(v) && !Ignored(Letter(v)) && Letter(v) != 0
  {
    if v < 26 { assert (65 + v) % 32 == v + 1; }
  }

  lemma {:induction false} DigitBitsFirst(text: seq<byte>)
    requires Clean(text) && text != []
    ensures DigitBits(text) == CharBits(text[0]) + DigitBits(text[1..])
  {
    var n := |text| - 1;
    if n == 0 {
      assert text[..0] == [] && text[1..] == [];
      assert CharBits(text[0]) + [] == [] + CharBits(text[0]);
    } else {
      DigitBitsFirst(text[..n]);
      assert text[..n][1..] == text[1..][..n - 1];
      Assoc(CharBits(text[0]), DigitBits(text[1..][..n - 1]), CharBits(text[n]));
    }
  }

  /** The first letter stands for the first group. */
  lemma LettersFirst(g: seq<nat>, group: seq<bool>)
    requires |g| > 0 && (forall i :: 0 <= i < |g| ==> g[i] < 32)
    requires |group| == 5 && g[0] == Number(group)
    requires var t := Letters(g[1..]); Clean(t) && 0 !in t
    ensures var t := Letters(g); Clean(t) && 0 !in t && DigitBits(t) == group + DigitBits(Letters(g[1..]))
  {
    var t := Letters(g);
    LetterDigit(g[0]);
    LowNumber(group);
    assert t[1..] == Letters(g[1..]);
    assert t == [t[0]] + t[1..];
    DigitBitsFirst(t);
  }

  /** The letters for some groups stand for the bits grouped, and the zeros that filled up the last. */
  lemma {:induction false} LettersKeepBits(bits: seq<bool>) returns (more: seq<bool>)
    ensures var t := Letters(Groups(bits)); Clean(t) && 0 !in t && DigitBits(t) == bits + more
    ensures |more| < 5
  {
    var g := Groups(bits);
    more := [];
    if 0 < |bits| < 5 {
      assert Letters(g[1..]) == [];
      more := Filled(bits)[|bits|..];
      LettersFirst(g, Filled(bits));
      assert Filled(bits) + [] == bits + more;
    } else if bits != [] {
      more := LettersKeepBits(bits[5..]);
      assert g[1..] == Groups(bits[5..]);
      LettersFirst(g, bits[..5]);
      Assoc(bits[..5], bits[5..], more);
      assert bits[..5] + bits[5..] == bits;
    }
  }

  lemma {:induction false} TextOf(t: seq<byte>, rest: seq<byte>)
    requires 0 !in t
    ensures Text(t + [0] + rest) == t
  {
    if t != [] {
      TextOf(t[1..], rest);
      assert (t + [0] + rest)[1..] == t[1..] + [0] + rest;
    }
  }

  lemma EncodedStands(x: seq<byte>) returns (more: seq<bool>)
    ensures var t := Encoded(x); 0 !in t && CleanLength(t) == |t| && Octets(DigitBits(t[..|t|])) == x
  {
    var t := Encoded(x);
    more := LettersKeepBits(Stream(x));
    assert t[..|t|] == t;
    CleanUpTo(t, |t|);
    OctetsOfStream(x, more);
    assert x + [] == x;
  }

  lemma EncodedDecodes(x: seq<byte>, t: seq<byte>, room: nat)
    requires t == Encoded(x) && |x| <= room
    ensures 0 !in t && Decoded(t, room) == Some(x) && (room == |x| ==> !Overruns(t, room))
  {
    var more := EncodedStands(x);
    assert x[..|x|] == x && t[..|t|] == t;
    if Clean(t) { FiveBitsEach(t); }
  }

  /** What was encoded and terminated is decoded again. */
  lemma RoundTrip(x: seq<byte>, rest: seq<byte>, room: nat)
    requires |x| <= room
    ensures Decoded(Text(Encoded(x) + [0] + rest), room) == Some(x)
  {
    EncodedDecodes(x, Encoded(x), room);
    TextOf(Encoded(x), rest);
  }

  /** Into a buffer of the length of the data it is decoded without a terminator. */
  lemma RoundTripUnterminated(x: seq<byte>)
    ensures !Overruns(Encoded(x), |x|) && Decoded(Text(Encoded(x)), |x|) == Some(x)
  {
    EncodedDecodes(x, Encoded(x), |x|);
  }

  // ---------- the alphabet, and what is read for it ----------

  const ALPHABET: string := "ABCDEFGHIJKLMNOPQRSTUVWXYZ234567"

  /** The letter for a number is the one that stands there in the alphabet, and is read as that number. */
  lemma LetterStands(v: nat)
    requires v < 32
    ensures Letter(v) == ALPHABET[v] as nat && Digit(ALPHABET[v] as nat) == Some(v)
  {
    if v < 26 {
      assert ALPHABET[..26] == "ABCDEFGHIJKLMNOPQRSTUVWXYZ";
      Capitals(v);
    }
  }

  lemma Capitals(v: nat)
    requires v < 26
    ensures ALPHABET[v] as nat == 65 + v
  {
  }

  /** What a text is meant to say: in capitals, without spaces and dashes, and without the digits that are none. */
  function Meant(ch: char): string {
    if ch in " \t\r\n-" then ""
    else if 'a' <= ch <= 'z' then [(ch as int - 'a' as int + 'A' as int) as char]
    else if ch == '0' then "O"
    else if ch == '1' then "L"
    else if ch == '8' then "B"
    else [ch]
  }

  function Normal(text: seq<byte>): seq<byte> {
    if text == [] then [] else Normal(text[..|text| - 1]) + NormalOf(text[|text| - 1])
  }

  function NormalOf(ch: byte): (t: seq<byte>)
    ensures |t| == |Meant(ch as char)| <= 1
  {
    var m := Meant(ch as char);
    if m == "" then [] else [m[0] as nat]
  }

  lemma MeantAsByte(ch: byte)
    ensures NormalOf(ch) ==
            if Ignored(ch) then [] else if 97 <= ch <= 122 then [ch - 32] else [Corrected(ch)]
  {
    var blank := " \t\r\n-";
    assert blank[0] == ' ' && blank[1] == '\t' && blank[2] == '\r' && blank[3] == '\n' && blank[4] == '-';
    assert ch as char in blank <==> Ignored(ch);
  }

  /** A letter or digit stands for the same number as what is meant by it. */
  lemma SameDigit(ch: byte)
    requires !Ignored(ch)
    ensures var c := if 97 <= ch <= 122 then ch - 32 else Corrected(ch);
      !Ignored(c) && Digit(c) == Digit(ch) && (Digit(ch).None? ==> c == ch)
  {
    if 97 <= ch <= 122 { assert ch % 32 == (ch - 32) % 32; }
  }

  /** Character by character, the same is read for what is meant. */
  lemma ReadsAsMeant(ch: byte)
    ensures Readable(ch) <==> Clean(NormalOf(ch))
    ensures Readable(ch) ==> DigitBits(NormalOf(ch)) == CharBits(ch)
    ensures !Readable(ch) ==> NormalOf(ch) == [ch]
  {
    MeantAsByte(ch);
    if !Ignored(ch) {
      SameDigit(ch);
      OneCharBits(NormalOf(ch)[0]);
    }
  }

  lemma OneCharBits(ch: byte)
    ensures Readable(ch) ==> DigitBits([ch]) == CharBits(ch)
  {
    if Readable(ch) {
      assert [ch][..0] == [] && DigitBits([ch][..0]) == [];
    }
  }

  lemma {:induction false} BitsAdd(one: seq<byte>, two: seq<byte>)
    requires Clean(one) && Clean(two)
    ensures Clean(one + two) && DigitBits(one + two) == DigitBits(one) + DigitBits(two)
  {
    if two == [] {
      assert one + two == one;
    } else {
      var n := |two| - 1;
      BitsAdd(one, two[..n]);
      assert (one + two)[..|one + two| - 1] == one + two[..n];
      Assoc(DigitBits(one), DigitBits(two[..n]), CharBits(two[n]));
    }
  }

  lemma {:induction false} CleanNormal(text: seq<byte>)
    requires Clean(text)
    ensures Clean(Normal(text)) && DigitBits(Normal(text)) == DigitBits(text)
  {
    if text != [] {
      var n := |text| - 1;
      CleanNormal(text[..n]);
      ReadsAsMeant(text[n]);
      BitsAdd(Normal(text[..n]), NormalOf(text[n]));
    }
  }

  lemma {:induction false} NormalAdds(one: seq<byte>, two: seq<byte>)
    ensures Normal(one + two) == Normal(one) + Normal(two)
  {
    if two == [] {
      assert one + two == one;
    } else {
      var n := |two| - 1;
      NormalAdds(one, two[..n]);
      NormalLast(one, two);
      Assoc(Normal(one), Normal(two[..n]), NormalOf(two[n]));
    }
  }

  lemma NormalLast(one: seq<byte>, two: seq<byte>)
    requires two != []
    ensures var n := |two| - 1; Normal(one + two) == Normal(one + two[..n]) + NormalOf(two[n])
  {
    assert (one + two)[..|one + two| - 1] == one + two[..|two| - 1];
  }

  lemma NormalEnds(text: seq<byte>)
    ensures var (n, k) := (CleanLength(text), |Normal(text[..CleanLength(text)])|);
      && k <= |Normal(text)| && Normal(text)[..k] == Normal(text[..n])
      && (n == |text| ==> k == |Normal(text)|)
      && (n < |text| ==> k < |Normal(text)| && Normal(text)[k] == text[n])
  {
    var n := CleanLength(text);
    assert text == text[..n] + text[n..];
    NormalAdds(text[..n], text[n..]);
    if n < |text| { NormalFirst(text[n..]); }
  }

  lemma NormalFirst(text: seq<byte>)
    requires text != [] && !Readable(text[0])
    ensures Normal(text) != [] && Normal(text)[0] == text[0]
  {
    var (ch, rest) := (text[0], text[1..]);
    ReadsAsMeant(ch);
    NormalAdds([ch], rest);
    assert text == [ch] + rest;
    assert [ch][..0] == [] && Normal([ch]) == [ch];
  }

  /**
   * Any text decodes as what it is meant to say does: small letters as capitals, 0, 1 and 8 as O, L and B, and
   * spaces, tabs, line ends and dashes as if they were not there.
   */
  lemma DecodesAsMeant(text: seq<byte>, room: nat)
    ensures Decoded(text, room) == Decoded(Normal(text), room)
  {
    var n := CleanLength(text);
    var k := |Normal(text[..n])|;
    CleanNormal(text[..n]);
    NormalEnds(text);
    CleanUpTo(Normal(text), k);
  }
}
