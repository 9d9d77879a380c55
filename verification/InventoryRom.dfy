/** The inventory ROM: a fixed header, and a list of atoms, each a type, a length and a payload. */
module InventoryRom {
  import opened Common

  const INVALID_TYPE: int := -50001
  const INVALID_HEADER: int := -50002

  const END: byte := 0x00
  const INVALID: byte := 0xFF
  const HEADER_SIZE: nat := 8

  datatype AtomHeader = AtomHeader(kind: byte, length: byte)

  /** What the callbacks are told: an atom has been found, or a buffer has been filled from its payload. */
  datatype Call = Found(header: AtomHeader) | Filled(header: AtomHeader, buffer: seq<byte>)

  /** A caller, which goes on with every atom: the buffer it offers for atom number `i`, with what is in it then. */
  type Caller = (nat, AtomHeader) -> seq<byte>

  // ---------- the format ----------

  datatype Atom = Atom(kind: byte, payload: seq<byte>)

  /** Any atom but the last. */
  predicate Inner(a: Atom) {
    a.kind != END && a.kind != INVALID && |a.payload| < 0x100
  }

  predicate Inners(atoms: seq<Atom>) {
    forall i :: 0 <= i < |atoms| ==> Inner(atoms[i])
  }

  function PrintedAtom(a: Atom): seq<byte>
    requires Inner(a)
  {
    [a.kind, |a.payload|] + a.payload
  }

  function Printed(atoms: seq<Atom>): seq<byte>
    requires Inners(atoms)
  {
    if atoms == [] then [] else PrintedAtom(atoms[0]) + Printed(atoms[1..])
  }

  /** How much of a payload is read. */
  function Offered(size: nat, length: nat): (n: nat)
    ensures n <= length && n <= size && (n == length || n == size)
  {
    if size > length then length else size
  }

  /** The whole buffer is handed over: what was read, and behind that what was in it before. */
  function CallsFor(h: AtomHeader, payload: seq<byte>, buffer: seq<byte>): seq<Call>
    requires Offered(|buffer|, h.length) <= |payload|
  {
    var n := Offered(|buffer|, h.length);
    if n == 0 then [Found(h)] else [Found(h), Filled(h, payload[..n] + buffer[n..])]
  }

  /** The calls for some atoms, the first of them being number `i`. */
  function Calls(atoms: seq<Atom>, caller: Caller, i: nat): seq<Call>
    requires Inners(atoms)
  {
    if atoms == [] then []
    else
      var a := atoms[0];
      var h := AtomHeader(a.kind, |a.payload|);
      CallsFor(h, a.payload, caller(i, h)) + Calls(atoms[1..], caller, i + 1)
  }

  /** Big-endian magic number, size, version, and big-endian offset of the first atom. */
  predicate HeaderFits(rom: seq<byte>) {
    && |rom| >= HEADER_SIZE
    && rom[..4] == [0x49, 0x4E, 0x56, 0x69]
    && rom[4] as nat >= HEADER_SIZE && rom[5] <= 0x1F && FirstAtom(rom) >= rom[4]
  }

  function FirstAtom(rom: seq<byte>): nat
    requires |rom| >= HEADER_SIZE
  {
    Pair(rom[6], rom[7])
  }

  // ---------- the walk ----------

  datatype Outcome = Outcome(code: int, calls: seq<Call>)

  /** The walk from `addr` on; reads past the end of the image fail with code `e`. */
  function Walk(rom: seq<byte>, addr: nat, caller: Caller, i: nat, e: int): Outcome
    decreases |rom| - addr
  {
    if addr + 2 > |rom| then Outcome(e, [])
    else if rom[addr] == INVALID then Outcome(INVALID_TYPE, [])
    else
      var h := AtomHeader(rom[addr], rom[addr + 1]);
      var n := Offered(|caller(i, h)|, h.length);
      if n > 0 && addr + 2 + n > |rom| then Outcome(e, [Found(h)])
      else
        var calls := CallsAt(rom, addr, h, caller(i, h));
        if h.kind == END then Outcome(i + 1, calls)
        else
          var more := Walk(rom, addr + 2 + h.length, caller, i + 1, e);
          more.(calls := calls + more.calls)
  }

  function CallsAt(rom: seq<byte>, addr: nat, h: AtomHeader, buffer: seq<byte>): seq<Call>
    requires var n := Offered(|buffer|, h.length); n > 0 ==> addr + 2 + n <= |rom|
  {
    var n := Offered(|buffer|, h.length);
    if n == 0 then [Found(h)] else [Found(h), Filled(h, rom[addr + 2..][..n] + buffer[n..])]
  }

  function Atoms(rom: seq<byte>, caller: Caller, e: int): Outcome {
    if |rom| < HEADER_SIZE then Outcome(e, [])
    else if !HeaderFits(rom) then Outcome(INVALID_HEADER, [])
    else Walk(rom, FirstAtom(rom), caller, 0, e)
  }

  /** The image at the far end of the reader. */
  method Read(rom: seq<byte>, address: nat, length: nat, e: int) returns (err: int, bytes: seq<byte>)
    requires e != 0
    ensures if address + length <= |rom| then err == 0 && bytes == rom[address..][..length] else err == e
  {
    if address + length <= |rom| {
      return 0, rom[address..address + length];
    }
    return e, [];
  }

  method GetAtoms(rom: seq<byte>, caller: Caller, e: int) returns (err: int, calls: seq<Call>)
    requires e != 0
    ensures Outcome(err, calls) == Atoms(rom, caller, e)
  {
    calls := [];
    var header;
    err, header := Read(rom, 0, HEADER_SIZE, e);
    if err != 0 {
      return;
    }
    assert forall k :: 0 <= k < HEADER_SIZE ==> header[k] == rom[k];
    assert rom[..4] == header[..4];
    if header[..4] != [0x49, 0x4E, 0x56, 0x69] || header[4] as nat < HEADER_SIZE || header[5] > 0x1F ||
       Pair(header[6], header[7]) < header[4]
    {
      return INVALID_HEADER, calls;
    }
    err, calls := ReadAtoms(rom, Pair(header[6], header[7]), caller, e);
  }

  method ReadAtoms(rom: seq<byte>, first: nat, caller: Caller, e: int) returns (err: int, calls: seq<Call>)
    requires e != 0
    ensures Outcome(err, calls) == Walk(rom, first, caller, 0, e)
  {
    calls := [];
    var addr, numRead, hasNext := first, 0, true;
    ghost var goal := Walk(rom, addr, caller, 0, e);
    while hasNext
      invariant numRead >= 0
      invariant hasNext ==> Reaches(goal, calls, Walk(rom, addr, caller, numRead, e))
      invariant !hasNext ==> goal == Outcome(numRead, calls)
      decreases hasNext, |rom| - addr
    {
      ghost var before := calls;
      var h;
      err, h, calls := Visit(rom, addr, caller, numRead, e, calls);
      if err != 0 {
        return;
      }
      RoundReaches(goal, before, rom, addr, caller, numRead, e, h);
      addr := addr + 2 + h.length;
      numRead := numRead + 1;
      if h.kind == END {
        hasNext := false;
      }
    }
    err := numRead;
  }

  ghost predicate Reaches(goal: Outcome, calls: seq<Call>, more: Outcome) {
    goal == Outcome(more.code, calls + more.calls)
  }

  lemma RoundReaches(goal: Outcome, before: seq<Call>, rom: seq<byte>, addr: nat, caller: Caller, i: nat, e: int,
                     h: AtomHeader)
    requires Reaches(goal, before, Walk(rom, addr, caller, i, e))
    requires addr + 2 <= |rom| && h == AtomHeader(rom[addr], rom[addr + 1]) && h.kind != INVALID
    requires addr + 2 + Offered(|caller(i, h)|, h.length) <= |rom|
    ensures var calls := before + CallsAt(rom, addr, h, caller(i, h));
      if h.kind == END then goal == Outcome(i + 1, calls)
      else Reaches(goal, calls, Walk(rom, addr + 2 + h.length, caller, i + 1, e))
  {
    WalkStep(rom, addr, caller, i, e, h);
    var more := if h.kind == END then [] else Walk(rom, addr + 2 + h.length, caller, i + 1, e).calls;
    Assoc(before, CallsAt(rom, addr, h, caller(i, h)), more);
  }

  /** One round: the header, and the payload if it is asked for. */
  method Visit(rom: seq<byte>, addr: nat, caller: Caller, i: nat, e: int, calls: seq<Call>)
    returns (err: int, h: AtomHeader, calls': seq<Call>)
    requires e != 0
    ensures err == 0 ==>
      && addr + 2 <= |rom| && h == AtomHeader(rom[addr], rom[addr + 1]) && h.kind != INVALID
      && Offered(|caller(i, h)|, h.length) <= |rom| - addr - 2
      && calls' == calls + CallsAt(rom, addr, h, caller(i, h))
    ensures err != 0 ==> Reaches(Outcome(err, calls'), calls, Walk(rom, addr, caller, i, e))
  {
    var bytes;
    calls' := calls;
    h := AtomHeader(INVALID, 0);
    err, bytes := Read(rom, addr, 2, e);
    if err != 0 {
      return;
    }
    h := AtomHeader(bytes[0], bytes[1]);
    if h.kind == INVALID {
      err := INVALID_TYPE;
      return;
    }
    calls' := calls' + [Found(h)];
    var readBuf := caller(i, h);
    if |readBuf| > 0 && h.length > 0 {
      var length := if |readBuf| > h.length then h.length else |readBuf|;
      err, bytes := Read(rom, addr + 2, length, e);
      if err != 0 {
        return;
      }
      calls' := calls' + [Filled(h, bytes + readBuf[length..])];
    }
  }

  // ---------- what is printed is found again ----------

  /** Some atoms, the End atom, and whatever follows. */
  function List(atoms: seq<Atom>, length: byte, rest: seq<byte>): seq<byte>
    requires Inners(atoms)
  {
    if atoms == [] then [END, length] + rest
    else PrintedAtom(atoms[0]) + List(atoms[1..], length, rest)
  }

  lemma {:induction false} ListIsPrinted(atoms: seq<Atom>, length: byte, rest: seq<byte>)
    requires Inners(atoms)
    ensures List(atoms, length, rest) == Printed(atoms) + ([END, length] + rest)
  {
    if atoms != [] {
      ListIsPrinted(atoms[1..], length, rest);
      Assoc(PrintedAtom(atoms[0]), Printed(atoms[1..]), [END, length] + rest);
    }
  }

  /** Whether the caller gets what it asks for of the last atom: always, if that is empty as it should be. */
  predicate EndIsThere(length: byte, rest: seq<byte>, buffer: seq<byte>) {
    Offered(|buffer|, length) <= |rest|
  }

  /** An atom in the image, where the walk looks for it. */
  ghost predicate AtomAt(rom: seq<byte>, addr: nat, a: Atom) {
    && addr + 2 + |a.payload| <= |rom| && rom[addr] == a.kind && rom[addr + 1] == |a.payload|
    && rom[addr + 2..][..|a.payload|] == a.payload
  }

  ghost predicate EndAt(rom: seq<byte>, addr: nat, length: byte, rest: seq<byte>) {
    addr + 2 <= |rom| && rom[addr] == END && rom[addr + 1] == length && rom[addr + 2..] == rest
  }

  /** The list in the image, one atom after another. */
  ghost predicate Laid(rom: seq<byte>, addr: nat, atoms: seq<Atom>, length: byte, rest: seq<byte>)
    requires Inners(atoms)
    decreases |atoms|
  {
    if atoms == [] then EndAt(rom, addr, length, rest)
    else AtomAt(rom, addr, atoms[0]) && Laid(rom, addr + 2 + |atoms[0].payload|, atoms[1..], length, rest)
  }

  lemma AtomFirst(rom: seq<byte>, addr: nat, a: Atom, more: seq<byte>)
    requires Inner(a) && addr <= |rom|
    ensures rom[addr..] == PrintedAtom(a) + more <==> AtomAt(rom, addr, a) && rom[addr + 2 + |a.payload|..] == more
  {
    var (n, tail) := (|a.payload|, rom[addr..]);
    if tail == PrintedAtom(a) + more {
      assert tail[0] == a.kind && tail[1] == n;
      assert tail[2..] == a.payload + more == rom[addr + 2..];
      assert tail[2 + n..] == more;
    }
    if AtomAt(rom, addr, a) && rom[addr + 2 + n..] == more {
      assert rom[addr + 2..] == a.payload + more;
    }
  }

  lemma EndFirst(rom: seq<byte>, addr: nat, length: byte, rest: seq<byte>)
    requires addr <= |rom|
    ensures rom[addr..] == [END, length] + rest <==> EndAt(rom, addr, length, rest)
  {
    var tail := rom[addr..];
    if tail == [END, length] + rest {
      assert tail[0] == END && tail[1] == length;
      assert tail[2..] == rest == rom[addr + 2..];
    }
  }

  lemma LaidInside(rom: seq<byte>, addr: nat, atoms: seq<Atom>, length: byte, rest: seq<byte>)
    requires Inners(atoms) && Laid(rom, addr, atoms, length, rest)
    ensures addr <= |rom|
  {
  }

  /** A list is laid out where the rest of the image is its print. */
  lemma {:induction false} LaidIsList(rom: seq<byte>, addr: nat, atoms: seq<Atom>, length: byte, rest: seq<byte>)
    requires Inners(atoms) && addr <= |rom|
    ensures Laid(rom, addr, atoms, length, rest) <==> rom[addr..] == List(atoms, length, rest)
    decreases |atoms|
  {
    if atoms == [] {
      EndFirst(rom, addr, length, rest);
    } else {
      AtomFirst(rom, addr, atoms[0], List(atoms[1..], length, rest));
      if AtomAt(rom, addr, atoms[0]) {
        LaidIsList(rom, addr + 2 + |atoms[0].payload|, atoms[1..], length, rest);
      }
    }
  }

  lemma CallsThere(rom: seq<byte>, addr: nat, a: Atom, buffer: seq<byte>)
    requires Inner(a) && AtomAt(rom, addr, a)
    ensures var h := AtomHeader(a.kind, |a.payload|); CallsAt(rom, addr, h, buffer) == CallsFor(h, a.payload, buffer)
  {
    var (n, stretch) := (Offered(|buffer|, |a.payload|), rom[addr + 2..]);
    assert stretch[..n] == stretch[..|a.payload|][..n];
  }

  /** One round of the walk. */
  lemma WalkStep(rom: seq<byte>, addr: nat, caller: Caller, i: nat, e: int, h: AtomHeader)
    requires addr + 2 <= |rom| && h == AtomHeader(rom[addr], rom[addr + 1]) && h.kind != INVALID
    requires addr + 2 + Offered(|caller(i, h)|, h.length) <= |rom|
    ensures var calls := CallsAt(rom, addr, h, caller(i, h));
      var more := Walk(rom, addr + 2 + h.length, caller, i + 1, e);
      Walk(rom, addr, caller, i, e) ==
      if h.kind == END then Outcome(i + 1, calls) else Outcome(more.code, calls + more.calls)
  {
  }

  /** The walk over a list makes the calls for its atoms, and counts them and the End atom. */
  lemma {:induction false} WalkFindsAtoms(rom: seq<byte>, addr: nat, atoms: seq<Atom>, length: byte, rest: seq<byte>,
                                          caller: Caller, i: nat, e: int)
    requires Inners(atoms) && Laid(rom, addr, atoms, length, rest)
    requires EndIsThere(length, rest, caller(i + |atoms|, AtomHeader(END, length)))
    ensures var last := AtomHeader(END, length);
      Walk(rom, addr, caller, i, e) ==
      Outcome(i + |atoms| + 1, Calls(atoms, caller, i) + CallsFor(last, rest, caller(i + |atoms|, last)))
    decreases |atoms|
  {
    var last := AtomHeader(END, length);
    if atoms == [] {
      WalkFindsEnd(rom, addr, length, rest, caller, i, e);
    } else {
      var (a, h) := (atoms[0], AtomHeader(atoms[0].kind, |atoms[0].payload|));
      CallsThere(rom, addr, a, caller(i, h));
      WalkFindsAtoms(rom, addr + 2 + h.length, atoms[1..], length, rest, caller, i + 1, e);
      var calls := Calls(atoms[1..], caller, i + 1) + CallsFor(last, rest, caller(i + |atoms|, last));
      WalkFindsOne(rom, addr, h, caller, i, e, CallsFor(h, a.payload, caller(i, h)), Outcome(i + |atoms| + 1, calls));
      CallsOfFirst(atoms, caller, i, CallsFor(last, rest, caller(i + |atoms|, last)));
    }
  }

  lemma WalkFindsEnd(rom: seq<byte>, addr: nat, length: byte, rest: seq<byte>, caller: Caller, i: nat, e: int)
    requires EndAt(rom, addr, length, rest) && EndIsThere(length, rest, caller(i, AtomHeader(END, length)))
    ensures var last := AtomHeader(END, length);
      Walk(rom, addr, caller, i, e) == Outcome(i + 1, Calls([], caller, i) + CallsFor(last, rest, caller(i, last)))
  {
    var last := AtomHeader(END, length);
    WalkStep(rom, addr, caller, i, e, last);
  }

  lemma WalkFindsOne(rom: seq<byte>, addr: nat, h: AtomHeader, caller: Caller, i: nat, e: int, calls: seq<Call>,
                     rest: Outcome)
    requires addr + 2 + h.length <= |rom| && h == AtomHeader(rom[addr], rom[addr + 1])
    requires h.kind != INVALID && h.kind != END
    requires CallsAt(rom, addr, h, caller(i, h)) == calls
    requires Walk(rom, addr + 2 + h.length, caller, i + 1, e) == rest
    ensures Walk(rom, addr, caller, i, e) == Outcome(rest.code, calls + rest.calls)
  {
    assert Offered(|caller(i, h)|, h.length) <= h.length;
    WalkStep(rom, addr, caller, i, e, h);
  }

  lemma CallsOfFirst(atoms: seq<Atom>, caller: Caller, i: nat, last: seq<Call>)
    requires Inners(atoms) && atoms != []
    ensures var (a, h) := (atoms[0], AtomHeader(atoms[0].kind, |atoms[0].payload|));
      Calls(atoms, caller, i) + last == CallsFor(h, a.payload, caller(i, h)) + (Calls(atoms[1..], caller, i + 1) + last)
  {
  }

  lemma HeaderStays(before: seq<byte>, rom: seq<byte>)
    requires |before| >= HEADER_SIZE && before <= rom
    ensures FirstAtom(rom) == FirstAtom(before) && (HeaderFits(rom) <==> HeaderFits(before))
  {
    assert forall k :: 0 <= k < |before| ==> rom[k] == before[k];
    assert rom[..4] == before[..4];
  }

  /**
   * A valid header, any well-formed atoms and the End atom: every atom is found, in order, each buffer offered is
   * filled from its payload, and the code is their number, the End atom included.
   */
  lemma {:induction false} RoundTrip(before: seq<byte>, atoms: seq<Atom>, rest: seq<byte>, caller: Caller, e: int)
    requires HeaderFits(before) && FirstAtom(before) == |before| && Inners(atoms)
    ensures Atoms(before + (Printed(atoms) + ([END, 0] + rest)), caller, e) ==
            Outcome(|atoms| + 1, Calls(atoms, caller, 0) + [Found(AtomHeader(END, 0))])
  {
    var rom := before + List(atoms, 0, rest);
    ListIsPrinted(atoms, 0, rest);
    HeaderStays(before, rom);
    LaidIsList(rom, |before|, atoms, 0, rest);
    WalkFindsAtoms(rom, |before|, atoms, 0, rest, caller, 0, e);
  }

  // ---------- the header ----------

  /** A header and what lies between it and the first atom: magic number and offset with the high byte first. */
  function PrintedHeader(size: byte, version: byte, gap: seq<byte>): seq<byte>
    requires HEADER_SIZE + |gap| < 0x1_0000
  {
    var offset := HEADER_SIZE + |gap|;
    [0x49, 0x4E, 0x56, 0x69, size, version, offset / 0x100, offset % 0x100] + gap
  }

  /** A header is taken for what it says, and only with that magic number, and with size, version and offset right. */
  lemma HeaderTakenExactly(m: seq<byte>, size: byte, version: byte, high: byte, low: byte, more: seq<byte>)
    requires |m| == 4
    ensures var rom: seq<byte> := m + [size, version, high, low] + more;
      && FirstAtom(rom) == 0x100 * high + low
      && (HeaderFits(rom) <==>
            && 0x100_0000 * m[0] as nat + 0x1_0000 * m[1] as nat + 0x100 * m[2] as nat + m[3] as nat == 0x494E_5669
            && 8 <= size <= 0x100 * high + low && version <= 0x1F)
  {
    var rom := m + [size, version, high, low] + more;
    assert rom[4] == size && rom[5] == version && rom[6] == high && rom[7] == low;
    assert rom[..4] == m;
    MagicBytes(m[0], m[1], m[2], m[3]);
    assert m == [m[0], m[1], m[2], m[3]];
  }

  lemma MagicBytes(a: byte, b: byte, c: byte, d: byte)
    ensures 0x100_0000 * a as nat + 0x1_0000 * b as nat + 0x100 * c as nat + d as nat == 0x494E_5669 <==>
            a == 0x49 && b == 0x4E && c == 0x56 && d == 0x69
  {
  }

  /** So the round trip starts from a printed header, whatever lies between it and the first atom. */
  lemma WholeRoundTrip(size: byte, version: byte, gap: seq<byte>, atoms: seq<Atom>, rest: seq<byte>,
                       caller: Caller, e: int)
    requires 8 <= size <= 8 + |gap| < 0x1_0000 && version <= 0x1F && Inners(atoms)
    ensures Atoms(PrintedHeader(size, version, gap) + (Printed(atoms) + ([0, 0] + rest)), caller, e) ==
            Outcome(|atoms| + 1, Calls(atoms, caller, 0) + [Found(AtomHeader(0, 0))])
  {
    var before := PrintedHeader(size, version, gap);
    PrintedHeaderFits(size, version, gap);
    RoundTrip(before, atoms, rest, caller, e);
  }

  lemma PrintedHeaderFits(size: byte, version: byte, gap: seq<byte>)
    requires 8 <= size <= 8 + |gap| < 0x1_0000 && version <= 0x1F
    ensures var before := PrintedHeader(size, version, gap); HeaderFits(before) && FirstAtom(before) == |before|
  {
    var (magic, offset) := ([0x49, 0x4E, 0x56, 0x69], 8 + |gap|);
    HeaderTakenExactly(magic, size, version, offset / 0x100, offset % 0x100, gap);
    assert PrintedHeader(size, version, gap) == magic + [size, version, offset / 0x100, offset % 0x100] + gap;
  }

  // ---------- what is handed over ----------

  /** The calls if only what was read were handed over. */
  function Trimmed(atoms: seq<Atom>, caller: Caller, i: nat): seq<Call>
    requires Inners(atoms)
  {
    if atoms == [] then []
    else
      var a := atoms[0];
      var h := AtomHeader(a.kind, |a.payload|);
      var n := Offered(|caller(i, h)|, h.length);
      (if n == 0 then [Found(h)] else [Found(h), Filled(h, a.payload[..n])]) + Trimmed(atoms[1..], caller, i + 1)
  }

  /** No buffer is longer than the payload it is filled from. */
  ghost predicate NoneLonger(atoms: seq<Atom>, caller: Caller, i: nat)
    requires Inners(atoms)
  {
    forall k :: 0 <= k < |atoms| && atoms[k].payload != [] ==>
      |caller(i + k, AtomHeader(atoms[k].kind, |atoms[k].payload|))| <= |atoms[k].payload|
  }

  lemma NoneLongerFirst(atoms: seq<Atom>, caller: Caller, i: nat)
    requires Inners(atoms) && atoms != []
    ensures NoneLonger(atoms, caller, i) <==>
      && (atoms[0].payload != [] ==>
            |caller(i, AtomHeader(atoms[0].kind, |atoms[0].payload|))| <= |atoms[0].payload|)
      && NoneLonger(atoms[1..], caller, i + 1)
  {
    if NoneLonger(atoms, caller, i) {
      assert forall k :: 0 <= k < |atoms| - 1 ==> atoms[1..][k] == atoms[k + 1];
    } else {
      var k :| 0 <= k < |atoms| && atoms[k].payload != [] &&
        |caller(i + k, AtomHeader(atoms[k].kind, |atoms[k].payload|))| > |atoms[k].payload|;
      if k > 0 { assert atoms[1..][k - 1] == atoms[k] && i + 1 + (k - 1) == i + k; }
    }
  }

  /** What is handed over is exactly what was read of each payload, if and only if no buffer is longer than that. */
  lemma {:induction false} HandsOverPayloads(atoms: seq<Atom>, caller: Caller, i: nat)
    requires Inners(atoms)
    ensures Calls(atoms, caller, i) == Trimmed(atoms, caller, i) <==> NoneLonger(atoms, caller, i)
  {
    if atoms != [] {
      var a := atoms[0];
      var h := AtomHeader(a.kind, |a.payload|);
      var buffer := caller(i, h);
      var n := Offered(|buffer|, h.length);
      HandsOverPayloads(atoms[1..], caller, i + 1);
      NoneLongerFirst(atoms, caller, i);
      SameOfBoth(CallsFor(h, a.payload, buffer), if n == 0 then [Found(h)] else [Found(h), Filled(h, a.payload[..n])],
                 Calls(atoms[1..], caller, i + 1), Trimmed(atoms[1..], caller, i + 1));
      if n > 0 { FilledExactly(a.payload[..n], buffer, n); }
    }
  }

  lemma FilledExactly(read: seq<byte>, buffer: seq<byte>, n: nat)
    requires n <= |buffer|
    ensures read + buffer[n..] == read <==> |buffer| == n
  {
    if read + buffer[n..] == read { assert |read + buffer[n..]| == |read|; }
  }

  /** So with sixteen bytes offered for a payload of four, twelve that were there before are handed over too. */
  lemma LongBufferHandsOverMore(before: seq<byte>, rest: seq<byte>, caller: Caller, e: int)
    requires HeaderFits(before) && FirstAtom(before) == |before|
    requires forall i, h :: caller(i, h) == seq(16, k => 0xAA)
    ensures Inners([Atom(2, [1, 2, 3, 4])])
    ensures var rom := before + (Printed([Atom(2, [1, 2, 3, 4])]) + ([END, 0] + rest));
      Atoms(rom, caller, e) ==
      Outcome(2, [Found(AtomHeader(2, 4)), Filled(AtomHeader(2, 4), [1, 2, 3, 4] + seq(12, k => 0xAA)),
                  Found(AtomHeader(END, 0))])
  {
    var atoms := [Atom(2, [1, 2, 3, 4])];
    RoundTrip(before, atoms, rest, caller, e);
    var (h, buffer, payload) := (AtomHeader(2, 4), caller(0, AtomHeader(2, 4)), [1, 2, 3, 4]);
    assert buffer[4..] == seq(12, k => 0xAA) && payload[..4] == payload;
    assert CallsFor(h, payload, buffer) == [Found(h), Filled(h, payload + seq(12, k => 0xAA))];
    assert atoms[1..] == [] && Calls(atoms[1..], caller, 1) == [];
    assert Calls(atoms, caller, 0) == CallsFor(h, payload, buffer);
  }

  // ---------- what is found was printed ----------

  /** A walk that ends with a count got through its first round. */
  lemma FirstRound(rom: seq<byte>, addr: nat, caller: Caller, i: nat, e: int)
    requires e < 0 && Walk(rom, addr, caller, i, e).code >= 0
    ensures addr + 2 <= |rom| && rom[addr] != INVALID
    ensures var h := AtomHeader(rom[addr], rom[addr + 1]);
      && Offered(|caller(i, h)|, h.length) <= |rom| - addr - 2
      && Walk(rom, addr, caller, i, e).code ==
         if h.kind == END then i + 1 else Walk(rom, addr + 2 + h.length, caller, i + 1, e).code
  {
  }

  /** A walk that ends with a count has walked over exactly that many printed atoms, the last being the End atom. */
  lemma {:induction false} WalkCountsAtoms(rom: seq<byte>, addr: nat, caller: Caller, i: nat, e: int)
    returns (atoms: seq<Atom>, length: byte, rest: seq<byte>)
    requires e < 0 && Walk(rom, addr, caller, i, e).code >= 0
    ensures Inners(atoms) && Laid(rom, addr, atoms, length, rest)
    ensures Walk(rom, addr, caller, i, e).code == i + |atoms| + 1
    ensures EndIsThere(length, rest, caller(i + |atoms|, AtomHeader(END, length)))
    decreases |rom| - addr
  {
    FirstRound(rom, addr, caller, i, e);
    var h := AtomHeader(rom[addr], rom[addr + 1]);
    if h.kind == END {
      atoms, length, rest := [], h.length, rom[addr + 2..];
    } else {
      var next := addr + 2 + h.length;
      var more;
      more, length, rest := WalkCountsAtoms(rom, next, caller, i + 1, e);
      atoms := [Atom(h.kind, rom[addr + 2..next])] + more;
      assert atoms[1..] == more;
    }
  }

  ghost predicate Splits(rom: seq<byte>, atoms: seq<Atom>, length: byte, rest: seq<byte>, caller: Caller) {
    && HeaderFits(rom) && FirstAtom(rom) <= |rom| && Inners(atoms)
    && rom[FirstAtom(rom)..] == List(atoms, length, rest)
    && EndIsThere(length, rest, caller(|atoms|, AtomHeader(END, length)))
  }

  ghost predicate IsImage(rom: seq<byte>, caller: Caller, n: nat) {
    exists atoms, length, rest :: Splits(rom, atoms, length, rest, caller) && |atoms| == n
  }

  /** So a count comes back exactly for images with a valid header and a well-formed list of that many atoms. */
  lemma CountExactlyForImages(rom: seq<byte>, caller: Caller, e: int, n: nat)
    requires e < 0
    ensures Atoms(rom, caller, e).code == n + 1 <==> IsImage(rom, caller, n)
  {
    if Atoms(rom, caller, e).code == n + 1 {
      var atoms, length, rest := WalkCountsAtoms(rom, FirstAtom(rom), caller, 0, e);
      LaidInside(rom, FirstAtom(rom), atoms, length, rest);
      LaidIsList(rom, FirstAtom(rom), atoms, length, rest);
      assert Splits(rom, atoms, length, rest, caller);
    }
    if IsImage(rom, caller, n) {
      var atoms, length, rest :| Splits(rom, atoms, length, rest, caller) && |atoms| == n;
      LaidIsList(rom, FirstAtom(rom), atoms, length, rest);
      WalkFindsAtoms(rom, FirstAtom(rom), atoms, length, rest, caller, 0, e);
    }
  }
}
