/** An EEPROM on the bus: page writes, and reads with automatic increment of the address. */
module Eeprom {
  import opened Common
  import opened I2CBus
  import opened I2CMaster
  import opened I2CRuns
  import opened I2CTheorems

  const PAGE: nat := 0x20
  const CELLS: nat := 0x1000
  const DEVICE_SIZE: nat := 0x800
  const INVALID_BUFFER: int := -5200

  type Cells = c: seq<byte> | |c| == CELLS witness seq(CELLS, i => 0)

  // ---------- the chip ----------

  /** The cells with `data` written from address `a` on, wrapping at the end of the memory only. */
  function Splice(c: Cells, a: nat, data: seq<byte>): Cells {
    if data == [] then c
    else
      var i := |data| - 1;
      Splice(c, a, data[..i])[(a + i) % CELLS := data[i]]
  }

  /** Where the chip puts byte `i` of a page write: the address counts up within its page. */
  function Slot(start: nat, i: nat): nat {
    (start / PAGE * PAGE + (start + i) % PAGE) % CELLS
  }

  function PageProgram(c: Cells, start: nat, data: seq<byte>): Cells {
    if data == [] then c
    else
      var i := |data| - 1;
      PageProgram(c, start, data[..i])[Slot(start, i) := data[i]]
  }

  /** The chip after a write of these bytes: two for the address, the high one first, then the data. */
  function Written(c: Cells, bytes: seq<byte>): Cells {
    if |bytes| < 2 then c else PageProgram(c, Pair(bytes[0], bytes[1]), bytes[2..])
  }

  /** What the chip sends when read from `start` on. */
  function ReadBack(c: Cells, start: nat, n: nat): (r: seq<byte>)
    ensures |r| == n
  {
    seq(n, i requires 0 <= i < n => c[(start + i) % CELLS])
  }

  predicate StaysInPage(start: nat, n: nat) {
    start % PAGE + n <= PAGE
  }

  lemma SlotInPage(start: nat, i: nat)
    requires StaysInPage(start, i + 1)
    ensures Slot(start, i) == (start + i) % CELLS
  {
  }

  /** A page write that stays in its page is a plain write. */
  lemma {:induction false} PageIsSplice(c: Cells, start: nat, data: seq<byte>)
    requires StaysInPage(start, |data|)
    ensures PageProgram(c, start, data) == Splice(c, start, data)
  {
    if data != [] {
      var i := |data| - 1;
      PageIsSplice(c, start, data[..i]);
      SlotInPage(start, i);
    }
  }

  lemma {:induction false} SpliceTwice(c: Cells, a: nat, d: seq<byte>, e: seq<byte>)
    ensures Splice(c, a, d + e) == Splice(Splice(c, a, d), a + |d|, e)
  {
    if e == [] {
      assert d + e == d;
    } else {
      var i := |e| - 1;
      SpliceTwice(c, a, d, e[..i]);
      assert (d + e)[..|d| + i] == d + e[..i];
    }
  }

  /** Addresses are cut to 16 bits, of which the chip uses twelve. */
  lemma {:induction false} SpliceCut(c: Cells, a: nat, d: seq<byte>)
    ensures Splice(c, a % 0x1_0000, d) == Splice(c, a, d)
  {
    if d != [] {
      var i := |d| - 1;
      SpliceCut(c, a, d[..i]);
      SlotCut(a, i);
    }
  }

  lemma SlotCut(a: nat, i: nat)
    ensures (a % 0x1_0000 + i) % CELLS == (a + i) % CELLS
  {
    Turns(a % 0x1_0000 + i, a / 0x1_0000);
  }

  lemma {:induction false} Turns(v: nat, q: nat)
    ensures (v + 0x1_0000 * q) % CELLS == v % CELLS
    decreases q
  {
    if q > 0 { Turns(v + 0x1_0000, q - 1); }
  }

  /** What a splice leaves: the data where it was put, and everything else. */
  lemma {:induction false} SpliceAt(c: Cells, a: nat, d: seq<byte>, k: nat)
    requires k < CELLS && |d| <= CELLS
    ensures Splice(c, a, d)[(a + k) % CELLS] == if k < |d| then d[k] else c[(a + k) % CELLS]
  {
    if d != [] {
      var i := |d| - 1;
      SpliceAt(c, a, d[..i], k);
      Apart(a, i, k);
    }
  }

  lemma Apart(a: nat, i: nat, k: nat)
    requires i < CELLS && k < CELLS
    ensures (a + i) % CELLS == (a + k) % CELLS <==> i == k
  {
  }

  /** Data written is read back, and nothing else has changed. */
  lemma WriteThenRead(c: Cells, a: nat, d: seq<byte>)
    requires |d| <= CELLS
    ensures ReadBack(Splice(c, a, d), a, |d|) == d
    ensures ReadBack(Splice(c, a, d), a + |d|, CELLS - |d|) == ReadBack(c, a + |d|, CELLS - |d|)
  {
    var (now, n) := (Splice(c, a, d), CELLS - |d|);
    var (back, rest, was) := (ReadBack(now, a, |d|), ReadBack(now, a + |d|, n), ReadBack(c, a + |d|, n));
    forall k | 0 <= k < |d| ensures back[k] == d[k] {
      SpliceAt(c, a, d, k);
    }
    forall i | 0 <= i < n ensures rest[i] == was[i] {
      SpliceAt(c, a, d, |d| + i);
    }
  }

  // ---------- on the wire ----------

  /** The high byte first. */
  function AddressBytes(start: uint16): (b: seq<byte>)
    ensures |b| == 2 && 0x100 * b[0] as nat + b[1] as nat == start
  {
    [start / 0x100, start % 0x100]
  }

  /** A page write: the address, then the data with no address phase of its own. */
  function WriteBatch(device: byte, address: Span, data: Span, n: uint16): seq<Transaction> {
    [Transaction(device, false, false, false, 2, address), Transaction(device, false, true, true, n, data)]
  }

  function ReadBatch(device: byte, address: Span, data: Span): seq<Transaction>
    requires data.Span? && data.size < 0x1_0000
  {
    [Transaction(device, false, false, false, 2, address), Transaction(device, true, true, false, data.size, data)]
  }

  /** Memory holds these bytes in this buffer. */
  predicate Holds(ram: seq<byte>, s: Span, bytes: seq<byte>) {
    s.Span? && |bytes| <= s.size && s.base + s.size <= |ram| && ram[s.base..][..|bytes|] == bytes
  }

  lemma WriteBatchFits(device: byte, address: Span, data: Span, n: uint16, ram: seq<byte>,
                       hl: seq<byte>, bytes: seq<byte>)
    requires Holds(ram, address, hl) && Holds(ram, data, bytes) && |hl| == 2 && |bytes| == n > 0
    ensures var t := WriteBatch(device, address, data, n);
      Validated(t) && Fits(t, |ram|) && SkipsCarryOn(t) && NoneStuck(t, 2)
  {
    var t := WriteBatch(device, address, data, n);
    assert Valid(t, 0) && Valid(t, 1);
    assert CarriesOn(t, 1);
  }

  /**
   * Whatever happens on the bus, the device sees the address and the data in one go, or a prefix of that; it sees
   * all of it when the batch completes with code 0.
   */
  lemma PageWriteOnWire(m: Master, device: byte, address: Span, data: Span, n: uint16, ram0: seq<byte>,
                        hl: seq<byte>, bytes: seq<byte>) returns (k: nat)
    requires m.txns == WriteBatch(device, address, data, n) && Inv(m, ram0)
    requires Holds(ram0, address, hl) && Holds(ram0, data, bytes) && |hl| == 2 && |bytes| == n > 0
    ensures k <= n + 2
    ensures Delivered(m.regs.wire) == Transfer(Party(device % 128, false), (hl + bytes)[..k])
    ensures m.signals == 1 && m.completion == 0 ==> k == n + 2
  {
    var who := Party(device % 128, false);
    var t := m.txns;
    DeliveredSoFar(m, ram0);
    assert Reached(t, 0) == who && Reached(t, 1) == who;
    k := BytesMoved(t, |m.done|, m.part);
    match |m.done|
    case 0 =>
      assert m.done == [] && Actual(t, []) == [];
      assert Sent(t, 0, ram0, m.part);
      assert (hl + bytes)[..k] == m.part;
    case 1 => SecondUnderWay(m, ram0, hl, bytes);
    case 2 => BothDone(m, ram0, hl, bytes);
  }

  function BytesMoved(t: seq<Transaction>, done: nat, part: seq<byte>): nat
    requires |t| == 2
  {
    if done == 0 then |part| else if done == 1 then t[0].length + |part| else t[0].length + t[1].length
  }

  ghost predicate SendsBoth(m: Master, ram0: seq<byte>, hl: seq<byte>, bytes: seq<byte>) {
    && Inv(m, ram0) && |m.txns| == 2
    && !m.txns[0].read && !m.txns[1].read
    && Holds(ram0, m.txns[0].data, hl) && |hl| == 2 == m.txns[0].length
    && Holds(ram0, m.txns[1].data, bytes) && |bytes| == m.txns[1].length
    && Reached(m.txns, 0) == Reached(m.txns, 1)
  }

  lemma SecondUnderWay(m: Master, ram0: seq<byte>, hl: seq<byte>, bytes: seq<byte>)
    requires SendsBoth(m, ram0, hl, bytes) && |m.done| == 1
    ensures |m.part| <= |bytes|
    ensures Actual(m.txns, m.done) + Transfer(Reached(m.txns, 1), m.part) ==
            Transfer(Reached(m.txns, 0), (hl + bytes)[..2 + |m.part|])
  {
    FirstDone(m.txns, ram0, m.done, hl);
    assert Sent(m.txns, 1, ram0, m.part);
    assert (hl + bytes)[..2 + |m.part|] == hl + m.part;
  }

  lemma BothDone(m: Master, ram0: seq<byte>, hl: seq<byte>, bytes: seq<byte>)
    requires SendsBoth(m, ram0, hl, bytes) && |m.done| == 2
    ensures Actual(m.txns, m.done) == Transfer(Reached(m.txns, 0), (hl + bytes)[..2 + |bytes|])
  {
    var first := m.done[..1];
    FirstDone(m.txns, ram0, first, hl);
    assert Sent(m.txns, 1, Memory(m.txns, ram0, first), m.done[1]);
    assert (hl + bytes)[..2 + |bytes|] == hl + bytes == hl + m.done[1];
  }

  lemma FirstDone(t: seq<Transaction>, ram0: seq<byte>, done: seq<seq<byte>>, hl: seq<byte>)
    requires |t| == 2 && Validated(t) && Fits(t, |ram0|) && Full(t, done) && |done| == 1
    requires !t[0].read && t[0].length == 2 && Holds(ram0, t[0].data, hl) && |hl| == 2
    requires Sent(t, 0, ram0, done[0])
    ensures done[0] == hl && Memory(t, ram0, done) == ram0
    ensures Actual(t, done) == Transfer(Reached(t, 0), hl)
  {
    assert done[..0] == [];
    assert Actual(t, []) == [];
  }

  lemma ReadBatchFits(device: byte, address: Span, data: Span, ram: seq<byte>, hl: seq<byte>)
    requires Holds(ram, address, hl) && |hl| == 2
    requires data.Span? && 0 < data.size < 0x1_0000 && data.base + data.size <= |ram|
    ensures var t := ReadBatch(device, address, data);
      Validated(t) && Fits(t, |ram|) && SkipsCarryOn(t) && NoneStuck(t, 2)
  {
    var t := ReadBatch(device, address, data);
    assert Valid(t, 0) && Valid(t, 1);
    assert !t[1].Skips();
  }

  /** A read that completes with code 0: the address went out, and the buffer holds what the device sent for it. */
  lemma ReadOnWire(m: Master, device: byte, address: Span, data: Span, ram0: seq<byte>, hl: seq<byte>)
    requires data.Span? && 0 < data.size < 0x1_0000 && data.base + data.size <= |ram0|
    requires m.txns == ReadBatch(device, address, data) && Inv(m, ram0) && m.signals == 1 && m.completion == 0
    requires Holds(ram0, address, hl) && |hl| == 2
    ensures ReadDone(m, device, data, ram0, hl)
  {
    var t := m.txns;
    ReadBatchFits(device, address, data, ram0, hl);
    CompletedBatchDelivers(m, ram0);
    var first := m.done[..1];
    assert first[..0] == [] && Memory(t, ram0, []) == ram0;
    assert Sent(t, 0, ram0, m.done[0]);
    assert m.done[0] == hl;
    assert Memory(t, ram0, first) == ram0;
    assert m.ram == Store(ram0, data.base, m.done[1]);
    assert m.ram[data.base..][..data.size] == m.done[1];
    assert Requested(t, []) == [] && Requested(t, first) == Transfer(Named(t, 0), hl);
  }

  /** So every run of the master for a page write sends the device a prefix of address and data, and all on code 0. */
  lemma EveryWriteSends(device: byte, address: Span, data: Span, ram: seq<byte>, hl: seq<byte>, bytes: seq<byte>,
                        regs: Regs, rs: seq<Response>) returns (k: nat)
    requires Holds(ram, address, hl) && Holds(ram, data, bytes) && |hl| == 2 && 0 < |bytes| < 0x1_0000
    requires LegalRun(Start(WriteBatch(device, address, data, |bytes|), ram, regs), rs)
    ensures var m := Run(Start(WriteBatch(device, address, data, |bytes|), ram, regs), rs);
      && k <= |bytes| + 2 && Delivered(m.regs.wire) == Transfer(Party(device % 128, false), (hl + bytes)[..k])
      && (m.signals == 1 && m.completion == 0 ==> k == |bytes| + 2)
  {
    var t := WriteBatch(device, address, data, |bytes|);
    WriteBatchFits(device, address, data, |bytes|, ram, hl, bytes);
    RunReaches(t, ram, regs, rs);
    k := PageWriteOnWire(Run(Start(t, ram, regs), rs), device, address, data, |bytes|, ram, hl, bytes);
  }

  /** And every run for a read that ends with code 0 has filled the buffer with what came back for the address. */
  lemma EveryReadFills(device: byte, address: Span, data: Span, ram: seq<byte>, hl: seq<byte>, regs: Regs,
                       rs: seq<Response>)
    requires data.Span? && 0 < data.size < 0x1_0000 && data.base + data.size <= |ram|
    requires Holds(ram, address, hl) && |hl| == 2
    requires LegalRun(Start(ReadBatch(device, address, data), ram, regs), rs)
    ensures var m := Run(Start(ReadBatch(device, address, data), ram, regs), rs);
      m.signals == 1 && m.completion == 0 ==> ReadDone(m, device, data, ram, hl)
  {
    var t := ReadBatch(device, address, data);
    ReadBatchFits(device, address, data, ram, hl);
    RunReaches(t, ram, regs, rs);
    var m := Run(Start(t, ram, regs), rs);
    if m.signals == 1 && m.completion == 0 { ReadOnWire(m, device, address, data, ram, hl); }
  }

  /** The address went out, the buffer holds what came back for it, and other memory is as it was. */
  ghost predicate ReadDone(m: Master, device: byte, data: Span, ram0: seq<byte>, hl: seq<byte>) {
    && data.Span? && data.base + data.size <= |m.ram| == |ram0|
    && Delivered(m.regs.wire) == Transfer(Party(device % 128, false), hl) +
         Transfer(Party(device % 128, true), m.ram[data.base..][..data.size])
    && forall a :: 0 <= a < |ram0| && !(data.base <= a < data.base + data.size) ==> m.ram[a] == ram0[a]
  }

  // ---------- the driver ----------

  /** What becomes of a batch: code 0, or an error after the device took some of the bytes. */
  datatype Outcome = Done | Failed(err: int, taken: nat)

  /** Of `n` bytes sent, how many the device takes. */
  function Taken(o: Outcome, n: nat): (k: nat)
    ensures k <= n
  {
    if o.Failed? && o.taken < n then o.taken else n
  }

  function Code(o: Outcome): int {
    if o.Failed? then o.err else 0
  }

  /** The address and the data of a page write, as they go out. */
  function Message(start: uint16, data: seq<byte>): seq<byte> {
    AddressBytes(start) + data
  }

  /** However a page write within its page ends, the chip has been spliced with the data it took. */
  lemma MessageWrites(c: Cells, start: uint16, data: seq<byte>, k: nat)
    requires StaysInPage(start, |data|) && k <= |data| + 2
    ensures Written(c, Message(start, data)[..k]) == Splice(c, start, data[..if k < 2 then 0 else k - 2])
  {
    AddressPair(start);
    SentWrites(c, start / 0x100, start % 0x100, data, k);
  }

  lemma SentWrites(c: Cells, high: byte, low: byte, data: seq<byte>, k: nat)
    requires StaysInPage(Pair(high, low), |data|) && k <= |data| + 2
    ensures Written(c, ([high, low] + data)[..k]) == Splice(c, Pair(high, low), data[..if k < 2 then 0 else k - 2])
  {
    var bytes := ([high, low] + data)[..k];
    if k >= 2 {
      assert bytes[0] == high && bytes[1] == low && bytes[2..] == data[..k - 2];
      PageIsSplice(c, Pair(high, low), data[..k - 2]);
    }
  }

  function Values(deliveries: seq<Delivery>): (v: seq<byte>)
    ensures |v| == |deliveries|
  {
    seq(|deliveries|, i requires 0 <= i < |deliveries| => deliveries[i].value)
  }

  lemma ValuesOfTransfer(who: Party, bytes: seq<byte>, j: nat)
    requires j <= |bytes|
    ensures Values(Transfer(who, bytes)[..j]) == bytes[..j]
  {
  }

  /**
   * What the driver is told of the bus holds of every run of the I2C master for a page write: the chip, whether or
   * not it takes the last byte of a write that fails, ends as one of the outcomes says, with the code of the run.
   */
  lemma RunHasOutcome(device: byte, address: Span, data: Span, start: uint16, bytes: seq<byte>, ram: seq<byte>,
                      regs: Regs, rs: seq<Response>, c: Cells, j: nat) returns (o: Outcome)
    requires Holds(ram, address, AddressBytes(start)) && Holds(ram, data, bytes) && 0 < |bytes| < 0x1_0000
    requires LegalRun(Start(WriteBatch(device, address, data, |bytes|), ram, regs), rs)
    requires var m := Run(Start(WriteBatch(device, address, data, |bytes|), ram, regs), rs);
      m.signals == 1 && j <= |Delivered(m.regs.wire)| && (m.completion == 0 ==> j == |Delivered(m.regs.wire)|)
    ensures var m := Run(Start(WriteBatch(device, address, data, |bytes|), ram, regs), rs);
      && Code(o) == m.completion && (m.completion == 0 <==> o.Done?)
      && Written(c, Values(Delivered(m.regs.wire)[..j])) ==
         Written(c, Message(start, bytes)[..Taken(o, |Message(start, bytes)|)])
  {
    var m := Run(Start(WriteBatch(device, address, data, |bytes|), ram, regs), rs);
    var k := EveryWriteSends(device, address, data, ram, AddressBytes(start), bytes, regs, rs);
    o := OutcomeOf(m.completion, Party(device % 128, false), Message(start, bytes), k, j);
  }

  lemma OutcomeOf(completion: int, who: Party, message: seq<byte>, k: nat, j: nat) returns (o: Outcome)
    requires j <= k <= |message| && (completion == 0 ==> j == |message|)
    ensures Code(o) == completion && (completion == 0 <==> o.Done?)
    ensures Values(Transfer(who, message[..k])[..j]) == message[..Taken(o, |message|)]
  {
    ValuesOfTransfer(who, message[..k], j);
    assert message[..k][..j] == message[..j];
    o := if completion == 0 then Done else Failed(completion, j);
  }

  lemma AddressPair(start: uint16)
    ensures Pair(start / 0x100, start % 0x100) == start
  {
  }

  class AT24CS32 {
    /** The chip's memory. */
    var cells: Cells
    /** What the bus has in store for the batches to come; when this runs out, they all succeed. */
    var outlook: seq<Outcome>
    /** The chip's memory after every batch so far. */
    ghost var past: seq<Cells>
    /** Page writes that wrapped round in their page. */
    ghost var wraps: nat

    ghost predicate Valid()
      reads this
    {
      forall i :: 0 <= i < |outlook| ==> Code(outlook[i]) != 0 || outlook[i].Done?
    }

    function Next(): Outcome
      reads this
    {
      if outlook == [] then Done else outlook[0]
    }

    /** The batch that sends these bytes in one go. */
    method Send(bytes: seq<byte>) returns (err: int)
      requires Valid()
      modifies this
      ensures Valid() && outlook == if old(outlook) == [] then [] else old(outlook)[1..]
      ensures err == Code(old(Next())) && (err == 0 <==> old(Next()).Done?)
      ensures cells == Written(old(cells), bytes[..Taken(old(Next()), |bytes|)])
      ensures past == old(past) + [cells]
      ensures wraps == old(wraps) +
        if |bytes| >= 2 && !StaysInPage(Pair(bytes[0], bytes[1]), |bytes| - 2) then 1 else 0
    {
      var o := Next();
      err := Code(o);
      cells := Written(cells, bytes[..Taken(o, |bytes|)]);
      outlook := if outlook == [] then [] else outlook[1..];
      past := past + [cells];
      if |bytes| >= 2 && !StaysInPage(Pair(bytes[0], bytes[1]), |bytes| - 2) {
        wraps := wraps + 1;
      }
    }

    method Receive(data: seq<byte>, buffer: array<byte>)
      requires |data| <= buffer.Length
      modifies buffer
      ensures buffer[..|data|] == data
    {
      for i := 0 to |data|
        invariant buffer[..i] == data[..i]
      {
        buffer[i] := data[i];
      }
    }

    /** A read from anywhere in the memory; on failure the buffer may have been filled in part. */
    method Read(start: uint16, buffer: array<byte>) returns (err: int)
      requires Valid()
      modifies this, buffer
      ensures Valid() && cells == old(cells) && wraps == old(wraps)
      ensures if 0 < buffer.Length <= DEVICE_SIZE then
                && err == Code(old(Next())) && (err == 0 <==> old(Next()).Done?)
                && past == old(past) + [cells]
                && (err == 0 ==> buffer[..] == ReadBack(cells, start, buffer.Length))
              else
                err == INVALID_BUFFER && unchanged(this) && buffer[..] == old(buffer[..])
    {
      if buffer.Length == 0 || buffer.Length > DEVICE_SIZE {
        return INVALID_BUFFER;
      }
      var data := ReadBack(cells, start, buffer.Length);
      var k := Taken(Next(), 2 + buffer.Length);
      Receive(data[..if k < 2 then 0 else k - 2], buffer);
      assert k == 2 + buffer.Length ==> buffer[..] == data[..buffer.Length] == data;
      err := Send(AddressBytes(start));
    }

    /** Nothing for a buffer that does not fit its page; otherwise the chip takes all of it, or some on failure. */
    method PageWrite(start: uint16, buffer: seq<byte>, numBytes: nat) returns (err: int, ghost taken: nat)
      requires Valid()
      modifies this
      ensures Valid() && wraps == old(wraps)
      ensures taken <= |buffer| && cells == Splice(old(cells), start, buffer[..taken])
      ensures if Accepted(start, buffer, numBytes) then
                var n := if numBytes != 0 then numBytes else |buffer|;
                && err == Code(old(Next())) && (err == 0 ==> taken == n)
                && outlook == (if old(outlook) == [] then [] else old(outlook)[1..])
                && past == old(past) + [cells]
              else
                err == INVALID_BUFFER && taken == 0 && unchanged(this)
    {
      taken := 0;
      if |buffer| == 0 || |buffer| > PAGE {
        return INVALID_BUFFER, taken;
      }
      var pageOff := start % PAGE;
      if |buffer| > PAGE - pageOff {
        return INVALID_BUFFER, taken;
      }
      if numBytes > |buffer| {
        return INVALID_BUFFER, taken;
      }
      var n := if numBytes != 0 then numBytes else |buffer|;
      ghost var k := Taken(Next(), n + 2);
      MessageWrites(cells, start, buffer[..n], k);
      taken := if k < 2 then 0 else k - 2;
      assert buffer[..n][..taken] == buffer[..taken];
      err := Send(Message(start, buffer[..n]));
    }

    /** A page write of part of the data, the data before it being written already. */
    method WritePart(address: uint16, data: seq<byte>, offset: nat, n: nat, numBytes: nat,
                     ghost c0: Cells, ghost p0: seq<Cells>)
      returns (err: int)
      requires Valid() && offset + n <= |data|
      requires cells == Splice(c0, address, data[..offset]) && AllPartly(p0, past, c0, address, data)
      modifies this
      ensures Valid() && wraps == old(wraps)
      ensures PartlyWritten(cells, c0, address, data) && AllPartly(p0, past, c0, address, data)
      ensures if InPage(address + offset, n) && numBytes <= n then
                && err == Code(old(Next())) && outlook == (if old(outlook) == [] then [] else old(outlook)[1..])
                && (err == 0 ==> cells == Splice(c0, address, data[..offset + if numBytes != 0 then numBytes else n]))
                && (Works(old(outlook)) ==> err == 0 && Works(outlook))
              else
                err == INVALID_BUFFER && unchanged(this)
    {
      ghost var taken;
      ghost var buffer := data[offset..offset + n];
      err, taken := PageWrite((address + offset) % 0x1_0000, data[offset..offset + n], numBytes);
      Grows(c0, old(cells), address, data, offset, n, taken, cells);
      SamePage(address + offset);
    }

    /**
     * At every moment the chip holds its old contents with a prefix of the data spliced in, and with all of it when
     * the call returns 0; no page write wraps. On a bus that works an aligned write succeeds, and one that is not
     * aligned does exactly when the data ends with the first page.
     */
    method WriteData(address: uint16, data: seq<byte>) returns (err: int)
      requires Valid()
      modifies this
      ensures Valid() && wraps == old(wraps)
      ensures PartlyWritten(cells, old(cells), address, data)
      ensures err == 0 ==> cells == Splice(old(cells), address, data)
      ensures err != 0 ==> err == INVALID_BUFFER || CodeOfSome(old(outlook), err)
      ensures address % PAGE == 0 && err != 0 ==> CodeOfSome(old(outlook), err)
      ensures AllPartly(old(past), past, old(cells), address, data)
      ensures (address % PAGE != 0 && |data| != PAGE - address % PAGE) ==> err == INVALID_BUFFER && unchanged(this)
      ensures Works(old(outlook)) ==> (err == 0 <==> address % PAGE == 0 || |data| == PAGE - address % PAGE)
    {
      ghost var (c0, p0) := (cells, past);
      var offset: nat := 0;
      Begins(c0, address, data);
      assert data[..|data|] == data;
      if address % PAGE != 0 {
        var bytes := PAGE - address % PAGE;
        err := WritePart(address, data, 0, |data|, bytes, c0, p0);
        if err != 0 {
          return;
        }
        PageEnds(address);
        offset := offset + bytes;
      }
      err := WriteFrom(address, data, offset, c0, p0);
    }

    /** Full pages, then what is left over, from the start of a page on. */
    method WriteFrom(address: uint16, data: seq<byte>, start: nat, ghost c0: Cells, ghost p0: seq<Cells>)
      returns (err: int)
      requires Valid() && start <= |data| && (address + start) % PAGE == 0
      requires cells == Splice(c0, address, data[..start]) && AllPartly(p0, past, c0, address, data)
      modifies this
      ensures Valid() && wraps == old(wraps)
      ensures PartlyWritten(cells, c0, address, data) && AllPartly(p0, past, c0, address, data)
      ensures err == 0 ==> cells == Splice(c0, address, data)
      ensures err != 0 ==> CodeOfSome(old(outlook), err)
      ensures Works(old(outlook)) ==> err == 0
    {
      var offset := start;
      var fullPages := (|data| - offset) / PAGE;
      for page := 0 to fullPages
        invariant Valid() && wraps == old(wraps) && (Works(old(outlook)) ==> Works(outlook))
        invariant forall o :: o in outlook ==> o in old(outlook)
        invariant 0 <= offset && offset + PAGE * (fullPages - page) <= |data|
        invariant |data| < offset + PAGE * (fullPages - page) + PAGE
        invariant (address + offset) % PAGE == 0
        invariant cells == Splice(c0, address, data[..offset]) && AllPartly(p0, past, c0, address, data)
      {
        PageFits(address + offset, PAGE);
        err := WritePart(address, data, offset, PAGE, PAGE, c0, p0);
        if err != 0 {
          return;
        }
        offset := offset + PAGE;
      }
      assert data[..|data|] == data;
      if offset < |data| {
        PageFits(address + offset, |data| - offset);
        err := WritePart(address, data, offset, |data| - offset, |data| - offset, c0, p0);
        if err != 0 {
          return;
        }
      }
      err := 0;
    }
  }

  lemma PageEnds(a: nat)
    requires a % PAGE != 0
    ensures (a + (PAGE - a % PAGE)) % PAGE == 0
  {
  }

  lemma PageFits(a: nat, n: nat)
    requires a % PAGE == 0 && 0 < n <= PAGE
    ensures InPage(a, n) && (a + PAGE) % PAGE == 0
  {
  }

  ghost predicate CodeOfSome(outlook: seq<Outcome>, err: int) {
    exists o :: o in outlook && err == Code(o)
  }

  /** A bus on which every batch succeeds. */
  predicate Works(outlook: seq<Outcome>) {
    forall i :: 0 <= i < |outlook| ==> outlook[i].Done?
  }

  ghost predicate PartlyWritten(c: Cells, c0: Cells, a: nat, data: seq<byte>) {
    exists m :: 0 <= m <= |data| && c == Splice(c0, a, data[..m])
  }

  ghost predicate AllPartly(p0: seq<Cells>, past: seq<Cells>, c0: Cells, a: nat, data: seq<byte>) {
    && |p0| <= |past| && past[..|p0|] == p0
    && forall i :: |p0| <= i < |past| ==> PartlyWritten(past[i], c0, a, data)
  }

  lemma Begins(c0: Cells, a: nat, data: seq<byte>)
    ensures c0 == Splice(c0, a, data[..0]) && PartlyWritten(c0, c0, a, data)
  {
  }

  /** More of the data, put where the last of it ended. */
  lemma Grows(c0: Cells, c: Cells, a: nat, data: seq<byte>, offset: nat, n: nat, taken: nat, c': Cells)
    requires offset + n <= |data| && taken <= n && c == Splice(c0, a, data[..offset])
    requires c' == Splice(c, (a + offset) % 0x1_0000, data[offset..offset + n][..taken])
    ensures c' == Splice(c0, a, data[..offset + taken]) && PartlyWritten(c', c0, a, data)
  {
    var more := data[offset..offset + n][..taken];
    SpliceCut(c, a + offset, more);
    SpliceTwice(c0, a, data[..offset], more);
    assert data[..offset] + more == data[..offset + taken];
  }

  predicate InPage(start: nat, n: nat) {
    0 < n && StaysInPage(start, n)
  }

  lemma SamePage(a: nat)
    ensures a % 0x1_0000 % PAGE == a % PAGE
  {
    TurnsPage(a % 0x1_0000, a / 0x1_0000);
  }

  lemma {:induction false} TurnsPage(v: nat, q: nat)
    ensures (v + 0x1_0000 * q) % PAGE == v % PAGE
    decreases q
  {
    if q > 0 { TurnsPage(v + 0x1_0000, q - 1); }
  }

  predicate Accepted(start: uint16, buffer: seq<byte>, numBytes: nat) {
    0 < |buffer| <= PAGE - start % PAGE && numBytes <= |buffer|
  }
}
