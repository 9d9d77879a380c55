/** What every run of the master does: the invariant of its steps, and what follows when it completes. */
module I2CRuns {
  import opened Common
  import opened I2CBus
  import opened I2CMaster

  // ---------- the reference: what a batch does, one whole transaction after another ----------

  /** A transaction that carries on without an address phase goes the way the bus is already going: out. */
  predicate Reads(txns: seq<Transaction>, i: nat)
    requires i < |txns|
  {
    txns[i].read && !txns[i].Skips()
  }

  /** A finished transaction moved exactly its `length` bytes. */
  predicate Full(txns: seq<Transaction>, done: seq<seq<byte>>) {
    |done| <= |txns| && forall i :: 0 <= i < |done| ==> |done[i]| == txns[i].length
  }

  /** Memory after transaction `i` moved `bytes`: reads fill their buffer, writes change nothing. */
  function After(txns: seq<Transaction>, i: nat, ram: seq<byte>, bytes: seq<byte>): (r: seq<byte>)
    requires i < |txns| && Validated(txns) && Fits(txns, |ram|) && |bytes| <= txns[i].length
    ensures |r| == |ram|
  {
    assert Valid(txns, i);
    if Reads(txns, i) then Store(ram, txns[i].data.base, bytes) else ram
  }

  function Memory(txns: seq<Transaction>, ram: seq<byte>, done: seq<seq<byte>>): (r: seq<byte>)
    requires Validated(txns) && Fits(txns, |ram|) && Full(txns, done)
    ensures |r| == |ram|
  {
    if done == [] then ram
    else
      var i := |done| - 1;
      After(txns, i, Memory(txns, ram, done[..i]), done[i])
  }

  /** Every outgoing transaction sends what its buffer holds when its turn comes. */
  predicate FromMemory(txns: seq<Transaction>, ram: seq<byte>, done: seq<seq<byte>>)
    requires Validated(txns) && Fits(txns, |ram|) && Full(txns, done)
  {
    forall i :: 0 <= i < |done| && !Reads(txns, i) ==> Sent(txns, i, Memory(txns, ram, done[..i]), done[i])
  }

  predicate Sent(txns: seq<Transaction>, i: nat, ram: seq<byte>, bytes: seq<byte>)
    requires i < |txns| && Validated(txns) && Fits(txns, |ram|) && |bytes| <= txns[i].length
  {
    assert Valid(txns, i);
    bytes == ram[txns[i].data.base..][..|bytes|]
  }

  /** The data phase of transaction `i` so far: an incoming byte is refused further company when it is the last. */
  function Bytes(txns: seq<Transaction>, i: nat, bytes: seq<byte>): seq<Event>
    requires i < |txns|
  {
    seq(|bytes|, k requires 0 <= k < |bytes| =>
      if Reads(txns, i) then Rx(bytes[k], k == txns[i].length - 1) else Tx(bytes[k]))
  }

  /** STOP commands after transaction `i`: a read of several bytes always ends with one of its own. */
  function Stops(txns: seq<Transaction>, i: nat): seq<Event>
    requires i < |txns|
  {
    (if Reads(txns, i) && txns[i].length > 1 then [Stop] else []) +
    (if i + 1 < |txns| && txns[i + 1].continuation then [] else [Stop])
  }

  function Address(txn: Transaction): seq<Event> {
    if txn.Skips() then [] else [Addr(txn.AddressByte())]
  }

  /** The address phase that follows transaction `i`, if any. */
  function Following(txns: seq<Transaction>, i: nat): seq<Event>
    requires i < |txns|
  {
    if i == |txns| - 1 then [] else Address(txns[i + 1])
  }

  /** What comes between the bytes of transaction `i` and the next ones. */
  function Tail(txns: seq<Transaction>, i: nat): seq<Event>
    requires i < |txns|
  {
    Stops(txns, i) + Following(txns, i)
  }

  function Round(txns: seq<Transaction>, i: nat, bytes: seq<byte>): seq<Event>
    requires i < |txns|
  {
    Bytes(txns, i, bytes) + Tail(txns, i)
  }

  /** The conversation once `done` is done: everything on the wire before the first byte of the next transaction. */
  function Opening(txns: seq<Transaction>, done: seq<seq<byte>>): seq<Event>
    requires |done| <= |txns| && txns != []
  {
    if done == [] then Address(txns[0])
    else
      var i := |done| - 1;
      Opening(txns, done[..i]) + Round(txns, i, done[i])
  }

  // ---------- the invariant ----------

  /** Carrying on after a read is a dead end: the peripheral has nothing left to report. */
  predicate Stuck(txns: seq<Transaction>, i: nat)
    requires i < |txns|
  {
    i > 0 && txns[i].Skips() && Reads(txns, i - 1)
  }

  predicate NoneStuck(txns: seq<Transaction>, n: nat)
    requires n <= |txns|
  {
    forall j :: 0 <= j < n ==> !Stuck(txns, j)
  }

  ghost predicate Addressed(m: Master)
    requires m.cur < |m.txns|
  {
    var txn := m.txns[m.cur];
    && m.off == 0
    && m.regs.nack == (txn.read && txn.length == 1)
    && m.regs.pending == if !txn.Skips() then Addressing(txn.read)
                         else if Stuck(m.txns, m.cur) then Quiet else MbSet
  }

  /** A batch under way. */
  ghost predicate Running(m: Master)
    requires m.InBatch()
  {
    var txn := m.txns[m.cur];
    && |m.done| == m.cur && |m.part| == m.off <= txn.length
    && NoneStuck(m.txns, if m.state == SendAddress then m.cur else m.cur + 1)
    && m.regs.wire == Opening(m.txns, m.done) + Bytes(m.txns, m.cur, m.part)
    && match m.state
       case SendAddress => Addressed(m)
       case WriteData => !Reads(m.txns, m.cur) && m.off > 0 && m.regs.pending == Sending
       case ReadData =>
         Reads(m.txns, m.cur) && 0 < m.off < txn.length && m.regs.pending == Receiving &&
         m.regs.nack == (m.off + 1 == txn.length)
       case _ => false
  }

  /** A batch that ended: all of it done, or cut short by the device. */
  ghost predicate Ended(m: Master)
    requires m.InBatch()
  {
    && m.regs.pending == Quiet && m.state != Panicked
    && if m.completion == 0 then
         NoneStuck(m.txns, |m.txns|) && |m.done| == |m.txns| && m.part == [] &&
         m.regs.wire == Opening(m.txns, m.done)
       else
         && m.completion in {BUS_ERROR, NO_ACK, UNEXPECTED_NACK}
         && |m.done| == m.cur && |m.part| <= m.txns[m.cur].length
         && (m.completion == UNEXPECTED_NACK <==> m.part != [])
         && m.regs.wire == Opening(m.txns, m.done) + Bytes(m.txns, m.cur, m.part) +
                           if m.completion == BUS_ERROR then [] else [Stop]
  }

  ghost predicate Moved(m: Master, ram0: seq<byte>)
    requires m.InBatch()
  {
    && |ram0| == |m.ram| && Full(m.txns, m.done)
    && FromMemory(m.txns, ram0, m.done)
    && var before := Memory(m.txns, ram0, m.done);
       if |m.done| == |m.txns| then m.ram == before
       else
         && |m.part| <= m.txns[|m.done|].length
         && m.ram == After(m.txns, |m.done|, before, m.part)
         && (!Reads(m.txns, |m.done|) ==> Sent(m.txns, |m.done|, before, m.part))
  }

  ghost predicate Inv(m: Master, ram0: seq<byte>) {
    && m.InBatch()
    && Moved(m, ram0)
    && m.signals <= 1
    && if m.signals == 0 then Running(m) else Ended(m)
  }

  lemma StartKeeps(txns: seq<Transaction>, ram: seq<byte>, regs: Regs)
    requires txns != [] && Validated(txns) && Fits(txns, |ram|)
    ensures Inv(Start(txns, ram, regs), ram)
  {
    var m := Start(txns, ram, regs);
    assert Valid(txns, 0);
    assert m.regs.wire == Opening(txns, []) + Bytes(txns, 0, []);
    if Reads(txns, 0) { assert Store(ram, txns[0].data.base, []) == ram; }
  }

  /** One byte more, out. */
  lemma SendKeeps(m: Master, ram0: seq<byte>)
    requires m.InBatch() && Moved(m, ram0) && |m.done| == m.cur && |m.part| == m.off < m.txns[m.cur].length
    requires !Reads(m.txns, m.cur)
    requires m.regs.wire == Opening(m.txns, m.done) + Bytes(m.txns, m.cur, m.part)
    ensures var m' := m.SendByte();
      m'.InBatch() && Moved(m', ram0) && m'.regs.wire == Opening(m.txns, m.done) + Bytes(m.txns, m.cur, m'.part)
  {
    assert Valid(m.txns, m.cur);
    var m' := m.SendByte();
    assert Bytes(m.txns, m.cur, m'.part) == Bytes(m.txns, m.cur, m.part) + [Tx(m'.part[m.off])];
    var buffer := Memory(m.txns, ram0, m.done)[m.txns[m.cur].data.base..];
    assert buffer[..m.off + 1] == buffer[..m.off] + [buffer[m.off]];
  }

  /** One byte more, in. */
  lemma StoreKeeps(m: Master, ram0: seq<byte>)
    requires m.InBatch() && Moved(m, ram0) && |m.done| == m.cur && |m.part| == m.off < m.txns[m.cur].length
    requires Reads(m.txns, m.cur)
    ensures var m' := m.StoreByte(); m'.InBatch() && Moved(m', ram0)
  {
    assert Valid(m.txns, m.cur);
    var m' := m.StoreByte();
    var before := Memory(m.txns, ram0, m.done);
    assert m'.ram == Store(before, m.txns[m.cur].data.base, m'.part);
  }

  lemma ReceivedOnWire(m: Master, d: byte)
    requires m.cur < |m.txns| && Reads(m.txns, m.cur) && |m.done| == m.cur
    requires m.regs.wire == Opening(m.txns, m.done) + Bytes(m.txns, m.cur, m.part)
    requires m.regs.nack == (|m.part| + 1 == m.txns[m.cur].length)
    ensures m.regs.wire + [Rx(d, m.regs.nack)] == Opening(m.txns, m.done) + Bytes(m.txns, m.cur, m.part + [d])
  {
    assert Bytes(m.txns, m.cur, m.part + [d]) == Bytes(m.txns, m.cur, m.part) + [Rx(d, m.regs.nack)];
  }

  /** The transaction just finished joins those done. */
  lemma FinishKeeps(m: Master, ram0: seq<byte>)
    requires m.InBatch() && Moved(m, ram0) && |m.done| == m.cur && |m.part| == m.txns[m.cur].length
    ensures Moved(m.Finish(), ram0)
  {
    var done' := m.done + [m.part];
    assert done'[..|m.done|] == m.done;
    assert Full(m.txns, done');
    assert Memory(m.txns, ram0, done') == m.ram;
    forall i | 0 <= i < |done'| && !Reads(m.txns, i)
      ensures Sent(m.txns, i, Memory(m.txns, ram0, done'[..i]), done'[i])
    {
      if i < |m.done| {
        assert done'[..i] == m.done[..i];
        assert Sent(m.txns, i, Memory(m.txns, ram0, m.done[..i]), m.done[i]);
      }
    }
    if |done'| < |m.txns| && Reads(m.txns, |done'|) {
      assert Valid(m.txns, |done'|);
      assert Store(m.ram, m.txns[|done'|].data.base, []) == m.ram;
    }
  }

  /** `m` has moved its last byte and has put on the wire everything up to the next address phase or the end. */
  lemma NextKeeps(m: Master, m': Master, ram0: seq<byte>)
    requires m.InBatch() && Moved(m, ram0) && |m.done| == m.cur && |m.part| == m.txns[m.cur].length
    requires m.signals == 0 && NoneStuck(m.txns, m.cur + 1)
    requires m'.txns == m.txns && m'.ram == m.ram && m'.done == m.done + [m.part] && m'.part == []
    requires m'.regs.wire == Opening(m.txns, m.done) + Bytes(m.txns, m.cur, m.part) + Tail(m.txns, m.cur)
    requires m.cur == |m.txns| - 1 ==> m'.cur == m.cur && m'.signals == 1 && m'.completion == 0 &&
                                       m'.regs.pending == Quiet && m'.state != Panicked
    requires m.cur < |m.txns| - 1 ==> m'.cur == m.cur + 1 && m'.signals == 0 && m'.state == SendAddress && Addressed(m')
    ensures Inv(m', ram0)
  {
    FinishKeeps(m, ram0);
    assert m'.done[..m.cur] == m.done;
    assert m'.regs.wire == Opening(m.txns, m.done) + Round(m.txns, m.cur, m.part);
    if m.cur < |m.txns| - 1 {
      assert Bytes(m.txns, m'.cur, []) == [];
    }
  }

  lemma AdvanceSays(m: Master, before: seq<Event>, needsStop: bool)
    requires m.cur < |m.txns|
    requires m.regs.wire == before + if Reads(m.txns, m.cur) && m.txns[m.cur].length > 1 then [Stop] else []
    requires needsStop || (Reads(m.txns, m.cur) && m.txns[m.cur].length == 1 && Stops(m.txns, m.cur) == [])
    ensures m.Advance(needsStop).regs.wire == before + Tail(m.txns, m.cur)
  {
    var m' := m.Advance(needsStop);
    var last := m.cur == |m.txns| - 1;
    var second := if !last && m.txns[m.cur + 1].continuation then [] else [Stop];
    assert m'.regs.wire == m.regs.wire + second + Following(m.txns, m.cur);
  }

  lemma AdvanceKeeps(m: Master, ram0: seq<byte>)
    requires m.InBatch() && Moved(m, ram0) && |m.done| == m.cur && |m.part| == m.txns[m.cur].length
    requires m.signals == 0 && NoneStuck(m.txns, m.cur + 1)
    requires m.regs.wire == Opening(m.txns, m.done) + Bytes(m.txns, m.cur, m.part) +
                            if Reads(m.txns, m.cur) && m.txns[m.cur].length > 1 then [Stop] else []
    requires if Reads(m.txns, m.cur) then m.txns[m.cur].length > 1 && m.regs.pending == Quiet
             else m.regs.pending == MbSet
    ensures Inv(m.Advance(true), ram0)
  {
    AdvanceSays(m, Opening(m.txns, m.done) + Bytes(m.txns, m.cur, m.part), true);
    AdvanceMoves(m, true);
    NextKeeps(m, m.Advance(true), ram0);
  }

  /** Where the master is after a transaction: done with the batch, or addressing the next device. */
  lemma AdvanceMoves(m: Master, needsStop: bool)
    requires m.InBatch() && |m.done| == m.cur && m.signals == 0
    requires if Reads(m.txns, m.cur) then m.regs.pending == Quiet else m.regs.pending == MbSet && needsStop
    ensures var m' := m.Advance(needsStop);
      && m'.txns == m.txns && m'.ram == m.ram && m'.done == m.done + [m.part] && m'.part == []
      && (m.cur == |m.txns| - 1 ==> m'.cur == m.cur && m'.signals == 1 && m'.completion == 0 &&
                                    m'.regs.pending == Quiet && m'.state != Panicked)
      && (m.cur < |m.txns| - 1 ==> m'.cur == m.cur + 1 && m'.signals == 0 && m'.state == SendAddress && Addressed(m'))
  {
  }

  // ---------- every step keeps the invariant ----------

  /** Handler runs a transaction takes when the device acknowledges everything. */
  function Runs(txns: seq<Transaction>, i: nat): nat
    requires i < |txns|
  {
    txns[i].length + if Reads(txns, i) then 0 else 1
  }

  function RunsFrom(txns: seq<Transaction>, i: nat): nat
    requires i <= |txns|
    decreases |txns| - i
  {
    if i == |txns| then 0 else Runs(txns, i) + RunsFrom(txns, i + 1)
  }

  /** Handler runs still to come, if the device acknowledges everything. */
  function RunsLeft(m: Master): int
    requires m.InBatch()
  {
    if m.signals > 0 then 0
    else
      RunsFrom(m.txns, m.cur) - m.off
  }

  /** Whenever the peripheral can interrupt, every index the handler uses is in range. */
  lemma InRange(m: Master, ram0: seq<byte>, r: Response)
    requires Inv(m, ram0) && m.regs.Legal(r)
    ensures m.Ready() && m.signals == 0
  {
    assert Valid(m.txns, m.cur);
  }

  /** The state after the peripheral has reported, as the handler finds it. */
  function Reported(m: Master, r: Response): Master
    requires m.regs.Legal(r)
  {
    m.(regs := m.regs.Deliver(r).0)
  }

  lemma AddressRefused(m: Master, ram0: seq<byte>, r: Response)
    requires Inv(m, ram0) && m.regs.Legal(r) && m.Ready() && m.signals == 0 && m.state == SendAddress && !r.Ack?
    ensures Inv(Step(m, r), ram0)
    ensures Step(m, r).signals == 1 && Step(m, r).completion == if r.Nack? then NO_ACK else BUS_ERROR
  {
    assert m.part == [];
  }

  lemma AddressWritten(m: Master, ram0: seq<byte>, r: Response)
    requires Inv(m, ram0) && m.regs.Legal(r) && m.Ready() && m.signals == 0 && m.state == SendAddress && r.Ack?
    requires !Reads(m.txns, m.cur)
    ensures Inv(Step(m, r), ram0) && Step(m, r).signals == 0
    ensures RunsLeft(Step(m, r)) == RunsLeft(m) - 1
  {
    AddressSends(m, r);
    SendKeeps(Reported(m, r), ram0);
  }

  /** An acknowledged address, or a transfer that carries on, makes the handler send a byte. */
  lemma AddressSends(m: Master, r: Response)
    requires m.InBatch() && m.regs.Legal(r) && m.Ready() && m.signals == 0 && m.state == SendAddress && r.Ack?
    requires Addressed(m) && !Reads(m.txns, m.cur) && m.off < m.txns[m.cur].length
    ensures Reported(m, r) == m.(regs := Reported(m, r).regs) && Reported(m, r).regs.wire == m.regs.wire
    ensures Step(m, r) == Reported(m, r).SendByte().(state := WriteData)
    ensures Step(m, r).signals == 0 && RunsLeft(Step(m, r)) == RunsLeft(m) - 1
  {
    assert Valid(m.txns, m.cur);
  }

  /** A byte that is not the last one came in. */
  lemma ReadOn(m: Master, ram0: seq<byte>, r: Response)
    requires Inv(m, ram0) && m.regs.Legal(r) && m.Ready() && m.signals == 0 && r.Ack?
    requires m.state == SendAddress || m.state == ReadData
    requires Reads(m.txns, m.cur) && m.off + 1 < m.txns[m.cur].length
    ensures Inv(Step(m, r), ram0) && Step(m, r).signals == 0
    ensures RunsLeft(Step(m, r)) == RunsLeft(m) - 1
  {
    ReceivedOnWire(m, r.data);
    var regs := Reported(m, r).regs.SetAck(m.txns[m.cur].length - m.off == 2);
    var d := m.(regs := regs);
    StoreKeeps(d, ram0);
    assert Step(m, r) == d.StoreByte().(state := ReadData);
  }

  /** A read of one byte: it is in as soon as the address has been acknowledged, and only the STOP is missing. */
  function OneByteIn(m: Master, r: Response): (d: Master)
    requires m.cur < |m.txns| && m.regs.Legal(r)
  {
    var d := Reported(m, r);
    if Stops(m.txns, m.cur) == [] then d else d.(regs := d.regs.IssueStop())
  }

  lemma OneByteKeeps(m: Master, ram0: seq<byte>, r: Response)
    requires Inv(m, ram0) && m.regs.Legal(r) && m.Ready() && m.signals == 0 && m.state == SendAddress && r.Ack?
    requires Reads(m.txns, m.cur) && m.txns[m.cur].length == 1
    ensures var d := OneByteIn(m, r);
      && d == m.(regs := d.regs) && d.InBatch() && Moved(d.StoreByte(), ram0)
      && d.regs.wire == Opening(m.txns, m.done) + Bytes(m.txns, m.cur, [r.data]) + Stops(m.txns, m.cur)
      && d.regs.data == r.data
  {
    ReceivedOnWire(m, r.data);
    var d := OneByteIn(m, r);
    StoreKeeps(d, ram0);
    assert d.regs.wire == Reported(m, r).regs.wire + Stops(m.txns, m.cur);
    assert m.part + [r.data] == [r.data];
  }

  lemma OneByteStep(m: Master, r: Response)
    requires m.Ready() && m.regs.Legal(r) && m.state == SendAddress && r.Ack? && m.regs.pending == Addressing(true)
    requires Reads(m.txns, m.cur) && m.txns[m.cur].length == 1
    ensures var d := OneByteIn(m, r);
      d.InBatch() && d.off < d.txns[d.cur].length &&
      Step(m, r) == if m.cur < |m.txns| - 1 then d.StoreByte().Advance(false)
                    else d.Complete(0).StoreByte().Finish().(state := ReadData)
  {
    if m.cur < |m.txns| - 1 {
      assert Stops(m.txns, m.cur) == if m.txns[m.cur + 1].continuation then [] else [Stop];
    }
  }

  /** With the STOP already out, if one was due, the rest needs no further command. */
  lemma OneByteNext(m: Master, ram0: seq<byte>)
    requires m.InBatch() && Moved(m, ram0) && |m.done| == m.cur && |m.part| == m.txns[m.cur].length
    requires m.signals == 0 && NoneStuck(m.txns, m.cur + 1) && Reads(m.txns, m.cur) && m.regs.pending == Quiet
    requires m.regs.wire == Opening(m.txns, m.done) + Bytes(m.txns, m.cur, m.part) + Stops(m.txns, m.cur)
    ensures Inv(if m.cur < |m.txns| - 1 then m.Advance(false) else m.Complete(0).Finish().(state := ReadData), ram0)
  {
    var before := Opening(m.txns, m.done) + Bytes(m.txns, m.cur, m.part);
    assert Tail(m.txns, m.cur) == Stops(m.txns, m.cur) + Following(m.txns, m.cur);
    Assoc(before, Stops(m.txns, m.cur), Following(m.txns, m.cur));
    if m.cur < |m.txns| - 1 {
      AdvanceMoves(m, false);
      assert m.Advance(false).regs.wire == m.regs.wire + Following(m.txns, m.cur);
      NextKeeps(m, m.Advance(false), ram0);
    } else {
      assert m.regs.wire + [] == m.regs.wire;
      NextKeeps(m, m.Complete(0).Finish().(state := ReadData), ram0);
    }
  }

  lemma AddressReadOne(m: Master, ram0: seq<byte>, r: Response)
    requires Inv(m, ram0) && m.regs.Legal(r) && m.Ready() && m.signals == 0 && m.state == SendAddress && r.Ack?
    requires Reads(m.txns, m.cur) && m.txns[m.cur].length == 1
    ensures Inv(Step(m, r), ram0)
    ensures RunsLeft(Step(m, r)) == RunsLeft(m) - 1
    ensures Step(m, r).signals == 0 || Step(m, r).completion == 0
  {
    assert RunsFrom(m.txns, m.cur) == Runs(m.txns, m.cur) + RunsFrom(m.txns, m.cur + 1);
    OneByteKeeps(m, ram0, r);
    OneByteStep(m, r);
    var m1 := OneByteIn(m, r).StoreByte();
    assert m1.part == [r.data];
    OneByteNext(m1, ram0);
  }

  lemma WriteStep(m: Master, ram0: seq<byte>, r: Response)
    requires Inv(m, ram0) && m.regs.Legal(r) && m.Ready() && m.signals == 0 && m.state == WriteData
    ensures Inv(Step(m, r), ram0)
    ensures r.Ack? ==> RunsLeft(Step(m, r)) == RunsLeft(m) - 1
    ensures r.Ack? ==> Step(m, r).signals == 0 || Step(m, r).completion == 0
    ensures !r.Ack? ==> Step(m, r).completion == UNEXPECTED_NACK && Step(m, r).signals == 1
  {
    var (regs, irq) := m.regs.Deliver(r);
    var d := m.(regs := regs);
    if r.Ack? {
      if m.off == m.txns[m.cur].length {
        assert RunsFrom(m.txns, m.cur) == Runs(m.txns, m.cur) + RunsFrom(m.txns, m.cur + 1);
        AdvanceKeeps(d, ram0);
      } else {
        SendKeeps(d, ram0);
      }
    }
  }

  lemma ReadLast(m: Master, ram0: seq<byte>, r: Response)
    requires Inv(m, ram0) && m.regs.Legal(r) && m.Ready() && m.signals == 0 && m.state == ReadData
    requires m.off + 1 == m.txns[m.cur].length
    ensures Inv(Step(m, r), ram0)
    ensures RunsLeft(Step(m, r)) == RunsLeft(m) - 1
    ensures Step(m, r).signals == 0 || Step(m, r).completion == 0
  {
    assert RunsFrom(m.txns, m.cur) == Runs(m.txns, m.cur) + RunsFrom(m.txns, m.cur + 1);
    ReceivedOnWire(m, r.data);
    var d := m.(regs := Reported(m, r).regs.SetAck(true).IssueStop());
    StoreKeeps(d, ram0);
    assert Step(m, r) == d.StoreByte().Advance(true);
    AdvanceKeeps(d.StoreByte(), ram0);
  }

  /** One handler run keeps the invariant, and an acknowledged one brings the end exactly one run closer. */
  lemma StepKeeps(m: Master, ram0: seq<byte>, r: Response)
    requires Inv(m, ram0) && m.regs.Legal(r)
    ensures m.Ready() && m.signals == 0
    ensures Inv(Step(m, r), ram0) && Step(m, r).txns == m.txns
    ensures r.Ack? ==> RunsLeft(Step(m, r)) == RunsLeft(m) - 1
    ensures r.Ack? ==> Step(m, r).signals == 0 || Step(m, r).completion == 0
    ensures !r.Ack? ==> Step(m, r).signals == 1 && Step(m, r).completion < 0
  {
    InRange(m, ram0, r);
    match m.state
    case SendAddress =>
      if !r.Ack? {
        AddressRefused(m, ram0, r);
      } else if !Reads(m.txns, m.cur) {
        AddressWritten(m, ram0, r);
      } else if m.txns[m.cur].length == 1 {
        AddressReadOne(m, ram0, r);
      } else {
        ReadOn(m, ram0, r);
      }
    case WriteData => WriteStep(m, ram0, r);
    case ReadData =>
      if m.off + 1 == m.txns[m.cur].length {
        ReadLast(m, ram0, r);
      } else {
        ReadOn(m, ram0, r);
      }
  }
}
