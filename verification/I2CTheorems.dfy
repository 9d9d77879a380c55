/** The promises of the bus driver, over every run and every validated batch. */
module I2CTheorems {
  import opened Common
  import opened I2CBus
  import opened I2CMaster
  import opened I2CRuns

  // ---------- runs ----------

  predicate LegalRun(m: Master, rs: seq<Response>)
    decreases |rs|
  {
    rs == [] || (m.Ready() && m.regs.Legal(rs[0]) && LegalRun(Step(m, rs[0]), rs[1..]))
  }

  function Run(m: Master, rs: seq<Response>): Master
    requires LegalRun(m, rs)
    decreases |rs|
  {
    if rs == [] then m else Run(Step(m, rs[0]), rs[1..])
  }

  predicate Acknowledged(rs: seq<Response>) {
    forall i :: 0 <= i < |rs| ==> rs[i].Ack?
  }

  lemma {:induction false} RunKeeps(m: Master, ram0: seq<byte>, rs: seq<Response>)
    requires Inv(m, ram0) && LegalRun(m, rs)
    ensures Inv(Run(m, rs), ram0) && Run(m, rs).txns == m.txns
    decreases |rs|
  {
    if rs != [] {
      StepKeeps(m, ram0, rs[0]);
      RunKeeps(Step(m, rs[0]), ram0, rs[1..]);
    }
  }

  lemma {:induction false} AcknowledgedRun(m: Master, ram0: seq<byte>, rs: seq<Response>)
    requires Inv(m, ram0) && LegalRun(m, rs) && Acknowledged(rs) && m.signals == 0
    ensures Run(m, rs).txns == m.txns && Run(m, rs).InBatch() && RunsLeft(Run(m, rs)) == RunsLeft(m) - |rs|
    ensures Run(m, rs).signals == 0 || Run(m, rs).completion == 0
    decreases |rs|
  {
    if rs != [] {
      StepKeeps(m, ram0, rs[0]);
      var m1 := Step(m, rs[0]);
      if m1.signals == 0 {
        AcknowledgedRun(m1, ram0, rs[1..]);
      } else {
        assert rs[1..] == [];
      }
    }
  }

  /**
   * Every run of a validated batch, whatever the device answers: the driver never panics, its indices stay in
   * range, it signals the task at most once, and after the signal the peripheral has nothing more to report.
   */
  lemma SingleCompletion(txns: seq<Transaction>, ram: seq<byte>, regs: Regs, rs: seq<Response>)
    requires txns != [] && Validated(txns) && Fits(txns, |ram|)
    requires LegalRun(Start(txns, ram, regs), rs)
    ensures var m := Run(Start(txns, ram, regs), rs);
      && m.state != Panicked && m.signals <= 1
      && (m.signals == 1 ==> forall r :: !m.regs.Legal(r))
      && (forall r :: m.regs.Legal(r) ==> m.Ready())
      && (m.signals == 1 && m.completion == 0 <==> |m.done| == |txns|)
  {
    StartKeeps(txns, ram, regs);
    RunKeeps(Start(txns, ram, regs), ram, rs);
    var m := Run(Start(txns, ram, regs), rs);
    forall r | m.regs.Legal(r) ensures m.Ready() { InRange(m, ram, r); }
  }

  lemma {:induction false} RunsAdd(txns: seq<Transaction>, i: nat)
    requires i <= |txns| && Validated(txns)
    ensures RunsFrom(txns, i) >= |txns| - i
    decreases |txns| - i
  {
    if i < |txns| {
      assert Valid(txns, i);
      RunsAdd(txns, i + 1);
    }
  }

  /**
   * A fully acknowledged run that has gone as far as it can. It takes `length` handler runs for each read and one
   * more for each write, unless some transaction carries on after a read: then the task is never signalled.
   */
  lemma CompletesInExactlyAllRuns(txns: seq<Transaction>, ram: seq<byte>, regs: Regs, rs: seq<Response>)
    requires txns != [] && Validated(txns) && Fits(txns, |ram|)
    requires LegalRun(Start(txns, ram, regs), rs) && Acknowledged(rs)
    requires forall b: byte :: !Run(Start(txns, ram, regs), rs).regs.Legal(Ack(b))
    ensures var m := Run(Start(txns, ram, regs), rs);
      && (m.signals == 1 <==> NoneStuck(txns, |txns|))
      && (m.signals == 1 ==> m.completion == 0 && |rs| == RunsFrom(txns, 0))
      && (m.signals == 0 ==> |rs| < RunsFrom(txns, 0))
  {
    StartKeeps(txns, ram, regs);
    RunKeeps(Start(txns, ram, regs), ram, rs);
    AcknowledgedRun(Start(txns, ram, regs), ram, rs);
    Exhausted(Run(Start(txns, ram, regs), rs), ram);
  }

  lemma Exhausted(m: Master, ram0: seq<byte>)
    requires Inv(m, ram0)
    requires forall b: byte :: !m.regs.Legal(Ack(b))
    ensures m.signals == 0 ==> Stuck(m.txns, m.cur) && RunsLeft(m) > 0
  {
    assert !m.regs.Legal(Ack(0));
    if m.signals == 0 {
      RunsAdd(m.txns, m.cur);
    }
  }

  // ---------- what the devices see ----------

  /** One byte exchanged with the device at a 7-bit address. */
  datatype Delivery = Delivery(address: nat, read: bool, value: byte)

  /** The device listening after these events: the one addressed last. */
  function Listening(wire: seq<Event>): nat {
    if wire == [] then 0
    else if wire[|wire| - 1].Addr? then wire[|wire| - 1].value / 2
    else Listening(wire[..|wire| - 1])
  }

  /** The conversation as the devices see it. */
  function Delivered(wire: seq<Event>): seq<Delivery> {
    if wire == [] then []
    else
      var before := wire[..|wire| - 1];
      match wire[|wire| - 1]
      case Tx(b) => Delivered(before) + [Delivery(Listening(before), false, b)]
      case Rx(b, _) => Delivered(before) + [Delivery(Listening(before), true, b)]
      case _ => Delivered(before)
  }

  datatype Party = Party(address: nat, read: bool)

  /** Whom each transaction names, and for which direction. */
  function Named(txns: seq<Transaction>, i: nat): Party
    requires i < |txns|
  {
    Party(txns[i].address % 128, txns[i].read)
  }

  /** Whom the bytes of each transaction reach: without an address phase, the device addressed before. */
  function Reached(txns: seq<Transaction>, i: nat): Party
    requires i < |txns|
    decreases i
  {
    if !txns[i].Skips() then Named(txns, i)
    else Party(if i == 0 then 0 else Reached(txns, i - 1).address, false)
  }

  function Transfer(who: Party, bytes: seq<byte>): seq<Delivery> {
    seq(|bytes|, k requires 0 <= k < |bytes| => Delivery(who.address, who.read, bytes[k]))
  }

  /** The deliveries the batch asks for, given the bytes moved. */
  function Requested(txns: seq<Transaction>, done: seq<seq<byte>>): seq<Delivery>
    requires |done| <= |txns|
  {
    if done == [] then []
    else
      var i := |done| - 1;
      Requested(txns, done[..i]) + Transfer(Named(txns, i), done[i])
  }

  /** The deliveries that take place. */
  function Actual(txns: seq<Transaction>, done: seq<seq<byte>>): seq<Delivery>
    requires |done| <= |txns|
  {
    if done == [] then []
    else
      var i := |done| - 1;
      Actual(txns, done[..i]) + Transfer(Reached(txns, i), done[i])
  }

  lemma {:induction false} BytesDelivered(txns: seq<Transaction>, i: nat, before: seq<Event>, bytes: seq<byte>)
    requires i < |txns| && Listening(before) == Reached(txns, i).address
    ensures Listening(before + Bytes(txns, i, bytes)) == Listening(before)
    ensures Delivered(before + Bytes(txns, i, bytes)) == Delivered(before) + Transfer(Reached(txns, i), bytes)
  {
    var wire := before + Bytes(txns, i, bytes);
    if bytes == [] {
      assert wire == before;
    } else {
      var k := |bytes| - 1;
      BytesDelivered(txns, i, before, bytes[..k]);
      TransferGrows(Reached(txns, i), bytes, k);
      assert wire[..|wire| - 1] == before + Bytes(txns, i, bytes[..k]);
      assert Reached(txns, i).read == Reads(txns, i);
    }
  }

  lemma TransferGrows(who: Party, bytes: seq<byte>, k: nat)
    requires k + 1 == |bytes|
    ensures Transfer(who, bytes) == Transfer(who, bytes[..k]) + [Delivery(who.address, who.read, bytes[k])]
  {
  }

  lemma {:induction false} StopsSilent(before: seq<Event>, stops: seq<Event>)
    requires forall i :: 0 <= i < |stops| ==> stops[i] == Stop
    ensures Delivered(before + stops) == Delivered(before) && Listening(before + stops) == Listening(before)
  {
    var wire := before + stops;
    if stops == [] {
      assert wire == before;
    } else {
      StopsSilent(before, stops[..|stops| - 1]);
      assert wire[..|wire| - 1] == before + stops[..|stops| - 1];
    }
  }

  lemma FollowingDelivered(txns: seq<Transaction>, i: nat, before: seq<Event>)
    requires i < |txns| && Listening(before) == Reached(txns, i).address
    ensures var w := before + Following(txns, i);
      Delivered(w) == Delivered(before) && (i + 1 < |txns| ==> Listening(w) == Reached(txns, i + 1).address)
  {
    var w := before + Following(txns, i);
    if Following(txns, i) == [] {
      assert w == before;
    } else {
      assert w[..|w| - 1] == before;
    }
  }

  lemma RoundDelivered(txns: seq<Transaction>, i: nat, before: seq<Event>, bytes: seq<byte>)
    requires i < |txns| && Listening(before) == Reached(txns, i).address
    ensures var w := before + Round(txns, i, bytes);
      && Delivered(w) == Delivered(before) + Transfer(Reached(txns, i), bytes)
      && (i + 1 < |txns| ==> Listening(w) == Reached(txns, i + 1).address)
  {
    BytesDelivered(txns, i, before, bytes);
    var said := before + Bytes(txns, i, bytes);
    StopsSilent(said, Stops(txns, i));
    FollowingDelivered(txns, i, said + Stops(txns, i));
    Assoc(said, Stops(txns, i), Following(txns, i));
    Assoc(before, Bytes(txns, i, bytes), Tail(txns, i));
  }

  lemma {:induction false} OpeningDelivered(txns: seq<Transaction>, done: seq<seq<byte>>)
    requires |done| <= |txns| && txns != [] && Validated(txns)
    ensures |done| < |txns| ==> Listening(Opening(txns, done)) == Reached(txns, |done|).address
    ensures Delivered(Opening(txns, done)) == Actual(txns, done)
  {
    if done == [] {
      assert Valid(txns, 0);
      var wire := Opening(txns, done);
      assert wire[..0] == [];
    } else {
      var i := |done| - 1;
      OpeningDelivered(txns, done[..i]);
      RoundDelivered(txns, i, Opening(txns, done[..i]), done[i]);
    }
  }

  /** At every moment of every run the devices have seen exactly the bytes moved, at the addresses in force. */
  lemma DeliveredSoFar(m: Master, ram0: seq<byte>)
    requires Inv(m, ram0)
    ensures Delivered(m.regs.wire) == Actual(m.txns, m.done) +
      if |m.done| == |m.txns| then [] else Transfer(Reached(m.txns, |m.done|), m.part)
  {
    OpeningDelivered(m.txns, m.done);
    if |m.done| < |m.txns| {
      BytesDelivered(m.txns, m.cur, Opening(m.txns, m.done), m.part);
      var said := Opening(m.txns, m.done) + Bytes(m.txns, |m.done|, m.part);
      var stops := if m.signals == 1 && m.completion != BUS_ERROR then [Stop] else [];
      StopsSilent(said, stops);
      assert m.regs.wire == said + stops by { assert said + [] == said; }
    }
  }

  /** Each transaction that carries on writes to the device it follows. */
  predicate SkipsCarryOn(txns: seq<Transaction>) {
    forall i :: 0 < i < |txns| && txns[i].Skips() ==> CarriesOn(txns, i)
  }

  predicate CarriesOn(txns: seq<Transaction>, i: nat)
    requires 0 < i < |txns|
  {
    !txns[i].read && Named(txns, i).address == Named(txns, i - 1).address
  }

  lemma {:induction false} NamedReached(txns: seq<Transaction>, n: nat)
    requires n <= |txns| && Validated(txns)
    ensures (forall i :: 0 < i < n && txns[i].Skips() ==> CarriesOn(txns, i)) <==>
            (forall i :: 0 <= i < n ==> Named(txns, i) == Reached(txns, i))
  {
    if n > 0 {
      NamedReached(txns, n - 1);
      assert Valid(txns, n - 1);
      if forall i :: 0 <= i < n - 1 ==> Named(txns, i) == Reached(txns, i) {
        if n > 1 { assert Named(txns, n - 2) == Reached(txns, n - 2); }
        assert Named(txns, n - 1) == Reached(txns, n - 1) <==>
          (n > 1 && txns[n - 1].Skips() ==> CarriesOn(txns, n - 1));
      }
    }
  }

  lemma {:induction false} ListLength(txns: seq<Transaction>, done: seq<seq<byte>>)
    requires |done| <= |txns|
    ensures |Requested(txns, done)| == |Actual(txns, done)|
  {
    if done != [] { ListLength(txns, done[..|done| - 1]); }
  }

  lemma {:induction false} SameDeliveries(txns: seq<Transaction>, done: seq<seq<byte>>)
    requires |done| <= |txns| && Validated(txns) && Full(txns, done)
    ensures Requested(txns, done) == Actual(txns, done) <==>
            forall i :: 0 <= i < |done| ==> Named(txns, i) == Reached(txns, i)
  {
    if done != [] {
      var i := |done| - 1;
      SameDeliveries(txns, done[..i]);
      ListLength(txns, done[..i]);
      assert Valid(txns, i);
      SameTransfer(Named(txns, i), Reached(txns, i), done[i]);
      SameOfBoth(Requested(txns, done[..i]), Actual(txns, done[..i]),
                 Transfer(Named(txns, i), done[i]), Transfer(Reached(txns, i), done[i]));
    }
  }

  lemma SameTransfer(one: Party, two: Party, bytes: seq<byte>)
    requires bytes != []
    ensures Transfer(one, bytes) == Transfer(two, bytes) <==> one == two
  {
    var (t, u) := (Transfer(one, bytes)[0], Transfer(two, bytes)[0]);
    assert Party(t.address, t.read) == one && Party(u.address, u.read) == two;
  }

  /**
   * A batch that completes with code 0 has made exactly the deliveries it asks for, in order, if and only if
   * every transaction that carries on is a write to the device it follows.
   */
  lemma CompletedBatchDelivers(m: Master, ram0: seq<byte>)
    requires Inv(m, ram0) && m.signals == 1 && m.completion == 0
    ensures Delivered(m.regs.wire) == Requested(m.txns, m.done) <==> SkipsCarryOn(m.txns)
    ensures forall i :: 0 <= i < |m.txns| ==> |m.done[i]| == m.txns[i].length
  {
    DeliveredSoFar(m, ram0);
    SameDeliveries(m.txns, m.done);
    NamedReached(m.txns, |m.txns|);
  }

  /** A device that acknowledges everything gets the batch done, unless some transaction carries on after a read. */
  lemma {:induction false} AcknowledgingDeviceCompletes(m: Master, ram0: seq<byte>) returns (rs: seq<Response>)
    requires Inv(m, ram0) && NoneStuck(m.txns, |m.txns|) && (m.signals == 0 || m.completion == 0)
    ensures LegalRun(m, rs) && Acknowledged(rs)
    ensures Run(m, rs).signals == 1 && Run(m, rs).completion == 0
    decreases RunsLeft(m)
  {
    if m.signals == 1 {
      return [];
    }
    RunsAdd(m.txns, m.cur);
    assert !Stuck(m.txns, m.cur);
    StepKeeps(m, ram0, Ack(0));
    RunsBounded(Step(m, Ack(0)), ram0);
    rs := AcknowledgingDeviceCompletes(Step(m, Ack(0)), ram0);
    FirstAcknowledged(m, rs);
    rs := [Ack(0)] + rs;
  }

  lemma FirstAcknowledged(m: Master, rs: seq<Response>)
    requires m.Ready() && m.regs.Legal(Ack(0)) && LegalRun(Step(m, Ack(0)), rs) && Acknowledged(rs)
    ensures LegalRun(m, [Ack(0)] + rs) && Acknowledged([Ack(0)] + rs)
    ensures Run(m, [Ack(0)] + rs) == Run(Step(m, Ack(0)), rs)
  {
    assert ([Ack(0)] + rs)[1..] == rs;
  }

  lemma RunsBounded(m: Master, ram0: seq<byte>)
    requires Inv(m, ram0)
    ensures RunsLeft(m) >= 0
  {
    if m.signals == 0 { assert RunsFrom(m.txns, m.cur) == Runs(m.txns, m.cur) + RunsFrom(m.txns, m.cur + 1); }
  }

  /**
   * The condition matters: when a transaction carries on after a write without being a write to the same device,
   * an acknowledging device makes the batch complete with code 0 although it did something else.
   */
  lemma CarryingOnElsewhereGoesUnnoticed(txns: seq<Transaction>, ram: seq<byte>, regs: Regs) returns (rs: seq<Response>)
    requires txns != [] && Validated(txns) && Fits(txns, |ram|)
    requires NoneStuck(txns, |txns|) && !SkipsCarryOn(txns)
    ensures LegalRun(Start(txns, ram, regs), rs)
    ensures var m := Run(Start(txns, ram, regs), rs);
      m.signals == 1 && m.completion == 0 && |m.done| == |txns| && Delivered(m.regs.wire) != Requested(txns, m.done)
  {
    StartKeeps(txns, ram, regs);
    rs := AcknowledgingDeviceCompletes(Start(txns, ram, regs), ram);
    RunKeeps(Start(txns, ram, regs), ram, rs);
    CompletedBatchDelivers(Run(Start(txns, ram, regs), rs), ram);
  }

  /** Such a batch: a read that carries on after a write. Its buffer is sent instead of being filled. */
  lemma ReadCarryingOnIsSuchABatch()
    ensures var txns := [Transaction(0x50, false, false, false, 1, Span(0, 1)),
                         Transaction(0x50, true, true, true, 1, Span(1, 1))];
      Validated(txns) && Fits(txns, 2) && NoneStuck(txns, 2) && !SkipsCarryOn(txns)
  {
    var txns := [Transaction(0x50, false, false, false, 1, Span(0, 1)),
                 Transaction(0x50, true, true, true, 1, Span(1, 1))];
    assert txns[1].Skips() && !CarriesOn(txns, 1);
  }

  // ---------- memory ----------

  predicate InBuffer(txn: Transaction, a: nat) {
    txn.data.Span? && txn.data.base <= a < txn.data.base + txn.length
  }

  /** None of transactions `i` to `n` reads into address `a`. */
  predicate Untouched(txns: seq<Transaction>, i: nat, n: nat, a: nat)
    requires n <= |txns|
  {
    forall j :: i <= j < n && Reads(txns, j) ==> !InBuffer(txns[j], a)
  }

  lemma {:induction false} MemoryKept(txns: seq<Transaction>, ram: seq<byte>, done: seq<seq<byte>>, a: nat)
    requires Validated(txns) && Fits(txns, |ram|) && Full(txns, done) && a < |ram|
    requires Untouched(txns, 0, |done|, a)
    ensures Memory(txns, ram, done)[a] == ram[a]
  {
    if done != [] {
      assert Valid(txns, |done| - 1);
      MemoryKept(txns, ram, done[..|done| - 1], a);
    }
  }

  lemma {:induction false} MemoryFilled(txns: seq<Transaction>, ram: seq<byte>, done: seq<seq<byte>>, i: nat, a: nat)
    requires Validated(txns) && Fits(txns, |ram|) && Full(txns, done) && a < |ram|
    requires i < |done| && Reads(txns, i) && InBuffer(txns[i], a) && Untouched(txns, i + 1, |done|, a)
    ensures Memory(txns, ram, done)[a] == done[i][a - txns[i].data.base]
  {
    var n := |done| - 1;
    assert Valid(txns, n);
    if i < n { MemoryFilled(txns, ram, done[..n], i, a); }
  }

  /**
   * After a completed batch every buffer byte a read covers last holds the byte received for it, and memory
   * outside the buffers read into is untouched.
   */
  lemma CompletedBatchFillsBuffers(m: Master, ram0: seq<byte>, i: nat, k: nat)
    requires Inv(m, ram0) && m.signals == 1 && m.completion == 0
    requires i < |m.txns| && Reads(m.txns, i) && k < m.txns[i].length
    requires m.txns[i].data.Span?
    requires Untouched(m.txns, i + 1, |m.txns|, m.txns[i].data.base + k)
    ensures m.txns[i].data.base + k < |m.ram| && m.ram[m.txns[i].data.base + k] == m.done[i][k]
    ensures forall a :: 0 <= a < |m.ram| && Untouched(m.txns, 0, |m.txns|, a) ==> m.ram[a] == ram0[a]
  {
    MemoryFilled(m.txns, ram0, m.done, i, m.txns[i].data.base + k);
    forall a | 0 <= a < |m.ram| && Untouched(m.txns, 0, |m.txns|, a)
      ensures m.ram[a] == ram0[a]
    {
      MemoryKept(m.txns, ram0, m.done, a);
    }
  }

  // ---------- acknowledge and STOP discipline ----------

  lemma {:induction false} OpeningGrows(txns: seq<Transaction>, done: seq<seq<byte>>, j: nat) returns (more: seq<Event>)
    requires j <= |done| <= |txns| && txns != []
    ensures Opening(txns, done) == Opening(txns, done[..j]) + more
  {
    if j == |done| {
      more := [];
      assert done[..j] == done;
    } else {
      var init := done[..|done| - 1];
      var start := OpeningGrows(txns, init, j);
      assert init[..j] == done[..j];
      more := start + Round(txns, |done| - 1, done[|done| - 1]);
      Assoc(Opening(txns, done[..j]), start, Round(txns, |done| - 1, done[|done| - 1]));
    }
  }

  /** What transaction `i` has moved so far. */
  function MovedBy(m: Master, i: nat): seq<byte>
    requires i <= |m.done|
  {
    if i < |m.done| then m.done[i] else m.part
  }

  /** After the finished transactions there is on the wire what the current one has moved, and perhaps a STOP. */
  lemma WireSoFar(m: Master, ram0: seq<byte>) returns (rest: seq<Event>)
    requires Inv(m, ram0)
    ensures m.regs.wire == Opening(m.txns, m.done) +
      if |m.done| < |m.txns| then Bytes(m.txns, |m.done|, m.part) + rest else rest
  {
    var opening := Opening(m.txns, m.done);
    rest := if m.signals == 1 && m.completion != 0 && m.completion != BUS_ERROR then [Stop] else [];
    if |m.done| < |m.txns| {
      var bytes := Bytes(m.txns, |m.done|, m.part);
      Assoc(opening, bytes, rest);
      assert opening + bytes + [] == opening + bytes;
    } else {
      assert opening + [] == opening;
    }
  }

  /** Where the bytes of a transaction are on the wire. */
  lemma BytesOnWire(m: Master, ram0: seq<byte>, i: nat) returns (after: seq<Event>)
    requires Inv(m, ram0) && i <= |m.done| && i < |m.txns|
    ensures m.regs.wire == Opening(m.txns, m.done[..i]) + (Bytes(m.txns, i, MovedBy(m, i)) + after)
    ensures i < |m.done| ==> exists more :: after == Tail(m.txns, i) + more
  {
    var rest := WireSoFar(m, ram0);
    if i == |m.done| {
      assert m.done[..i] == m.done;
      after := rest;
    } else {
      var tail := if |m.done| < |m.txns| then Bytes(m.txns, |m.done|, m.part) + rest else rest;
      after := RoundWithTail(m.txns, m.done, i, tail);
    }
  }

  lemma RoundWithTail(txns: seq<Transaction>, done: seq<seq<byte>>, i: nat, tail: seq<Event>)
    returns (after: seq<Event>)
    requires i < |done| <= |txns|
    ensures Opening(txns, done) + tail == Opening(txns, done[..i]) + (Bytes(txns, i, done[i]) + after)
    ensures exists more :: after == Tail(txns, i) + more
  {
    var more := RoundOnWire(txns, done, i);
    after := Tail(txns, i) + (more + tail);
    Regrouped(Opening(txns, done[..i]), Bytes(txns, i, done[i]), Tail(txns, i), more, tail);
  }

  lemma RoundOnWire(txns: seq<Transaction>, done: seq<seq<byte>>, i: nat) returns (more: seq<Event>)
    requires i < |done| <= |txns|
    ensures Opening(txns, done) == Opening(txns, done[..i]) + Round(txns, i, done[i]) + more
  {
    more := OpeningGrows(txns, done, i + 1);
    assert done[..i + 1][..i] == done[..i];
  }

  lemma Regrouped<T>(a: seq<T>, b: seq<T>, c: seq<T>, d: seq<T>, e: seq<T>)
    ensures a + (b + c) + d + e == a + (b + (c + (d + e)))
  {
  }

  /** From event `at` on these bytes came in, of a read of `n`: each is refused if and only if its index is the last. */
  ghost predicate CameIn(wire: seq<Event>, at: nat, bytes: seq<byte>, n: nat) {
    at + |bytes| <= |wire| && forall k :: 0 <= k < |bytes| ==> wire[at + k] == Rx(bytes[k], k == n - 1)
  }

  lemma BytesCameIn(txns: seq<Transaction>, i: nat, before: seq<Event>, bytes: seq<byte>, after: seq<Event>)
    requires i < |txns| && Reads(txns, i)
    ensures CameIn(before + (Bytes(txns, i, bytes) + after), |before|, bytes, txns[i].length)
  {
  }

  lemma DoneFully(m: Master, ram0: seq<byte>, i: nat)
    requires Inv(m, ram0) && i < |m.done|
    ensures |m.done[i]| == m.txns[i].length
  {
  }

  /** Where on the wire the bytes of transaction `i` begin: behind all that comes before its first byte. */
  function PlaceOf(m: Master, i: nat): nat
    requires i <= |m.done| <= |m.txns| && m.txns != []
  {
    |Opening(m.txns, m.done[..i])|
  }

  /** At every moment the bytes of each read, finished or under way, are acknowledged in place, except for its last. */
  lemma AcknowledgeDiscipline(m: Master, ram0: seq<byte>, i: nat)
    requires Inv(m, ram0) && i <= |m.done| && i < |m.txns| && Reads(m.txns, i)
    ensures i < |m.done| ==> |m.done[i]| == m.txns[i].length
    ensures CameIn(m.regs.wire, PlaceOf(m, i), MovedBy(m, i), m.txns[i].length)
  {
    var after := BytesOnWire(m, ram0, i);
    BytesCameIn(m.txns, i, Opening(m.txns, m.done[..i]), MovedBy(m, i), after);
    if i < |m.done| { DoneFully(m, ram0, i); }
  }

  /**
   * At every moment, between a finished transaction and its continuation, there is `Tail`, and the bus is kept there
   * if and only if the former is not a read of several bytes, which end with a STOP of their own.
   */
  lemma ContinuationKeepsBus(m: Master, ram0: seq<byte>, i: nat) returns (after: seq<Event>)
    requires Inv(m, ram0) && 0 < i <= |m.done| && i < |m.txns| && m.txns[i].continuation
    ensures m.regs.wire == Opening(m.txns, m.done[..i - 1]) +
      (Bytes(m.txns, i - 1, m.done[i - 1]) + Tail(m.txns, i - 1)) + (Bytes(m.txns, i, MovedBy(m, i)) + after)
    ensures Stop !in Tail(m.txns, i - 1) <==> !(Reads(m.txns, i - 1) && m.txns[i - 1].length > 1)
  {
    after := BytesOnWire(m, ram0, i);
    StopInTail(m.txns, i);
    OneRound(m.txns, m.done, i);
  }

  lemma OneRound(txns: seq<Transaction>, done: seq<seq<byte>>, i: nat)
    requires 0 < i <= |done| <= |txns|
    ensures Opening(txns, done[..i]) ==
      Opening(txns, done[..i - 1]) + (Bytes(txns, i - 1, done[i - 1]) + Tail(txns, i - 1))
  {
    assert done[..i][..i - 1] == done[..i - 1];
  }

  lemma StopInTail(txns: seq<Transaction>, i: nat)
    requires 0 < i < |txns| && txns[i].continuation
    ensures Stop !in Tail(txns, i - 1) <==> !(Reads(txns, i - 1) && txns[i - 1].length > 1)
  {
    if Reads(txns, i - 1) && txns[i - 1].length > 1 { assert Tail(txns, i - 1)[0] == Stop; }
  }

  // ---------- every run ----------

  predicate Startable(txns: seq<Transaction>, ram: seq<byte>) {
    txns != [] && Validated(txns) && Fits(txns, |ram|)
  }

  lemma RunReaches(txns: seq<Transaction>, ram: seq<byte>, regs: Regs, rs: seq<Response>)
    requires Startable(txns, ram) && LegalRun(Start(txns, ram, regs), rs)
    ensures var m := Run(Start(txns, ram, regs), rs); Inv(m, ram) && m.txns == txns
  {
    StartKeeps(txns, ram, regs);
    RunKeeps(Start(txns, ram, regs), ram, rs);
  }

  /** In every run the devices have at every moment exchanged the bytes moved so far, at the addresses in force. */
  lemma EveryRunDelivers(txns: seq<Transaction>, ram: seq<byte>, regs: Regs, rs: seq<Response>)
    requires Startable(txns, ram) && LegalRun(Start(txns, ram, regs), rs)
    ensures var m := Run(Start(txns, ram, regs), rs);
      && |m.done| <= |txns|
      && Delivered(m.regs.wire) == Actual(txns, m.done) +
           if |m.done| == |txns| then [] else Transfer(Reached(txns, |m.done|), m.part)
  {
    RunReaches(txns, ram, regs, rs);
    DeliveredSoFar(Run(Start(txns, ram, regs), rs), ram);
  }

  /** Every run that completes with code 0 has delivered what is asked for, exactly if the flags are used rightly. */
  lemma EveryCompletedRunDelivers(txns: seq<Transaction>, ram: seq<byte>, regs: Regs, rs: seq<Response>)
    requires Startable(txns, ram) && LegalRun(Start(txns, ram, regs), rs)
    ensures var m := Run(Start(txns, ram, regs), rs);
      m.signals == 1 && m.completion == 0 ==>
        && |m.done| == |txns| && (Delivered(m.regs.wire) == Requested(txns, m.done) <==> SkipsCarryOn(txns))
        && forall i :: 0 <= i < |txns| ==> |m.done[i]| == txns[i].length
  {
    RunReaches(txns, ram, regs, rs);
    var m := Run(Start(txns, ram, regs), rs);
    if m.signals == 1 && m.completion == 0 { CompletedBatchDelivers(m, ram); }
  }

  /** Byte `k` of the read `i` is in its buffer, and memory that no read covers is as it was. */
  ghost predicate FilledAt(m: Master, ram0: seq<byte>, i: nat, k: nat) {
    && |m.ram| == |ram0| && i < |m.done| && i < |m.txns| && m.txns[i].data.Span? && k < |m.done[i]| == m.txns[i].length
    && m.txns[i].data.base + k < |m.ram| && m.ram[m.txns[i].data.base + k] == m.done[i][k]
    && forall a :: 0 <= a < |m.ram| && Untouched(m.txns, 0, |m.txns|, a) ==> m.ram[a] == ram0[a]
  }

  lemma CompletedFills(m: Master, ram0: seq<byte>, i: nat, k: nat)
    requires Inv(m, ram0) && m.signals == 1 && m.completion == 0
    requires i < |m.txns| && Reads(m.txns, i) && k < m.txns[i].length && m.txns[i].data.Span?
    requires Untouched(m.txns, i + 1, |m.txns|, m.txns[i].data.base + k)
    ensures FilledAt(m, ram0, i, k)
  {
    DoneFully(m, ram0, i);
    CompletedBatchFillsBuffers(m, ram0, i, k);
  }

  /** Every run that completes with code 0 has filled the buffers of its reads, and left other memory alone. */
  lemma EveryCompletedRunFillsBuffers(txns: seq<Transaction>, ram: seq<byte>, regs: Regs, rs: seq<Response>,
                                      i: nat, k: nat)
    requires Startable(txns, ram) && LegalRun(Start(txns, ram, regs), rs)
    requires i < |txns| && Reads(txns, i) && txns[i].data.Span? && k < txns[i].length
    requires Untouched(txns, i + 1, |txns|, txns[i].data.base + k)
    ensures var m := Run(Start(txns, ram, regs), rs); m.signals == 1 && m.completion == 0 ==> FilledAt(m, ram, i, k)
  {
    RunReaches(txns, ram, regs, rs);
    var m := Run(Start(txns, ram, regs), rs);
    if m.signals == 1 && m.completion == 0 { CompletedFills(m, ram, i, k); }
  }

  /** In every run, at every moment, the bytes of every read are acknowledged in their place, except for the last. */
  lemma EveryRunAcknowledges(txns: seq<Transaction>, ram: seq<byte>, regs: Regs, rs: seq<Response>, i: nat)
    requires Startable(txns, ram) && LegalRun(Start(txns, ram, regs), rs)
    requires i <= |Run(Start(txns, ram, regs), rs).done| && i < |txns| && Reads(txns, i)
    ensures var m := Run(Start(txns, ram, regs), rs);
      && |m.done| <= |txns| && m.txns == txns && (i < |m.done| ==> |m.done[i]| == txns[i].length)
      && CameIn(m.regs.wire, PlaceOf(m, i), MovedBy(m, i), txns[i].length)
  {
    RunReaches(txns, ram, regs, rs);
    AcknowledgeDiscipline(Run(Start(txns, ram, regs), rs), ram, i);
  }
}
