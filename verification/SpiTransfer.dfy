/** The SPI driver: transfers in words and a tail, by polling or by DMA. */
module SpiTransfer {
  import opened Common

  type word = uint32

  const INVALID_BUFFER: int := -200
  const INVALID_TRANSACTION: int := -201
  const TOO_LONG: int := -301
  const DMA_THRESHOLD: nat := 128

  /** Buffers are addresses in memory. */
  datatype Transaction = Transaction(tx: Option<nat>, rx: Option<nat>, length: nat)

  /**
   * The port: its configuration, what the other side sends back for each byte shifted out, counted from the first,
   * and how many words a DMA transfer started at that count moves before it fails, if it does.
   */
  datatype Setup = Setup(rxEnabled: bool, dmaCapable: bool, answer: nat -> byte, stamina: nat -> nat)

  // ---------- words and bytes ----------

  /** The first byte is the least significant. */
  function Packed(bytes: seq<byte>): nat {
    if bytes == [] then 0 else bytes[0] + 0x100 * Packed(bytes[1..])
  }

  function Unpacked(w: nat, n: nat): (b: seq<byte>)
    ensures |b| == n
  {
    if n == 0 then [] else [w % 0x100] + Unpacked(w / 0x100, n - 1)
  }

  lemma LowestFirst(w: nat)
    ensures Unpacked(w, 4) == [w % 0x100, w / 0x100 % 0x100, w / 0x1_0000 % 0x100, w / 0x100_0000 % 0x100]
  {
    assert w / 0x100 / 0x100 == w / 0x1_0000 && w / 0x1_0000 / 0x100 == w / 0x100_0000;
    assert Unpacked(w / 0x100_0000, 1) == [w / 0x100_0000 % 0x100];
    assert Unpacked(w / 0x1_0000, 2) == [w / 0x1_0000 % 0x100] + Unpacked(w / 0x100_0000, 1);
    assert Unpacked(w / 0x100, 3) == [w / 0x100 % 0x100] + Unpacked(w / 0x1_0000, 2);
  }

  function Weight(i: nat): nat {
    if i == 0 then 1 else 0x100 * Weight(i - 1)
  }

  lemma {:induction false} UnpackPacked(bytes: seq<byte>)
    ensures Unpacked(Packed(bytes), |bytes|) == bytes
    ensures Packed(bytes) < Weight(|bytes|)
  {
    if bytes != [] { UnpackPacked(bytes[1..]); }
  }

  lemma {:induction false} PackMore(bytes: seq<byte>, b: byte)
    ensures Packed(bytes + [b]) == Packed(bytes) + b * Weight(|bytes|)
  {
    if bytes != [] {
      PackMore(bytes[1..], b);
      WeightStep(b, |bytes|);
      assert (bytes + [b])[1..] == bytes[1..] + [b];
    }
  }

  lemma WeightStep(b: nat, n: nat)
    requires n > 0
    ensures b * Weight(n) == 0x100 * (b * Weight(n - 1))
  {
  }

  lemma WordWeight(n: nat)
    requires n <= 4
    ensures Weight(n) <= 0x1_0000_0000
  {
    assert Weight(1) == 0x100 && Weight(2) == 0x1_0000 && Weight(3) == 0x100_0000 && Weight(4) == 0x1_0000_0000;
  }

  // ---------- what a transfer does ----------

  predicate Inside(base: Option<nat>, n: nat, size: nat) {
    base.Some? ==> base.value + n <= size
  }

  /** The buffers lie in memory, and are the same or lie apart. */
  predicate Fits(t: Transaction, size: nat) {
    && Inside(t.tx, t.length, size) && Inside(t.rx, t.length, size)
    && (t.tx.Some? && t.rx.Some? ==>
          t.tx == t.rx || t.tx.value + t.length <= t.rx.value || t.rx.value + t.length <= t.tx.value)
  }

  /** The bytes to be shifted out: those of the buffer, or zeros. */
  function Outgoing(tx: Option<nat>, n: nat, ram: seq<byte>): (b: seq<byte>)
    requires Inside(tx, n, |ram|)
    ensures |b| == n
  {
    match tx
    case Some(base) => ram[base..base + n]
    case None => seq(n, i => 0)
  }

  /** What comes back for `n` bytes from count `at` on. */
  function Answers(s: Setup, at: nat, n: nat): (b: seq<byte>)
    ensures |b| == n
  {
    seq<byte>(n, i requires 0 <= i < n => s.answer(at + i))
  }

  function Filled(s: Setup, rx: Option<nat>, n: nat, at: nat, ram: seq<byte>): (r: seq<byte>)
    requires Inside(rx, n, |ram|)
    ensures |r| == |ram|
  {
    if s.rxEnabled && rx.Some? then Store(ram, rx.value, Answers(s, at, n)) else ram
  }

  /** The wire and the memory, and how a call ended. */
  datatype Outcome = Outcome(code: int, halted: bool, sent: seq<byte>, ram: seq<byte>)

  predicate Empty(t: Transaction) {
    t.length == 0 || (t.rx.None? && t.tx.None?)
  }

  function Polled(s: Setup, t: Transaction, sent: seq<byte>, ram: seq<byte>): Outcome
    requires Fits(t, |ram|)
  {
    if Empty(t) then Outcome(INVALID_BUFFER, false, sent, ram)
    else Outcome(0, false, sent + Outgoing(t.tx, t.length, ram), Filled(s, t.rx, t.length, |sent|, ram))
  }

  predicate UsesDma(s: Setup, t: Transaction) {
    s.dmaCapable && t.length > DMA_THRESHOLD
  }

  function Moved(s: Setup, at: nat, n: nat): (k: nat)
    ensures k <= n
  {
    if 4 * s.stamina(at) < n then 4 * s.stamina(at) else n
  }

  /** By DMA nothing is received, and without a buffer to send from nothing is sent but the tail. */
  function ByDma(s: Setup, t: Transaction, sent: seq<byte>, ram: seq<byte>): Outcome
    requires Fits(t, |ram|)
  {
    var words := t.length / 4 * 4;
    if Empty(t) || words == 0 then Outcome(INVALID_BUFFER, false, sent, ram)
    else if t.tx.Some? && words / 4 > 0xffff then Outcome(TOO_LONG, false, sent, ram)
    else if s.rxEnabled && t.rx.Some? then Outcome(0, true, sent, ram)
    else Outcome(0, false, sent + SentByDma(s, t, |sent|, ram), ram)
  }

  function SentByDma(s: Setup, t: Transaction, at: nat, ram: seq<byte>): seq<byte>
    requires Fits(t, |ram|)
  {
    var words := t.length / 4 * 4;
    match t.tx
    case None => Outgoing(None, t.length - words, ram)
    case Some(base) => ram[base..base + Moved(s, at, words)] + ram[base + words..base + t.length]
  }

  function Transfer(s: Setup, t: Transaction, sent: seq<byte>, ram: seq<byte>): (o: Outcome)
    requires Fits(t, |ram|)
    ensures |o.ram| == |ram|
  {
    if UsesDma(s, t) then ByDma(s, t, sent, ram) else Polled(s, t, sent, ram)
  }

  predicate AllFit(txns: seq<Transaction>, size: nat) {
    forall i :: 0 <= i < |txns| ==> Fits(txns[i], size)
  }

  /** One transaction after another, up to the first that fails. */
  function All(s: Setup, txns: seq<Transaction>, sent: seq<byte>, ram: seq<byte>): (o: Outcome)
    requires AllFit(txns, |ram|)
    ensures |o.ram| == |ram|
  {
    if txns == [] then Outcome(0, false, sent, ram)
    else
      var o := Transfer(s, txns[0], sent, ram);
      if o.code != 0 || o.halted then o else All(s, txns[1..], o.sent, o.ram)
  }

  // ---------- when a call ends well ----------

  /** Something to exchange, and if it is too long for polling, nothing that DMA cannot do. */
  predicate Possible(s: Setup, t: Transaction) {
    && t.length != 0 && (t.tx.Some? || t.rx.Some?)
    && (s.dmaCapable && t.length > 128 ==> (t.tx.Some? ==> t.length / 4 <= 0xffff) && !(s.rxEnabled && t.rx.Some?))
  }

  /** How a transaction ends that is not possible: with an error, or in an assertion. */
  predicate EndsAs(s: Setup, t: Transaction, code: int, halted: bool) {
    if t.length == 0 || !(t.tx.Some? || t.rx.Some?) then code == -200 && !halted
    else if t.tx.Some? && t.length / 4 > 0xffff then code == -301 && !halted
    else code == 0 && halted
  }

  lemma TransferEnds(s: Setup, t: Transaction, sent: seq<byte>, ram: seq<byte>)
    requires Fits(t, |ram|)
    ensures var o := Transfer(s, t, sent, ram);
      if Possible(s, t) then o.code == 0 && !o.halted
      else EndsAs(s, t, o.code, o.halted) && o.sent == sent && o.ram == ram
  {
  }

  /** A call ends well if and only if every one of its transactions is possible. */
  lemma {:induction false} EndsWellExactly(s: Setup, txns: seq<Transaction>, sent: seq<byte>, ram: seq<byte>)
    requires AllFit(txns, |ram|)
    ensures var o := All(s, txns, sent, ram);
      o.code == 0 && !o.halted <==> forall i :: 0 <= i < |txns| ==> Possible(s, txns[i])
  {
    if txns != [] {
      TransferEnds(s, txns[0], sent, ram);
      if Possible(s, txns[0]) {
        var o := Transfer(s, txns[0], sent, ram);
        EndsWellExactly(s, txns[1..], o.sent, o.ram);
        assert forall i :: 0 < i < |txns| ==> txns[i] == txns[1..][i - 1];
      }
    }
  }

  /** Otherwise it ends as its first impossible transaction does, having done what comes before that, and no more. */
  lemma {:induction false} EndsAsFirstImpossible(s: Setup, txns: seq<Transaction>, i: nat,
                                                 sent: seq<byte>, ram: seq<byte>)
    requires AllFit(txns, |ram|) && i < |txns|
    requires !Possible(s, txns[i]) && forall j :: 0 <= j < i ==> Possible(s, txns[j])
    ensures var (o, before) := (All(s, txns, sent, ram), All(s, txns[..i], sent, ram));
      EndsAs(s, txns[i], o.code, o.halted) && o.sent == before.sent && o.ram == before.ram
  {
    TransferEnds(s, txns[0], sent, ram);
    if i > 0 {
      assert Possible(s, txns[0]);
      var o := Transfer(s, txns[0], sent, ram);
      EndsAsFirstImpossible(s, txns[1..], i - 1, o.sent, o.ram);
      assert txns[1..][..i - 1] == txns[..i][1..];
    }
  }

  // ---------- the driver ----------

  class Spi {
    const setup: Setup
    const ram: array<byte>
    /** Everything shifted out. */
    var sent: seq<byte>
    /** The length register: bytes shifted per write of the data register, or zero for whole words. */
    var length: nat
    /** The data register, as it is read. */
    var received: nat

    ghost predicate Valid()
      reads this
    {
      length <= 3
    }

    /** A write to the data register shifts out its low bytes, and takes in as many. */
    method WriteData(w: word)
      requires Valid()
      modifies this`sent, this`received
      ensures var n := if length == 0 then 4 else length;
        && sent == old(sent) + Unpacked(w, n)
        && received == Packed(Answers(setup, |old(sent)|, n))
    {
      var n := if length == 0 then 4 else length;
      received := Packed(Answers(setup, |sent|, n));
      sent := sent + Unpacked(w, n);
    }

    /** The bytes of the word last received, the first one lowest. */
    method StoreReceived(rx: nat, n: nat, ghost bytes: seq<byte>)
      requires n <= 4 && rx + n <= ram.Length && |bytes| == n && received == Packed(bytes)
      modifies ram
      ensures ram[..] == Store(old(ram[..]), rx, bytes)
    {
      var rxWord := received;
      UnpackPacked(bytes);
      for i := 0 to n
        invariant Unpacked(rxWord, n - i) == bytes[i..]
        invariant forall a :: 0 <= a < ram.Length ==> ram[a] == if rx <= a < rx + i then bytes[a - rx] else old(ram[a])
      {
        assert Unpacked(rxWord, n - i)[0] == bytes[i];
        assert Unpacked(rxWord, n - i)[1..] == bytes[i + 1..];
        ram[rx + i] := rxWord % 0x100;
        rxWord := rxWord / 0x100;
      }
    }

    /** The bytes of a word to be sent. */
    method Gather(tx: Option<nat>, n: nat) returns (w: word)
      requires n <= 4 && Inside(tx, n, ram.Length)
      ensures Unpacked(w, n) == Outgoing(tx, n, ram[..])
    {
      ghost var bytes := Outgoing(tx, n, ram[..]);
      UnpackPacked(bytes);
      WordWeight(n);
      if tx.None? {
        ZerosPack(n);
        return 0;
      }
      var transmit: nat := 0;
      var weight: nat := 1;
      for i := 0 to n
        invariant transmit == Packed(bytes[..i]) && weight == Weight(i)
      {
        PackMore(bytes[..i], bytes[i]);
        assert bytes[..i + 1] == bytes[..i] + [bytes[i]];
        transmit := transmit + ram[tx.value + i] * weight;
        weight := weight * 0x100;
      }
      assert bytes[..n] == bytes;
      w := transmit;
    }

    /** A word, or what is left of one. */
    method Exchange(tx: Option<nat>, rx: Option<nat>, n: nat)
      requires Valid() && n == (if length == 0 then 4 else length)
      requires Inside(tx, n, ram.Length) && Inside(rx, n, ram.Length)
      modifies this`sent, this`received, ram
      ensures sent == old(sent) + Outgoing(tx, n, old(ram[..]))
      ensures ram[..] == Filled(setup, rx, n, |old(sent)|, old(ram[..]))
    {
      var w := Gather(tx, n);
      ghost var at := |sent|;
      WriteData(w);
      if setup.rxEnabled {
        if rx.Some? {
          StoreReceived(rx.value, n, Answers(setup, at, n));
        }
      }
    }

    /** The last one to three bytes. */
    method DoPolledTransferSingle(tx: Option<nat>, rx: Option<nat>, n: nat)
      requires Valid() && 0 < n < 4
      requires Inside(tx, n, ram.Length) && Inside(rx, n, ram.Length)
      modifies this, ram
      ensures Valid()
      ensures sent == old(sent) + Outgoing(tx, n, old(ram[..]))
      ensures ram[..] == Filled(setup, rx, n, |old(sent)|, old(ram[..]))
    {
      length := n;
      Exchange(tx, rx, n);
    }

    method DoPolledTransfer(t: Transaction) returns (err: int)
      requires Valid() && Fits(t, ram.Length)
      modifies this, ram
      ensures Valid()
      ensures Outcome(err, false, sent, ram[..]) == Polled(setup, t, old(sent), old(ram[..]))
    {
      if t.length == 0 || (t.rx.None? && t.tx.None?) {
        return INVALID_BUFFER;
      }
      ghost var (sent0, ram0) := (sent, ram[..]);
      Shift(t, sent0, ram0);
      WholeDone(setup, t, sent0, ram0, sent, ram[..]);
      err := 0;
    }

    method Shift(t: Transaction, ghost sent0: seq<byte>, ghost ram0: seq<byte>)
      requires Valid() && Fits(t, ram.Length) && sent == sent0 && ram[..] == ram0
      modifies this, ram
      ensures Valid() && PartDone(setup, t, t.length, sent0, ram0, sent, ram[..])
    {
      NothingDone(setup, t, sent0, ram0);
      var blocks := t.length / 4;
      DoBlocks(t, blocks, sent0, ram0);
      var remaining := t.length - blocks * 4;
      if remaining > 0 {
        DoRest(t, blocks * 4, remaining, sent0, ram0);
      } else {
        assert blocks * 4 == t.length;
      }
    }

    method DoDmaTransfer(t: Transaction) returns (err: int, halted: bool)
      requires Valid() && Fits(t, ram.Length)
      modifies this, ram
      ensures Valid()
      ensures Outcome(err, halted, sent, ram[..]) == ByDma(setup, t, old(sent), old(ram[..]))
    {
      halted, err := false, 0;
      var words := t.length / 4 * 4;
      if t.length == 0 || (t.rx.None? && t.tx.None?) || words == 0 {
        return INVALID_BUFFER, halted;
      }
      length := 0;
      if t.tx.Some? {
        if words / 4 > 0xffff {
          return TOO_LONG, halted;
        }
      }
      if setup.rxEnabled && t.rx.Some? {
        return 0, true;
      }
      RunAndRest(t, words);
    }

    /** The words by DMA, and then the rest by hand. */
    method RunAndRest(t: Transaction, words: nat)
      requires Valid() && length == 0 && Fits(t, ram.Length) && words == t.length / 4 * 4
      requires !(setup.rxEnabled && t.rx.Some?)
      modifies this, ram
      ensures Valid() && ram[..] == old(ram[..])
      ensures sent == old(sent) + SentByDma(setup, t, |old(sent)|, ram[..])
    {
      ghost var (sent0, ram0) := (sent, ram[..]);
      if t.tx.Some? {
        RunDma(t.tx.value, words);
      }
      ghost var sent1 := sent;
      if t.length != words {
        DoPolledTransferSingle(Ahead(t.tx, words), Ahead(t.rx, words), t.length - words);
      } else {
        assert sent1 + Outgoing(Ahead(t.tx, words), 0, ram0) == sent1;
      }
      DmaDone(setup, t, sent0, ram0, sent1, sent);
    }

    /** The DMA controller feeds the data register with whole words, until it is done or fails; no one asks which. */
    method RunDma(base: nat, words: nat)
      requires Valid() && length == 0 && base + words <= ram.Length && words % 4 == 0
      modifies this`sent, this`received
      ensures sent == old(sent) + Outgoing(Some(base), Moved(setup, |old(sent)|, words), ram[..])
    {
      var n := Moved(setup, |sent|, words);
      var done: nat := 0;
      ghost var sent0 := sent;
      MoreOutgoing(sent0, base, 0, 0, ram[..]);
      while done < n
        invariant done <= n && (n - done) % 4 == 0
        invariant sent == sent0 + Outgoing(Some(base), done, ram[..])
      {
        MoreOutgoing(sent0, base, done, 4, ram[..]);
        Beat(base + done);
        done := done + 4;
      }
    }

    method Beat(base: nat)
      requires Valid() && length == 0 && base + 4 <= ram.Length
      modifies this`sent, this`received
      ensures sent == old(sent) + Outgoing(Some(base), 4, ram[..])
    {
      var w := Gather(Some(base), 4);
      WriteData(w);
    }

    method Perform(txns: seq<Transaction>) returns (err: int, halted: bool)
      requires Valid() && AllFit(txns, ram.Length)
      modifies this, ram
      ensures Valid()
      ensures Outcome(err, halted, sent, ram[..]) ==
              if txns == [] then Outcome(-201, false, old(sent), old(ram[..]))
              else All(setup, txns, old(sent), old(ram[..]))
      ensures txns != [] ==> (err == 0 && !halted <==> forall i :: 0 <= i < |txns| ==> Possible(setup, txns[i]))
    {
      EndsWellExactly(setup, txns, sent, ram[..]);
      err, halted := 0, false;
      if txns == [] {
        return INVALID_TRANSACTION, false;
      }
      ghost var goal := All(setup, txns, sent, ram[..]);
      for i := 0 to |txns|
        invariant Valid() && err == 0 && !halted
        invariant goal == All(setup, txns[i..], sent, ram[..])
      {
        assert txns[i..][0] == txns[i] && txns[i..][1..] == txns[i + 1..];
        if setup.dmaCapable && txns[i].length > DMA_THRESHOLD {
          err, halted := DoDmaTransfer(txns[i]);
        } else {
          err := DoPolledTransfer(txns[i]);
        }
        if err != 0 || halted {
          return;
        }
      }
    }

    method DoRest(t: Transaction, done: nat, remaining: nat, ghost sent0: seq<byte>, ghost ram0: seq<byte>)
      requires Valid() && 0 < remaining < 4 && done + remaining == t.length
      requires |ram0| == ram.Length && PartDone(setup, t, done, sent0, ram0, sent, ram[..])
      modifies this, ram
      ensures Valid() && PartDone(setup, t, t.length, sent0, ram0, sent, ram[..])
    {
      PartGrows(setup, t, done, remaining, sent0, ram0, sent, ram[..]);
      DoPolledTransferSingle(Ahead(t.tx, done), Ahead(t.rx, done), remaining);
    }

    /** The whole words of a transfer. */
    method DoBlocks(t: Transaction, blocks: nat, ghost sent0: seq<byte>, ghost ram0: seq<byte>)
      requires Valid() && blocks * 4 <= t.length
      requires |ram0| == ram.Length && PartDone(setup, t, 0, sent0, ram0, sent, ram[..])
      modifies this, ram
      ensures Valid() && PartDone(setup, t, blocks * 4, sent0, ram0, sent, ram[..])
    {
      if blocks == 0 {
        return;
      }
      length := 0;
      for i := 0 to blocks
        invariant length == 0 && PartDone(setup, t, i * 4, sent0, ram0, sent, ram[..])
      {
        PartGrows(setup, t, i * 4, 4, sent0, ram0, sent, ram[..]);
        Exchange(Ahead(t.tx, i * 4), Ahead(t.rx, i * 4), 4);
      }
    }
  }

  lemma NothingDone(s: Setup, t: Transaction, sent: seq<byte>, ram: seq<byte>)
    requires Fits(t, |ram|)
    ensures PartDone(s, t, 0, sent, ram, sent, ram)
  {
    assert Outgoing(t.tx, 0, ram) == [];
    if s.rxEnabled && t.rx.Some? { assert Store(ram, t.rx.value, Answers(s, |sent|, 0)) == ram; }
  }

  lemma MoreOutgoing(sent: seq<byte>, base: nat, n: nat, k: nat, ram: seq<byte>)
    requires base + n + k <= |ram|
    ensures sent + Outgoing(Some(base), n, ram) + Outgoing(Some(base + n), k, ram) ==
            sent + Outgoing(Some(base), n + k, ram)
    ensures sent + Outgoing(Some(base), 0, ram) == sent
  {
  }

  lemma DmaDone(s: Setup, t: Transaction, sent0: seq<byte>, ram: seq<byte>, sent1: seq<byte>, sent: seq<byte>)
    requires Fits(t, |ram|)
    requires var words := t.length / 4 * 4;
      && sent1 == (if t.tx.None? then sent0 else sent0 + Outgoing(t.tx, Moved(s, |sent0|, words), ram))
      && sent == sent1 + Outgoing(Ahead(t.tx, words), t.length - words, ram)
    ensures sent == sent0 + SentByDma(s, t, |sent0|, ram)
  {
  }

  lemma WholeDone(s: Setup, t: Transaction, sent0: seq<byte>, ram0: seq<byte>, sent: seq<byte>, ram: seq<byte>)
    requires PartDone(s, t, t.length, sent0, ram0, sent, ram) && !Empty(t)
    ensures Outcome(0, false, sent, ram) == Polled(s, t, sent0, ram0)
  {
  }

  lemma {:induction false} ZerosPack(n: nat)
    ensures Unpacked(0, n) == seq(n, i => 0)
  {
    if n > 0 { ZerosPack(n - 1); }
  }

  function Ahead(base: Option<nat>, n: nat): Option<nat> {
    if base.Some? then Some(base.value + n) else None
  }

  /** The first `n` bytes of a transfer are done. */
  ghost predicate PartDone(s: Setup, t: Transaction, n: nat, sent0: seq<byte>, ram0: seq<byte>,
                           sent: seq<byte>, ram: seq<byte>)
  {
    && Fits(t, |ram0|) && n <= t.length
    && sent == sent0 + Outgoing(t.tx, n, ram0) && ram == Filled(s, t.rx, n, |sent0|, ram0)
  }

  /** Some more bytes: those not sent yet are still as they were, even when the buffers are the same. */
  lemma PartGrows(s: Setup, t: Transaction, n: nat, k: nat, sent0: seq<byte>, ram0: seq<byte>,
                  sent: seq<byte>, ram: seq<byte>)
    requires PartDone(s, t, n, sent0, ram0, sent, ram) && n + k <= t.length
    ensures Inside(Ahead(t.tx, n), k, |ram|) && Inside(Ahead(t.rx, n), k, |ram|)
    ensures PartDone(s, t, n + k, sent0, ram0, sent + Outgoing(Ahead(t.tx, n), k, ram),
                     Filled(s, Ahead(t.rx, n), k, |sent|, ram))
  {
    SentGrows(s, t, n, k, |sent0|, ram0);
    FilledGrows(s, t.rx, n, k, |sent0|, ram0);
    Assoc(sent0, Outgoing(t.tx, n, ram0), Outgoing(Ahead(t.tx, n), k, ram0));
  }

  lemma SentGrows(s: Setup, t: Transaction, n: nat, k: nat, at: nat, ram0: seq<byte>)
    requires Fits(t, |ram0|) && n + k <= t.length
    ensures Outgoing(Ahead(t.tx, n), k, Filled(s, t.rx, n, at, ram0)) == Outgoing(Ahead(t.tx, n), k, ram0)
    ensures Outgoing(t.tx, n, ram0) + Outgoing(Ahead(t.tx, n), k, ram0) == Outgoing(t.tx, n + k, ram0)
  {
    match t.tx
    case None => ZerosJoin(Outgoing(None, n, ram0), Outgoing(None, k, ram0), Outgoing(None, n + k, ram0));
    case Some(base) =>
      StretchesJoin(ram0, base, n, k);
      Unwritten(s, t, base, n, k, at, ram0);
  }

  lemma ZerosJoin(a: seq<byte>, b: seq<byte>, c: seq<byte>)
    requires |a| + |b| == |c|
    requires (forall i :: 0 <= i < |a| ==> a[i] == 0) && (forall i :: 0 <= i < |b| ==> b[i] == 0)
    requires forall i :: 0 <= i < |c| ==> c[i] == 0
    ensures a + b == c
  {
  }

  lemma StretchesJoin(ram: seq<byte>, base: nat, n: nat, k: nat)
    requires base + n + k <= |ram|
    ensures ram[base..base + n] + ram[base + n..base + n + k] == ram[base..base + n + k]
  {
  }

  /** What has been received so far has not touched what is still to be sent. */
  lemma Unwritten(s: Setup, t: Transaction, base: nat, n: nat, k: nat, at: nat, ram0: seq<byte>)
    requires Fits(t, |ram0|) && n + k <= t.length && t.tx == Some(base)
    ensures Filled(s, t.rx, n, at, ram0)[base + n..base + n + k] == ram0[base + n..base + n + k]
  {
    var now := Filled(s, t.rx, n, at, ram0);
    assert forall a :: base + n <= a < base + n + k ==> now[a] == ram0[a];
  }

  lemma FilledGrows(s: Setup, rx: Option<nat>, n: nat, k: nat, at: nat, ram0: seq<byte>)
    requires Inside(rx, n + k, |ram0|)
    ensures Filled(s, Ahead(rx, n), k, at + n, Filled(s, rx, n, at, ram0)) == Filled(s, rx, n + k, at, ram0)
  {
    if s.rxEnabled && rx.Some? {
      assert Answers(s, at, n) + Answers(s, at + n, k) == Answers(s, at, n + k);
    }
  }

  // ---------- what a successful call means ----------

  /** What the transactions ask to be sent, each buffer as it is when its turn comes. */
  function Requested(s: Setup, txns: seq<Transaction>, sent: seq<byte>, ram: seq<byte>): seq<byte>
    requires AllFit(txns, |ram|)
  {
    if txns == [] then []
    else
      var o := Transfer(s, txns[0], sent, ram);
      Outgoing(txns[0].tx, txns[0].length, ram) + Requested(s, txns[1..], o.sent, o.ram)
  }

  /** Every transfer by DMA has a buffer to send from, and is not cut short. */
  ghost predicate AllMoved(s: Setup, txns: seq<Transaction>, sent: seq<byte>, ram: seq<byte>)
    requires AllFit(txns, |ram|)
  {
    txns == [] ||
    var o := Transfer(s, txns[0], sent, ram);
    && (UsesDma(s, txns[0]) ==> WholeByDma(s, txns[0], |sent|))
    && AllMoved(s, txns[1..], o.sent, o.ram)
  }

  predicate WholeByDma(s: Setup, t: Transaction, at: nat) {
    t.tx.Some? && 4 * s.stamina(at) >= t.length / 4 * 4
  }

  /** A transfer that ends well sends its bytes and no others, unless it is by DMA and lacks a buffer or fails. */
  lemma TransferSends(s: Setup, t: Transaction, sent: seq<byte>, ram: seq<byte>)
    requires Fits(t, |ram|)
    ensures var (o, goal) := (Transfer(s, t, sent, ram), Outgoing(t.tx, t.length, ram));
      o.code == 0 && !o.halted ==>
        && (if UsesDma(s, t) && !WholeByDma(s, t, |sent|) then |o.sent| < |sent + goal| else o.sent == sent + goal)
        && o.ram == if UsesDma(s, t) then ram else Filled(s, t.rx, t.length, |sent|, ram)
  {
    if UsesDma(s, t) { DmaSends(s, t, |sent|, ram); }
  }

  lemma DmaSends(s: Setup, t: Transaction, at: nat, ram: seq<byte>)
    requires Fits(t, |ram|) && t.length > DMA_THRESHOLD
    ensures if WholeByDma(s, t, at) then SentByDma(s, t, at, ram) == Outgoing(t.tx, t.length, ram)
            else |SentByDma(s, t, at, ram)| < t.length
  {
    var words := t.length / 4 * 4;
    if WholeByDma(s, t, at) {
      var base := t.tx.value;
      assert Moved(s, at, words) == words;
      assert ram[base..base + words] + ram[base + words..base + t.length] == ram[base..base + t.length];
    }
  }

  lemma {:induction false} SendsNoMore(s: Setup, txns: seq<Transaction>, sent: seq<byte>, ram: seq<byte>)
    requires AllFit(txns, |ram|)
    ensures var o := All(s, txns, sent, ram);
      o.code == 0 && !o.halted ==> |o.sent| <= |sent + Requested(s, txns, sent, ram)|
  {
    if txns != [] {
      TransferSends(s, txns[0], sent, ram);
      var o := Transfer(s, txns[0], sent, ram);
      SendsNoMore(s, txns[1..], o.sent, o.ram);
    }
  }

  /**
   * A call that ends well has sent exactly what was asked for, one transaction after another, if and only if every
   * transfer by DMA had a buffer to send from and was not cut short.
   */
  lemma {:induction false} SendsWhatIsAsked(s: Setup, txns: seq<Transaction>, sent: seq<byte>, ram: seq<byte>)
    requires AllFit(txns, |ram|)
    ensures var o := All(s, txns, sent, ram);
      o.code == 0 && !o.halted ==>
        (o.sent == sent + Requested(s, txns, sent, ram) <==> AllMoved(s, txns, sent, ram))
  {
    if txns != [] {
      TransferSends(s, txns[0], sent, ram);
      var o := Transfer(s, txns[0], sent, ram);
      SendsWhatIsAsked(s, txns[1..], o.sent, o.ram);
      SendsNoMore(s, txns[1..], o.sent, o.ram);
      if o.code != 0 || o.halted || All(s, txns, sent, ram).code != 0 || All(s, txns, sent, ram).halted {
        return;
      }
      SameOrShorter(sent, Outgoing(txns[0].tx, txns[0].length, ram), Requested(s, txns[1..], o.sent, o.ram), o.sent,
                    All(s, txns, sent, ram).sent);
    }
  }

  lemma SameOrShorter(sent: seq<byte>, first: seq<byte>, more: seq<byte>, now: seq<byte>, end: seq<byte>)
    requires now == sent + first || |now| < |sent + first|
    requires |end| <= |now + more|
    ensures end == sent + (first + more) <==> now == sent + first && end == now + more
  {
  }

  /** Such a call: a transfer by DMA with no buffer to send from ends well, and has sent nothing. */
  lemma SendsNothing(s: Setup, sent: seq<byte>, ram: seq<byte>)
    requires !s.rxEnabled && s.dmaCapable && |ram| >= 132
    ensures var txns := [Transaction(None, Some(0), 132)];
      AllFit(txns, |ram|) && All(s, txns, sent, ram) == Outcome(0, false, sent, ram) && !AllMoved(s, txns, sent, ram)
  {
    var t := Transaction(None, Some(0), 132);
    assert Transfer(s, t, sent, ram).sent == sent;
    assert [t][1..] == [];
  }

  /** Where memory is written, it holds what came back for the bytes sent at the same time. */
  lemma ReceivesAnswers(s: Setup, t: Transaction, sent: seq<byte>, ram: seq<byte>, k: nat)
    requires Fits(t, |ram|) && !Empty(t) && !UsesDma(s, t) && k < t.length
    ensures var o := Transfer(s, t, sent, ram);
      && o.sent[|sent| + k] == (if t.tx.Some? then ram[t.tx.value + k] else 0)
      && (t.rx.Some? && s.rxEnabled ==> o.ram[t.rx.value + k] == s.answer(|sent| + k))
      && forall a :: 0 <= a < |ram| && !(t.rx.Some? && t.rx.value <= a < t.rx.value + t.length) ==> o.ram[a] == ram[a]
  {
  }

  /** Whether a transaction takes what comes back into address `a`. */
  predicate Writes(s: Setup, t: Transaction, a: nat) {
    s.rxEnabled && t.rx.Some? && t.rx.value <= a < t.rx.value + t.length
  }

  predicate Untouched(s: Setup, txns: seq<Transaction>, from: nat, a: nat) {
    forall i :: from <= i < |txns| ==> !Writes(s, txns[i], a)
  }

  /** How many bytes the first `j` transactions move. */
  function Before(txns: seq<Transaction>, j: nat): nat
    requires j <= |txns|
  {
    if j == 0 then 0 else txns[0].length + Before(txns[1..], j - 1)
  }

  lemma TransferLeavesAlone(s: Setup, t: Transaction, sent: seq<byte>, ram: seq<byte>, a: nat)
    requires Fits(t, |ram|) && a < |ram| && !Writes(s, t, a)
    ensures Transfer(s, t, sent, ram).ram[a] == ram[a]
  {
  }

  lemma UntouchedRest(s: Setup, txns: seq<Transaction>, from: nat, a: nat)
    requires txns != [] && from > 0 && Untouched(s, txns, from, a)
    ensures Untouched(s, txns[1..], from - 1, a)
  {
    assert forall i :: 0 <= i < |txns| - 1 ==> txns[1..][i] == txns[i + 1];
  }

  /** Memory that no transaction takes anything into is left alone. */
  lemma {:induction false} LeavesAlone(s: Setup, txns: seq<Transaction>, sent: seq<byte>, ram: seq<byte>, a: nat)
    requires AllFit(txns, |ram|) && a < |ram| && Untouched(s, txns, 0, a)
    ensures All(s, txns, sent, ram).ram[a] == ram[a]
  {
    if txns != [] {
      TransferLeavesAlone(s, txns[0], sent, ram, a);
      UntouchedRest(s, txns, 1, a);
      var o := Transfer(s, txns[0], sent, ram);
      LeavesAlone(s, txns[1..], o.sent, o.ram, a);
    }
  }

  /**
   * After a call that ends well and sends what is asked, every address in a receive buffer that no later transaction
   * overwrites holds what came back at count `at`, which goes on over all transactions.
   */
  lemma {:induction false} ReceivesInOrder(s: Setup, txns: seq<Transaction>, sent: seq<byte>, ram: seq<byte>,
                                           j: nat, a: nat, at: nat)
    requires AllFit(txns, |ram|) && AllMoved(s, txns, sent, ram)
    requires All(s, txns, sent, ram).code == 0 && !All(s, txns, sent, ram).halted
    requires j < |txns| && Writes(s, txns[j], a) && Untouched(s, txns, j + 1, a) && a < |ram|
    requires at == |sent| + Before(txns, j) + (a - txns[j].rx.value)
    ensures All(s, txns, sent, ram).ram[a] == s.answer(at)
  {
    var (o, rest) := (Transfer(s, txns[0], sent, ram), txns[1..]);
    FirstDone(s, txns, sent, ram);
    UntouchedRest(s, txns, j + 1, a);
    if j == 0 {
      ReceivesFirst(s, txns[0], sent, ram, a - txns[0].rx.value, at);
      LeavesAlone(s, rest, o.sent, o.ram, a);
    } else {
      BeforeRest(txns, j);
      ReceivesInOrder(s, rest, o.sent, o.ram, j - 1, a, at);
    }
  }

  lemma BeforeRest(txns: seq<Transaction>, j: nat)
    requires 0 < j < |txns|
    ensures txns[1..][j - 1] == txns[j] && Before(txns, j) == txns[0].length + Before(txns[1..], j - 1)
  {
  }

  /** A call that ends well and sends what is asked has done so for its first transaction. */
  lemma FirstDone(s: Setup, txns: seq<Transaction>, sent: seq<byte>, ram: seq<byte>)
    requires txns != [] && AllFit(txns, |ram|) && AllMoved(s, txns, sent, ram)
    requires All(s, txns, sent, ram).code == 0 && !All(s, txns, sent, ram).halted
    ensures var o := Transfer(s, txns[0], sent, ram);
      && o.code == 0 && !o.halted && |o.sent| == |sent| + txns[0].length
      && All(s, txns, sent, ram) == All(s, txns[1..], o.sent, o.ram) && AllMoved(s, txns[1..], o.sent, o.ram)
  {
    TransferSends(s, txns[0], sent, ram);
  }

  lemma ReceivesFirst(s: Setup, t: Transaction, sent: seq<byte>, ram: seq<byte>, k: nat, at: nat)
    requires at == |sent| + k
    requires Fits(t, |ram|) && s.rxEnabled && t.rx.Some? && k < t.length
    requires Transfer(s, t, sent, ram).code == 0 && !Transfer(s, t, sent, ram).halted
    ensures Transfer(s, t, sent, ram).ram[t.rx.value + k] == s.answer(at)
  {
    ReceivesAnswers(s, t, sent, ram, k);
  }
}
