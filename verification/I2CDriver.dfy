/** The driver object: its fields, its interrupt handler, and `perform`. */
module I2CDriver {
  import opened Common
  import opened I2CBus
  import opened I2CMaster
  import opened I2CRuns
  import opened I2CTheorems

  const DISABLED: int := -103
  const INVALID_TRANSACTION: int := -104

  class I2C {
    var enabled: bool
    var state: State
    var completion: int
    var currentTxns: seq<Transaction>
    var currentTxn: nat
    var currentTxnOffset: nat

    /** Notifications sent to the waiting task. */
    var signals: nat
    var regs: Regs
    const ram: array<byte>

    ghost var done: seq<seq<byte>>
    ghost var part: seq<byte>

    constructor (ram: array<byte>)
      ensures this.ram == ram && enabled && regs.pending == Quiet
    {
      this.ram := ram;
      enabled := true;
      state := Idle;
      completion, currentTxns, currentTxn, currentTxnOffset := 0, [], 0, 0;
      signals := 0;
      regs := Regs(false, 0, Quiet, []);
      done, part := [], [];
    }

    ghost function View(): Master
      reads this, ram
    {
      Master(state, currentTxns, currentTxn, currentTxnOffset, completion, signals, regs, ram[..], done, part)
    }

    method IrqCompleteTxn(status: int)
      modifies this`completion, this`signals
      ensures completion == status && signals == old(signals) + 1
    {
      completion := status;
      signals := signals + 1;
    }

    method BeginTransaction(txn: Transaction, needsStop: bool)
      modifies this`regs
      ensures regs == Begin(old(regs), txn, needsStop)
    {
      if needsStop {
        if !txn.continuation {
          regs := regs.IssueStop();
        }
      }
      if txn.read && txn.length == 1 {
        regs := regs.SetAck(true);
      } else {
        regs := regs.SetAck(false);
      }
      if !txn.continuation || !txn.skipRestart {
        regs := regs.WriteAddr(txn.AddressByte());
      }
    }

    /** Write the next byte of the current buffer to the data register. */
    method SendNext()
      requires View().InBatch() && currentTxnOffset < currentTxns[currentTxn].length
      modifies this`regs, this`currentTxnOffset, this`part
      ensures View() == old(View()).SendByte()
    {
      assert Valid(currentTxns, currentTxn);
      var data := ram[currentTxns[currentTxn].data.base + currentTxnOffset];
      currentTxnOffset := currentTxnOffset + 1;
      regs := regs.WriteData(data);
      part := part + [data];
    }

    /** Copy the data register into the current buffer. */
    method ReceiveNext()
      requires View().InBatch() && currentTxnOffset < currentTxns[currentTxn].length
      modifies this`regs, this`currentTxnOffset, this`part, ram
      ensures View() == old(View()).StoreByte()
    {
      assert Valid(currentTxns, currentTxn);
      ram[currentTxns[currentTxn].data.base + currentTxnOffset] := regs.data;
      currentTxnOffset := currentTxnOffset + 1;
      part := part + [regs.data];
      regs := regs.TakeData();
    }

    method PrepareForNext(needsStop: bool)
      requires currentTxn < |currentTxns|
      modifies this
      ensures View() == old(View()).Advance(needsStop)
    {
      done, part := done + [part], [];
      if currentTxn == |currentTxns| - 1 {
        if needsStop {
          regs := regs.IssueStop();
        }
        IrqCompleteTxn(0);
        state := Idle;
      } else {
        state := SendAddress;
        currentTxnOffset := 0;
        currentTxn := currentTxn + 1;
        BeginTransaction(currentTxns[currentTxn], needsStop);
      }
    }

    /** The address has been sent; the first byte of a read has then come in as well. */
    method OnAddress(irq: Irq) returns (prepareForNext: bool, needsStop: bool)
      requires View().Ready() && state == SendAddress
      modifies this, ram
      ensures prepareForNext ==> currentTxn < |currentTxns|
      ensures Handle(old(View()), irq) == if prepareForNext then View().Advance(needsStop) else View()
    {
      prepareForNext, needsStop := false, true;
      if irq.mb && irq.busErr {
        IrqCompleteTxn(BUS_ERROR);
        state := Idle;
        regs := regs.ClearMb();
      } else if irq.mb && irq.rxNack {
        regs := regs.IssueStop();
        IrqCompleteTxn(NO_ACK);
        state := Idle;
      } else if irq.mb {
        SendNext();
        state := WriteData;
      } else if irq.sb && !irq.rxNack {
        if currentTxns[currentTxn].length == 1 {
          prepareForNext := OnSingleByte();
          needsStop := false;
        } else {
          regs := regs.SetAck(currentTxns[currentTxn].length == 2);
          ReceiveNext();
          state := ReadData;
        }
      } else {
        state := Panicked;
      }
    }

    method OnSingleByte() returns (prepareForNext: bool)
      requires View().Ready() && state == SendAddress && currentTxns[currentTxn].length == 1
      modifies this, ram
      ensures prepareForNext ==> currentTxn < |currentTxns|
      ensures Handle(old(View()), Irq(false, true, false, false)) ==
        if prepareForNext then View().Advance(false) else View()
    {
      if currentTxn == |currentTxns| - 1 {
        regs := regs.IssueStop();
        IrqCompleteTxn(0);
        ReceiveNext();
        done, part := done + [part], [];
        state := ReadData;
        return false;
      } else {
        if !currentTxns[currentTxn + 1].continuation {
          regs := regs.IssueStop();
        }
        ReceiveNext();
        state := ReadData;
        return true;
      }
    }

    method OnWrite(irq: Irq) returns (prepareForNext: bool)
      requires View().Ready() && state == WriteData
      modifies this
      ensures prepareForNext ==> currentTxn < |currentTxns|
      ensures Handle(old(View()), irq) == if prepareForNext then View().Advance(true) else View()
    {
      prepareForNext := false;
      if irq.mb && !irq.rxNack {
        if currentTxnOffset == currentTxns[currentTxn].length {
          prepareForNext := true;
        } else {
          SendNext();
        }
      } else if irq.mb && irq.rxNack {
        regs := regs.IssueStop();
        IrqCompleteTxn(UNEXPECTED_NACK);
      } else {
        regs := regs.IssueStop();
        IrqCompleteTxn(TRANSMISSION_ERROR);
        state := Panicked;
      }
    }

    method OnRead(irq: Irq) returns (prepareForNext: bool)
      requires View().Ready() && state == ReadData
      modifies this, ram
      ensures prepareForNext ==> currentTxn < |currentTxns|
      ensures Handle(old(View()), irq) == if prepareForNext then View().Advance(true) else View()
    {
      prepareForNext := false;
      if irq.sb {
        var length := currentTxns[currentTxn].length;
        if length == currentTxnOffset + 2 {
          regs := regs.SetAck(true);
        } else if length == currentTxnOffset + 1 {
          regs := regs.SetAck(true).IssueStop();
        } else {
          regs := regs.SetAck(false);
        }
        ReceiveNext();
        if currentTxnOffset == length {
          prepareForNext := true;
        }
      } else {
        regs := regs.IssueStop();
        IrqCompleteTxn(RECEPTION_ERROR);
        state := Panicked;
      }
    }

    method IrqMasterOnBus(irq: Irq)
      requires View().Ready()
      modifies this, ram
      ensures View() == Handle(old(View()), irq)
    {
      var prepareForNext, needsStop := false, true;
      match state {
        case SendAddress => prepareForNext, needsStop := OnAddress(irq);
        case WriteData => prepareForNext := OnWrite(irq);
        case ReadData => prepareForNext := OnRead(irq);
        case Idle => state := Panicked;
        case Panicked =>
      }
      if prepareForNext {
        PrepareForNext(needsStop);
      }
    }

    /**
     * Run a batch against a bus that answers with `answers`, in turn. The call returns once the task has been
     * notified; it is then told what the run that the answers determine came to.
     */
    method Perform(transactions: seq<Transaction>, answers: seq<Response>) returns (returned: bool, err: int)
      requires Fits(transactions, ram.Length)
      requires transactions != [] && Validated(transactions) ==>
        LegalRun(Start(transactions, ram[..], regs), answers)
      modifies this, ram
      ensures !old(enabled) ==> returned && err == DISABLED
      ensures old(enabled) && transactions == [] ==> returned && err == INVALID_TRANSACTION
      ensures old(enabled) && transactions != [] && !Validated(transactions) ==>
        returned && err in {ZERO_LENGTH, NO_BUFFER, FIRST_CONTINUES}
      ensures !old(enabled) || transactions == [] || !Validated(transactions) ==> View() == old(View())
      ensures old(enabled) && transactions != [] && Validated(transactions) ==>
        var m := Run(Start(transactions, old(ram[..]), old(regs)), answers);
        && View() == m && Inv(m, old(ram[..]))
        && (returned <==> m.signals == 1) && (returned ==> err == m.completion)
    {
      if !enabled {
        return true, DISABLED;
      }
      if transactions == [] {
        return true, INVALID_TRANSACTION;
      }
      err := ValidateTransactions(transactions);
      if err != 0 {
        return true, err;
      }
      completion, signals := -1, 0;
      currentTxn, currentTxnOffset, currentTxns := 0, 0, transactions;
      done, part := [], [];
      regs := regs.(wire := [], pending := Quiet);
      state := SendAddress;
      BeginTransaction(transactions[0], false);

      ghost var m0 := Start(transactions, old(ram[..]), old(regs));
      StartKeeps(transactions, old(ram[..]), old(regs));
      for i := 0 to |answers|
        invariant View().txns == transactions && Inv(View(), old(ram[..]))
        invariant LegalRun(View(), answers[i..]) && Run(View(), answers[i..]) == Run(m0, answers)
      {
        StepKeeps(View(), old(ram[..]), answers[i]);
        assert answers[i..][1..] == answers[i + 1..];
        Interrupt(answers[i]);
      }
      returned := signals > 0;
      err := completion;
    }

    /** The peripheral interrupts. */
    method Interrupt(r: Response)
      requires View().Ready() && regs.Legal(r)
      modifies this, ram
      ensures View() == Step(old(View()), r)
    {
      var (regs', irq) := regs.Deliver(r);
      regs := regs';
      IrqMasterOnBus(irq);
    }
  }
}
