/**
 * The interrupt-driven master. Each run of the handler is one step: the peripheral reports what
 * happened on the bus, the handler reads and writes registers, and the peripheral acts on them.
 */
module I2CMaster {
  import opened Common
  import opened I2CBus

  const BUS_ERROR: int := -100
  const NO_ACK: int := -101
  const UNEXPECTED_NACK: int := -105
  const RECEPTION_ERROR: int := -106
  const TRANSMISSION_ERROR: int := -107

  /** What can be seen on the two wires, plus every STOP command. */
  datatype Event = Addr(value: byte) | Tx(value: byte) | Rx(value: byte, nack: bool) | Stop

  /**
   * What the peripheral is busy with. In `MbSet` and `SbSet` it holds the clock with its flag up;
   * a received byte has by then been answered, with the acknowledge action in force when it came in.
   */
  datatype Pending = Quiet | Addressing(read: bool) | Sending | Receiving | MbSet | SbSet(nacked: bool)

  /** The outcome of the bus activity a step ends. */
  datatype Response = Ack(data: byte) | Nack | BusError

  /** Interrupt and status flags as the handler reads them. */
  datatype Irq = Irq(mb: bool, sb: bool, busErr: bool, rxNack: bool)

  /** The peripheral's registers, with the events it has put on the bus. */
  datatype Regs = Regs(nack: bool, data: byte, pending: Pending, wire: seq<Event>) {
    function SetAck(n: bool): Regs { this.(nack := n) }
    function WriteAddr(v: byte): Regs { this.(pending := Addressing(v % 2 == 1), wire := wire + [Addr(v)]) }
    function WriteData(v: byte): Regs { this.(pending := Sending, wire := wire + [Tx(v)]) }
    function IssueStop(): Regs { this.(pending := Quiet, wire := wire + [Stop]) }
    function ClearMb(): Regs { this.(pending := if pending.MbSet? then Quiet else pending) }

    /** In smart mode, taking a byte out makes way for the next, unless this one was refused. */
    function TakeData(): Regs {
      this.(pending := if !pending.SbSet? then pending else if pending.nacked then Quiet else Receiving)
    }

    /** Outcomes the bus can have now; without activity there is no interrupt. */
    predicate Legal(r: Response) {
      match pending
      case Addressing(_) => true
      case Sending => !r.BusError?
      case Receiving => r.Ack?
      case MbSet => r.Ack?
      case _ => false
    }

    function Received(r: Response): Regs
      requires r.Ack?
    {
      this.(pending := SbSet(nack), data := r.data, wire := wire + [Rx(r.data, nack)])
    }

    /** The registers and flags the handler finds. */
    function Deliver(r: Response): (Regs, Irq)
      requires Legal(r)
    {
      if r.Ack? && (pending == Addressing(true) || pending.Receiving?) then
        (Received(r), Irq(false, true, false, false))
      else
        (this.(pending := MbSet), Irq(true, false, r.BusError?, r.Nack?))
    }
  }

  /** `Panicked` stands for the handler having halted the system. */
  datatype State = Idle | SendAddress | ReadData | WriteData | Panicked

  /**
   * The driver. `signals` counts notifications sent to the waiting task; `done` and `part` are the
   * bytes moved so far, for the transactions already finished and for the current one.
   */
  datatype Master = Master(
    state: State,
    txns: seq<Transaction>,
    cur: nat,
    off: nat,
    completion: int,
    signals: nat,
    regs: Regs,
    ram: seq<byte>,
    done: seq<seq<byte>>,
    part: seq<byte>
  ) {
    predicate InBatch() {
      cur < |txns| && Validated(txns) && Fits(txns, |ram|)
    }

    /** The indices are in range wherever the handler uses them. */
    predicate Ready() {
      && InBatch()
      && off <= txns[cur].length
      && (state != WriteData ==> off < txns[cur].length)
    }

    function Complete(status: int): Master {
      this.(completion := status, signals := signals + 1)
    }

    function Finish(): Master {
      this.(done := done + [part], part := [])
    }

    function SendByte(): Master
      requires InBatch() && off < txns[cur].length
    {
      assert Valid(txns, cur);
      var b := ram[txns[cur].data.base + off];
      this.(regs := regs.WriteData(b), off := off + 1, part := part + [b])
    }

    function StoreByte(): (m: Master)
      requires InBatch() && off < txns[cur].length
      ensures |m.ram| == |ram|
    {
      assert Valid(txns, cur);
      this.(ram := ram[txns[cur].data.base + off := regs.data], off := off + 1, part := part + [regs.data],
            regs := regs.TakeData())
    }

    /** The transfer is over: finish the batch, or start the next transaction. */
    function Advance(needsStop: bool): Master
      requires cur < |txns|
    {
      if cur == |txns| - 1 then
        var m := Finish();
        m.(regs := if needsStop then regs.IssueStop() else regs).Complete(0).(state := Idle)
      else
        Finish().(state := SendAddress, off := 0, cur := cur + 1, regs := Begin(regs, txns[cur + 1], needsStop))
    }
  }

  /** Start a transaction: STOP if asked for, acknowledge action, address phase. */
  function Begin(r: Regs, txn: Transaction, needsStop: bool): Regs {
    var r := if needsStop && !txn.continuation then r.IssueStop() else r;
    var r := r.SetAck(txn.read && txn.length == 1);
    if txn.Skips() then r else r.WriteAddr(txn.AddressByte())
  }

  function Handle(m: Master, irq: Irq): Master
    requires m.Ready()
  {
    var txn := m.txns[m.cur];
    match m.state
    case SendAddress =>
      if irq.mb && irq.busErr then
        m.Complete(BUS_ERROR).(state := Idle, regs := m.regs.ClearMb())
      else if irq.mb && irq.rxNack then
        m.Complete(NO_ACK).(state := Idle, regs := m.regs.IssueStop())
      else if irq.mb then
        m.SendByte().(state := WriteData)
      else if irq.sb && !irq.rxNack then
        if txn.length > 1 then
          m.(regs := m.regs.SetAck(txn.length == 2)).StoreByte().(state := ReadData)
        else if m.cur == |m.txns| - 1 then
          m.(regs := m.regs.IssueStop()).Complete(0).StoreByte().Finish().(state := ReadData)
        else
          var stop := !m.txns[m.cur + 1].continuation;
          m.(regs := if stop then m.regs.IssueStop() else m.regs).StoreByte().Advance(false)
      else
        m.(state := Panicked)
    case WriteData =>
      if irq.mb && !irq.rxNack then
        if m.off == txn.length then m.Advance(true) else m.SendByte()
      else if irq.mb then
        m.Complete(UNEXPECTED_NACK).(regs := m.regs.IssueStop())
      else
        m.Complete(TRANSMISSION_ERROR).(regs := m.regs.IssueStop(), state := Panicked)
    case ReadData =>
      if irq.sb then
        var left := txn.length - m.off;
        var r := m.regs.SetAck(left <= 2);
        var m1 := m.(regs := if left == 1 then r.IssueStop() else r).StoreByte();
        if left == 1 then m1.Advance(true) else m1
      else
        m.Complete(RECEPTION_ERROR).(regs := m.regs.IssueStop(), state := Panicked)
    case Idle => m.(state := Panicked)
    case Panicked => m
  }

  /** One interrupt: the peripheral reports, the handler reacts. */
  function Step(m: Master, r: Response): Master
    requires m.Ready() && m.regs.Legal(r)
  {
    var (regs, irq) := m.regs.Deliver(r);
    Handle(m.(regs := regs), irq)
  }

  /** The state in which the first address has been sent and the task waits. */
  function Start(txns: seq<Transaction>, ram: seq<byte>, regs: Regs): Master
    requires txns != []
  {
    Master(SendAddress, txns, 0, 0, -1, 0, Begin(regs.(wire := [], pending := Quiet), txns[0], false), ram, [], [])
  }
}
