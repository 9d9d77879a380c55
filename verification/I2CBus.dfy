/** Transactions on an I2C bus, and the checks every batch passes before it is started. */
module I2CBus {
  import opened Common

  /** A buffer: a stretch of memory, or no buffer at all. */
  datatype Span = Null | Span(base: nat, size: nat)

  datatype Transaction = Transaction(
    address: byte,
    read: bool,
    continuation: bool,
    skipRestart: bool,
    length: uint16,
    data: Span
  ) {
    /** The transaction carries on in the transfer before it, with no new address phase. */
    predicate Skips() {
      continuation && skipRestart
    }

    /** What goes on the wire in the address phase. */
    function AddressByte(): byte {
      address % 128 * 2 + if read then 1 else 0
    }
  }

  const ZERO_LENGTH: int := -1000
  const NO_BUFFER: int := -1001
  const FIRST_CONTINUES: int := -1002

  predicate NoBuffer(s: Span) {
    s.Null? || s.size == 0
  }

  predicate Valid(txns: seq<Transaction>, i: nat)
    requires i < |txns|
  {
    txns[i].length != 0 && !NoBuffer(txns[i].data) && !(txns[i].continuation && i == 0)
  }

  predicate Validated(txns: seq<Transaction>) {
    forall i :: 0 <= i < |txns| ==> Valid(txns, i)
  }

  /** Every buffer lies in memory and is at least as long as its transfer. */
  predicate Fits(txns: seq<Transaction>, size: nat) {
    forall i :: 0 <= i < |txns| && txns[i].data.Span? ==>
      txns[i].length <= txns[i].data.size && txns[i].data.base + txns[i].data.size <= size
  }

  function Complaint(txn: Transaction): int {
    if txn.length == 0 then ZERO_LENGTH else if NoBuffer(txn.data) then NO_BUFFER else FIRST_CONTINUES
  }

  /** The verdict is the complaint about the first bad transaction, in the order the complaints are listed. */
  method ValidateTransactions(txns: seq<Transaction>) returns (err: int)
    ensures err == 0 <==> Validated(txns)
    ensures err != 0 ==>
      exists i :: 0 <= i < |txns| && !Valid(txns, i) && Validated(txns[..i]) && err == Complaint(txns[i])
  {
    for i := 0 to |txns|
      invariant forall j :: 0 <= j < i ==> Valid(txns, j)
    {
      var txn := txns[i];
      assert forall j :: 0 <= j < i ==> Valid(txns[..i], j) by {
        forall j | 0 <= j < i ensures Valid(txns[..i], j) { assert Valid(txns, j); }
      }
      if txn.length == 0 {
        assert !Valid(txns, i);
        return ZERO_LENGTH;
      }
      if NoBuffer(txn.data) {
        assert !Valid(txns, i);
        return NO_BUFFER;
      }
      if txn.continuation {
        if i == 0 {
          assert !Valid(txns, i);
          return FIRST_CONTINUES;
        }
      }
    }
    return 0;
  }
}
