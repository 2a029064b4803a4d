/** A bank account: an account number and PIN fixed at creation, and a
    balance and transaction history that deposit, withdraw and transfer
    update in place. */
module Accounts {
  import Ledger

  class Account {
    const accountNumber: string
    const pin: string
    var balance: int
    var history: seq<Ledger.Transaction>

    /** The ledger value of this account right now. */
    function Snapshot(): Ledger.State
      reads this
    {
      Ledger.State(balance, history)
    }

    /** The account invariant: its ledger is consistent. */
    ghost predicate Valid()
      reads this
    {
      Ledger.Consistent(Snapshot())
    }

    /** A new account starts with balance 0 and an empty history. Its number
        and PIN are constants, so they stay as given for its whole life. */
    constructor (accountNumber: string, pin: string)
      ensures this.accountNumber == accountNumber && this.pin == pin
      ensures Snapshot() == Ledger.Opened
      ensures Valid()
    {
      this.accountNumber := accountNumber;
      this.pin := pin;
      balance := 0;
      history := [];
    }

    /** PIN check: an exact match of the whole string. */
    function ValidatePin(candidate: string): (ok: bool)
      ensures ok <==> candidate == pin
    {
      pin == candidate
    }

    /** The balance a consistent account reports: never negative, and the net
        sum of its history. */
    function GetBalance(): (b: int)
      reads this
      requires Valid()
      ensures b >= 0 && b == Ledger.Net(history)
    {
      balance
    }

    method Withdraw(amount: int)
      modifies this
      ensures Snapshot() == Ledger.AfterWithdraw(old(Snapshot()), amount)
      ensures old(Valid()) ==> Valid()
    {
      if amount > 0 && amount <= balance {
        balance := balance - amount;
        history := history + [Ledger.Transaction(Ledger.Withdrawal, amount)];
      }
      if old(Valid()) {
        Ledger.WithdrawKeepsLedger(old(Snapshot()), amount);
      }
    }

    /** Deposit does not ask for the invariant, because a self-transfer calls
        it between its debit and its own record, when the account is briefly
        out of balance. */
    method Deposit(amount: int)
      modifies this
      ensures Snapshot() == Ledger.AfterDeposit(old(Snapshot()), amount)
      ensures old(Valid()) ==> Valid()
    {
      if amount > 0 {
        balance := balance + amount;
        history := history + [Ledger.Transaction(Ledger.Deposit, amount)];
      }
      if old(Valid()) {
        Ledger.DepositKeepsLedger(old(Snapshot()), amount);
      }
    }

    /** Transfer checks the amount against this account's balance only,
        debits this account, credits the recipient through its deposit, and
        only then appends this account's own record. When the recipient is
        this same account, the debit and the credit hit one object. */
    method Transfer(recipient: Account, amount: int)
      modifies this, recipient
      ensures recipient != this ==>
        (Snapshot(), recipient.Snapshot())
          == Ledger.AfterTransfer(old(Snapshot()), old(recipient.Snapshot()), recipient.accountNumber, amount)
      ensures recipient == this ==>
        Snapshot() == Ledger.AfterSelfTransfer(old(Snapshot()), accountNumber, amount)
      ensures old(Valid()) && old(recipient.Valid()) ==> Valid() && recipient.Valid()
    {
      if amount > 0 && amount <= balance {
        balance := balance - amount;
        recipient.Deposit(amount);
        history := history + [Ledger.Transaction(Ledger.TransferTo(recipient.accountNumber), amount)];
      }
      if old(Valid()) && old(recipient.Valid()) {
        if recipient == this {
          Ledger.SelfTransferKeepsLedger(old(Snapshot()), accountNumber, amount);
        } else {
          Ledger.TransferKeepsLedgers(old(Snapshot()), old(recipient.Snapshot()), recipient.accountNumber, amount);
        }
      }
    }
  }
}
