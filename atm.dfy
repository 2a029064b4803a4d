/** The ATM's account directory: a list of accounts in creation order, with
    account creation, lookup by number and the login scan. Account numbers
    are not checked for uniqueness, so lookups return the first match in
    creation order. */
module Directory {
  import Ledger
  import opened Accounts

  /** The position of the first account numbered `number`, or |accounts|
      when there is none. */
  function FirstWithNumber(accounts: seq<Account>, number: string): (k: nat)
    ensures k <= |accounts|
    ensures forall j :: 0 <= j < k ==> accounts[j].accountNumber != number
    ensures k < |accounts| ==> accounts[k].accountNumber == number
  {
    if accounts == [] then 0
    else if accounts[0].accountNumber == number then 0
    else 1 + FirstWithNumber(accounts[1..], number)
  }

  /** The position of the first account whose number and PIN both match, or
      |accounts| when there is none. An unknown number and a wrong PIN both
      give |accounts|. */
  function FirstWithCredentials(accounts: seq<Account>, number: string, pin: string): (k: nat)
    ensures k <= |accounts|
    ensures forall j :: 0 <= j < k ==> !(accounts[j].accountNumber == number && accounts[j].ValidatePin(pin))
    ensures k < |accounts| ==> accounts[k].accountNumber == number && accounts[k].pin == pin
  {
    if accounts == [] then 0
    else if accounts[0].accountNumber == number && accounts[0].ValidatePin(pin) then 0
    else 1 + FirstWithCredentials(accounts[1..], number, pin)
  }

  /** The account at position k, or null past the end. */
  function EntryAt(accounts: seq<Account>, k: nat): Account? {
    if k < |accounts| then accounts[k] else null
  }

  /** No two accounts share a number. ATM_Interface.java does not enforce this. */
  predicate UniqueNumbers(accounts: seq<Account>) {
    forall i, j :: 0 <= i < j < |accounts| ==> accounts[i].accountNumber != accounts[j].accountNumber
  }

  /** Login never finds an account earlier than lookup by number does. */
  lemma LoginNotBeforeLookup(accounts: seq<Account>, number: string, pin: string)
    ensures FirstWithNumber(accounts, number) <= FirstWithCredentials(accounts, number, pin)
  {
  }

  /** With unique numbers, login is lookup by number followed by the PIN
      check, and both failures give the same answer. */
  lemma LoginIsLookupThenPin(accounts: seq<Account>, number: string, pin: string)
    requires UniqueNumbers(accounts)
    ensures var k := FirstWithNumber(accounts, number);
      FirstWithCredentials(accounts, number, pin)
        == if k < |accounts| && accounts[k].ValidatePin(pin) then k else |accounts|
  {
  }

  /** With a repeated number, the account a login reaches can be one that
      lookup by number never returns. */
  lemma ShadowedAccount(first: Account, second: Account, number: string, pin: string)
    requires first.accountNumber == number && second.accountNumber == number
    requires first.pin != pin && second.pin == pin
    ensures EntryAt([first, second], FirstWithNumber([first, second], number)) == first
    ensures EntryAt([first, second], FirstWithCredentials([first, second], number, pin)) == second
  {
  }

  class Atm {
    var accounts: seq<Account>

    /** Every account in the directory keeps the ledger invariant. */
    ghost predicate Valid()
      reads this, accounts
    {
      forall a :: a in accounts ==> a.Valid()
    }

    constructor ()
      ensures accounts == [] && Valid()
    {
      accounts := [];
    }

    /** Appends one new account at the end, without checking for a repeated
        number; the accounts already there are untouched. */
    method CreateAccount(accountNumber: string, pin: string)
      modifies this
      ensures |accounts| == |old(accounts)| + 1
      ensures accounts[..|old(accounts)|] == old(accounts)
      ensures var a := accounts[|old(accounts)|];
        && fresh(a)
        && a.accountNumber == accountNumber && a.pin == pin
        && a.Snapshot() == Ledger.Opened
      ensures old(Valid()) ==> Valid()
    {
      var account := new Account(accountNumber, pin);
      accounts := accounts + [account];
    }

    /** The first account in creation order with the given number, or null. */
    method FindAccountByNumber(accountNumber: string) returns (r: Account?)
      ensures r == EntryAt(accounts, FirstWithNumber(accounts, accountNumber))
    {
      var i := 0;
      while i < |accounts|
        invariant 0 <= i <= |accounts|
        invariant forall j :: 0 <= j < i ==> accounts[j].accountNumber != accountNumber
      {
        if accounts[i].accountNumber == accountNumber {
          return accounts[i];
        }
        i := i + 1;
      }
      return null;
    }

    /** The login scan: the first account in creation order whose number and
        PIN both match, or null. */
    method Login(accountNumber: string, pin: string) returns (r: Account?)
      ensures r == EntryAt(accounts, FirstWithCredentials(accounts, accountNumber, pin))
    {
      var i := 0;
      while i < |accounts|
        invariant 0 <= i <= |accounts|
        invariant forall j :: 0 <= j < i ==> !(accounts[j].accountNumber == accountNumber && accounts[j].ValidatePin(pin))
      {
        if accounts[i].accountNumber == accountNumber && accounts[i].ValidatePin(pin) {
          return accounts[i];
        }
        i := i + 1;
      }
      return null;
    }

    /** The transfer menu action: the recipient is looked up by number, and
        the transfer is attempted only when one is found. */
    method TransferByNumber(source: Account, recipientNumber: string, amount: int) returns (recipient: Account?)
      requires Valid() && source.Valid()
      modifies source, accounts
      ensures recipient == EntryAt(accounts, FirstWithNumber(accounts, recipientNumber))
      ensures recipient == null ==> unchanged(source) && unchanged(accounts)
      ensures recipient != null && recipient != source ==>
        (source.Snapshot(), recipient.Snapshot())
          == Ledger.AfterTransfer(old(source.Snapshot()), old(recipient.Snapshot()), recipientNumber, amount)
      ensures recipient == source ==>
        source.Snapshot() == Ledger.AfterSelfTransfer(old(source.Snapshot()), recipientNumber, amount)
      ensures forall a :: a in accounts && a != source && a != recipient ==> unchanged(a)
      ensures Valid() && source.Valid()
    {
      recipient := FindAccountByNumber(recipientNumber);
      if recipient != null {
        source.Transfer(recipient, amount);
      }
    }
  }

  /** A session run through the ATM as its menu does, amounts in cents:
      A1 deposits 100.00, is refused a withdrawal of 150.00, withdraws 40.00,
      transfers 60.00 to A2, and is refused a further transfer of 10.00. */
  method WalkThrough() returns (a1: Account, a2: Account)
    ensures a1.balance == 0 && a2.balance == 6000
    ensures a1.history == [
      Ledger.Transaction(Ledger.Deposit, 10000),
      Ledger.Transaction(Ledger.Withdrawal, 4000),
      Ledger.Transaction(Ledger.TransferTo("A2"), 6000)]
    ensures a2.history == [Ledger.Transaction(Ledger.Deposit, 6000)]
  {
    var atm := new Atm();
    atm.CreateAccount("A1", "1234");
    a1 := atm.accounts[0];
    a1.Deposit(10000);
    a1.Withdraw(15000);
    assert a1.balance == 10000;
    a1.Withdraw(4000);
    assert a1.balance == 6000;
    atm.CreateAccount("A2", "5678");
    a2 := atm.accounts[1];
    assert atm.accounts == [a1, a2];
    var r := atm.TransferByNumber(a1, "A2", 6000);
    assert r == a2;
    assert a1.balance == 0 && a2.balance == 6000;
    r := atm.TransferByNumber(a1, "A2", 1000);
    assert r == a2;
  }

  /** Two accounts created with the same number: lookup by number returns
      the first, login with the second's PIN returns the second. */
  method DuplicateNumbers() returns (found: Account?, loggedIn: Account?)
    ensures found != null && loggedIn != null && found != loggedIn
    ensures found.accountNumber == loggedIn.accountNumber
  {
    var atm := new Atm();
    atm.CreateAccount("A1", "1111");
    atm.CreateAccount("A1", "2222");
    found := atm.FindAccountByNumber("A1");
    loggedIn := atm.Login("A1", "2222");
  }
}
