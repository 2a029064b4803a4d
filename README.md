# ATM ledger and account directory

A model of the in-memory ATM of `ATM_Interface.java`. It has two parts.

- **Accounts.** Each account has an account number and a PIN, both fixed at
  creation. Its balance and append-only transaction history change in
  place through `deposit`, `withdraw` and `transfer`. `deposit` and
  `withdraw` either change the balance and append one record, or change
  nothing. A transfer either changes both accounts, appending one record to
  each, or changes nothing; a self-transfer leaves the balance unchanged and
  appends two records. `transfer` debits the source account, credits the
  recipient through the recipient's own `deposit`, and only then appends the
  source account's "Transfer to <number>" record. When the recipient is the
  source account itself, one object receives both the debit and the credit.
- **The directory.** The ATM keeps its accounts in a list in creation order.
  `createAccount` appends without checking for a repeated number.
  `findAccountByNumber` returns the first account with that number. The
  login scan returns the first account whose number and PIN both match.

The model has three modules, one per file:

- `ledger.dfy`, module `Ledger`: the value-level specification. It defines
  a history record (`Kind`, `Transaction`), the Java code's type strings
  (`TypeName`), an account's ledger value (`State`), the invariant
  (`Consistent`: the balance is the net sum of the history and is never
  negative), and what each operation does to a ledger (`After*`). Lemmas
  prove that each operation keeps the invariant, only appends to the
  history, and leaves no trace when it fails. `RunKeepsLedger` extends this
  to any sequence of calls.
- `account.dfy`, module `Accounts`: class `Account`, with the Java class's fields.
  Each method's new state is the matching `Ledger` function of its old
  state, and each method keeps `Valid()`.
- `atm.dfy`, module `Directory`: class `Atm`, with the account list as a
  `seq<Account>` field. It has the scan loops, proved against the
  first-match functions `FirstWithNumber` and `FirstWithCredentials`. It
  also has two client methods. One runs a session through the ATM: A1
  deposits 100.00, is refused 150.00, withdraws 40.00, transfers 60.00 to
  A2, and is refused a further 10.00. The other creates two accounts with
  the same number.

Amounts are whole cents (`int`). Login and transfer take the account number,
the PIN and the amount as parameters instead of reading them from the console.

Three points of the code's behaviour the model keeps:

- The recipient's side of a transfer is recorded as a plain `Deposit`. There
  is no separate transfer-in kind.
- Repeated account numbers are accepted. Lookups return the first match in
  creation order.
- The recipient is credited before the source account's own record is appended. So
  a self-transfer appends `Deposit` and then `Transfer to`.

## Model

| member | source | states |
|---|---|---|
| Ledger.TypeNameInjective | ATM_Interface.java:50-71 | the type strings "Deposit", "Withdrawal" and "Transfer to " + number are distinct for distinct kinds and recipients, so the string history determines each record |
| Ledger.DepositKeepsLedger | ATM_Interface.java:57-65 | deposit keeps the ledger invariant, only appends to the history, and changes nothing exactly when the amount is not positive |
| Ledger.WithdrawKeepsLedger | ATM_Interface.java:47-55 | withdraw keeps the invariant, so the balance never goes negative; it only appends; it changes nothing exactly when 0 < amount <= balance fails |
| Ledger.TransferOutKeepsLedger | ATM_Interface.java:67-76 | the debited side of a transfer keeps the invariant, only appends, and changes nothing exactly when the guard fails |
| Ledger.TransferKeepsLedgers | ATM_Interface.java:67-76 | a transfer between distinct accounts keeps both invariants and the sum of the two balances; it only appends to both histories; it changes both accounts or neither, and neither exactly when the guard fails |
| Ledger.SelfTransferKeepsLedger | ATM_Interface.java:67-71 | a self-transfer leaves the balance unchanged and keeps the invariant; on success it appends a Deposit record and then a Transfer-to record, in that order; otherwise it changes nothing |
| Ledger.RunKeepsLedger | ATM_Interface.java:25-26 | after any sequence of deposits, withdrawals, transfers and self-transfers, the balance equals the net sum of the history and is non-negative, and the old history is a prefix of the new one |
| Accounts.Account.constructor | ATM_Interface.java:28-33 | a new account has the given number and PIN, balance 0 and an empty history, and satisfies the invariant; number and PIN are constants for the account's whole life |
| Accounts.Account.ValidatePin | ATM_Interface.java:39-41 | true exactly when the candidate equals the stored PIN |
| Accounts.Account.GetBalance | ATM_Interface.java:43-45 | the reported balance of a valid account is non-negative and equals the net sum of its history |
| Accounts.Account.Withdraw | ATM_Interface.java:47-55 | the new ledger is AfterWithdraw of the old one, and the invariant is kept |
| Accounts.Account.Deposit | ATM_Interface.java:57-65 | the new ledger is AfterDeposit of the old one, and the invariant is kept; the invariant is not required, so a self-transfer can call it mid-update |
| Accounts.Account.Transfer | ATM_Interface.java:67-76 | for a distinct recipient, both new ledgers are AfterTransfer of the old ones; for the account itself, the new ledger is AfterSelfTransfer; both invariants are kept |
| Directory.FirstWithNumber | ATM_Interface.java:203-210 | the result is the index of the first account with the number, or the list length when none has it |
| Directory.FirstWithCredentials | ATM_Interface.java:107-115 | the result is the index of the first account whose number and PIN both match, or the list length; an unknown number and a wrong PIN give the same result |
| Directory.LoginNotBeforeLookup | ATM_Interface.java:107-115 | login never reaches an account earlier in the list than lookup by number |
| Directory.LoginIsLookupThenPin | ATM_Interface.java:107-115 | when numbers are unique, login is lookup by number followed by the PIN check, and fails the same way for an unknown number and a wrong PIN |
| Directory.ShadowedAccount | ATM_Interface.java:95-99 | with a repeated number, lookup returns the first account while login with the second's PIN returns the second |
| Directory.Atm.constructor | ATM_Interface.java:90-93 | a new ATM has an empty account list |
| Directory.Atm.CreateAccount | ATM_Interface.java:95-99 | exactly one fresh account, with the given number and PIN and an opened ledger, is appended at the end; earlier entries stay the same; no duplicate check |
| Directory.Atm.FindAccountByNumber | ATM_Interface.java:203-210 | returns the account at FirstWithNumber, or null when no account has the number |
| Directory.Atm.Login | ATM_Interface.java:107-115 | returns the account at FirstWithCredentials, or null when no account matches both number and PIN |
| Directory.Atm.TransferByNumber | ATM_Interface.java:178-188 | the recipient is the first account with the number; if there is none, nothing changes; otherwise the transfer's effect is AfterTransfer, or AfterSelfTransfer for the source itself; every other account in the directory is unchanged; the invariants are kept |
| Directory.WalkThrough | ATM_Interface.java:47-99 | through createAccount and the transfer action: A1 deposits 100.00, is refused 150.00, withdraws 40.00, transfers 60.00 to A2 and is refused 10.00; balances end at 0 and 60.00 with histories [Deposit 100.00, Withdrawal 40.00, Transfer to A2 60.00] and [Deposit 60.00] |
| Directory.DuplicateNumbers | ATM_Interface.java:95-115 | after two accounts are created with the same number, lookup and login with the second PIN return two different accounts |

## Left out

- Console output: the success and failure messages of every operation and the printing in `displayTransactionHistory`. The history itself is the `history` field.
- Console input: the `Scanner` reads in `login` and the menus. Their values are parameters here.
- The menu loops `run` and `loggedInAccountActions`. This is CLI plumbing. Their one rule is that a transfer is attempted only when the recipient is found. `TransferByNumber` models that rule.
- The two `main` methods. They are entry points only.
- IEEE `double` amounts, with their rounding, NaN and infinities. Amounts are exact integer cents.
- A null recipient passed to `transfer`. The recipient is a non-null `Account`, because the only caller checks for null first.
- `getAccountNumber`, `getType` and `getAmount` are plain field reads. `accountNumber` is a constant field, and a record's type string is `TypeName(kind)`.
