/** The value-level specification of one account's ledger: its balance and its
    append-only transaction history, and what each account operation does to
    them. Amounts are whole cents, so the arithmetic is exact. */
module Ledger {

  /** What a history record says happened. ATM_Interface.java keeps this as
      the record's type string; TypeName gives that string. */
  datatype Kind = Deposit | Withdrawal | TransferTo(recipient: string)

  /** One immutable record of the transaction history. */
  datatype Transaction = Transaction(kind: Kind, amount: int)

  /** The balance and history of one account. */
  datatype State = State(balance: int, history: seq<Transaction>)

  /** The type string ATM_Interface.java stores in a record. */
  function TypeName(k: Kind): string {
    match k
    case Deposit => "Deposit"
    case Withdrawal => "Withdrawal"
    case TransferTo(n) => "Transfer to " + n
  }

  /** Distinct kinds give distinct type strings, so the string history the
      Java code keeps determines every record's kind and counterparty. */
  lemma TypeNameInjective(a: Kind, b: Kind)
    requires TypeName(a) == TypeName(b)
    ensures a == b
  {
    match a
    case Deposit =>
      assert TypeName(b)[0] == 'D' && |TypeName(b)| == 7;
    case Withdrawal =>
      assert TypeName(b)[0] == 'W';
    case TransferTo(n) =>
      assert TypeName(b)[0] == 'T';
      assert n == TypeName(a)[12..] == TypeName(b)[12..];
  }

  /** The effect of one record on the balance: deposits add, withdrawals
      and outgoing transfers subtract. */
  function Signed(t: Transaction): int {
    if t.kind.Deposit? then t.amount else -t.amount
  }

  /** The net sum of a history, accumulated in chronological order. */
  function Net(h: seq<Transaction>): int {
    if h == [] then 0 else Net(h[..|h| - 1]) + Signed(h[|h| - 1])
  }

  /** The ledger invariant: every recorded amount is positive, the balance
      equals the net sum of the history, and the balance is never negative. */
  predicate Consistent(s: State) {
    && s.balance >= 0
    && s.balance == Net(s.history)
    && forall i :: 0 <= i < |s.history| ==> s.history[i].amount > 0
  }

  /** A newly opened account: balance 0, empty history. */
  const Opened := State(0, [])

  /** The guard shared by withdraw and transfer. */
  predicate CanDebit(s: State, amount: int) {
    0 < amount <= s.balance
  }

  function AfterDeposit(s: State, amount: int): State {
    if amount > 0 then State(s.balance + amount, s.history + [Transaction(Deposit, amount)])
    else s
  }

  function AfterWithdraw(s: State, amount: int): State {
    if CanDebit(s, amount) then State(s.balance - amount, s.history + [Transaction(Withdrawal, amount)])
    else s
  }

  /** The debited side of a transfer to a distinct recipient numbered `to`. */
  function AfterTransferOut(s: State, to: string, amount: int): State {
    if CanDebit(s, amount) then State(s.balance - amount, s.history + [Transaction(TransferTo(to), amount)])
    else s
  }

  /** A transfer between two distinct accounts: the guard is checked on the
      debited account only, and the recipient is credited through its deposit. */
  function AfterTransfer(src: State, dst: State, to: string, amount: int): (State, State) {
    if CanDebit(src, amount) then (AfterTransferOut(src, to, amount), AfterDeposit(dst, amount))
    else (src, dst)
  }

  /** A transfer whose recipient is the debited account itself, numbered
      `own`: the debit, then the deposit into the same account, then the
      account's own transfer record, in the order the Java code runs them. */
  function AfterSelfTransfer(s: State, own: string, amount: int): State {
    if CanDebit(s, amount) then
      var credited := AfterDeposit(s.(balance := s.balance - amount), amount);
      credited.(history := credited.history + [Transaction(TransferTo(own), amount)])
    else s
  }

  /** Deposit keeps the ledger invariant, only appends to the history, and
      leaves no trace exactly when the amount is not positive. */
  lemma DepositKeepsLedger(s: State, amount: int)
    requires Consistent(s)
    ensures var r := AfterDeposit(s, amount);
      && Consistent(r)
      && s.history <= r.history
      && (r == s <==> amount <= 0)
  {
  }

  /** Withdraw keeps the ledger invariant (so the balance never goes
      negative), only appends, and changes nothing exactly when
      `0 < amount <= balance` fails. */
  lemma WithdrawKeepsLedger(s: State, amount: int)
    requires Consistent(s)
    ensures var r := AfterWithdraw(s, amount);
      && Consistent(r)
      && s.history <= r.history
      && (r == s <==> !CanDebit(s, amount))
  {
  }

  lemma TransferOutKeepsLedger(s: State, to: string, amount: int)
    requires Consistent(s)
    ensures var r := AfterTransferOut(s, to, amount);
      && Consistent(r)
      && s.history <= r.history
      && (r == s <==> !CanDebit(s, amount))
  {
  }

  /** A transfer between distinct accounts keeps both ledgers consistent,
      moves money without creating or destroying any, only appends to both
      histories, and either changes both accounts or neither. */
  lemma TransferKeepsLedgers(src: State, dst: State, to: string, amount: int)
    requires Consistent(src) && Consistent(dst)
    ensures var (src', dst') := AfterTransfer(src, dst, to, amount);
      && Consistent(src') && Consistent(dst')
      && src'.balance + dst'.balance == src.balance + dst.balance
      && src.history <= src'.history && dst.history <= dst'.history
      && (src' == src <==> dst' == dst)
      && (src' == src <==> !CanDebit(src, amount))
  {
  }

  /** A self-transfer leaves the balance where it was, keeps the invariant,
      and on success appends a Deposit record followed by a Transfer record. */
  lemma SelfTransferKeepsLedger(s: State, own: string, amount: int)
    requires Consistent(s)
    ensures var r := AfterSelfTransfer(s, own, amount);
      && Consistent(r)
      && r.balance == s.balance
      && (CanDebit(s, amount) ==>
            r.history == s.history + [Transaction(Deposit, amount), Transaction(TransferTo(own), amount)])
      && (!CanDebit(s, amount) ==> r == s)
  {
  }

  /** One call made on an account, as seen from that account. A transfer
      into this account from another is a DepositCall (the debited account
      credits the recipient through its deposit). */
  datatype Call =
    | DepositCall(amount: int)
    | WithdrawCall(amount: int)
    | TransferCall(to: string, amount: int)
    | SelfTransferCall(amount: int)

  function Step(s: State, own: string, c: Call): State {
    match c
    case DepositCall(a) => AfterDeposit(s, a)
    case WithdrawCall(a) => AfterWithdraw(s, a)
    case TransferCall(to, a) => AfterTransferOut(s, to, a)
    case SelfTransferCall(a) => AfterSelfTransfer(s, own, a)
  }

  /** The state after a sequence of calls, applied in order. */
  function Run(s: State, own: string, calls: seq<Call>): State
    decreases |calls|
  {
    if calls == [] then s else Run(Step(s, own, calls[0]), own, calls[1..])
  }

  /** After any sequence of calls the ledger invariant still holds (the
      balance is the net sum of the history and never negative) and the
      history has only grown at its end. */
  lemma {:induction false} RunKeepsLedger(s: State, own: string, calls: seq<Call>)
    requires Consistent(s)
    ensures Consistent(Run(s, own, calls))
    ensures s.history <= Run(s, own, calls).history
    decreases |calls|
  {
    if calls != [] {
      var next := Step(s, own, calls[0]);
      match calls[0] {
        case DepositCall(a) => DepositKeepsLedger(s, a);
        case WithdrawCall(a) => WithdrawKeepsLedger(s, a);
        case TransferCall(to, a) => TransferOutKeepsLedger(s, to, a);
        case SelfTransferCall(a) => SelfTransferKeepsLedger(s, own, a);
      }
      RunKeepsLedger(next, own, calls[1..]);
    }
  }
}
