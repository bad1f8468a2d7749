/** The in-memory ledger of the bank program: the accounts, their lookup by
    (name, account number), and the deposit, withdrawal, history and
    account-creation updates. Every update is a pure function from the old
    ledger to the new one; the console prompts around them are not modelled. */
module Ledger {

  import opened Optional

  /** One bank account. `balance` is exact here (the program stores a double). */
  datatype Account = Account(
    name: string,
    age: int,
    password: string,
    accountNumber: int,
    balance: real,
    transactions: seq<string>)

  /** What a command reports: success, or the reason it changed nothing. */
  datatype Status = Done | AccountNotFound | InvalidAmount | InsufficientFunds

  /** The ledger after a command, and what the command reported. */
  datatype Outcome = Outcome(accounts: seq<Account>, status: Status)

  /** Withdrawals must be a multiple of this amount. */
  const WithdrawalUnit: int := 500

  // ---------------------------------------------------------------------
  // Lookup
  // ---------------------------------------------------------------------

  /** The lookup key: exact name and exact account number. */
  predicate Matches(acc: Account, name: string, accountNumber: int)
  {
    acc.name == name && acc.accountNumber == accountNumber
  }

  predicate HasMatch(accounts: seq<Account>, name: string, accountNumber: int)
  {
    exists i :: 0 <= i < |accounts| && Matches(accounts[i], name, accountNumber)
  }

  /** `i` is the earliest position holding the key. */
  predicate IsFirstMatch(accounts: seq<Account>, name: string, accountNumber: int, i: int)
  {
    && 0 <= i < |accounts|
    && Matches(accounts[i], name, accountNumber)
    && forall j :: 0 <= j < i ==> !Matches(accounts[j], name, accountNumber)
  }

  /** The linear scan of `findAccount`: the index of the first account with
      the key, or None. Duplicates are possible; the first one wins. */
  function Find(accounts: seq<Account>, name: string, accountNumber: int): (r: Option<nat>)
    ensures r.Some? ==> IsFirstMatch(accounts, name, accountNumber, r.value)
    ensures r.None? <==> !HasMatch(accounts, name, accountNumber)
  {
    if |accounts| == 0 then None
    else if Matches(accounts[0], name, accountNumber) then Some(0)
    else
      match Find(accounts[1..], name, accountNumber)
      case None =>
        assert forall i :: 1 <= i < |accounts| ==> accounts[i] == accounts[1..][i - 1];
        None
      case Some(i) => Some(i + 1)
  }

  /** Two ledgers with the same keys position by position. */
  predicate SameKeys(a: seq<Account>, b: seq<Account>)
  {
    && |a| == |b|
    && forall i :: 0 <= i < |a| ==> a[i].name == b[i].name && a[i].accountNumber == b[i].accountNumber
  }

  /** Lookup sees only names and account numbers, so an update of balances
      and transactions never redirects a later lookup. */
  lemma FindDependsOnlyOnKeys(a: seq<Account>, b: seq<Account>, name: string, accountNumber: int)
    requires SameKeys(a, b)
    ensures Find(a, name, accountNumber) == Find(b, name, accountNumber)
  {
  }

  /** Appending an account finds it only when no earlier account has its key. */
  lemma {:induction false} FindAfterAppend(a: seq<Account>, x: Account, name: string, accountNumber: int)
    ensures Find(a + [x], name, accountNumber) ==
      if HasMatch(a, name, accountNumber) then Find(a, name, accountNumber)
      else if Matches(x, name, accountNumber) then Some(|a|)
      else None
  {
    if |a| > 0 {
      assert (a + [x])[1..] == a[1..] + [x];
      FindAfterAppend(a[1..], x, name, accountNumber);
    }
  }

  // ---------------------------------------------------------------------
  // Transaction lines
  // ---------------------------------------------------------------------

  function DigitChar(d: nat): char
    requires d < 10
  {
    "0123456789"[d]
  }

  /** Decimal digits of a natural number. */
  function NatToString(n: nat): (s: string)
    ensures |s| > 0
    ensures forall k :: 0 <= k < |s| ==> '0' <= s[k] <= '9'
    decreases n
  {
    if n < 10 then [DigitChar(n)] else NatToString(n / 10) + [DigitChar(n % 10)]
  }

  /** Decimal text of an integer, as `to_string(int)` writes it. */
  function IntToString(i: int): (s: string)
    ensures forall k :: 0 <= k < |s| ==> s[k] == '-' || '0' <= s[k] <= '9'
  {
    if i < 0 then "-" + NatToString(-i) else NatToString(i)
  }

  function DepositLine(amount: int, now: string): string
  {
    "Deposited: " + IntToString(amount) + " on: " + now
  }

  function WithdrawalLine(amount: int, now: string): string
  {
    "Withdrew: " + IntToString(amount) + " on: " + now
  }

  /** `balanceText` is the program's `to_string` of the initial balance. */
  function CreationLine(now: string, balanceText: string): string
  {
    "Account created on: " + now + " with initial balance: " + balanceText
  }

  // ---------------------------------------------------------------------
  // Updates
  // ---------------------------------------------------------------------

  /** Name, age, password and account number are the same. */
  predicate SameIdentity(a: Account, b: Account)
  {
    a.name == b.name && a.age == b.age && a.password == b.password && a.accountNumber == b.accountNumber
  }

  /** `deposit`: adds `amount` to the first matching account, whatever its sign,
      and logs one line; a missing account changes nothing. */
  function Deposit(accounts: seq<Account>, name: string, accountNumber: int, amount: int, now: string): (r: Outcome)
    ensures |r.accounts| == |accounts|
    ensures r.status == Done <==> HasMatch(accounts, name, accountNumber)
    ensures r.status != Done ==> r.status == AccountNotFound && r.accounts == accounts
    ensures forall i | IsFirstMatch(accounts, name, accountNumber, i) ::
      && SameIdentity(r.accounts[i], accounts[i])
      && r.accounts[i].balance == accounts[i].balance + amount as real
      && r.accounts[i].transactions == accounts[i].transactions + [DepositLine(amount, now)]
    ensures forall i | 0 <= i < |accounts| && !IsFirstMatch(accounts, name, accountNumber, i) ::
      r.accounts[i] == accounts[i]
  {
    match Find(accounts, name, accountNumber)
    case None => Outcome(accounts, AccountNotFound)
    case Some(i) =>
      var acc := accounts[i];
      var updated := acc.(balance := acc.balance + amount as real,
                          transactions := acc.transactions + [DepositLine(amount, now)]);
      Outcome(accounts[i := updated], Done)
  }

  /** The remainder of C++'s `%` on `int`: it truncates toward zero, so the
      result takes the sign of the dividend. */
  function CppRem(a: int, d: int): (r: int)
    requires d > 0
    ensures -d < r < d
    ensures (a - r) % d == 0
    ensures a >= 0 ==> r >= 0
    ensures a < 0 ==> r <= 0
  {
    if a >= 0 then
      EuclideanUnique(a - a % d, d, a / d, 0);
      a % d
    else
      EuclideanUnique(a + (-a) % d, d, -((-a) / d), 0);
      -((-a) % d)
  }

  /** C++'s truncating remainder and Dafny's Euclidean one agree on whether
      the divisor goes in exactly, for negative dividends too. */
  lemma CppRemZeroIff(a: int, d: int)
    requires d > 0
    ensures CppRem(a, d) == 0 <==> a % d == 0
  {
    if a < 0 {
      if (-a) % d == 0 {
        var q := (-a) / d;
        assert a == d * (-q) + 0;
        EuclideanUnique(a, d, -q, 0);
      }
      if a % d == 0 {
        var q := a / d;
        assert -a == d * (-q) + 0;
        EuclideanUnique(-a, d, -q, 0);
      }
    }
  }

  /** Quotient and remainder with `0 <= r < d` are unique. */
  lemma EuclideanUnique(a: int, d: int, q: int, r: int)
    requires d > 0 && 0 <= r < d && a == d * q + r
    ensures a % d == r
  {
    var q', r' := a / d, a % d;
    assert a == d * q' + r';
    var k := q - q';
    assert d * k == r' - r;
    ProductBounds(d, k);
  }

  lemma ProductBounds(d: int, k: int)
    requires d > 0
    ensures k >= 1 ==> d * k >= d
    ensures k <= -1 ==> d * k <= -d
  {
  }

  /** `withdraw`: rejects an amount that is not a multiple of 500, then one
      that would take the balance below zero; otherwise subtracts it and logs
      one line. Zero and negative multiples of 500 pass both checks. */
  function Withdraw(accounts: seq<Account>, name: string, accountNumber: int, amount: int, now: string): (r: Outcome)
    ensures |r.accounts| == |accounts|
    ensures r.status == AccountNotFound <==> !HasMatch(accounts, name, accountNumber)
    ensures r.status != Done ==> r.accounts == accounts
    ensures forall i | IsFirstMatch(accounts, name, accountNumber, i) ::
      && (r.status == InvalidAmount <==> amount % WithdrawalUnit != 0)
      && (r.status == InsufficientFunds <==>
            amount % WithdrawalUnit == 0 && accounts[i].balance - amount as real < 0.0)
      && (r.status == Done <==>
            amount % WithdrawalUnit == 0 && accounts[i].balance - amount as real >= 0.0)
    ensures forall i | IsFirstMatch(accounts, name, accountNumber, i) && r.status == Done ::
      && SameIdentity(r.accounts[i], accounts[i])
      && r.accounts[i].balance == accounts[i].balance - amount as real
      && r.accounts[i].balance >= 0.0
      && r.accounts[i].transactions == accounts[i].transactions + [WithdrawalLine(amount, now)]
    ensures forall i | 0 <= i < |accounts| && !IsFirstMatch(accounts, name, accountNumber, i) ::
      r.accounts[i] == accounts[i]
  {
    CppRemZeroIff(amount, WithdrawalUnit);
    match Find(accounts, name, accountNumber)
    case None => Outcome(accounts, AccountNotFound)
    case Some(i) =>
      var acc := accounts[i];
      if CppRem(amount, WithdrawalUnit) != 0 then Outcome(accounts, InvalidAmount)
      else if acc.balance - amount as real < 0.0 then Outcome(accounts, InsufficientFunds)
      else
        var updated := acc.(balance := acc.balance - amount as real,
                            transactions := acc.transactions + [WithdrawalLine(amount, now)]);
        Outcome(accounts[i := updated], Done)
  }

  /** `viewTransactionHistory`: the log of the first matching account, read only. */
  function History(accounts: seq<Account>, name: string, accountNumber: int): (r: Option<seq<string>>)
    ensures r.None? <==> !HasMatch(accounts, name, accountNumber)
    ensures forall i | IsFirstMatch(accounts, name, accountNumber, i) :: r == Some(accounts[i].transactions)
  {
    match Find(accounts, name, accountNumber)
    case None => None
    case Some(i) => Some(accounts[i].transactions)
  }

  /** `generateAccountNumber`, with the value of `rand()` passed in. */
  function GenerateAccountNumber(random: nat): (n: int)
    ensures 10000 <= n <= 99999
  {
    random % 90000 + 10000
  }

  /** Every five-digit number can be drawn, so the range above is tight. */
  lemma GenerateAccountNumberOnto(n: int)
    requires 10000 <= n <= 99999
    ensures GenerateAccountNumber(n - 10000) == n
  {
  }

  /** The account built by `createAccount` from the user's answers. */
  function NewAccount(name: string, age: int, password: string, initialBalance: real,
                      random: nat, now: string, balanceText: string): Account
  {
    Account(name, age, password, GenerateAccountNumber(random), initialBalance,
            [CreationLine(now, balanceText)])
  }

  /** `createAccount`: appends the new account at the end; no check that its
      number is not already taken. */
  function CreateAccount(accounts: seq<Account>, name: string, age: int, password: string,
                         initialBalance: real, random: nat, now: string, balanceText: string): (r: seq<Account>)
    ensures |r| == |accounts| + 1
    ensures r[..|accounts|] == accounts
    ensures r[|accounts|].name == name && r[|accounts|].age == age && r[|accounts|].password == password
    ensures r[|accounts|].balance == initialBalance
    ensures r[|accounts|].accountNumber == GenerateAccountNumber(random)
    ensures 10000 <= r[|accounts|].accountNumber <= 99999
    ensures r[|accounts|].transactions == [CreationLine(now, balanceText)]
  {
    accounts + [NewAccount(name, age, password, initialBalance, random, now, balanceText)]
  }

  // ---------------------------------------------------------------------
  // Properties relating several operations
  // ---------------------------------------------------------------------

  /** After a deposit the history of the same key is the old one plus exactly
      the deposit line; a deposit to a missing key leaves it missing. */
  lemma DepositExtendsHistory(accounts: seq<Account>, name: string, accountNumber: int, amount: int, now: string)
    ensures var h := History(accounts, name, accountNumber);
            var h' := History(Deposit(accounts, name, accountNumber, amount, now).accounts, name, accountNumber);
            if h.Some? then h' == Some(h.value + [DepositLine(amount, now)]) else h' == None
  {
  }

  /** After a withdrawal the history of the same key gains the withdrawal line
      when it was accepted and is unchanged otherwise. */
  lemma WithdrawExtendsHistory(accounts: seq<Account>, name: string, accountNumber: int, amount: int, now: string)
    ensures var h := History(accounts, name, accountNumber);
            var r := Withdraw(accounts, name, accountNumber, amount, now);
            var h' := History(r.accounts, name, accountNumber);
            if r.status == Done then h.Some? && h' == Some(h.value + [WithdrawalLine(amount, now)]) else h' == h
  {
  }

  /** A new account is reachable by its key only if no older account already
      has that name and number; otherwise the older one keeps being found. */
  lemma CreatedAccountLookup(accounts: seq<Account>, name: string, age: int, password: string,
                             initialBalance: real, random: nat, now: string, balanceText: string)
    ensures var r := CreateAccount(accounts, name, age, password, initialBalance, random, now, balanceText);
            var n := GenerateAccountNumber(random);
            Find(r, name, n) == if HasMatch(accounts, name, n) then Find(accounts, name, n) else Some(|accounts|)
  {
  }

  /** A worked session: open an account with 1000, deposit 200, try to
      withdraw 300 (not a multiple of 500), withdraw 500, try to withdraw 1000
      (more than the balance), then look up a name that does not exist. */
  lemma ExampleSession(random: nat, t1: string, t2: string, t3: string, t4: string, t5: string, balanceText: string)
    ensures
      var l0 := CreateAccount([], "Alice", 30, "pw1", 1000.0, random, t1, balanceText);
      var n := l0[0].accountNumber;
      var d := Deposit(l0, "Alice", n, 200, t2);
      var w1 := Withdraw(d.accounts, "Alice", n, 300, t3);
      var w2 := Withdraw(w1.accounts, "Alice", n, 500, t4);
      var w3 := Withdraw(w2.accounts, "Alice", n, 1000, t5);
      && 10000 <= n <= 99999
      && d.status == Done && d.accounts[0].balance == 1200.0 && |d.accounts[0].transactions| == 2
      && w1.status == InvalidAmount && w1.accounts == d.accounts
      && w2.status == Done && w2.accounts[0].balance == 700.0 && |w2.accounts[0].transactions| == 3
      && w3.status == InsufficientFunds && w3.accounts == w2.accounts
      && History(w3.accounts, "Bob", n) == None
  {
  }
}
