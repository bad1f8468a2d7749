/** The program's handlers as state transitions of the in-memory ledger
    together with the accounts file: creation appends one record, a
    successful deposit or withdrawal rewrites the whole file, and a rejected
    command writes nothing. The file is None when it does not exist. */
module Session {

  import opened Optional
  import opened Ledger
  import opened AccountFile

  datatype Bank = Bank(accounts: seq<Account>, file: Option<seq<string>>)

  /** A handler's resulting state and its report. */
  datatype Reply = Reply(bank: Bank, status: Status)

  /** The file holds exactly the records of the ledger. */
  predicate InSync(b: Bank, c: HeaderCodec)
  {
    b.file == Some(SaveAll(b.accounts, c))
  }

  /** The file mirrors the ledger: it is in sync, or it was never written and
      the ledger is still empty. */
  predicate Mirrors(b: Bank, c: HeaderCodec)
  {
    InSync(b, c) || (b.file.None? && b.accounts == [])
  }

  /** Start of `menu`: an empty ledger filled from the file, if any. */
  function Startup(file: Option<seq<string>>, c: HeaderCodec): (b: Bank)
    ensures b.file == file
    ensures file.None? ==> b.accounts == [] && Mirrors(b, c)
    ensures file.Some? ==> b.accounts == Decode(file.value, c)
    ensures StorableLedger(b.accounts)
  {
    var loaded := LoadAccountFromFile([], file, c);
    assert loaded.accounts[0..] == loaded.accounts;
    Bank(loaded.accounts, file)
  }

  /** Every line the handlers log is storable, whatever the clock reads. */
  lemma LoggedLinesStorable(amount: int, now: string, balanceText: string)
    ensures Storable(DepositLine(amount, now))
    ensures Storable(WithdrawalLine(amount, now))
    ensures Storable(CreationLine(now, balanceText))
    ensures '\n' !in now ==> '\n' !in DepositLine(amount, now) && '\n' !in WithdrawalLine(amount, now)
    ensures '\n' !in now && '\n' !in balanceText ==> '\n' !in CreationLine(now, balanceText)
  {
  }

  /** An update that changes at most one account, by appending one storable
      line to its log, keeps a storable ledger storable. */
  lemma UpdateKeepsStorable(before: seq<Account>, after: seq<Account>, i: int, line: string)
    requires Storable(line)
    requires |after| == |before| && 0 <= i < |before|
    requires after[i].transactions == before[i].transactions + [line]
    requires forall j :: 0 <= j < |before| && j != i ==> after[j] == before[j]
    ensures StorableLedger(before) ==> StorableLedger(after)
  {
  }

  /** `createAccount` with its `saveAccountToFile`: the ledger gains the new
      account and the file gains its record. */
  function CreateAccountCmd(b: Bank, c: HeaderCodec, name: string, age: int, password: string,
                            initialBalance: real, random: nat, now: string, balanceText: string): (r: Bank)
    ensures r.accounts == CreateAccount(b.accounts, name, age, password, initialBalance, random, now, balanceText)
    ensures r.file.Some?
    ensures b.file.Some? ==> |b.file.value| < |r.file.value| && r.file.value[..|b.file.value|] == b.file.value
    ensures b.file.Some? ==> r.file.value[|b.file.value|..] == Record(r.accounts[|b.accounts|], c)
    ensures b.file.None? ==> r.file.value == Record(r.accounts[|b.accounts|], c)
    ensures Mirrors(b, c) ==> InSync(r, c)
    ensures StorableLedger(b.accounts) ==> StorableLedger(r.accounts)
  {
    var accounts := CreateAccount(b.accounts, name, age, password, initialBalance, random, now, balanceText);
    var acc := accounts[|b.accounts|];
    assert accounts == b.accounts + [acc];
    AppendEqualsRewrite(b.accounts, acc, c);
    LoggedLinesStorable(0, now, balanceText);
    Bank(accounts, Some(AppendRecord(b.file, acc, c)))
  }

  /** `deposit`: on success the ledger is updated and the file rewritten from it. */
  function DepositCmd(b: Bank, c: HeaderCodec, name: string, accountNumber: int, amount: int, now: string): (r: Reply)
    ensures r.status == Deposit(b.accounts, name, accountNumber, amount, now).status
    ensures r.status == Done <==> HasMatch(b.accounts, name, accountNumber)
    ensures r.bank.accounts == Deposit(b.accounts, name, accountNumber, amount, now).accounts
    ensures r.status == Done ==> InSync(r.bank, c)
    ensures r.status != Done ==> r.bank == b
    ensures Mirrors(b, c) ==> Mirrors(r.bank, c)
    ensures StorableLedger(b.accounts) ==> StorableLedger(r.bank.accounts)
  {
    var o := Deposit(b.accounts, name, accountNumber, amount, now);
    if o.status == Done then
      var i := Find(b.accounts, name, accountNumber).value;
      LoggedLinesStorable(amount, now, "");
      UpdateKeepsStorable(b.accounts, o.accounts, i, DepositLine(amount, now));
      Reply(Bank(o.accounts, Some(SaveAll(o.accounts, c))), Done)
    else
      Reply(b, o.status)
  }

  /** `withdraw`: on acceptance the ledger is updated and the file rewritten
      from it; a rejection changes neither. */
  function WithdrawCmd(b: Bank, c: HeaderCodec, name: string, accountNumber: int, amount: int, now: string): (r: Reply)
    ensures r.status == Withdraw(b.accounts, name, accountNumber, amount, now).status
    ensures r.bank.accounts == Withdraw(b.accounts, name, accountNumber, amount, now).accounts
    ensures r.status == Done ==> InSync(r.bank, c)
    ensures r.status != Done ==> r.bank == b
    ensures Mirrors(b, c) ==> Mirrors(r.bank, c)
    ensures StorableLedger(b.accounts) ==> StorableLedger(r.bank.accounts)
  {
    var o := Withdraw(b.accounts, name, accountNumber, amount, now);
    if o.status == Done then
      var i := Find(b.accounts, name, accountNumber).value;
      LoggedLinesStorable(amount, now, "");
      UpdateKeepsStorable(b.accounts, o.accounts, i, WithdrawalLine(amount, now));
      Reply(Bank(o.accounts, Some(SaveAll(o.accounts, c))), Done)
    else
      Reply(b, o.status)
  }

  /** While the file mirrors a storable ledger, restarting the program loads
      that ledger back with its headers as re-read, and exactly that ledger
      when every header reads back as itself. */
  lemma MirroredLedgerReloads(b: Bank, c: HeaderCodec)
    requires AllReadable(b.accounts, c)
    requires Mirrors(b, c) && StorableLedger(b.accounts)
    ensures Startup(b.file, c).accounts == RereadAll(b.accounts, c)
    ensures AllExact(b.accounts, c) ==> Startup(b.file, c).accounts == b.accounts
  {
    if b.file.Some? {
      LoadSaved([], b.accounts, c);
    }
  }

  /** Starting from a file that the program wrote itself gives back its
      ledger, headers as re-read; when every header reads back as itself the
      file then mirrors the ledger. */
  lemma StartupOfSavedFile(accounts: seq<Account>, c: HeaderCodec)
    requires AllReadable(accounts, c)
    requires StorableLedger(accounts)
    ensures Startup(Some(SaveAll(accounts, c)), c).accounts == RereadAll(accounts, c)
    ensures AllExact(accounts, c) ==>
      var b := Startup(Some(SaveAll(accounts, c)), c);
      b.accounts == accounts && Mirrors(b, c)
  {
    LoadSaved([], accounts, c);
  }
}
