# Bank account ledger — Dafny model

A model of the console banking program in `main.cpp`: an in-memory ledger of
accounts (name, age, password, account number, balance, transaction log),
looked up by name and account number, changed by deposits, withdrawals and
account creation, and persisted to a flat text file. Each record in the file is
a header line, the account's transaction lines, and the separator line `---`.

The model has four modules:

- `Optional` (`optional.dfy`): the `Option` type.
- `Ledger` (`ledger.dfy`): the `Account` record and the ledger operations.
  `Find` returns the index of the first matching account, or None, and
  `History` returns its transaction log, or None. `CreateAccount` returns the
  ledger with the new account appended. `Deposit` and `Withdraw` map the old
  ledger (a `seq<Account>`) to the new one. They also return a `Status` that
  stands for the console message: `Done`, `AccountNotFound`, `InvalidAmount`
  or `InsufficientFunds`.
- `AccountFile` (`account_file.dfy`): the file as a sequence of lines.
  `Record`/`SaveAll`/`AppendRecord` are the two writers. `ReadBody`/`Decode`/`LoadAccountFromFile`
  are the loader. The header line's text is abstract: a `HeaderCodec` holds a
  `format` function that writes the five fields and a `parse` function that
  reads them back (the `>>` extraction). A header need not read back as
  itself, because the balance is written with limited precision. So the
  framing facts are stated for a ledger whose headers are each written as a
  non-blank line that parses (`AllReadable`), and the accounts come back with
  their headers as re-read (`RereadAll`). The ledger comes back unchanged for
  a ledger whose headers each read back as themselves (`AllExact`).
- `Session` (`session.dfy`): each handler is its ledger update plus the file
  write it performs. Creation appends one record. An accepted deposit or
  withdrawal rewrites the whole file. A rejected command writes nothing. The
  invariant `Mirrors` says the file holds exactly the ledger's records (or was
  never written and the ledger is empty). Every handler keeps it. Under it, a
  restart reloads the ledger with its headers as re-read, and the same ledger
  when its headers read back as themselves.

Inputs that the program takes from the environment are parameters:

- the current time (`now`), which stands for `getCurrentTime`;
- the value of `rand()` (`random`);
- the `to_string` text of the initial balance (`balanceText`);
- the file content: `None` when the file does not exist.

Two behaviours of the code worth knowing:

- A withdrawal has no positivity check. Any multiple of 500 that the balance
  covers is accepted, including 0 and negative multiples. Withdrawing -500
  raises the balance by 500.
- `rand() % 90000 + 10000` ranges over [10000, 99999], both ends included.

## Model

| member | source | states |
|---|---|---|
| Ledger.Find | main.cpp:102-112 | returns the first index whose name and account number both equal the key (no earlier index matches); returns None exactly when no account has the key |
| Ledger.FindDependsOnlyOnKeys | main.cpp:104-110 | the lookup result depends only on the names and account numbers, so changing balances or logs never changes which account a key finds |
| Ledger.FindAfterAppend | main.cpp:104-111 | after appending an account, a key finds the old match if there was one, else the new account if it has that key, else nothing |
| Ledger.Deposit | main.cpp:150-165 | found: the first matching account's balance becomes old + amount for any sign of amount, exactly one deposit line is appended, and its identity fields and every other account are unchanged; not found: status AccountNotFound and the ledger is unchanged |
| Ledger.CppRemZeroIff | main.cpp:185 | C++'s truncating `%` leaves remainder 0 exactly when Dafny's Euclidean `%` does, for negative amounts too |
| Ledger.CppRem | main.cpp:185 | the truncating remainder: a minus it is a multiple of d, it lies strictly between -d and d, and it has the sign of the dividend (which together determine it) |
| Ledger.Withdraw | main.cpp:180-206 | on the first matching account: InvalidAmount iff amount % 500 != 0; InsufficientFunds iff it is a multiple but balance - amount < 0; Done iff a multiple (0 and negative multiples included) with balance - amount >= 0, and then the balance becomes old - amount (so >= 0) and one withdrawal line is appended; any rejection or a missing key leaves the whole ledger unchanged; other accounts never change |
| Ledger.History | main.cpp:219-231 | the transaction log of the first account with the key, in order; None exactly when no account has it |
| Ledger.GenerateAccountNumber | main.cpp:32-35 | the number drawn from any random value lies in [10000, 99999] |
| Ledger.GenerateAccountNumberOnto | main.cpp:34 | every number in [10000, 99999] is drawn by some random value, so the range is tight |
| Ledger.CreateAccount | main.cpp:127-133 | the new account is appended at the end with the given name, age, password and balance, the number drawn from the random value (so a five-digit number) and exactly one creation line; the earlier accounts are unchanged |
| Ledger.DepositExtendsHistory | main.cpp:155-156 | after a deposit the key's history is the old history plus exactly the deposit line; an unknown key stays unknown |
| Ledger.WithdrawExtendsHistory | main.cpp:189-196 | after an accepted withdrawal the key's history gains exactly the withdrawal line; after a rejection it is unchanged |
| Ledger.CreatedAccountLookup | main.cpp:127-132 | the new account is found by its key only if no older account has the same name and number; otherwise the older one keeps being found, because numbers are not checked for uniqueness |
| Ledger.ExampleSession | main.cpp:115-231 | create with 1000, deposit 200 gives 1200 with 2 log lines, withdrawing 300 is rejected as not a multiple, withdrawing 500 gives 700 with 3 log lines, withdrawing 1000 is rejected for insufficient funds, and an unknown name is not found |
| AccountFile.SaveAllConcat | main.cpp:59-67 | rewriting a ledger that is split in two gives the rewrite of the first part followed by the rewrite of the second |
| AccountFile.AppendEqualsRewrite | main.cpp:38-69 | appending one record to a rewritten file gives the same lines as rewriting the extended ledger; appending to a missing file gives that account's rewrite |
| AccountFile.ReadBody | main.cpp:88-94 | reads a suffix-leaving prefix of the lines; every transaction line it keeps is non-empty and not `---` |
| AccountFile.Decode | main.cpp:85-96 | loads no more accounts than there are lines, and every loaded transaction line is non-empty and not `---` |
| AccountFile.LoadAccountFromFile | main.cpp:77-99 | a missing file returns false and leaves the ledger unchanged; an existing one returns true and only appends accounts, whose transaction lines are all non-empty and not `---` |
| AccountFile.RereadAll | main.cpp:85-95 | reading the ledger back changes at most the header fields: the number of accounts and every transaction log are kept |
| AccountFile.ReadBodyOfRecord | main.cpp:62-66 | a body of non-empty, non-`---` lines followed by `---` reads back as exactly those lines, and reading resumes right after the separator |
| AccountFile.EmptyLineDropped | main.cpp:90-93 | an empty line anywhere inside a record body is dropped |
| AccountFile.BlankLinesSkipped | main.cpp:85 | blank lines where a header is expected are skipped |
| AccountFile.DecodeRecord | main.cpp:85-95 | one written record followed by any lines loads as that account, with its header as re-read and its transactions exact, and loading then continues right after its separator |
| AccountFile.DecodeSaveAll | main.cpp:54-96 | a rewritten file followed by any lines loads as the ledger (headers as re-read) followed by what those lines load as |
| AccountFile.RoundTrip | main.cpp:54-96 | for a ledger whose headers are written as readable lines, a rewritten file loads back as the ledger, with headers as re-read, if and only if no transaction line is empty or `---` |
| AccountFile.ExactRoundTrip | main.cpp:54-96 | for a ledger whose headers each read back as themselves, a rewritten file loads back as the same ledger if and only if no transaction line is empty or `---` |
| AccountFile.LoadSaved | main.cpp:77-99 | loading a rewritten file returns true and appends the saved ledger, headers as re-read, to the accounts given; exactly the saved ledger when its headers read back as themselves |
| AccountFile.DecodedHeadersExact | main.cpp:85 | under a canonical codec, every header the loader produced is written back as a line that reads as the same header |
| AccountFile.ReloadIsStable | main.cpp:54-96 | under a canonical codec (a header that was read from text reads back as itself), loading any file, rewriting it and loading again gives the same accounts as the first load; the program's own header text is not canonical (see Left out) |
| AccountFile.LoadStopsAtBadHeader | main.cpp:85 | a non-blank line that does not parse as a header ends the load: the records before it are kept and nothing after it is read |
| Session.Startup | main.cpp:237-238 | the program starts with exactly the accounts the file decodes to, and with none (the file mirroring that) when the file is missing; they all have storable logs |
| Session.LoggedLinesStorable | main.cpp:130-196 | the creation, deposit and withdrawal lines are never empty and never `---`, whatever the time and amount; they contain no newline when the time text and balance text contain none |
| Session.CreateAccountCmd | main.cpp:127-133 | the ledger gains the new account; the file keeps its old lines and gains exactly the new account's record (or is created holding only it); a mirrored file stays in sync |
| Session.DepositCmd | main.cpp:150-161 | reports the ledger deposit's status (AccountNotFound on failure) and succeeds iff the key exists; on success the file is rewritten to exactly the updated ledger; otherwise nothing changes |
| Session.WithdrawCmd | main.cpp:180-201 | on acceptance the file is rewritten to exactly the updated ledger; on any rejection neither ledger nor file changes |
| Session.MirroredLedgerReloads | main.cpp:237-238 | while the file mirrors a storable ledger with readable headers, a restart loads that ledger with headers as re-read, and exactly that ledger when its headers read back as themselves |
| Session.StartupOfSavedFile | main.cpp:237-238 | starting from a file the program wrote gives back its ledger with headers as re-read; when its headers read back as themselves, exactly that ledger, with the file mirroring it |

## Left out

- File I/O: opening, truncating and closing the file, and the
  "Error saving accounts to file." branch, are not modelled. A write is
  assumed to succeed, and the file is a sequence of lines.
- Header text: the characters of the header line are not modelled. This covers
  the decimal formatting of `age` and `accountNumber`, the six-significant-digit
  output of the `double` balance, and the `>>` tokenisation. A `HeaderCodec`
  stands for them. The real text does not round-trip the balance exactly, so the
  exact round trip is claimed only for a ledger whose headers read back as
  themselves (`AllExact`). Otherwise accounts come back with their headers as
  re-read.
- AccountFile.Decode: a header is assumed to occupy one whole line. `>>` can
  also read fields across several lines, and it leaves any text after the fifth
  field for the first `getline`, which would then become a transaction line.
  Neither case is modelled.
- AccountFile.Storable: each transaction line is assumed to hold no newline.
  The program writes a line with an embedded newline as two lines, and
  `getline` reads it back as two, which one sequence element cannot show. The
  program's logged lines contain no newline when the time text and the
  balance text contain none (`Session.LoggedLinesStorable`). `strftime` with
  the format used and `to_string` never produce one.
- AccountFile.ReloadIsStable: the program's own `<<`/`>>` header text is not
  `Canonical`. `>>` reads a balance of 1234567 exactly, but `<<` writes it
  with six significant digits as `1.23457e+06`, which reads back as 1234570.
  So in the program, loading, saving and loading again can change such a
  balance, and the lemma holds only for codecs that are canonical.
- Ledger.Account: `balance` is an exact `real`. The program stores a `double`
  and rounds. `age`, `accountNumber` and the deposit and withdrawal amounts are
  unbounded integers, while the program reads them into 32-bit `int`s.
- Ledger.GenerateAccountNumberOnto: this assumes `rand()` can reach 89999.
  Where `RAND_MAX` is 32767 the numbers actually drawn lie in [10000, 42767].
- Clock and randomness: `getCurrentTime` and `rand`/`srand` are foreign and
  nondeterministic. The time, the random value and the `to_string` text of the
  initial balance are parameters.
- Console: all prompts and messages are left out. The `Status` stands for the
  message shown.
- The `menu` loop (main.cpp:235-288) is left out. It only dispatches on input,
  and its exit rule (`y`/`Y`) has nothing to prove.
- Password: the password is stored and written but never checked, so the model
  only carries it.
