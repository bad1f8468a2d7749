/** The accounts file, seen as a sequence of lines. A record is one header
    line, the account's transaction lines, and the separator line "---".
    The header's text is abstract: a `HeaderCodec` says how a header is
    written and how a line is read back as one, so that the framing can be
    reasoned about apart from number formatting. */
module AccountFile {

  import opened Optional
  import opened Ledger

  /** The line that closes every record. */
  const Separator: string := "---"

  /** The five whitespace-separated fields of a header line. */
  datatype Header = Header(name: string, age: int, password: string, accountNumber: int, balance: real)

  /** `format` writes a header line; `parse` is the `>>` extraction of the five
      fields from one line, None when they do not parse. */
  datatype HeaderCodec = HeaderCodec(format: Header -> string, parse: string -> Option<Header>)

  /** Whether a record or the file is present, and the ledger after loading. */
  datatype Loaded = Loaded(found: bool, accounts: seq<Account>)

  function HeaderOf(acc: Account): Header
  {
    Header(acc.name, acc.age, acc.password, acc.accountNumber, acc.balance)
  }

  function FromHeader(h: Header, transactions: seq<string>): Account
  {
    Account(h.name, h.age, h.password, h.accountNumber, h.balance, transactions)
  }

  /** The characters `>>` skips before a field (C's `isspace`). */
  predicate IsSpace(ch: char)
  {
    ch == ' ' || ch == '\t' || ch == '\n' || ch == '\r' || ch == '\U{000B}' || ch == '\U{000C}'
  }

  predicate IsBlank(line: string)
  {
    forall k :: 0 <= k < |line| ==> IsSpace(line[k])
  }

  /** A transaction line that survives a save and a load: the loader drops
      empty lines and ends the record at the separator. */
  predicate Storable(line: string)
  {
    line != "" && line != Separator
  }

  predicate StorableAccount(acc: Account)
  {
    forall k :: 0 <= k < |acc.transactions| ==> Storable(acc.transactions[k])
  }

  predicate StorableLedger(accounts: seq<Account>)
  {
    forall i :: 0 <= i < |accounts| ==> StorableAccount(accounts[i])
  }

  /** The account's header is written as a non-blank line that reads back
      as some header (not necessarily the same one: the balance is written
      with limited precision). */
  predicate HeaderReadable(acc: Account, c: HeaderCodec)
  {
    !IsBlank(c.format(HeaderOf(acc))) && c.parse(c.format(HeaderOf(acc))).Some?
  }

  /** The account's header is written as a non-blank line that reads back
      as exactly that header. */
  predicate HeaderExact(acc: Account, c: HeaderCodec)
  {
    !IsBlank(c.format(HeaderOf(acc))) && c.parse(c.format(HeaderOf(acc))) == Some(HeaderOf(acc))
  }

  predicate AllReadable(accounts: seq<Account>, c: HeaderCodec)
  {
    forall i :: 0 <= i < |accounts| ==> HeaderReadable(accounts[i], c)
  }

  predicate AllExact(accounts: seq<Account>, c: HeaderCodec)
  {
    forall i :: 0 <= i < |accounts| ==> HeaderExact(accounts[i], c)
  }

  /** Every header the loader can produce is written back as a non-blank
      line that reads as the same header: re-reading a header that was
      itself read from text loses nothing more. */
  ghost predicate Canonical(c: HeaderCodec)
  {
    forall line :: c.parse(line).Some? ==>
      && !IsBlank(c.format(c.parse(line).value))
      && c.parse(c.format(c.parse(line).value)) == c.parse(line)
  }

  // ---------------------------------------------------------------------
  // Writing
  // ---------------------------------------------------------------------

  /** The lines written for one account by both writers. */
  function Record(acc: Account, c: HeaderCodec): seq<string>
  {
    [c.format(HeaderOf(acc))] + acc.transactions + [Separator]
  }

  /** `saveAllAccountsToFile`: the file's new content, every record in ledger order. */
  function SaveAll(accounts: seq<Account>, c: HeaderCodec): seq<string>
  {
    if |accounts| == 0 then [] else Record(accounts[0], c) + SaveAll(accounts[1..], c)
  }

  /** `saveAccountToFile`: the file opened for appending, created when missing,
      with one record added at its end. */
  function AppendRecord(file: Option<seq<string>>, acc: Account, c: HeaderCodec): seq<string>
  {
    match file
    case None => Record(acc, c)
    case Some(lines) => lines + Record(acc, c)
  }

  lemma {:induction false} SaveAllConcat(a: seq<Account>, b: seq<Account>, c: HeaderCodec)
    ensures SaveAll(a + b, c) == SaveAll(a, c) + SaveAll(b, c)
  {
    if |a| == 0 {
      assert a + b == b;
    } else {
      assert (a + b)[0] == a[0];
      assert (a + b)[1..] == a[1..] + b;
      SaveAllConcat(a[1..], b, c);
    }
  }

  /** Appending one record to a fully rewritten file, or to a missing file,
      gives the same lines as rewriting the extended ledger. */
  lemma AppendEqualsRewrite(accounts: seq<Account>, acc: Account, c: HeaderCodec)
    ensures AppendRecord(Some(SaveAll(accounts, c)), acc, c) == SaveAll(accounts + [acc], c)
    ensures AppendRecord(None, acc, c) == SaveAll([acc], c)
  {
    SaveAllConcat(accounts, [acc], c);
    assert SaveAll([acc], c) == Record(acc, c) + SaveAll([], c);
  }

  // ---------------------------------------------------------------------
  // Reading
  // ---------------------------------------------------------------------

  /** The inner `getline` loop of `loadAccountFromFile`: the transaction lines
      up to the separator or the end of the file, empty ones dropped, and the
      lines after the separator. */
  function ReadBody(lines: seq<string>): (r: (seq<string>, seq<string>))
    ensures |r.1| <= |lines| && r.1 == lines[|lines| - |r.1|..]
    ensures forall k :: 0 <= k < |r.0| ==> Storable(r.0[k])
  {
    if |lines| == 0 then ([], [])
    else if lines[0] == Separator then ([], lines[1..])
    else
      var rest := ReadBody(lines[1..]);
      if lines[0] == "" then rest else ([lines[0]] + rest.0, rest.1)
  }

  /** The outer loop of `loadAccountFromFile`: blank lines before a header are
      skipped, a header that does not parse ends the load, and each parsed
      header is followed by its body. */
  function Decode(lines: seq<string>, c: HeaderCodec): (r: seq<Account>)
    ensures |r| <= |lines|
    ensures StorableLedger(r)
    decreases |lines|
  {
    if |lines| == 0 then []
    else if IsBlank(lines[0]) then Decode(lines[1..], c)
    else
      match c.parse(lines[0])
      case None => []
      case Some(h) =>
        var body := ReadBody(lines[1..]);
        [FromHeader(h, body.0)] + Decode(body.1, c)
  }

  /** `loadAccountFromFile`: the decoded accounts appended to the given ledger,
      or, when the file does not exist, `false` and the ledger unchanged. */
  function LoadAccountFromFile(accounts: seq<Account>, file: Option<seq<string>>, c: HeaderCodec): (r: Loaded)
    ensures r.found <==> file.Some?
    ensures |accounts| <= |r.accounts| && r.accounts[..|accounts|] == accounts
    ensures !r.found ==> r.accounts == accounts
    ensures r.found ==> |r.accounts| <= |accounts| + |file.value|
    ensures StorableLedger(r.accounts[|accounts|..])
  {
    match file
    case None => Loaded(false, accounts)
    case Some(lines) =>
      var added := Decode(lines, c);
      assert (accounts + added)[|accounts|..] == added;
      Loaded(true, accounts + added)
  }

  // ---------------------------------------------------------------------
  // Round trip
  // ---------------------------------------------------------------------

  /** An account as it comes back from the file: its header as re-read. */
  function Reread(acc: Account, c: HeaderCodec): Account
    requires HeaderReadable(acc, c)
  {
    FromHeader(c.parse(c.format(HeaderOf(acc))).value, acc.transactions)
  }

  /** The ledger as it comes back from the file: only headers may change. */
  function RereadAll(accounts: seq<Account>, c: HeaderCodec): (r: seq<Account>)
    requires AllReadable(accounts, c)
    ensures |r| == |accounts|
    ensures forall i :: 0 <= i < |r| ==> r[i].transactions == accounts[i].transactions
  {
    if |accounts| == 0 then [] else [Reread(accounts[0], c)] + RereadAll(accounts[1..], c)
  }

  /** When every header reads back as itself, nothing changes on re-reading. */
  lemma {:induction false} RereadExact(accounts: seq<Account>, c: HeaderCodec)
    requires AllExact(accounts, c)
    ensures AllReadable(accounts, c) && RereadAll(accounts, c) == accounts
  {
    if |accounts| > 0 {
      RereadExact(accounts[1..], c);
    }
  }

  /** A body of storable lines closed by the separator reads back exactly. */
  lemma {:induction false} ReadBodyOfRecord(transactions: seq<string>, rest: seq<string>)
    requires forall k :: 0 <= k < |transactions| ==> Storable(transactions[k])
    ensures ReadBody(transactions + [Separator] + rest) == (transactions, rest)
  {
    if |transactions| == 0 {
      assert transactions + [Separator] + rest == [Separator] + rest;
    } else {
      var lines := transactions + [Separator] + rest;
      assert lines[0] == transactions[0] && Storable(lines[0]);
      assert lines[1..] == transactions[1..] + [Separator] + rest;
      ReadBodyOfRecord(transactions[1..], rest);
      assert [transactions[0]] + transactions[1..] == transactions;
    }
  }

  /** An empty line inside a record body is dropped wherever it stands. */
  lemma {:induction false} EmptyLineDropped(before: seq<string>, after: seq<string>)
    requires forall k :: 0 <= k < |before| ==> before[k] != Separator
    ensures ReadBody(before + [""] + after) == ReadBody(before + after)
  {
    if |before| == 0 {
      assert before + [""] + after == [""] + after;
      assert before + after == after;
    } else {
      assert (before + [""] + after)[1..] == before[1..] + [""] + after;
      assert (before + after)[1..] == before[1..] + after;
      EmptyLineDropped(before[1..], after);
    }
  }

  /** Blank lines where a header is expected are skipped. */
  lemma {:induction false} BlankLinesSkipped(blanks: seq<string>, lines: seq<string>, c: HeaderCodec)
    requires forall k :: 0 <= k < |blanks| ==> IsBlank(blanks[k])
    ensures Decode(blanks + lines, c) == Decode(lines, c)
  {
    if |blanks| > 0 {
      assert (blanks + lines)[1..] == blanks[1..] + lines;
      BlankLinesSkipped(blanks[1..], lines, c);
    } else {
      assert blanks + lines == lines;
    }
  }

  /** One record, followed by anything, loads as its account (header as
      re-read) and then whatever follows loads as. */
  lemma DecodeRecord(acc: Account, tail: seq<string>, c: HeaderCodec)
    requires HeaderReadable(acc, c)
    requires StorableAccount(acc)
    ensures Decode(Record(acc, c) + tail, c) == [Reread(acc, c)] + Decode(tail, c)
  {
    var lines := Record(acc, c) + tail;
    assert lines[0] == c.format(HeaderOf(acc));
    assert lines[1..] == acc.transactions + [Separator] + tail;
    ReadBodyOfRecord(acc.transactions, tail);
  }

  /** Reading a rewritten file, followed by anything, gives back the ledger
      (headers as re-read) and then whatever the rest decodes to. */
  lemma {:induction false} DecodeSaveAll(accounts: seq<Account>, more: seq<string>, c: HeaderCodec)
    requires AllReadable(accounts, c)
    requires StorableLedger(accounts)
    ensures Decode(SaveAll(accounts, c) + more, c) == RereadAll(accounts, c) + Decode(more, c)
  {
    if |accounts| == 0 {
      assert SaveAll(accounts, c) + more == more;
    } else {
      var tail := SaveAll(accounts[1..], c) + more;
      assert StorableAccount(accounts[0]);
      assert StorableLedger(accounts[1..]);
      assert HeaderReadable(accounts[0], c) && AllReadable(accounts[1..], c);
      calc {
        Decode(SaveAll(accounts, c) + more, c);
        { assert SaveAll(accounts, c) + more == Record(accounts[0], c) + tail; }
        Decode(Record(accounts[0], c) + tail, c);
        { DecodeRecord(accounts[0], tail, c); }
        [Reread(accounts[0], c)] + Decode(tail, c);
        { DecodeSaveAll(accounts[1..], more, c); }
        [Reread(accounts[0], c)] + (RereadAll(accounts[1..], c) + Decode(more, c));
        RereadAll(accounts, c) + Decode(more, c);
      }
    }
  }

  /** The framing round trip: a rewritten file reads back as the ledger, with
      headers as re-read, exactly when no transaction line is empty or "---". */
  lemma RoundTrip(accounts: seq<Account>, c: HeaderCodec)
    requires AllReadable(accounts, c)
    ensures Decode(SaveAll(accounts, c), c) == RereadAll(accounts, c) <==> StorableLedger(accounts)
  {
    if StorableLedger(accounts) {
      DecodeSaveAll(accounts, [], c);
      assert SaveAll(accounts, c) + [] == SaveAll(accounts, c);
    }
    if Decode(SaveAll(accounts, c), c) == RereadAll(accounts, c) {
      var r := RereadAll(accounts, c);
      assert forall i :: 0 <= i < |accounts| ==> StorableAccount(r[i]);
    }
  }

  /** When every header reads back as itself, the ledger comes back
      unchanged, exactly when its transaction lines are storable. */
  lemma ExactRoundTrip(accounts: seq<Account>, c: HeaderCodec)
    requires AllExact(accounts, c)
    ensures Decode(SaveAll(accounts, c), c) == accounts <==> StorableLedger(accounts)
  {
    RereadExact(accounts, c);
    RoundTrip(accounts, c);
  }

  /** Loading a rewritten file appends the saved ledger, headers as re-read,
      to what was already loaded; unchanged when every header reads back as
      itself. */
  lemma LoadSaved(loaded: seq<Account>, accounts: seq<Account>, c: HeaderCodec)
    requires AllReadable(accounts, c)
    requires StorableLedger(accounts)
    ensures LoadAccountFromFile(loaded, Some(SaveAll(accounts, c)), c) == Loaded(true, loaded + RereadAll(accounts, c))
    ensures AllExact(accounts, c) ==>
      LoadAccountFromFile(loaded, Some(SaveAll(accounts, c)), c) == Loaded(true, loaded + accounts)
  {
    RoundTrip(accounts, c);
    if AllExact(accounts, c) {
      RereadExact(accounts, c);
    }
  }

  /** Under a canonical codec, every header the loader produced reads back as
      itself. */
  lemma {:induction false} DecodedHeadersExact(lines: seq<string>, c: HeaderCodec)
    requires Canonical(c)
    ensures AllExact(Decode(lines, c), c)
    decreases |lines|
  {
    if |lines| > 0 {
      if IsBlank(lines[0]) {
        DecodedHeadersExact(lines[1..], c);
      } else if c.parse(lines[0]).Some? {
        var h := c.parse(lines[0]).value;
        var body := ReadBody(lines[1..]);
        DecodedHeadersExact(body.1, c);
        assert HeaderOf(FromHeader(h, body.0)) == h;
        assert HeaderExact(FromHeader(h, body.0), c);
        var r := Decode(lines, c);
        assert r == [FromHeader(h, body.0)] + Decode(body.1, c);
        assert forall i :: 1 <= i < |r| ==> r[i] == Decode(body.1, c)[i - 1];
      }
    }
  }

  /** Saving what was loaded and loading again gives the same ledger, for
      any file, under a canonical codec. */
  lemma ReloadIsStable(lines: seq<string>, c: HeaderCodec)
    requires Canonical(c)
    ensures Decode(SaveAll(Decode(lines, c), c), c) == Decode(lines, c)
  {
    DecodedHeadersExact(lines, c);
    ExactRoundTrip(Decode(lines, c), c);
  }

  /** A codec whose every header is written as one fixed line, read back as
      one fixed header: it shows that `Canonical` can be met together with
      every header being readable. */
  function FixedCodec(h0: Header): HeaderCodec
  {
    HeaderCodec(h => "h", line => if line == "h" then Some(h0) else None)
  }

  lemma FixedCodecIsCanonical(h0: Header, accounts: seq<Account>)
    ensures Canonical(FixedCodec(h0)) && AllReadable(accounts, FixedCodec(h0))
  {
    assert !IsBlank("h") by { assert !IsSpace("h"[0]); }
  }

  /** A non-blank line that does not parse as a header ends the load: the
      records before it are kept and nothing after it is read. */
  lemma LoadStopsAtBadHeader(accounts: seq<Account>, bad: string, rest: seq<string>, c: HeaderCodec)
    requires AllReadable(accounts, c)
    requires StorableLedger(accounts)
    requires !IsBlank(bad) && c.parse(bad).None?
    ensures Decode(SaveAll(accounts, c) + [bad] + rest, c) == RereadAll(accounts, c)
  {
    assert SaveAll(accounts, c) + [bad] + rest == SaveAll(accounts, c) + ([bad] + rest);
    DecodeSaveAll(accounts, [bad] + rest, c);
  }
}
