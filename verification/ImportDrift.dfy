/** A run of two imports after which the balance column of an account is wrong. */
module ImportDrift {
  import opened Common
  import opened ImportLedger
  import opened ImportRuns

  /** The balance table that an upsert of the lines leaves. */
  ghost function Upserted(before: map<AccountKey, Balance>, lines: seq<JournalLine>): map<AccountKey, Balance> {
    map key | key in before.Keys + set l | l in lines :: AccountKey(l.companyId, l.accountId) ::
      if Touched(lines, key) then UpsertBalance(Lookup(before, key), AccountTotals(lines, key)) else before[key]
  }

  ghost function StateAfter(s: State, call: Call): State {
    var company, f := call.companyId, call.files;
    var (accountIds, nextAccountId) := WithAccounts(s.tables.accountIds, s.nextAccountId, company, f.accounts);
    var (batchIds, nextBatchId) := WithBatches(s.tables.batchIds, s.nextBatchId, company, f.transactions);
    var added := LinesOf(company, f.entries, batchIds, accountIds);
    State(Tables(accountIds, batchIds, s.tables.lines + added, Upserted(s.tables.balances, added),
                 s.tables.imports[HashKey(company, f.hash) := s.nextImportId]),
          nextAccountId, nextBatchId, s.nextImportId + 1)
  }

  lemma ImportLeads(s: State, call: Call)
    requires Fresh(ImportOutcome(s, call.companyId, call.files, call.openDates))
    ensures Performs(s, StateAfter(s, call), call, ImportOutcome(s, call.companyId, call.files, call.openDates))
  {
    hide ImportOutcome, WithAccounts, WithBatches, LinesOf;
    var added := StateAfter(s, call).tables.lines[|s.tables.lines|..];
    forall key: AccountKey | Touched(added, key)
      ensures key in set l | l in added :: AccountKey(l.companyId, l.accountId)
    {
      var l :| l in added && l.companyId == key.companyId && l.accountId == key.accountId;
      assert key == AccountKey(l.companyId, l.accountId);
    }
  }

  /** Accounts A and B, one transaction that debits A and credits B. */
  function TransferFiles(id: nat, cents: int, hash: string): Files {
    Files([AccountRow("A", None, true), AccountRow("B", None, true)], [Transaction(id, "2026-01-01")],
          [Entry(id, "A", true, cents), Entry(id, "B", false, cents)], hash)
  }

  function TransferCall(id: nat, cents: int, hash: string): Call {
    Call(1, TransferFiles(id, cents, hash), {"2026-01-01"})
  }

  lemma TransferIsWellFormed(id: nat, cents: int, hash: string)
    ensures WellFormed(TransferFiles(id, cents, hash))
    ensures PeriodsOpen(TransferFiles(id, cents, hash), {"2026-01-01"})
  {
    var f := TransferFiles(id, cents, hash);
    assert f.accounts[0] in f.accounts && f.accounts[1] in f.accounts && f.transactions[0] in f.transactions;
    assert f.entries[..1] == [f.entries[0]] && f.entries[..1][..0] == [];
    assert TransactionTotals(f.entries[..1], id) == Amounts(cents, 0);
  }

  lemma OneLineTotals(l: JournalLine, key: AccountKey)
    ensures AccountTotals([l], key) == (
      if l.companyId == key.companyId && l.accountId == key.accountId
      then Amounts(l.debit, l.credit) else Amounts(0, 0))
  {
    assert [l][..0] == [];
  }

  /** What a transfer between the accounts 1 and 2 adds to account 1. */
  lemma TransferLines(id: nat, cents: int, hash: string, batchIds: map<DocKey, nat>, accountIds: map<CodeKey, nat>)
    requires DocKey(1, id) in batchIds
    requires CodeKey(1, "A") in accountIds && accountIds[CodeKey(1, "A")] == 1
    requires CodeKey(1, "B") in accountIds && accountIds[CodeKey(1, "B")] == 2
    ensures var lines := LinesOf(1, TransferFiles(id, cents, hash).entries, batchIds, accountIds);
      Touched(lines, AccountKey(1, 1)) && AccountTotals(lines, AccountKey(1, 1)) == Amounts(cents, 0)
  {
    var entries := TransferFiles(id, cents, hash).entries;
    var batch := batchIds[DocKey(1, id)];
    var a, b := JournalLine(batch, 1, 1, cents, 0), JournalLine(batch, 1, 2, 0, cents);
    LinesAppend(1, [], entries[0], batchIds, accountIds);
    LinesAppend(1, [entries[0]], entries[1], batchIds, accountIds);
    assert [] + [entries[0]] == [entries[0]] && [entries[0]] + [entries[1]] == entries;
    assert LinesOf(1, entries, batchIds, accountIds) == [a] + [b];
    OneLineTotals(a, AccountKey(1, 1));
    OneLineTotals(b, AccountKey(1, 1));
    TotalsAppend([a], [b], AccountKey(1, 1));
    assert ([a] + [b])[0] in [a] + [b];
    hide LinesOf, AccountTotals;
  }

  lemma TransferBatch(ids: map<DocKey, nat>, next: nat, id: nat, cents: int, hash: string)
    ensures WithBatches(ids, next, 1, TransferFiles(id, cents, hash).transactions).0 == ids[DocKey(1, id) := next]
  {
    assert TransferFiles(id, cents, hash).transactions[1..] == [];
  }

  lemma TransferAccounts(ids: map<CodeKey, nat>, next: nat)
    requires (ids == map[] && next == 1) || ids == map[CodeKey(1, "A") := 1, CodeKey(1, "B") := 2]
    ensures WithAccounts(ids, next, 1, TransferFiles(1, 0, "").accounts).0 ==
      map[CodeKey(1, "A") := 1, CodeKey(1, "B") := 2]
  {
    var accounts := TransferFiles(1, 0, "").accounts;
    assert accounts[1..][0] == accounts[1] && accounts[1..][1..] == [];
    var ids1 := if CodeKey(1, "A") in ids then ids else ids[CodeKey(1, "A") := next];
    var next1 := if CodeKey(1, "A") in ids then next else next + 1;
    assert WithAccounts(ids, next, 1, accounts) == WithAccounts(ids1, next1, 1, accounts[1..]);
  }

  const FRESH_STATE := State(Tables(map[], map[], [], map[], map[]), 1, 1, 1)

  /** One transfer of the run below, on top of a state whose row for account 1 is `row`. */
  lemma TransferCommits(s: State, id: nat, cents: int, hash: string, row: Option<Balance>)
    requires cents > 0 && DocKey(1, id) !in s.tables.batchIds && HashKey(1, hash) !in s.tables.imports
    requires
      || (s.tables.accountIds == map[] && s.nextAccountId == 1)
      || s.tables.accountIds == map[CodeKey(1, "A") := 1, CodeKey(1, "B") := 2]
    requires Lookup(s.tables.balances, AccountKey(1, 1)) == row
    ensures var call := TransferCall(id, cents, hash);
      var outcome, s' := ImportOutcome(s, 1, call.files, call.openDates), StateAfter(s, call);
      && Fresh(outcome) && Performs(s, s', call, outcome)
      && s'.tables.accountIds == map[CodeKey(1, "A") := 1, CodeKey(1, "B") := 2]
      && s'.tables.batchIds == s.tables.batchIds[DocKey(1, id) := s.nextBatchId]
      && s'.tables.imports == s.tables.imports[HashKey(1, hash) := s.nextImportId]
      && Lookup(s'.tables.balances, AccountKey(1, 1)) == Some(UpsertBalance(row, Amounts(cents, 0)))
  {
    var call := TransferCall(id, cents, hash);
    TransferIsWellFormed(id, cents, hash);
    assert ImportOutcome(s, 1, call.files, call.openDates) == Success(Imported(s.nextImportId, 2));
    ImportLeads(s, call);
    assert call.files.accounts == TransferFiles(1, 0, "").accounts;
    TransferAccounts(s.tables.accountIds, s.nextAccountId);
    var batchIds := StateAfter(s, call).tables.batchIds;
    TransferBatch(s.tables.batchIds, s.nextBatchId, id, cents, hash);
    assert batchIds == s.tables.batchIds[DocKey(1, id) := s.nextBatchId];
    TransferLines(id, cents, hash, batchIds, map[CodeKey(1, "A") := 1, CodeKey(1, "B") := 2]);
    hide ImportOutcome, WellFormed, WithAccounts, WithBatches, LinesOf;
  }

  /** Two imports from empty tables, of transfers of 100.00 and 50.00, after which the first
      account's row has totals 150.00 and 0.00 and a balance of 200.00. */
  lemma SecondImportBreaksBalance() returns (states: seq<State>, calls: seq<Call>, outcomes: seq<Outcome>)
    ensures IsRun(states, calls, outcomes) && |calls| == 2 && Fresh(outcomes[0]) && Fresh(outcomes[1])
    ensures Lookup(states[2].tables.balances, AccountKey(1, 1)) == Some(Balance(15000, 0, 20000))
  {
    hide ImportOutcome, Performs, StateAfter, TransferCall;
    var a, b := TransferCall(1, 10000, "first"), TransferCall(2, 5000, "second");
    TransferCommits(FRESH_STATE, 1, 10000, "first", None);
    var s1 := StateAfter(FRESH_STATE, a);
    TransferCommits(s1, 2, 5000, "second", Some(Balance(10000, 0, 10000)));
    states, calls := [FRESH_STATE, s1, StateAfter(s1, b)], [a, b];
    outcomes := [ImportOutcome(FRESH_STATE, 1, a.files, a.openDates), ImportOutcome(s1, 1, b.files, b.openDates)];
  }
}
