/** Whole runs of the accounting import, started on an empty database. */
module ImportRuns {
  import opened Common
  import opened ImportLedger

  datatype Call = Call(companyId: nat, files: Files, openDates: set<string>)

  type Outcome = Result<ImportReply, ImportError>

  ghost predicate Performs(s: State, s': State, call: Call, outcome: Outcome) {
    Step(s, s', call.companyId, call.files, call.openDates, outcome)
  }

  ghost predicate IsRun(states: seq<State>, calls: seq<Call>, outcomes: seq<Outcome>) {
    && |states| == |calls| + 1 && |outcomes| == |calls|
    && states[0].tables == Tables(map[], map[], [], map[], map[])
    && forall i :: 0 <= i < |calls| ==> Performs(states[i], states[i + 1], calls[i], outcomes[i])
  }

  predicate Fresh(outcome: Outcome) { outcome.Success? && outcome.value.Imported? }

  // --------------------------------------------------------------- the journal

  /** The totals of the lines of one batch. */
  function BatchTotals(lines: seq<JournalLine>, id: nat): Amounts {
    if lines == [] then Amounts(0, 0)
    else
      var before := BatchTotals(lines[..|lines| - 1], id);
      var l := lines[|lines| - 1];
      if l.batchId == id then Amounts(before.debit + l.debit, before.credit + l.credit) else before
  }

  /** Debits minus credits of the whole journal. */
  function Net(lines: seq<JournalLine>): int {
    if lines == [] then 0
    else
      var l := lines[|lines| - 1];
      Net(lines[..|lines| - 1]) + l.debit - l.credit
  }

  function EntriesNet(entries: seq<Entry>): int {
    if entries == [] then 0
    else
      var e := entries[|entries| - 1];
      EntriesNet(entries[..|entries| - 1]) + DebitOf(e) - CreditOf(e)
  }

  /** The entries that do not belong to one transaction. */
  function Others(entries: seq<Entry>, id: nat): (r: seq<Entry>)
    ensures |r| <= |entries|
    ensures forall e <- r :: e in entries && e.transactionId != id
  {
    if entries == [] then []
    else
      var e := entries[|entries| - 1];
      var r := Others(entries[..|entries| - 1], id);
      if e.transactionId == id then r else r + [e]
  }

  ghost predicate EveryTransactionBalanced(entries: seq<Entry>) {
    forall id :: TransactionTotals(entries, id).debit == TransactionTotals(entries, id).credit
  }

  lemma {:induction false} BatchTotalsAppend(lines: seq<JournalLine>, more: seq<JournalLine>, id: nat)
    ensures var a, b := BatchTotals(lines, id), BatchTotals(more, id);
      BatchTotals(lines + more, id) == Amounts(a.debit + b.debit, a.credit + b.credit)
    decreases |more|
  {
    if more == [] {
      assert lines + more == lines;
    } else {
      BatchTotalsAppend(lines, more[..|more| - 1], id);
      assert (lines + more)[..|lines + more| - 1] == lines + more[..|more| - 1];
    }
  }

  lemma {:induction false} NetAppend(lines: seq<JournalLine>, more: seq<JournalLine>)
    ensures Net(lines + more) == Net(lines) + Net(more)
    decreases |more|
  {
    if more == [] {
      assert lines + more == lines;
    } else {
      NetAppend(lines, more[..|more| - 1]);
      assert (lines + more)[..|lines + more| - 1] == lines + more[..|more| - 1];
    }
  }

  lemma {:induction false} AbsentBatch(lines: seq<JournalLine>, id: nat)
    requires forall l <- lines :: l.batchId != id
    ensures BatchTotals(lines, id) == Amounts(0, 0)
  {
    if lines != [] {
      assert lines[|lines| - 1] in lines && forall l <- lines[..|lines| - 1] :: l in lines;
      AbsentBatch(lines[..|lines| - 1], id);
    }
  }

  /** Taking one transaction out leaves the others' totals alone. */
  lemma {:induction false} OthersTotals(entries: seq<Entry>, id: nat, other: nat)
    requires other != id
    ensures TransactionTotals(Others(entries, id), other) == TransactionTotals(entries, other)
  {
    hide AddEntry;
    if entries != [] {
      var r, e := Others(entries[..|entries| - 1], id), entries[|entries| - 1];
      OthersTotals(entries[..|entries| - 1], id, other);
      assert (r + [e])[..|r|] == r;
    }
  }

  /** ... and removes its own from the sum. */
  lemma {:induction false} OthersNet(entries: seq<Entry>, id: nat)
    ensures EntriesNet(entries) ==
      EntriesNet(Others(entries, id)) + TransactionTotals(entries, id).debit - TransactionTotals(entries, id).credit
  {
    if entries != [] {
      var r, e := Others(entries[..|entries| - 1], id), entries[|entries| - 1];
      OthersNet(entries[..|entries| - 1], id);
      assert (r + [e])[..|r|] == r;
    }
  }

  lemma {:induction false} OthersShorter(entries: seq<Entry>, id: nat, i: nat)
    requires i < |entries| && entries[i].transactionId == id
    ensures |Others(entries, id)| < |entries|
  {
    if i < |entries| - 1 {
      OthersShorter(entries[..|entries| - 1], id, i);
    }
  }

  lemma NoEntriesNoNet()
    ensures EntriesNet([]) == 0
  {
  }

  /** Balanced transactions make a balanced file. */
  lemma {:induction false} BalancedTransactionsBalanceTheFile(entries: seq<Entry>)
    requires EveryTransactionBalanced(entries)
    ensures EntriesNet(entries) == 0
    decreases |entries|
  {
    hide EntriesNet, TransactionTotals, Others;
    if entries == [] {
      NoEntriesNoNet();
    } else {
      var id := entries[0].transactionId;
      var rest := Others(entries, id);
      OthersShorter(entries, id, 0);
      OthersNet(entries, id);
      forall other ensures TransactionTotals(rest, other).debit == TransactionTotals(rest, other).credit {
        if other == id {
          AbsentTransaction(rest, id);
        } else {
          OthersTotals(entries, id, other);
        }
      }
      BalancedTransactionsBalanceTheFile(rest);
    }
  }

  lemma WellFormedIsBalanced(f: Files)
    requires WellFormed(f)
    ensures EveryTransactionBalanced(f.entries)
  {
    forall id ensures TransactionTotals(f.entries, id).debit == TransactionTotals(f.entries, id).credit {
      if e :| e in f.entries && e.transactionId == id {
      } else {
        AbsentTransaction(f.entries, id);
      }
    }
  }

  ghost predicate Injective(ids: map<DocKey, nat>) {
    forall a, b :: a in ids && b in ids && ids[a] == ids[b] ==> a == b
  }

  lemma {:induction false} NetOfLines(companyId: nat, entries: seq<Entry>, batchIds: map<DocKey, nat>,
                                      accountIds: map<CodeKey, nat>)
    requires AllKnown(companyId, entries, batchIds, accountIds)
    ensures Net(LinesOf(companyId, entries, batchIds, accountIds)) == EntriesNet(entries)
  {
    if entries != [] {
      var init, e := entries[..|entries| - 1], entries[|entries| - 1];
      assert entries == init + [e];
      KnownAppend(companyId, init, e, batchIds, accountIds);
      NetOfLines(companyId, init, batchIds, accountIds);
      var lines := LinesOf(companyId, init, batchIds, accountIds);
      var line := LineOf(companyId, e, batchIds, accountIds).value;
      assert (lines + [line])[..|lines|] == lines;
    }
  }

  /** Each batch receives exactly the amounts of its own transaction. */
  lemma {:induction false} BatchReceivesItsTransaction(companyId: nat, entries: seq<Entry>, batchIds: map<DocKey,
                                                       nat>, accountIds: map<CodeKey, nat>, doc: DocKey)
    requires AllKnown(companyId, entries, batchIds, accountIds) && Injective(batchIds) && doc in batchIds
    ensures BatchTotals(LinesOf(companyId, entries, batchIds, accountIds), batchIds[doc]) ==
      if doc.companyId == companyId then TransactionTotals(entries, doc.docId) else Amounts(0, 0)
  {
    if entries != [] {
      var init, e := entries[..|entries| - 1], entries[|entries| - 1];
      assert entries == init + [e];
      KnownAppend(companyId, init, e, batchIds, accountIds);
      BatchReceivesItsTransaction(companyId, init, batchIds, accountIds, doc);
      var lines := LinesOf(companyId, init, batchIds, accountIds);
      var line := LineOf(companyId, e, batchIds, accountIds).value;
      assert (lines + [line])[..|lines|] == lines;
      assert line.batchId == batchIds[doc] <==> doc == DocKey(companyId, e.transactionId);
    }
  }

  /** New batches get identifiers no batch had before. */
  lemma {:induction false} BatchesAreNew(ids: map<DocKey, nat>, next: nat, companyId: nat,
                                         transactions: seq<Transaction>)
    requires Injective(ids) && forall key <- ids :: ids[key] < next
    requires DistinctIds(transactions) && forall x <- transactions :: DocKey(companyId, x.id) !in ids
    ensures var (ids', next') := WithBatches(ids, next, companyId, transactions);
      && Injective(ids') && (forall key <- ids' :: ids'[key] < next')
      && (forall key <- ids :: key in ids' && ids'[key] == ids[key])
      && (forall key <- ids' :: key !in ids ==> next <= ids'[key])
    decreases |transactions|
  {
    if transactions != [] {
      var key := DocKey(companyId, transactions[0].id);
      assert transactions[0] in transactions && forall x <- transactions[1..] :: x in transactions;
      forall x <- transactions[1..] ensures DocKey(companyId, x.id) !in ids[key := next] {
        var k :| 0 <= k < |transactions| - 1 && transactions[1..][k] == x;
        assert transactions[0].id != transactions[k + 1].id;
      }
      BatchesAreNew(ids[key := next], next + 1, companyId, transactions[1..]);
    }
  }

  /** Different accounts have different identifiers, all of them issued already. */
  ghost predicate AccountsDistinct(ids: map<CodeKey, nat>, next: nat) {
    && (forall a, b :: a in ids && b in ids && ids[a] == ids[b] ==> a == b)
    && (forall key <- ids :: ids[key] < next)
  }

  lemma {:induction false} UpsertKeepsAccountsDistinct(ids: map<CodeKey, nat>, next: nat, companyId: nat,
                                                       accounts: seq<AccountRow>)
    requires AccountsDistinct(ids, next)
    ensures var (ids', next') := WithAccounts(ids, next, companyId, accounts); AccountsDistinct(ids', next')
    decreases |accounts|
  {
    if accounts != [] {
      var key := CodeKey(companyId, accounts[0].code);
      if key in ids {
        UpsertKeepsAccountsDistinct(ids, next, companyId, accounts[1..]);
      } else {
        UpsertKeepsAccountsDistinct(ids[key := next], next + 1, companyId, accounts[1..]);
      }
    }
  }

  // ----------------------------------------------------------------- invariant

  ghost predicate BalancesAgree(t: Tables) {
    && (forall key :: key in t.balances <==> Touched(t.lines, key))
    && (forall key <- t.balances ::
          AccountTotals(t.lines, key) == Amounts(t.balances[key].debitTotal, t.balances[key].creditTotal))
  }

  ghost predicate IdsInOrder(s: State) {
    && Injective(s.tables.batchIds)
    && (forall doc <- s.tables.batchIds :: s.tables.batchIds[doc] < s.nextBatchId)
    && (forall l <- s.tables.lines :: l.batchId < s.nextBatchId)
  }

  ghost predicate BatchesBalanced(t: Tables) {
    forall doc <- t.batchIds ::
      BatchTotals(t.lines, t.batchIds[doc]).debit == BatchTotals(t.lines, t.batchIds[doc]).credit
  }

  ghost predicate Inv(s: State) {
    && BalancesAgree(s.tables) && IdsInOrder(s) && BatchesBalanced(s.tables) && Net(s.tables.lines) == 0
    && AccountsDistinct(s.tables.accountIds, s.nextAccountId)
  }

  /** The facts about the files that hold whenever an import goes through. */
  lemma ImportFacts(s: State, s': State, call: Call, outcome: Outcome) returns (added: seq<JournalLine>)
    requires Performs(s, s', call, outcome) && Fresh(outcome)
    ensures WellFormed(call.files) &&
      AllKnown(call.companyId, call.files.entries, s'.tables.batchIds, s'.tables.accountIds)
    ensures added == LinesOf(call.companyId, call.files.entries, s'.tables.batchIds, s'.tables.accountIds)
    ensures s'.tables.lines == s.tables.lines + added && |added| == |call.files.entries|
    ensures BalancesUpserted(s.tables.balances, s'.tables.balances, added)
  {
    WithAccountsFacts(s.tables.accountIds, s.nextAccountId, call.companyId, call.files.accounts);
    WithBatchesFacts(s.tables.batchIds, s.nextBatchId, call.companyId, call.files.transactions);
    EntriesKnown(call.companyId, call.files, s'.tables.batchIds, s'.tables.accountIds);
    LinesComplete(call.companyId, call.files.entries, s'.tables.batchIds, s'.tables.accountIds);
    added := LinesOf(call.companyId, call.files.entries, s'.tables.batchIds, s'.tables.accountIds);
  }

  lemma TouchedAppend(lines: seq<JournalLine>, more: seq<JournalLine>, key: AccountKey)
    ensures Touched(lines + more, key) <==> Touched(lines, key) || Touched(more, key)
  {
    assert forall l <- lines + more :: l in lines || l in more;
    assert forall l <- lines :: l in lines + more;
    assert forall l <- more :: l in lines + more;
  }

  /** Upserting the aggregates of the new lines keeps the totals those of the journal. */
  lemma UpsertKeepsAgreement(t: Tables, t': Tables, added: seq<JournalLine>)
    requires BalancesAgree(t) && t'.lines == t.lines + added && BalancesUpserted(t.balances, t'.balances, added)
    ensures BalancesAgree(t')
  {
    forall key: AccountKey ensures key in t'.balances <==> Touched(t'.lines, key) {
      TouchedAppend(t.lines, added, key);
    }
    forall key <- t'.balances
      ensures AccountTotals(t'.lines, key) == Amounts(t'.balances[key].debitTotal, t'.balances[key].creditTotal)
    {
      TotalsAppend(t.lines, added, key);
      if !Touched(added, key) {
        UntouchedTotals(added, key);
      }
      if key !in t.balances {
        UntouchedTotals(t.lines, key);
      }
    }
  }

  lemma {:induction false} LinesUseBatches(companyId: nat, entries: seq<Entry>, batchIds: map<DocKey, nat>,
                                           accountIds: map<CodeKey, nat>, next: nat)
    requires forall doc <- batchIds :: batchIds[doc] < next
    ensures forall l <- LinesOf(companyId, entries, batchIds, accountIds) :: l.batchId < next
  {
    if entries != [] {
      LinesUseBatches(companyId, entries[..|entries| - 1], batchIds, accountIds, next);
    }
  }

  lemma DocumentsAreNew(s: State, s': State, call: Call, outcome: Outcome)
    requires Performs(s, s', call, outcome) && Fresh(outcome)
    ensures DistinctIds(call.files.transactions)
    ensures forall x <- call.files.transactions :: DocKey(call.companyId, x.id) !in s.tables.batchIds
  {
  }

  lemma ImportKeepsBatches(s: State, s': State, call: Call, outcome: Outcome)
    requires Inv(s) && Performs(s, s', call, outcome) && Fresh(outcome)
    ensures IdsInOrder(s') && BatchesBalanced(s'.tables)
  {
    hide WellFormed, ImportOutcome, BalancesAgree, AllKnown, LinesOf, TransactionTotals, BatchTotals,
      EveryTransactionBalanced;
    var added := ImportFacts(s, s', call, outcome);
    DocumentsAreNew(s, s', call, outcome);
    BatchesAreNew(s.tables.batchIds, s.nextBatchId, call.companyId, call.files.transactions);
    WithBatchesFacts(s.tables.batchIds, s.nextBatchId, call.companyId, call.files.transactions);
    LinesUseBatches(call.companyId, call.files.entries, s'.tables.batchIds, s'.tables.accountIds, s'.nextBatchId);
    assert forall l <- s'.tables.lines :: l in s.tables.lines || l in added;
    WellFormedIsBalanced(call.files);
    forall doc <- s'.tables.batchIds
      ensures BatchTotals(s'.tables.lines, s'.tables.batchIds[doc]).debit ==
        BatchTotals(s'.tables.lines, s'.tables.batchIds[doc]).credit
    {
      var id := s'.tables.batchIds[doc];
      BatchTotalsAppend(s.tables.lines, added, id);
      BatchReceivesItsTransaction(call.companyId, call.files.entries, s'.tables.batchIds, s'.tables.accountIds, doc);
      if doc !in s.tables.batchIds {
        AbsentBatch(s.tables.lines, id);
      }
    }
  }

  lemma ImportKeepsNet(s: State, s': State, call: Call, outcome: Outcome)
    requires Performs(s, s', call, outcome) && Fresh(outcome)
    ensures Net(s'.tables.lines) == Net(s.tables.lines)
  {
    hide Performs, Net, WellFormed, AllKnown, LinesOf;
    var added := ImportFacts(s, s', call, outcome);
    NetAppend(s.tables.lines, added);
    NetOfLines(call.companyId, call.files.entries, s'.tables.batchIds, s'.tables.accountIds);
    WellFormedIsBalanced(call.files);
    BalancedTransactionsBalanceTheFile(call.files.entries);
  }

  lemma ImportKeepsBalances(s: State, s': State, call: Call, outcome: Outcome)
    requires BalancesAgree(s.tables) && Performs(s, s', call, outcome) && Fresh(outcome)
    ensures BalancesAgree(s'.tables)
  {
    hide Performs, BalancesAgree, WellFormed, AllKnown, LinesOf, BalancesUpserted;
    var added := ImportFacts(s, s', call, outcome);
    UpsertKeepsAgreement(s.tables, s'.tables, added);
  }

  lemma ImportKeepsAccounts(s: State, s': State, call: Call, outcome: Outcome)
    requires AccountsDistinct(s.tables.accountIds, s.nextAccountId) && Performs(s, s', call, outcome) && Fresh(outcome)
    ensures AccountsDistinct(s'.tables.accountIds, s'.nextAccountId)
  {
    hide AccountsDistinct, WithAccounts, WithBatches, BalancesUpserted, LinesOf, ImportOutcome;
    UpsertKeepsAccountsDistinct(s.tables.accountIds, s.nextAccountId, call.companyId, call.files.accounts);
  }

  lemma CallKeepsInv(s: State, s': State, call: Call, outcome: Outcome)
    requires Inv(s) && Performs(s, s', call, outcome)
    ensures Inv(s')
  {
    hide BalancesAgree, BatchesBalanced, Net, ImportOutcome, ImportedInto, AccountsDistinct;
    if Fresh(outcome) {
      ImportKeepsAccounts(s, s', call, outcome);
      ImportKeepsBalances(s, s', call, outcome);
      ImportKeepsBatches(s, s', call, outcome);
      ImportKeepsNet(s, s', call, outcome);
    } else {
      QuietCallKeeps(s, s');
    }
  }

  lemma QuietCallKeeps(s: State, s': State)
    requires Inv(s) && s'.tables == s.tables && CountersAdvance(s, s')
    ensures Inv(s')
  {
  }

  lemma {:induction false} RunKeepsInv(states: seq<State>, calls: seq<Call>, outcomes: seq<Outcome>, k: nat)
    requires IsRun(states, calls, outcomes) && k < |states|
    ensures Inv(states[k])
    decreases k
  {
    if k > 0 {
      RunKeepsInv(states, calls, outcomes, k - 1);
      assert Performs(states[k - 1], states[k - 1 + 1], calls[k - 1], outcomes[k - 1]);
      CallKeepsInv(states[k - 1], states[k], calls[k - 1], outcomes[k - 1]);
    }
  }

  // -------------------------------------------------------------- main results

  /** After any run, the balance table has a row for exactly the accounts with journal lines,
      and its totals are those of the lines. */
  lemma BalancesRefineJournal(states: seq<State>, calls: seq<Call>, outcomes: seq<Outcome>, k: nat, key: AccountKey)
    requires IsRun(states, calls, outcomes) && k < |states|
    ensures key in states[k].tables.balances <==> Touched(states[k].tables.lines, key)
    ensures key in states[k].tables.balances ==>
      AccountTotals(states[k].tables.lines, key)
        == Amounts(states[k].tables.balances[key].debitTotal, states[k].tables.balances[key].creditTotal)
  {
    RunKeepsInv(states, calls, outcomes, k);
  }

  /** An account code keeps its identifier for ever and shares it with no other, so no two
      accounts share a balance row. */
  lemma AccountsKeepTheirRows(states: seq<State>, calls: seq<Call>, outcomes: seq<Outcome>, i: nat, j: nat,
                              a: CodeKey, b: CodeKey)
    requires IsRun(states, calls, outcomes) && i <= j < |states|
    requires a in states[i].tables.accountIds && b in states[j].tables.accountIds
    ensures a in states[j].tables.accountIds && states[j].tables.accountIds[a] == states[i].tables.accountIds[a]
    ensures states[j].tables.accountIds[a] == states[j].tables.accountIds[b] <==> a == b
  {
    RunOnlyAdds(states, calls, outcomes, i, j);
    RunKeepsInv(states, calls, outcomes, j);
  }

  lemma EveryBatchBalances(states: seq<State>, calls: seq<Call>, outcomes: seq<Outcome>, k: nat, doc: DocKey)
    requires IsRun(states, calls, outcomes) && k < |states| && doc in states[k].tables.batchIds
    ensures var t := BatchTotals(states[k].tables.lines, states[k].tables.batchIds[doc]); t.debit == t.credit
  {
    RunKeepsInv(states, calls, outcomes, k);
  }

  ghost function Pick(keys: set<AccountKey>): (key: AccountKey)
    requires keys != {}
    ensures key in keys
  {
    var key :| key in keys; key
  }

  /** Debit totals minus credit totals over the rows of the balance table. */
  ghost function RowsNet(balances: map<AccountKey, Balance>, keys: set<AccountKey>): int
    requires keys <= balances.Keys
  {
    if keys == {} then 0
    else
      var key := Pick(keys);
      balances[key].debitTotal - balances[key].creditTotal + RowsNet(balances, keys - {key})
  }

  ghost function AccountsNet(lines: seq<JournalLine>, keys: set<AccountKey>): int {
    if keys == {} then 0
    else
      var key := Pick(keys);
      AccountTotals(lines, key).debit - AccountTotals(lines, key).credit + AccountsNet(lines, keys - {key})
  }

  lemma {:induction false} NoLinesNoNet(keys: set<AccountKey>)
    ensures AccountsNet([], keys) == 0
  {
    if keys != {} {
      NoLinesNoNet(keys - {Pick(keys)});
    }
  }

  lemma {:induction false} OneMoreLine(lines: seq<JournalLine>, l: JournalLine, keys: set<AccountKey>)
    ensures AccountsNet(lines + [l], keys) ==
      AccountsNet(lines, keys) + if AccountKey(l.companyId, l.accountId) in keys then l.debit - l.credit else 0
  {
    if keys != {} {
      var key := Pick(keys);
      OneMoreLine(lines, l, keys - {key});
      assert (lines + [l])[..|lines|] == lines;
      assert key == AccountKey(l.companyId, l.accountId) <==>
        l.companyId == key.companyId && l.accountId == key.accountId;
    }
  }

  /** The lines fall apart into the accounts they touch. */
  lemma {:induction false} AccountsPartitionLines(lines: seq<JournalLine>, keys: set<AccountKey>)
    requires forall l <- lines :: AccountKey(l.companyId, l.accountId) in keys
    ensures AccountsNet(lines, keys) == Net(lines)
  {
    if lines == [] {
      NoLinesNoNet(keys);
    } else {
      var init, l := lines[..|lines| - 1], lines[|lines| - 1];
      assert l in lines && forall m <- init :: m in lines;
      AccountsPartitionLines(init, keys);
      OneMoreLine(init, l, keys);
      assert lines == init + [l];
    }
  }

  lemma {:induction false} RowsFollowLines(t: Tables, keys: set<AccountKey>)
    requires BalancesAgree(t) && keys <= t.balances.Keys
    ensures RowsNet(t.balances, keys) == AccountsNet(t.lines, keys)
  {
    if keys != {} {
      RowsFollowLines(t, keys - {Pick(keys)});
    }
  }

  /** The trial balance is zero after any run: the debit totals of all balance rows add up to
      the same amount as their credit totals. */
  lemma TrialBalanceIsZero(states: seq<State>, calls: seq<Call>, outcomes: seq<Outcome>, k: nat)
    requires IsRun(states, calls, outcomes) && k < |states|
    ensures RowsNet(states[k].tables.balances, states[k].tables.balances.Keys) == 0
  {
    RunKeepsInv(states, calls, outcomes, k);
    var t := states[k].tables;
    forall l <- t.lines ensures AccountKey(l.companyId, l.accountId) in t.balances {
      assert Touched(t.lines, AccountKey(l.companyId, l.accountId));
    }
    RowsFollowLines(t, t.balances.Keys);
    AccountsPartitionLines(t.lines, t.balances.Keys);
  }

  /** Import hashes, batch documents and accounts are never forgotten. */
  lemma {:induction false} RunOnlyAdds(states: seq<State>, calls: seq<Call>, outcomes: seq<Outcome>, i: nat, j: nat)
    requires IsRun(states, calls, outcomes) && i <= j < |states|
    ensures forall hash <- states[i].tables.imports ::
      hash in states[j].tables.imports && states[j].tables.imports[hash] == states[i].tables.imports[hash]
    ensures forall doc <- states[i].tables.batchIds :: doc in states[j].tables.batchIds
    ensures forall key <- states[i].tables.accountIds ::
      key in states[j].tables.accountIds && states[j].tables.accountIds[key] == states[i].tables.accountIds[key]
    decreases j - i
  {
    if i < j {
      RunOnlyAdds(states, calls, outcomes, i, j - 1);
      var call := calls[j - 1];
      assert Performs(states[j - 1], states[j - 1 + 1], call, outcomes[j - 1]);
      WithBatchesFacts(states[j - 1].tables.batchIds, states[j - 1].nextBatchId, call.companyId,
        call.files.transactions);
      WithAccountsFacts(states[j - 1].tables.accountIds, states[j - 1].nextAccountId, call.companyId,
        call.files.accounts);
    }
  }

  /** Importing the same files again answers with the first import and adds nothing, however
      many other calls came between. */
  lemma ReimportAddsNothing(states: seq<State>, calls: seq<Call>, outcomes: seq<Outcome>, i: nat, j: nat)
    requires IsRun(states, calls, outcomes) && i < j < |calls|
    requires Fresh(outcomes[i]) && calls[j].files == calls[i].files && calls[j].companyId == calls[i].companyId
    requires PeriodsOpen(calls[j].files, calls[j].openDates)
    ensures outcomes[j] == Success(Duplicate(outcomes[i].value.importId))
    ensures states[j + 1].tables == states[j].tables
  {
    assert Performs(states[i], states[i + 1], calls[i], outcomes[i]);
    assert Performs(states[j], states[j + 1], calls[j], outcomes[j]);
    RunOnlyAdds(states, calls, outcomes, i + 1, j);
    assert HashKey(calls[i].companyId, calls[i].files.hash) in states[i + 1].tables.imports;
  }

  /** No transaction of a company is ever imported twice, even from different files. */
  lemma TransactionsImportedOnce(states: seq<State>, calls: seq<Call>, outcomes: seq<Outcome>, i: nat, j: nat, id: nat)
    requires IsRun(states, calls, outcomes) && i < j < |calls|
    requires Fresh(outcomes[i]) && Fresh(outcomes[j]) && calls[i].companyId == calls[j].companyId
    ensures !(HasTransaction(calls[i].files, id) && HasTransaction(calls[j].files, id))
  {
    if HasTransaction(calls[i].files, id) && HasTransaction(calls[j].files, id) {
      assert Performs(states[i], states[i + 1], calls[i], outcomes[i]);
      assert Performs(states[j], states[j + 1], calls[j], outcomes[j]);
      var doc := DocKey(calls[i].companyId, id);
      WithBatchesFacts(states[i].tables.batchIds, states[i].nextBatchId, calls[i].companyId,
        calls[i].files.transactions);
      assert doc in states[i + 1].tables.batchIds;
      RunOnlyAdds(states, calls, outcomes, i + 1, j);
      assert AlreadyPosted(states[j].tables, calls[j].companyId, calls[j].files);
    }
  }

  /** The number of lines the replies report. */
  function Reported(outcomes: seq<Outcome>): nat {
    if outcomes == [] then 0
    else
      var last := outcomes[|outcomes| - 1];
      Reported(outcomes[..|outcomes| - 1]) + if Fresh(last) then last.value.lines else 0
  }

  /** The journal holds exactly the reported lines: chunking loses and repeats nothing, and
      failed or duplicate imports leave nothing behind. */
  lemma {:induction false} JournalHoldsReportedLines(states: seq<State>, calls: seq<Call>, outcomes: seq<Outcome>,
                                                     k: nat)
    requires IsRun(states, calls, outcomes) && k <= |calls|
    ensures |states[k].tables.lines| == Reported(outcomes[..k])
    decreases k
  {
    if k > 0 {
      JournalHoldsReportedLines(states, calls, outcomes, k - 1);
      assert outcomes[..k][..k - 1] == outcomes[..k - 1];
      assert Performs(states[k - 1], states[k - 1 + 1], calls[k - 1], outcomes[k - 1]);
      if Fresh(outcomes[k - 1]) {
        var added := ImportFacts(states[k - 1], states[k], calls[k - 1], outcomes[k - 1]);
      }
    }
  }

  /** The `balance` column of an account an import touches ends up equal to debit total minus
      credit total exactly when the account had no row yet or the import's own debits and
      credits for it are equal; otherwise it is off by the difference of the two. */
  lemma BalanceColumnCorrectIff(s: State, s': State, call: Call, outcome: Outcome, key: AccountKey)
    requires Performs(s, s', call, outcome) && Fresh(outcome)
    requires Touched(LinesOf(call.companyId, call.files.entries, s'.tables.batchIds, s'.tables.accountIds), key)
    ensures key in s'.tables.balances
    ensures var row, v := s'.tables.balances[key],
        AccountTotals(LinesOf(call.companyId, call.files.entries, s'.tables.batchIds, s'.tables.accountIds), key);
      && (row.balance == row.debitTotal - row.creditTotal <==> key !in s.tables.balances || v.debit == v.credit)
      && (key in s.tables.balances ==> row.balance == row.debitTotal - row.creditTotal + (v.debit - v.credit))
  {
    var added := ImportFacts(s, s', call, outcome);
  }

  // ------------------------------------------------------------- open periods

  /** The transaction of a batch is one of the call's, dated on a day that was open then. */
  ghost predicate PostedOpen(call: Call, doc: DocKey) {
    call.companyId == doc.companyId &&
    exists t <- call.files.transactions :: t.id == doc.docId && t.date in call.openDates
  }

  lemma NewBatchesWereOpen(s: State, s': State, call: Call, outcome: Outcome, doc: DocKey)
    requires Performs(s, s', call, outcome) && doc in s'.tables.batchIds && doc !in s.tables.batchIds
    ensures Fresh(outcome) && PostedOpen(call, doc)
  {
    WithBatchesFacts(s.tables.batchIds, s.nextBatchId, call.companyId, call.files.transactions);
  }

  /** Every stored batch belongs to a transaction that a successful import brought in, and whose
      date lay in a period that was open in that call. */
  lemma {:induction false} EveryBatchWasOpen(states: seq<State>, calls: seq<Call>, outcomes: seq<Outcome>, k: nat,
                                             doc: DocKey)
    requires IsRun(states, calls, outcomes) && k < |states| && doc in states[k].tables.batchIds
    ensures exists i :: 0 <= i < k && Fresh(outcomes[i]) && PostedOpen(calls[i], doc)
    decreases k
  {
    if k > 0 {
      if doc in states[k - 1].tables.batchIds {
        EveryBatchWasOpen(states, calls, outcomes, k - 1, doc);
      } else {
        assert Performs(states[k - 1], states[k - 1 + 1], calls[k - 1], outcomes[k - 1]);
        NewBatchesWereOpen(states[k - 1], states[k], calls[k - 1], outcomes[k - 1], doc);
      }
    }
  }
}
