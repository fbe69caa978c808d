/** The accounting import: validation, duplicate detection, journal insertion in chunks and
    the incremental balance table.  Amounts are whole cents. */
module ImportLedger {
  import opened Common

  datatype AccountRow = AccountRow(code: string, typeName: Option<string>, isGroup: bool)

  datatype Transaction = Transaction(id: nat, date: string)

  /** One allocation: an amount on the debit or the credit side of an account. */
  datatype Entry = Entry(transactionId: nat, accountCode: string, isDebit: bool, amount: int)

  /** The three parsed files and the hash of their texts. */
  datatype Files = Files(accounts: seq<AccountRow>, transactions: seq<Transaction>, entries: seq<Entry>, hash: string)

  datatype CodeKey = CodeKey(companyId: nat, code: string)
  datatype DocKey = DocKey(companyId: nat, docId: nat)
  datatype AccountKey = AccountKey(companyId: nat, accountId: nat)
  datatype HashKey = HashKey(companyId: nat, hash: string)

  datatype JournalLine = JournalLine(batchId: nat, companyId: nat, accountId: nat, debit: int, credit: int)

  datatype Amounts = Amounts(debit: int, credit: int)

  datatype Balance = Balance(debitTotal: int, creditTotal: int, balance: int)

  datatype Tables = Tables(
    accountIds: map<CodeKey, nat>,
    batchIds: map<DocKey, nat>,
    lines: seq<JournalLine>,
    balances: map<AccountKey, Balance>,
    imports: map<HashKey, nat>)

  datatype ImportError = InvalidFiles | PeriodNotOpen | DuplicateHash | DuplicateDocument | CheckViolated

  datatype ImportReply = Duplicate(importId: nat) | Imported(importId: nat, lines: nat)

  const KNOWN_TYPES: set<string> := {
    "Kas", "Bank", "Akun Piutang", "Aktiva Lancar Lainnya", "Aktiva Tetap", "Kontra Aktiva",
    "Akun Hutang", "Akun Hutang Lainnya", "Ekuitas", "Kontra Ekuitas", "Pendapatan",
    "Beban Administrasi dan Umum", "Beban Lain-lain", "Beban Pajak Perusahaan"
  }

  const CHUNK_SIZE := 200

  // -------------------------------------------------------------- validation

  function DebitOf(e: Entry): int { if e.isDebit then e.amount else 0 }

  function CreditOf(e: Entry): int { if e.isDebit then 0 else e.amount }

  function AddEntry(t: Amounts, e: Entry): Amounts { Amounts(t.debit + DebitOf(e), t.credit + CreditOf(e)) }

  /** What the entries add to one transaction. */
  function TransactionTotals(entries: seq<Entry>, id: nat): Amounts {
    if entries == [] then Amounts(0, 0)
    else
      var before := TransactionTotals(entries[..|entries| - 1], id);
      var e := entries[|entries| - 1];
      if e.transactionId == id then AddEntry(before, e) else before
  }

  predicate DistinctIds(transactions: seq<Transaction>) {
    forall i, j :: 0 <= i < j < |transactions| ==> transactions[i].id != transactions[j].id
  }

  predicate TypesKnown(accounts: seq<AccountRow>) {
    forall a <- accounts :: !a.isGroup && a.typeName.Some? && a.typeName.value != "" ==> a.typeName.value in KNOWN_TYPES
  }

  predicate HasTransaction(f: Files, id: nat) { exists t <- f.transactions :: t.id == id }

  predicate HasAccount(f: Files, code: string) { exists a <- f.accounts :: a.code == code }

  ghost predicate EntriesResolve(f: Files, entries: seq<Entry>) {
    forall e <- entries :: HasTransaction(f, e.transactionId) && HasAccount(f, e.accountCode)
  }

  ghost predicate EntriesBalance(entries: seq<Entry>) {
    forall e <- entries ::
      TransactionTotals(entries, e.transactionId).debit == TransactionTotals(entries, e.transactionId).credit
  }

  /** The totals collected from the entries so far. */
  ghost predicate TotalsOf(totals: map<nat, Amounts>, entries: seq<Entry>) {
    && (forall id :: id in totals <==> exists e <- entries :: e.transactionId == id)
    && (forall id <- totals :: totals[id] == TransactionTotals(entries, id))
  }

  lemma NoEntriesYet(f: Files)
    ensures EntriesResolve(f, []) && TotalsOf(map[], [])
  {
  }

  lemma {:induction false} AbsentTransaction(entries: seq<Entry>, id: nat)
    requires forall e <- entries :: e.transactionId != id
    ensures TransactionTotals(entries, id) == Amounts(0, 0)
  {
    if entries != [] {
      assert entries[|entries| - 1] in entries && forall e <- entries[..|entries| - 1] :: e in entries;
      AbsentTransaction(entries[..|entries| - 1], id);
    }
  }

  /** One more entry changes the totals of its own transaction only. */
  lemma OneMoreEntry(f: Files, totals: map<nat, Amounts>, entries: seq<Entry>, e: Entry)
    requires TotalsOf(totals, entries)
    ensures EntriesResolve(f, entries + [e]) <==>
      EntriesResolve(f, entries) && HasTransaction(f, e.transactionId) && HasAccount(f, e.accountCode)
    ensures var t := if e.transactionId in totals then totals[e.transactionId] else Amounts(0, 0);
      TotalsOf(totals[e.transactionId := AddEntry(t, e)], entries + [e])
  {
    hide HasTransaction, HasAccount, AddEntry;
    assert (entries + [e])[..|entries|] == entries;
    assert e in entries + [e] && forall d <- entries :: d in entries + [e];
    assert forall d <- entries + [e] :: d in entries || d == e;
    if e.transactionId !in totals {
      AbsentTransaction(entries, e.transactionId);
    }
  }

  /** What the files must satisfy before anything is written. */
  ghost predicate WellFormed(f: Files) {
    && f.accounts != [] && f.transactions != [] && f.entries != []
    && DistinctIds(f.transactions)
    && TypesKnown(f.accounts)
    && EntriesResolve(f, f.entries)
    && EntriesBalance(f.entries)
  }

  predicate PeriodsOpen(f: Files, openDates: set<string>) {
    forall t <- f.transactions :: t.date in openDates
  }

  // ----------------------------------------------------- the transaction, atomically

  /** Existing codes keep their identifier; new codes get the next ones. */
  function WithAccounts(ids: map<CodeKey, nat>, next: nat, companyId: nat, accounts: seq<AccountRow>): (map<CodeKey,
                        nat>, nat)
    decreases |accounts|
  {
    if accounts == [] then (ids, next)
    else
      var key := CodeKey(companyId, accounts[0].code);
      if key in ids then WithAccounts(ids, next, companyId, accounts[1..])
      else WithAccounts(ids[key := next], next + 1, companyId, accounts[1..])
  }

  function WithBatches(ids: map<DocKey, nat>, next: nat, companyId: nat,
                       transactions: seq<Transaction>): (map<DocKey, nat>, nat)
    decreases |transactions|
  {
    if transactions == [] then (ids, next)
    else WithBatches(ids[DocKey(companyId, transactions[0].id) := next], next + 1, companyId, transactions[1..])
  }

  lemma FirstBatch(ids: map<DocKey, nat>, next: nat, companyId: nat, transactions: seq<Transaction>, i: nat)
    requires i < |transactions|
    ensures WithBatches(ids, next, companyId, transactions[i..]) ==
      WithBatches(ids[DocKey(companyId, transactions[i].id) := next], next + 1, companyId, transactions[i + 1..])
  {
    assert transactions[i..][0] == transactions[i] && transactions[i..][1..] == transactions[i + 1..];
  }

  lemma NoBatchLeft(ids: map<DocKey, nat>, next: nat, companyId: nat)
    ensures WithBatches(ids, next, companyId, []) == (ids, next)
  {
  }

  /** The journal line of an entry, if its batch and account are known. */
  function LineOf(companyId: nat, e: Entry, batchIds: map<DocKey, nat>, accountIds: map<CodeKey,
                  nat>): Option<JournalLine> {
    var doc, code := DocKey(companyId, e.transactionId), CodeKey(companyId, e.accountCode);
    if doc in batchIds && code in accountIds
    then Some(JournalLine(batchIds[doc], companyId, accountIds[code], DebitOf(e), CreditOf(e)))
    else None
  }

  function LinesOf(companyId: nat, entries: seq<Entry>, batchIds: map<DocKey, nat>, accountIds: map<CodeKey,
                   nat>): seq<JournalLine> {
    if entries == [] then []
    else
      LinesOf(companyId, entries[..|entries| - 1], batchIds, accountIds)
        + match LineOf(companyId, entries[|entries| - 1], batchIds, accountIds)
          case Some(line) => [line]
          case None => []
  }

  /** What an entry adds to its account, apart from the batch it belongs to. */
  function PostingOf(companyId: nat, e: Entry, accountId: nat): JournalLine {
    JournalLine(0, companyId, accountId, DebitOf(e), CreditOf(e))
  }

  /** The postings of the entries whose account is known. */
  function Postings(companyId: nat, entries: seq<Entry>, accountIds: map<CodeKey, nat>): seq<JournalLine> {
    if entries == [] then []
    else
      var e := entries[|entries| - 1];
      var code := CodeKey(companyId, e.accountCode);
      Postings(companyId, entries[..|entries| - 1], accountIds) +
        if code in accountIds then [PostingOf(companyId, e, accountIds[code])] else []
  }

  /** The CHECK constraint on journal lines. */
  predicate OneSided(line: JournalLine) {
    (line.debit > 0 && line.credit == 0) || (line.credit > 0 && line.debit == 0)
  }

  /** The totals of the lines of one account. */
  function AccountTotals(lines: seq<JournalLine>, key: AccountKey): Amounts {
    if lines == [] then Amounts(0, 0)
    else
      var before := AccountTotals(lines[..|lines| - 1], key);
      var l := lines[|lines| - 1];
      if l.companyId == key.companyId && l.accountId == key.accountId
      then Amounts(before.debit + l.debit, before.credit + l.credit) else before
  }

  predicate Touched(lines: seq<JournalLine>, key: AccountKey) {
    exists l <- lines :: l.companyId == key.companyId && l.accountId == key.accountId
  }

  /** INSERT ... ON DUPLICATE KEY UPDATE of one balance row.  MySQL assigns the columns from
      left to right, so the balance formula sees totals that already include the new amounts. */
  function UpsertBalance(row: Option<Balance>, v: Amounts): Balance {
    match row
    case None => Balance(v.debit, v.credit, v.debit - v.credit)
    case Some(b) =>
      var debitTotal := b.debitTotal + v.debit;
      var creditTotal := b.creditTotal + v.credit;
      Balance(debitTotal, creditTotal, (debitTotal + v.debit) - (creditTotal + v.credit))
  }

  function Lookup(balances: map<AccountKey, Balance>, key: AccountKey): Option<Balance> {
    if key in balances then Some(balances[key]) else None
  }

  /** The balance table after the new lines have been aggregated per account and upserted. */
  ghost predicate BalancesUpserted(before: map<AccountKey, Balance>, after: map<AccountKey, Balance>,
                                   lines: seq<JournalLine>) {
    && (forall key :: key in after <==> key in before || Touched(lines, key))
    && (forall key <- after ::
          after[key] == (
            if Touched(lines, key)
            then UpsertBalance(Lookup(before, key), AccountTotals(lines, key)) else before[key]))
  }

  ghost predicate AlreadyPosted(t: Tables, companyId: nat, f: Files) {
    exists x <- f.transactions :: DocKey(companyId, x.id) in t.batchIds
  }

  predicate AmountsPositive(entries: seq<Entry>) { forall e <- entries :: e.amount > 0 }

  /** The tables and the auto-increment counters. */
  datatype State = State(tables: Tables, nextAccountId: nat, nextBatchId: nat, nextImportId: nat)

  /** Counters are not rolled back; they only move forward. */
  ghost predicate CountersAdvance(s: State, s': State) {
    s.nextAccountId <= s'.nextAccountId && s.nextBatchId <= s'.nextBatchId && s.nextImportId <= s'.nextImportId
  }

  /** What a fresh import changes outside the table of imports. */
  ghost predicate TablesImported(s: State, s': State, companyId: nat, f: Files) {
    var (accountIds, nextAccountId) := WithAccounts(s.tables.accountIds, s.nextAccountId, companyId, f.accounts);
    var (batchIds, nextBatchId) := WithBatches(s.tables.batchIds, s.nextBatchId, companyId, f.transactions);
    var added := LinesOf(companyId, f.entries, batchIds, accountIds);
    && s'.tables.accountIds == accountIds && s'.tables.batchIds == batchIds
    && s'.tables.lines == s.tables.lines + added
    && BalancesUpserted(s.tables.balances, s'.tables.balances, added)
    && s'.nextAccountId == nextAccountId && s'.nextBatchId == nextBatchId
  }

  ghost predicate ImportedInto(s: State, s': State, companyId: nat, f: Files) {
    && TablesImported(s, s', companyId, f)
    && s'.tables.imports == s.tables.imports[HashKey(companyId, f.hash) := s.nextImportId]
    && s'.nextImportId == s.nextImportId + 1
  }

  ghost function BodyOutcome(t: Tables, companyId: nat, f: Files, importId: nat): Result<ImportReply,
                                    ImportError> {
    if AlreadyPosted(t, companyId, f) then Failure(DuplicateDocument)
    else if !AmountsPositive(f.entries) then Failure(CheckViolated)
    else Success(Imported(importId, |f.entries|))
  }

  /** What the transaction answers: the unique key (company, hash) comes first. */
  ghost function TransactionOutcome(t: Tables, companyId: nat, f: Files, importId: nat): Result<ImportReply,
                                    ImportError> {
    if HashKey(companyId, f.hash) in t.imports then Failure(DuplicateHash) else BodyOutcome(t, companyId, f, importId)
  }

  ghost function ImportOutcome(s: State, companyId: nat, f: Files, openDates: set<string>): Result<ImportReply,
                               ImportError> {
    var hashKey := HashKey(companyId, f.hash);
    if !WellFormed(f) then Failure(InvalidFiles)
    else if !PeriodsOpen(f, openDates) then Failure(PeriodNotOpen)
    else if hashKey in s.tables.imports then Success(Duplicate(s.tables.imports[hashKey]))
    else TransactionOutcome(s.tables, companyId, f, s.nextImportId)
  }

  /** One call of the import.  Only an `Imported` reply changes a table. */
  ghost predicate Step(s: State, s': State, companyId: nat, f: Files, openDates: set<string>,
                       outcome: Result<ImportReply, ImportError>) {
    && outcome == ImportOutcome(s, companyId, f, openDates)
    && if outcome.Success? && outcome.value.Imported? then ImportedInto(s, s', companyId, f)
       else s'.tables == s.tables && CountersAdvance(s, s')
  }

  // ------------------------------------------------------------------- lemmas

  lemma {:induction false} WithAccountsFacts(ids: map<CodeKey, nat>, next: nat, companyId: nat,
                                             accounts: seq<AccountRow>)
    ensures var (ids', next') := WithAccounts(ids, next, companyId, accounts);
      && next <= next'
      && (forall key <- ids :: key in ids' && ids'[key] == ids[key])
      && (forall a <- accounts :: CodeKey(companyId, a.code) in ids')
    decreases |accounts|
  {
    if accounts != [] {
      var key := CodeKey(companyId, accounts[0].code);
      var ids1, next1 := if key in ids then ids else ids[key := next], if key in ids then next else next + 1;
      WithAccountsFacts(ids1, next1, companyId, accounts[1..]);
      assert key in ids1;
    }
  }

  lemma {:induction false} WithBatchesFacts(ids: map<DocKey, nat>, next: nat, companyId: nat,
                                            transactions: seq<Transaction>)
    ensures var (ids', next') := WithBatches(ids, next, companyId, transactions);
      && next <= next'
      && (forall key :: key in ids' <==> key in ids || exists x <- transactions :: key == DocKey(companyId, x.id))
      && (forall key <- ids :: (forall x <- transactions :: key != DocKey(companyId, x.id)) ==> ids'[key] == ids[key])
    decreases |transactions|
  {
    if transactions != [] {
      WithBatchesFacts(ids[DocKey(companyId, transactions[0].id) := next], next + 1, companyId, transactions[1..]);
    }
  }

  lemma {:induction false} TotalsAppend(lines: seq<JournalLine>, more: seq<JournalLine>, key: AccountKey)
    ensures var a, b := AccountTotals(lines, key), AccountTotals(more, key);
      AccountTotals(lines + more, key) == Amounts(a.debit + b.debit, a.credit + b.credit)
    decreases |more|
  {
    if more == [] {
      assert lines + more == lines;
    } else {
      TotalsAppend(lines, more[..|more| - 1], key);
      assert (lines + more)[..|lines + more| - 1] == lines + more[..|more| - 1];
    }
  }

  lemma {:induction false} UntouchedTotals(lines: seq<JournalLine>, key: AccountKey)
    requires !Touched(lines, key)
    ensures AccountTotals(lines, key) == Amounts(0, 0)
  {
    if lines != [] {
      var l := lines[|lines| - 1];
      assert l in lines && forall m <- lines[..|lines| - 1] :: m in lines;
      UntouchedTotals(lines[..|lines| - 1], key);
    }
  }

  lemma {:induction false} LinesAppend(companyId: nat, entries: seq<Entry>, e: Entry, batchIds: map<DocKey, nat>,
                                       accountIds: map<CodeKey, nat>)
    ensures LinesOf(companyId, entries + [e], batchIds, accountIds) ==
      LinesOf(companyId, entries, batchIds, accountIds)
        + match LineOf(companyId, e, batchIds, accountIds) case Some(line) => [line] case None => []
  {
    assert (entries + [e])[..|entries|] == entries;
  }

  lemma {:induction false} LinesComplete(companyId: nat, entries: seq<Entry>, batchIds: map<DocKey, nat>,
                                         accountIds: map<CodeKey, nat>)
    requires forall e <- entries :: LineOf(companyId, e, batchIds, accountIds).Some?
    ensures |LinesOf(companyId, entries, batchIds, accountIds)| == |entries|
    ensures (forall l <- LinesOf(companyId, entries, batchIds, accountIds) :: OneSided(l)) <==> AmountsPositive(entries)
    ensures forall l <- LinesOf(companyId, entries, batchIds, accountIds) :: l.companyId == companyId
  {
    if entries != [] {
      var init, e := entries[..|entries| - 1], entries[|entries| - 1];
      assert e in entries && forall d <- init :: d in entries;
      assert forall d <- entries :: d in init || d == e;
      LinesComplete(companyId, init, batchIds, accountIds);
      var line := LineOf(companyId, e, batchIds, accountIds).value;
      assert OneSided(line) <==> e.amount > 0;
      assert line in LinesOf(companyId, entries, batchIds, accountIds);
      assert forall l <- LinesOf(companyId, entries, batchIds, accountIds) ::
        l == line || l in LinesOf(companyId, init, batchIds, accountIds);
      assert forall l <- LinesOf(companyId, init, batchIds, accountIds) ::
        l in LinesOf(companyId, entries, batchIds, accountIds);
    }
  }

  ghost predicate AllKnown(companyId: nat, entries: seq<Entry>, batchIds: map<DocKey, nat>, accountIds: map<CodeKey,
                           nat>) {
    forall e <- entries :: LineOf(companyId, e, batchIds, accountIds).Some?
  }

  ghost predicate NoRepeats(order: seq<nat>) {
    forall j, k :: 0 <= j < k < |order| ==> order[j] != order[k]
  }

  /** The aggregates of an import are the totals of its lines, account by account. */
  ghost predicate TotalsMatch(companyId: nat, totals: map<nat, Amounts>, lines: seq<JournalLine>) {
    && (forall a :: a in totals <==> Touched(lines, AccountKey(companyId, a)))
    && (forall a <- totals :: totals[a] == AccountTotals(lines, AccountKey(companyId, a)))
  }

  /** The balance table after the accounts of `order` have been upserted. */
  ghost predicate BalancesOver(before: map<AccountKey, Balance>, after: map<AccountKey, Balance>, companyId: nat,
                               order: seq<nat>, totals: map<nat, Amounts>)
    requires forall a <- order :: a in totals
  {
    && (forall key :: key in after <==> key in before || (key.companyId == companyId && key.accountId in order))
    && (forall key <- after :: after[key] == (
          if key.companyId == companyId && key.accountId in order
          then UpsertBalance(Lookup(before, key), totals[key.accountId]) else before[key]))
  }

  lemma KnownAppend(companyId: nat, entries: seq<Entry>, e: Entry, batchIds: map<DocKey, nat>,
                    accountIds: map<CodeKey, nat>)
    ensures AllKnown(companyId, entries + [e], batchIds, accountIds) <==>
      AllKnown(companyId, entries, batchIds, accountIds) && LineOf(companyId, e, batchIds, accountIds).Some?
  {
    assert e in entries + [e] && forall d <- entries :: d in entries + [e];
    assert forall d <- entries + [e] :: d in entries || d == e;
  }

  lemma EntriesKnown(companyId: nat, f: Files, batchIds: map<DocKey, nat>, accountIds: map<CodeKey, nat>)
    requires WellFormed(f)
    requires forall x <- f.transactions :: DocKey(companyId, x.id) in batchIds
    requires forall a <- f.accounts :: CodeKey(companyId, a.code) in accountIds
    ensures AllKnown(companyId, f.entries, batchIds, accountIds)
  {
    forall e <- f.entries ensures LineOf(companyId, e, batchIds, accountIds).Some? {
      assert HasTransaction(f, e.transactionId) && HasAccount(f, e.accountCode);
    }
  }

  lemma NoTotalsYet(companyId: nat, accountIds: map<CodeKey, nat>)
    ensures TotalsMatch(companyId, map[], Postings(companyId, [], accountIds))
  {
  }

  lemma PostingsAppend(companyId: nat, entries: seq<Entry>, e: Entry, accountIds: map<CodeKey, nat>)
    ensures var code := CodeKey(companyId, e.accountCode);
      Postings(companyId, entries + [e], accountIds) == (
        if code !in accountIds then Postings(companyId, entries, accountIds)
        else Postings(companyId, entries, accountIds) + [PostingOf(companyId, e, accountIds[code])])
  {
    hide PostingOf;
    assert (entries + [e])[..|entries|] == entries;
  }

  lemma {:induction false} PostingsOfCompany(companyId: nat, entries: seq<Entry>, accountIds: map<CodeKey, nat>)
    ensures forall l <- Postings(companyId, entries, accountIds) :: l.companyId == companyId
  {
    if entries != [] {
      PostingsOfCompany(companyId, entries[..|entries| - 1], accountIds);
    }
  }

  /** Lines that differ in their batch alone touch and total their accounts alike. */
  lemma {:induction false} BatchesDoNotMatter(a: seq<JournalLine>, b: seq<JournalLine>, key: AccountKey)
    requires |a| == |b| && forall i :: 0 <= i < |a| ==> a[i] == b[i].(batchId := a[i].batchId)
    ensures AccountTotals(a, key) == AccountTotals(b, key)
    ensures Touched(a, key) <==> Touched(b, key)
  {
    if a != [] {
      BatchesDoNotMatter(a[..|a| - 1], b[..|b| - 1], key);
      TouchedLast(a, key);
      TouchedLast(b, key);
    }
  }

  lemma TouchedLast(lines: seq<JournalLine>, key: AccountKey)
    requires lines != []
    ensures var l := lines[|lines| - 1];
      Touched(lines, key) <==>
        Touched(lines[..|lines| - 1], key) || (l.companyId == key.companyId && l.accountId == key.accountId)
  {
    var init, l := lines[..|lines| - 1], lines[|lines| - 1];
    assert l in lines && (forall m <- init :: m in lines) && forall m <- lines :: m in init || m == l;
  }

  lemma {:induction false} PostingsMatchLines(companyId: nat, entries: seq<Entry>, batchIds: map<DocKey, nat>,
                                              accountIds: map<CodeKey, nat>)
    requires AllKnown(companyId, entries, batchIds, accountIds)
    ensures var p, l := Postings(companyId, entries, accountIds), LinesOf(companyId, entries, batchIds, accountIds);
      |p| == |l| && forall i :: 0 <= i < |p| ==> p[i] == l[i].(batchId := p[i].batchId)
  {
    if entries != [] {
      var init, e := entries[..|entries| - 1], entries[|entries| - 1];
      assert entries == init + [e];
      KnownAppend(companyId, init, e, batchIds, accountIds);
      PostingsMatchLines(companyId, init, batchIds, accountIds);
    }
  }

  /** When every entry became a journal line, upserting the postings upserts the lines. */
  lemma PostingsAreLines(companyId: nat, entries: seq<Entry>, batchIds: map<DocKey, nat>, accountIds: map<CodeKey, nat>,
                         before: map<AccountKey, Balance>, after: map<AccountKey, Balance>)
    requires AllKnown(companyId, entries, batchIds, accountIds)
    requires BalancesUpserted(before, after, Postings(companyId, entries, accountIds))
    ensures BalancesUpserted(before, after, LinesOf(companyId, entries, batchIds, accountIds))
  {
    PostingsMatchLines(companyId, entries, batchIds, accountIds);
    var p, l := Postings(companyId, entries, accountIds), LinesOf(companyId, entries, batchIds, accountIds);
    hide Touched, AccountTotals, Postings, LinesOf, UpsertBalance;
    forall key ensures AccountTotals(p, key) == AccountTotals(l, key) && (Touched(p, key) <==> Touched(l, key)) {
      BatchesDoNotMatter(p, l, key);
    }
  }

  /** One more line changes the totals of its own account only. */
  lemma TotalsExtend(companyId: nat, totals: map<nat, Amounts>, lines: seq<JournalLine>, line: JournalLine)
    requires TotalsMatch(companyId, totals, lines) && line.companyId == companyId
    ensures var t := if line.accountId in totals then totals[line.accountId] else Amounts(0, 0);
      TotalsMatch(companyId, totals[line.accountId := Amounts(t.debit + line.debit, t.credit + line.credit)],
        lines + [line])
  {
    forall key: AccountKey
      ensures Touched(lines + [line], key) <==>
        Touched(lines, key) || (line.companyId == key.companyId && line.accountId == key.accountId)
    {
      assert forall m <- lines + [line] :: m in lines || m == line;
      assert line in lines + [line] && forall m <- lines :: m in lines + [line];
    }
    assert (lines + [line])[..|lines|] == lines;
    if line.accountId !in totals {
      UntouchedTotals(lines, AccountKey(companyId, line.accountId));
    }
  }

  lemma UpsertedFromOrder(before: map<AccountKey, Balance>, after: map<AccountKey, Balance>, companyId: nat,
                          order: seq<nat>, totals: map<nat, Amounts>, added: seq<JournalLine>)
    requires forall a :: a in totals <==> a in order
    requires TotalsMatch(companyId, totals, added)
    requires forall l <- added :: l.companyId == companyId
    requires BalancesOver(before, after, companyId, order, totals)
    ensures BalancesUpserted(before, after, added)
  {
    forall key: AccountKey
      ensures Touched(added, key) <==> key.companyId == companyId && key.accountId in order
    {
      if key.companyId == companyId {
        assert key == AccountKey(companyId, key.accountId);
      }
    }
    forall key <- after
      ensures after[key] ==
        (if Touched(added, key) then UpsertBalance(Lookup(before, key), AccountTotals(added, key)) else before[key])
    {
      if Touched(added, key) {
        assert key == AccountKey(companyId, key.accountId);
      }
    }
  }

  // ------------------------------------------------- what an import writes

  /** Which files are accepted. */
  lemma WellFormedFiles(f: Files)
    ensures WellFormed(f) <==>
      && f.accounts != [] && f.transactions != [] && f.entries != []
      && (forall i, j :: 0 <= i < j < |f.transactions| ==> f.transactions[i].id != f.transactions[j].id)
      && (forall a <- f.accounts ::
            a.isGroup || a.typeName.None? || a.typeName.value == "" || a.typeName.value in KNOWN_TYPES)
      && (forall e <- f.entries :: exists t <- f.transactions :: t.id == e.transactionId)
      && (forall e <- f.entries :: exists a <- f.accounts :: a.code == e.accountCode)
      && (forall e <- f.entries ::
            TransactionTotals(f.entries, e.transactionId).debit == TransactionTotals(f.entries, e.transactionId).credit)
  {
    hide TransactionTotals;
  }

  /** New batches are numbered in the order of the transactions; the others keep theirs. */
  lemma {:induction false} BatchNumbers(ids: map<DocKey, nat>, next: nat, companyId: nat,
                                        transactions: seq<Transaction>)
    requires DistinctIds(transactions) && forall x <- transactions :: DocKey(companyId, x.id) !in ids
    ensures var ids' := WithBatches(ids, next, companyId, transactions).0;
      && (forall i :: 0 <= i < |transactions| ==>
            var doc := DocKey(companyId, transactions[i].id); doc in ids' && ids'[doc] == next + i)
      && (forall doc <- ids :: doc in ids' && ids'[doc] == ids[doc])
      && |ids'.Keys| == |ids.Keys| + |transactions|
    decreases |transactions|
  {
    if transactions != [] {
      var doc, rest := DocKey(companyId, transactions[0].id), transactions[1..];
      var ids1 := ids[doc := next];
      assert transactions[0] in transactions && forall x <- rest :: x in transactions;
      forall x <- rest ensures DocKey(companyId, x.id) !in ids1 {
        var k :| 0 <= k < |rest| && rest[k] == x;
        assert transactions[0].id != transactions[k + 1].id;
      }
      assert ids1.Keys == ids.Keys + {doc};
      BatchNumbers(ids1, next + 1, companyId, rest);
      assert WithBatches(ids, next, companyId, transactions) == WithBatches(ids1, next + 1, companyId, rest);
      hide WithBatches;
      forall i | 0 <= i < |transactions|
        ensures
          var d, ids' := DocKey(companyId, transactions[i].id), WithBatches(ids, next, companyId, transactions).0;
          d in ids' && ids'[d] == next + i
      {
        if i > 0 {
          assert rest[i - 1] == transactions[i];
        }
      }
    }
  }

  /** The stored accounts are the earlier ones and those of the file. */
  lemma {:induction false} AccountCodes(ids: map<CodeKey, nat>, next: nat, companyId: nat, accounts: seq<AccountRow>)
    ensures forall key :: key in WithAccounts(ids, next, companyId, accounts).0 <==>
      key in ids || exists a <- accounts :: key == CodeKey(companyId, a.code)
    decreases |accounts|
  {
    if accounts != [] {
      var key := CodeKey(companyId, accounts[0].code);
      AccountCodes(if key in ids then ids else ids[key := next], if key in ids then next else next + 1, companyId,
                   accounts[1..]);
      assert forall a <- accounts :: a == accounts[0] || a in accounts[1..];
    }
  }

  /** One journal line for each entry, in the order of the entries: the batch of its
      transaction, its account, and the amount on its own side. */
  lemma {:induction false} LinesAre(companyId: nat, entries: seq<Entry>, batchIds: map<DocKey, nat>,
                                    accountIds: map<CodeKey, nat>)
    requires AllKnown(companyId, entries, batchIds, accountIds)
    ensures |LinesOf(companyId, entries, batchIds, accountIds)| == |entries|
    ensures forall i :: 0 <= i < |entries| ==>
      var e, line := entries[i], LinesOf(companyId, entries, batchIds, accountIds)[i];
      var doc, code := DocKey(companyId, e.transactionId), CodeKey(companyId, e.accountCode);
      && doc in batchIds && line.batchId == batchIds[doc]
      && code in accountIds && line.accountId == accountIds[code] && line.companyId == companyId
      && line.debit == (if e.isDebit then e.amount else 0)
      && line.credit == (if e.isDebit then 0 else e.amount)
  {
    if entries != [] {
      var init, e := entries[..|entries| - 1], entries[|entries| - 1];
      assert entries == init + [e];
      KnownAppend(companyId, init, e, batchIds, accountIds);
      LinesAre(companyId, init, batchIds, accountIds);
      LinesAppend(companyId, init, e, batchIds, accountIds);
      hide AllKnown, LinesOf;
      var lines := LinesOf(companyId, entries, batchIds, accountIds);
      assert lines[..|init|] == LinesOf(companyId, init, batchIds, accountIds);
    }
  }

  /** The answer, without the names of the checks. */
  lemma AnswerMeans(s: State, companyId: nat, f: Files, openDates: set<string>)
    ensures
      var outcome, t, hash := ImportOutcome(s, companyId, f, openDates), s.tables, HashKey(companyId, f.hash);
      && (outcome == Failure(InvalidFiles) <==> !WellFormed(f))
      && (outcome == Failure(PeriodNotOpen) <==> WellFormed(f) && exists x <- f.transactions :: x.date !in openDates)
      && (outcome.Success? ==> forall x <- f.transactions :: x.date in openDates)
      && (outcome.Success? && outcome.value.Duplicate? ==>
            hash in t.imports && outcome.value.importId == t.imports[hash])
      && (outcome.Failure? && outcome.error in {DuplicateDocument, CheckViolated} ==>
            hash !in t.imports && forall x <- f.transactions :: x.date in openDates)
      && (outcome == Failure(DuplicateDocument) ==>
            exists x <- f.transactions :: DocKey(companyId, x.id) in t.batchIds)
      && (outcome == Failure(CheckViolated) ==> exists e <- f.entries :: e.amount <= 0)
      && outcome != Failure(DuplicateHash)
      && (outcome.Success? && outcome.value.Imported? ==>
            && hash !in t.imports
            && (forall x <- f.transactions :: DocKey(companyId, x.id) !in t.batchIds)
            && (forall e <- f.entries :: e.amount > 0)
            && outcome.value == Imported(s.nextImportId, |f.entries|))
  {
    hide WellFormed;
  }

  /** The written batches and accounts. */
  lemma WrittenKeys(s: State, s': State, companyId: nat, f: Files)
    requires ImportedInto(s, s', companyId, f) && WellFormed(f)
    requires forall x <- f.transactions :: DocKey(companyId, x.id) !in s.tables.batchIds
    ensures
      && (forall i :: 0 <= i < |f.transactions| ==>
            var doc := DocKey(companyId, f.transactions[i].id);
            doc in s'.tables.batchIds && s'.tables.batchIds[doc] == s.nextBatchId + i)
      && (forall doc <- s.tables.batchIds ::
            doc in s'.tables.batchIds && s'.tables.batchIds[doc] == s.tables.batchIds[doc])
      && |s'.tables.batchIds.Keys| == |s.tables.batchIds.Keys| + |f.transactions|
      && (forall key <- s.tables.accountIds ::
            key in s'.tables.accountIds && s'.tables.accountIds[key] == s.tables.accountIds[key])
      && (forall key :: key in s'.tables.accountIds <==>
            key in s.tables.accountIds || exists a <- f.accounts :: key == CodeKey(companyId, a.code))
  {
    hide BalancesUpserted, LinesOf;
    BatchNumbers(s.tables.batchIds, s.nextBatchId, companyId, f.transactions);
    AccountCodes(s.tables.accountIds, s.nextAccountId, companyId, f.accounts);
    WithAccountsFacts(s.tables.accountIds, s.nextAccountId, companyId, f.accounts);
  }

  /** The written journal lines. */
  lemma WrittenLines(s: State, s': State, companyId: nat, f: Files)
    requires ImportedInto(s, s', companyId, f) && WellFormed(f)
    ensures
      && |s'.tables.lines| == |s.tables.lines| + |f.entries| && s'.tables.lines[..|s.tables.lines|] == s.tables.lines
      && (forall i :: 0 <= i < |f.entries| ==>
            var e, line := f.entries[i], s'.tables.lines[|s.tables.lines| + i];
            var doc, code := DocKey(companyId, e.transactionId), CodeKey(companyId, e.accountCode);
            && doc in s'.tables.batchIds && line.batchId == s'.tables.batchIds[doc]
            && code in s'.tables.accountIds && line.accountId == s'.tables.accountIds[code]
            && line.companyId == companyId
            && line.debit == (if e.isDebit then e.amount else 0)
            && line.credit == (if e.isDebit then 0 else e.amount))
  {
    hide BalancesUpserted, LinesOf, WithBatches, WithAccounts;
    var t := s'.tables;
    WithAccountsFacts(s.tables.accountIds, s.nextAccountId, companyId, f.accounts);
    WithBatchesFacts(s.tables.batchIds, s.nextBatchId, companyId, f.transactions);
    EntriesKnown(companyId, f, t.batchIds, t.accountIds);
    LinesAre(companyId, f.entries, t.batchIds, t.accountIds);
  }

  // ------------------------------------------------------------ the database

  class ImportStore {
    var accountIds: map<CodeKey, nat>
    var batchIds: map<DocKey, nat>
    var lines: seq<JournalLine>
    var balances: map<AccountKey, Balance>
    var imports: map<HashKey, nat>
    var nextAccountId: nat
    var nextBatchId: nat
    var nextImportId: nat

    ghost function Committed(): Tables
      reads this
    {
      Tables(accountIds, batchIds, lines, balances, imports)
    }

    ghost function Current(): State
      reads this
    {
      State(Committed(), nextAccountId, nextBatchId, nextImportId)
    }

    constructor ()
      ensures Current() == State(Tables(map[], map[], [], map[], map[]), 1, 1, 1)
    {
      accountIds, batchIds, lines, balances, imports := map[], map[], [], map[], map[];
      nextAccountId, nextBatchId, nextImportId := 1, 1, 1;
    }

    method ValidateTransactions(f: Files) returns (valid: bool)
      ensures valid <==> DistinctIds(f.transactions)
    {
      var seen: set<nat> := {};
      var i := 0;
      while i < |f.transactions|
        invariant 0 <= i <= |f.transactions|
        invariant seen == set k | 0 <= k < i :: f.transactions[k].id
        invariant forall j, k :: 0 <= j < k < i ==> f.transactions[j].id != f.transactions[k].id
      {
        if f.transactions[i].id in seen {
          var k :| 0 <= k < i && f.transactions[k].id == f.transactions[i].id;
          return false;
        }
        seen := seen + {f.transactions[i].id};
        i := i + 1;
      }
      valid := true;
    }

    /** Checks that every entry names a known transaction and account, and adds up the debits
        and credits of each transaction. */
    method CollectTotals(f: Files) returns (known: bool, totals: map<nat, Amounts>)
      ensures known <==> EntriesResolve(f, f.entries)
      ensures known ==> TotalsOf(totals, f.entries)
    {
      hide HasTransaction, HasAccount, TransactionTotals, AddEntry;
      totals := map[];
      NoEntriesYet(f);
      var i := 0;
      while i < |f.entries|
        invariant 0 <= i <= |f.entries|
        invariant EntriesResolve(f, f.entries[..i]) && TotalsOf(totals, f.entries[..i])
      {
        var row := f.entries[i];
        assert f.entries[..i + 1] == f.entries[..i] + [row];
        OneMoreEntry(f, totals, f.entries[..i], row);
        if !HasTransaction(f, row.transactionId) || !HasAccount(f, row.accountCode) {
          assert row in f.entries;
          return false, totals;
        }
        var total := if row.transactionId in totals then totals[row.transactionId] else Amounts(0, 0);
        totals := totals[row.transactionId := AddEntry(total, row)];
        i := i + 1;
      }
      assert f.entries[..i] == f.entries;
      known := true;
    }

    /** Each transaction's debits and credits may differ by no more than half a cent. */
    method ValidateEntries(f: Files) returns (valid: bool)
      ensures valid <==> EntriesResolve(f, f.entries) && EntriesBalance(f.entries)
    {
      hide EntriesResolve, TransactionTotals;
      var known, totals := CollectTotals(f);
      if !known {
        return false;
      }
      var unbalanced := set id | id in totals && 2 * Distance(totals[id].debit, totals[id].credit) > 1;
      if unbalanced != {} {
        var id :| id in unbalanced;
        var e :| e in f.entries && e.transactionId == id;
        return false;
      }
      forall e <- f.entries
        ensures TransactionTotals(f.entries, e.transactionId).debit ==
          TransactionTotals(f.entries, e.transactionId).credit
      {
        assert e.transactionId !in unbalanced;
      }
      valid := true;
    }

    /** All the checks that precede the first query. */
    method ValidateFiles(f: Files) returns (valid: bool)
      ensures valid <==> WellFormed(f)
    {
      hide DistinctIds, TypesKnown, EntriesResolve, EntriesBalance;
      if f.accounts == [] || f.transactions == [] || f.entries == [] {
        return false;
      }
      var distinct := ValidateTransactions(f);
      if !distinct || !TypesKnown(f.accounts) {
        return false;
      }
      valid := ValidateEntries(f);
    }

    method UpsertAccounts(companyId: nat, accounts: seq<AccountRow>)
      modifies this`accountIds, this`nextAccountId
      ensures (accountIds, nextAccountId) == WithAccounts(old(accountIds), old(nextAccountId), companyId, accounts)
    {
      var i := 0;
      while i < |accounts|
        invariant 0 <= i <= |accounts|
        invariant WithAccounts(accountIds, nextAccountId, companyId, accounts[i..])
               == WithAccounts(old(accountIds), old(nextAccountId), companyId, accounts)
      {
        var key := CodeKey(companyId, accounts[i].code);
        assert accounts[i..][1..] == accounts[i + 1..];
        if key !in accountIds {
          accountIds := accountIds[key := nextAccountId];
          nextAccountId := nextAccountId + 1;
        }
        i := i + 1;
      }
    }

    /** Fails on the unique key (company, type, document) of journal batches. */
    method InsertJournalBatches(companyId: nat, transactions: seq<Transaction>) returns (ok: bool)
      modifies this`batchIds, this`nextBatchId
      ensures ok <==> DistinctIds(transactions) && forall x <- transactions :: DocKey(companyId, x.id) !in old(batchIds)
      ensures ok ==> (batchIds, nextBatchId) == WithBatches(old(batchIds), old(nextBatchId), companyId, transactions)
      ensures old(nextBatchId) <= nextBatchId
    {
      hide WithBatches;
      var i := 0;
      assert transactions[i..] == transactions;
      while i < |transactions|
        invariant 0 <= i <= |transactions| && old(nextBatchId) <= nextBatchId
        invariant WithBatches(batchIds, nextBatchId, companyId, transactions[i..])
               == WithBatches(old(batchIds), old(nextBatchId), companyId, transactions)
        invariant forall j, k :: 0 <= j < k < i ==> transactions[j].id != transactions[k].id
        invariant forall k :: 0 <= k < i ==> DocKey(companyId, transactions[k].id) !in old(batchIds)
        invariant forall key :: key in batchIds <==>
          key in old(batchIds) || exists k :: 0 <= k < i && key == DocKey(companyId, transactions[k].id)
      {
        var key := DocKey(companyId, transactions[i].id);
        if key in batchIds {
          assert transactions[i] in transactions;
          return false;
        }
        FirstBatch(batchIds, nextBatchId, companyId, transactions, i);
        batchIds := batchIds[key := nextBatchId];
        nextBatchId := nextBatchId + 1;
        i := i + 1;
      }
      NoBatchLeft(batchIds, nextBatchId, companyId);
      assert transactions[i..] == [];
      ok := true;
    }

    /** One INSERT of a chunk; the CHECK constraint rejects the whole statement. */
    method InsertChunk(chunk: seq<JournalLine>) returns (ok: bool)
      modifies this`lines
      ensures ok <==> forall l <- chunk :: OneSided(l)
      ensures ok ==> lines == old(lines) + chunk
    {
      ok := forall l <- chunk :: OneSided(l);
      if ok {
        lines := lines + chunk;
      }
    }

    /** Builds the line of every entry. */
    method BuildLines(companyId: nat, entries: seq<Entry>) returns (complete: bool, values: seq<JournalLine>)
      ensures values == LinesOf(companyId, entries, batchIds, accountIds)
      ensures complete <==> AllKnown(companyId, entries, batchIds, accountIds)
    {
      values := [];
      complete := true;
      var i := 0;
      while i < |entries|
        invariant 0 <= i <= |entries|
        invariant values == LinesOf(companyId, entries[..i], batchIds, accountIds)
        invariant complete <==> AllKnown(companyId, entries[..i], batchIds, accountIds)
      {
        assert entries[..i + 1] == entries[..i] + [entries[i]];
        LinesAppend(companyId, entries[..i], entries[i], batchIds, accountIds);
        KnownAppend(companyId, entries[..i], entries[i], batchIds, accountIds);
        match LineOf(companyId, entries[i], batchIds, accountIds) {
          case Some(line) => values := values + [line];
          case None => complete := false;
        }
        i := i + 1;
      }
      assert entries[..i] == entries;
    }

    /** Inserts the lines in chunks of 200. */
    method InsertJournalLines(values: seq<JournalLine>) returns (ok: bool)
      modifies this`lines
      ensures ok <==> forall l <- values :: OneSided(l)
      ensures ok ==> lines == old(lines) + values
    {
      var i := 0;
      while i < |values|
        invariant 0 <= i
        invariant lines == old(lines) + values[..Min(i, |values|)]
        invariant forall k :: 0 <= k < Min(i, |values|) ==> OneSided(values[k])
      {
        var end := Min(i + CHUNK_SIZE, |values|);
        var inserted := InsertChunk(values[i..end]);
        if !inserted {
          var l :| l in values[i..end] && !OneSided(l);
          assert l in values;
          return false;
        }
        forall k | i <= k < end ensures OneSided(values[k]) {
          assert values[i..end][k - i] == values[k];
        }
        assert values[..i] + values[i..end] == values[..end];
        i := i + CHUNK_SIZE;
      }
      assert values[..|values|] == values;
      ok := true;
    }

    /** Aggregates the entries per account, in the order in which the accounts appear.  Entries
        of unknown accounts are skipped. */
    method AggregateByAccount(companyId: nat, entries: seq<Entry>) returns (order: seq<nat>, totals: map<nat, Amounts>)
      ensures NoRepeats(order) && forall a :: a in totals <==> a in order
      ensures TotalsMatch(companyId, totals, Postings(companyId, entries, accountIds))
    {
      hide Postings, TotalsMatch, AccountTotals, Touched;
      totals, order := map[], [];
      NoTotalsYet(companyId, accountIds);
      var i := 0;
      while i < |entries|
        invariant 0 <= i <= |entries|
        invariant NoRepeats(order) && forall a :: a in totals <==> a in order
        invariant TotalsMatch(companyId, totals, Postings(companyId, entries[..i], accountIds))
      {
        var e := entries[i];
        assert entries[..i + 1] == entries[..i] + [e];
        PostingsAppend(companyId, entries[..i], e, accountIds);
        i := i + 1;
        var code := CodeKey(companyId, e.accountCode);
        if code !in accountIds {
          continue;
        }
        var accountId := accountIds[code];
        TotalsExtend(companyId, totals, Postings(companyId, entries[..i - 1], accountIds),
          PostingOf(companyId, e, accountId));
        if accountId !in totals {
          order := order + [accountId];
        }
        var aggregate := if accountId in totals then totals[accountId] else Amounts(0, 0);
        if e.isDebit {
          aggregate := aggregate.(debit := aggregate.debit + e.amount);
        } else {
          aggregate := aggregate.(credit := aggregate.credit + e.amount);
        }
        totals := totals[accountId := aggregate];
      }
      assert entries[..i] == entries;
    }

    /** The rows of the balance table: one upsert for each account of the import. */
    method UpsertAll(companyId: nat, order: seq<nat>, totals: map<nat, Amounts>)
      requires NoRepeats(order) && forall a <- order :: a in totals
      modifies this`balances
      ensures BalancesOver(old(balances), balances, companyId, order, totals)
    {
      var i := 0;
      while i < |order|
        invariant 0 <= i <= |order|
        invariant BalancesOver(old(balances), balances, companyId, order[..i], totals)
      {
        var key := AccountKey(companyId, order[i]);
        assert order[..i + 1] == order[..i] + [order[i]];
        assert order[i] !in order[..i];
        balances := balances[key := UpsertBalance(Lookup(balances, key), totals[order[i]])];
        i := i + 1;
      }
      assert order[..i] == order;
    }

    method UpdateCurrentBalances(companyId: nat, entries: seq<Entry>)
      modifies this`balances
      ensures BalancesUpserted(old(balances), balances, Postings(companyId, entries, accountIds))
    {
      var order, totals := AggregateByAccount(companyId, entries);
      UpsertAll(companyId, order, totals);
      PostingsOfCompany(companyId, entries, accountIds);
      UpsertedFromOrder(old(balances), balances, companyId, order, totals, Postings(companyId, entries, accountIds));
    }

    /** Journal lines and balances of an import whose batches and accounts are stored. */
    method PostEntries(companyId: nat, entries: seq<Entry>) returns (ok: bool)
      requires AllKnown(companyId, entries, batchIds, accountIds)
      modifies this`lines, this`balances
      ensures ok <==> AmountsPositive(entries)
      ensures ok ==> lines == old(lines) + LinesOf(companyId, entries, batchIds, accountIds)
      ensures ok ==> BalancesUpserted(old(balances), balances, LinesOf(companyId, entries, batchIds, accountIds))
    {
      LinesComplete(companyId, entries, batchIds, accountIds);
      var complete, values := BuildLines(companyId, entries);
      ok := InsertJournalLines(values);
      if ok {
        UpdateCurrentBalances(companyId, entries);
        PostingsAreLines(companyId, entries, batchIds, accountIds, old(balances), balances);
      }
    }

    method ImportBody(companyId: nat, f: Files, importId: nat) returns (outcome: Result<ImportReply, ImportError>)
      requires WellFormed(f)
      modifies this`accountIds, this`batchIds, this`lines, this`balances, this`nextAccountId, this`nextBatchId
      ensures outcome == BodyOutcome(old(Committed()), companyId, f, importId)
      ensures old(nextAccountId) <= nextAccountId && old(nextBatchId) <= nextBatchId
      ensures outcome.Success? ==> TablesImported(old(Current()), Current(), companyId, f)
    {
      hide WithAccounts, WithBatches, LinesOf, BalancesUpserted, LineOf;
      WithAccountsFacts(accountIds, nextAccountId, companyId, f.accounts);
      WithBatchesFacts(batchIds, nextBatchId, companyId, f.transactions);
      UpsertAccounts(companyId, f.accounts);
      var inserted := InsertJournalBatches(companyId, f.transactions);
      if !inserted {
        return Failure(DuplicateDocument);
      }
      EntriesKnown(companyId, f, batchIds, accountIds);
      var stored := PostEntries(companyId, f.entries);
      if !stored {
        return Failure(CheckViolated);
      }
      return Success(Imported(importId, |f.entries|));
    }

    /** The import as one transaction: every table changes, or none does.  The unique key
        (company, hash) refuses an import that another one has overtaken since its check. */
    method ImportInTransaction(companyId: nat, f: Files) returns (outcome: Result<ImportReply, ImportError>)
      requires WellFormed(f)
      modifies this
      ensures outcome == TransactionOutcome(old(Committed()), companyId, f, old(nextImportId))
      ensures outcome.Success? ==> ImportedInto(old(Current()), Current(), companyId, f)
      ensures outcome.Failure? ==> Committed() == old(Committed()) && CountersAdvance(old(Current()), Current())
    {
      var importsBefore, accountsBefore, batchesBefore := imports, accountIds, batchIds;
      var linesBefore, balancesBefore := lines, balances;
      var importId := nextImportId;
      nextImportId := nextImportId + 1;
      if HashKey(companyId, f.hash) in imports {
        return Failure(DuplicateHash);
      }
      imports := imports[HashKey(companyId, f.hash) := importId];
      outcome := ImportBody(companyId, f, importId);
      if outcome.Failure? {
        imports, accountIds, batchIds := importsBefore, accountsBefore, batchesBefore;
        lines, balances := linesBefore, balancesBefore;
      }
    }

    method ImportAccountingCsv(companyId: nat, f: Files, openDates: set<string>)
      returns (outcome: Result<ImportReply, ImportError>)
      modifies this
      ensures Step(old(Current()), Current(), companyId, f, openDates, outcome)
      // the answer
      ensures outcome == Failure(InvalidFiles) <==> !WellFormed(f)
      ensures outcome == Failure(PeriodNotOpen) <==> WellFormed(f) && exists t <- f.transactions :: t.date !in openDates
      ensures outcome.Success? ==> forall t <- f.transactions :: t.date in openDates
      ensures outcome.Success? && outcome.value.Duplicate? ==>
        HashKey(companyId, f.hash) in old(imports)
        && outcome.value.importId == old(imports)[HashKey(companyId, f.hash)]
      ensures outcome.Failure? && outcome.error in {DuplicateDocument, CheckViolated} ==>
        HashKey(companyId, f.hash) !in old(imports) && forall t <- f.transactions :: t.date in openDates
      ensures outcome == Failure(DuplicateDocument) ==>
        exists t <- f.transactions :: DocKey(companyId, t.id) in old(batchIds)
      ensures outcome == Failure(CheckViolated) ==> exists e <- f.entries :: e.amount <= 0
      ensures outcome != Failure(DuplicateHash)
      ensures outcome.Success? && outcome.value.Imported? ==>
        && HashKey(companyId, f.hash) !in old(imports)
        && (forall t <- f.transactions :: DocKey(companyId, t.id) !in old(batchIds))
        && (forall e <- f.entries :: e.amount > 0)
        && outcome.value == Imported(old(nextImportId), |f.entries|)
      // the tables
      ensures outcome.Failure? || outcome.value.Duplicate? ==> Committed() == old(Committed())
      ensures outcome.Success? && outcome.value.Imported? ==>
        && imports == old(imports)[HashKey(companyId, f.hash) := outcome.value.importId]
        && (forall i :: 0 <= i < |f.transactions| ==>
              var doc := DocKey(companyId, f.transactions[i].id);
              doc in batchIds && batchIds[doc] == old(nextBatchId) + i)
        && (forall doc <- old(batchIds) :: doc in batchIds && batchIds[doc] == old(batchIds)[doc])
        && |batchIds.Keys| == |old(batchIds).Keys| + |f.transactions|
      ensures outcome.Success? && outcome.value.Imported? ==>
        && (forall key <- old(accountIds) :: key in accountIds && accountIds[key] == old(accountIds)[key])
        && (forall key :: key in accountIds <==>
              key in old(accountIds) || exists a <- f.accounts :: key == CodeKey(companyId, a.code))
      ensures outcome.Success? && outcome.value.Imported? ==>
        && |lines| == |old(lines)| + |f.entries| && lines[..|old(lines)|] == old(lines)
        && (forall i :: 0 <= i < |f.entries| ==>
              var e, line := f.entries[i], lines[|old(lines)| + i];
              var doc, code := DocKey(companyId, e.transactionId), CodeKey(companyId, e.accountCode);
              && doc in batchIds && line.batchId == batchIds[doc]
              && code in accountIds && line.accountId == accountIds[code] && line.companyId == companyId
              && line.debit == (if e.isDebit then e.amount else 0)
              && line.credit == (if e.isDebit then 0 else e.amount))
    {
      hide ImportedInto, WellFormed, TransactionOutcome;
      AnswerMeans(Current(), companyId, f, openDates);
      var valid := ValidateFiles(f);
      var hashKey := HashKey(companyId, f.hash);
      if !valid {
        outcome := Failure(InvalidFiles);
      } else if !PeriodsOpen(f, openDates) {
        outcome := Failure(PeriodNotOpen);
      } else if hashKey in imports {
        outcome := Success(Duplicate(imports[hashKey]));
      } else {
        outcome := ImportInTransaction(companyId, f);
      }
      if outcome.Success? && outcome.value.Imported? {
        WrittenKeys(old(Current()), Current(), companyId, f);
        WrittenLines(old(Current()), Current(), companyId, f);
      }
    }
  }

  function Distance(a: int, b: int): nat { if a < b then b - a else a - b }

  function Min(a: nat, b: nat): nat { if a < b then a else b }
}
