/** The closing journal entry of a fiscal year: how it is generated from the profit-and-loss
    balances, and the balance checks it must pass before the year can be closed. */
module ClosingEntries {

  /** A line as proposed by the preview; amounts are in currency units. */
  datatype EntryLine = EntryLine(accountId: nat, debit: real, credit: real)

  /** A line as stored in DECIMAL(18,2) columns, in cents. */
  datatype StoredLine = StoredLine(accountId: nat, debitCents: int, creditCents: int)

  datatype ClosePreview = ClosePreview(
    closingEntries: seq<EntryLine>,
    netIncome: real,
    totalIncome: real,
    totalExpenses: real)

  function Sum<T>(f: T -> int, s: seq<T>): int {
    if s == [] then 0 else f(s[0]) + Sum(f, s[1..])
  }

  lemma {:induction false} SumConcat<T>(f: T -> int, a: seq<T>, b: seq<T>)
    ensures Sum(f, a + b) == Sum(f, a) + Sum(f, b)
  {
    if a == [] {
      assert a + b == b;
    } else {
      assert (a + b)[1..] == a[1..] + b;
      SumConcat(f, a[1..], b);
    }
  }

  // -------------------------------------------------- fixed-point balance check

  /** Math.round(value * 10000). */
  function Scaled(value: real): int { (value * 10000.0 + 0.5).Floor }

  function ScaledDebit(line: EntryLine): int { Scaled(line.debit) }

  function ScaledCredit(line: EntryLine): int { Scaled(line.credit) }

  predicate ScaledTotalsAgree(lines: seq<EntryLine>) {
    Sum(ScaledDebit, lines) == Sum(ScaledCredit, lines)
  }

  function TotalDebit(lines: seq<EntryLine>): real {
    if lines == [] then 0.0 else lines[0].debit + TotalDebit(lines[1..])
  }

  function TotalCredit(lines: seq<EntryLine>): real {
    if lines == [] then 0.0 else lines[0].credit + TotalCredit(lines[1..])
  }

  /** A multiple of 0.0001, the resolution of the check. */
  predicate OnGrid(value: real) { value * 10000.0 == (value * 10000.0).Floor as real }

  lemma RoundingError(x: real)
    ensures -0.5 <= (x + 0.5).Floor as real - x <= 0.5
    ensures x == x.Floor as real ==> (x + 0.5).Floor == x.Floor
  {
    var n := (x + 0.5).Floor;
    assert n as real <= x + 0.5 < n as real + 1.0;
  }

  lemma ScaledError(value: real)
    ensures -0.5 <= Scaled(value) as real - value * 10000.0 <= 0.5
    ensures OnGrid(value) ==> Scaled(value) as real == value * 10000.0
  {
    RoundingError(value * 10000.0);
  }

  lemma {:induction false} ScaledErrors(lines: seq<EntryLine>)
    ensures -0.5 * |lines| as real <= Sum(ScaledDebit, lines) as real - TotalDebit(lines) * 10000.0 <=
      0.5 * |lines| as real
    ensures -0.5 * |lines| as real <= Sum(ScaledCredit, lines) as real - TotalCredit(lines) * 10000.0 <=
      0.5 * |lines| as real
    ensures (forall line <- lines :: OnGrid(line.debit) && OnGrid(line.credit)) ==>
      && Sum(ScaledDebit, lines) as real == TotalDebit(lines) * 10000.0
      && Sum(ScaledCredit, lines) as real == TotalCredit(lines) * 10000.0
  {
    if lines != [] {
      ScaledErrors(lines[1..]);
      ScaledError(lines[0].debit);
      ScaledError(lines[0].credit);
      assert |lines| as real == 1.0 + |lines[1..]| as real;
      assert lines[0] in lines;
    }
  }

  /** On amounts that are multiples of 0.0001 the scaled test accepts exactly the balanced entries. */
  lemma ScaledCheckIsExactOnGrid(lines: seq<EntryLine>)
    requires forall line <- lines :: OnGrid(line.debit) && OnGrid(line.credit)
    ensures ScaledTotalsAgree(lines) <==> TotalDebit(lines) == TotalCredit(lines)
  {
    ScaledErrors(lines);
  }

  /** On arbitrary amounts an accepted entry of n lines is off by at most n * 0.0001. */
  lemma ScaledCheckTolerance(lines: seq<EntryLine>)
    requires ScaledTotalsAgree(lines)
    ensures -0.0001 * |lines| as real <= TotalDebit(lines) - TotalCredit(lines) <= 0.0001 * |lines| as real
  {
    ScaledErrors(lines);
  }

  // ------------------------------------------------------ the journal service

  /** Rounds to whole cents, as a DECIMAL(18,2) column does for a non-negative amount. */
  function Cents(value: real): int { (value * 100.0 + 0.5).Floor }

  function StoreLine(line: EntryLine): StoredLine {
    StoredLine(line.accountId, Cents(line.debit), Cents(line.credit))
  }

  function Store(lines: seq<EntryLine>): (stored: seq<StoredLine>)
    ensures |stored| == |lines|
    ensures forall i :: 0 <= i < |lines| ==> stored[i] == StoreLine(lines[i])
  {
    if lines == [] then [] else [StoreLine(lines[0])] + Store(lines[1..])
  }

  function DebitCents(line: StoredLine): int { line.debitCents }

  function CreditCents(line: StoredLine): int { line.creditCents }

  /** The imbalance query finds nothing to report. */
  predicate StoredTotalsAgree(lines: seq<StoredLine>) {
    Sum(DebitCents, lines) == Sum(CreditCents, lines)
  }

  /** The CHECK constraint on journal lines: exactly one side, and positive. */
  predicate OneSided(line: StoredLine) {
    || (line.debitCents > 0 && line.creditCents == 0)
    || (line.creditCents > 0 && line.debitCents == 0)
  }

  /** What the journal service demands of a manual entry. */
  predicate ManualEntryValid(lines: seq<EntryLine>) {
    && -0.01 < TotalDebit(lines) - TotalCredit(lines) < 0.01
    && (forall line <- lines :: !(line.debit > 0.0 && line.credit > 0.0) && !(line.debit == 0.0 && line.credit == 0.0))
    && (forall line <- lines :: OneSided(StoreLine(line)))
  }

  /** Rounding to the nearest cent, halves up. */
  lemma CentsRounds(value: real)
    ensures Cents(value) as real - 0.5 <= value * 100.0 < Cents(value) as real + 0.5
  {
    RoundingError(value * 100.0);
  }

  /** Debits minus credits of stored lines, in cents. */
  function NetCents(lines: seq<StoredLine>): int {
    if lines == [] then 0 else lines[0].debitCents - lines[0].creditCents + NetCents(lines[1..])
  }

  /** The imbalance query passes exactly the batches whose debits and credits are equal. */
  lemma {:induction false} ImbalanceQueryIff(lines: seq<StoredLine>)
    ensures StoredTotalsAgree(lines) <==> NetCents(lines) == 0
  {
    SumsAreNet(lines);
  }

  lemma {:induction false} SumsAreNet(lines: seq<StoredLine>)
    ensures Sum(DebitCents, lines) - Sum(CreditCents, lines) == NetCents(lines)
  {
    if lines != [] {
      SumsAreNet(lines[1..]);
    }
  }

  // --------------------------------------------------- generating the entries

  /** A profit-and-loss account with its fiscal-year sums, in cents.  Normal balance 'K'
      marks an income account; anything else is treated as an expense. */
  datatype Account = Account(id: nat, normalBalance: char, debitSum: nat, creditSum: nat)

  predicate IsIncome(a: Account) { a.normalBalance == 'K' }

  function Balance(a: Account): int {
    if IsIncome(a) then a.creditSum - a.debitSum else a.debitSum - a.creditSum
  }

  function Abs(n: int): nat { if n < 0 then -n else n }

  function Units(cents: int): real { cents as real / 100.0 }

  function IncomeBalance(a: Account): int { if IsIncome(a) then Balance(a) else 0 }

  function ExpenseBalance(a: Account): int { if IsIncome(a) then 0 else Balance(a) }

  function NetIncome(accounts: seq<Account>): int { Sum(IncomeBalance, accounts) - Sum(ExpenseBalance, accounts) }

  /** The lines closing the accounts of one kind; accounts at zero are skipped. */
  function CloseKind(accounts: seq<Account>, income: bool): seq<EntryLine> {
    if accounts == [] then []
    else
      var a := accounts[0];
      var rest := CloseKind(accounts[1..], income);
      if IsIncome(a) != income || Balance(a) == 0 then rest
      else if income then [EntryLine(a.id, Units(Abs(Balance(a))), 0.0)] + rest
      else [EntryLine(a.id, 0.0, Units(Abs(Balance(a))))] + rest
  }

  function TransferLine(net: int, retainedEarningsId: nat): seq<EntryLine> {
    if net > 0 then [EntryLine(retainedEarningsId, 0.0, Units(net))]
    else if net < 0 then [EntryLine(retainedEarningsId, Units(-net), 0.0)]
    else []
  }

  function GenerateClosingEntries(accounts: seq<Account>, retainedEarningsId: nat): seq<EntryLine> {
    CloseKind(accounts, true) + CloseKind(accounts, false) + TransferLine(NetIncome(accounts), retainedEarningsId)
  }

  function Preview(accounts: seq<Account>, retainedEarningsId: nat): ClosePreview {
    ClosePreview(GenerateClosingEntries(accounts, retainedEarningsId), Units(NetIncome(accounts)),
                 Units(Sum(IncomeBalance, accounts)), Units(Sum(ExpenseBalance, accounts)))
  }

  lemma PreviewAddsUp(accounts: seq<Account>, retainedEarningsId: nat)
    ensures var p := Preview(accounts, retainedEarningsId); p.netIncome == p.totalIncome - p.totalExpenses
  {
  }

  // ----------------------------------------------- when the entries balance

  /** How far an account stands on the wrong side of its normal balance. */
  function ContraIncome(a: Account): int { if IsIncome(a) && Balance(a) < 0 then -Balance(a) else 0 }

  function ContraExpense(a: Account): int { if !IsIncome(a) && Balance(a) < 0 then -Balance(a) else 0 }

  /** Every amount of `lines` is a whole number of cents, and each line is one-sided. */
  ghost predicate WholeCents(lines: seq<EntryLine>) {
    forall line <- lines ::
      && line.debit == Units(Cents(line.debit)) && line.credit == Units(Cents(line.credit))
      && OneSided(StoreLine(line))
  }

  lemma UnitsRoundTrip(n: int)
    ensures Cents(Units(n)) == n
  {
  }

  function LineDebit(line: EntryLine): int { Cents(line.debit) }

  function LineCredit(line: EntryLine): int { Cents(line.credit) }

  lemma {:induction false} CloseKindTotals(accounts: seq<Account>, income: bool)
    ensures WholeCents(CloseKind(accounts, income))
    ensures Sum(LineDebit, CloseKind(accounts, income)) == (
      if income then Sum(IncomeBalance, accounts) + 2 * Sum(ContraIncome, accounts) else 0)
    ensures Sum(LineCredit, CloseKind(accounts, income)) == (
      if income then 0 else Sum(ExpenseBalance, accounts) + 2 * Sum(ContraExpense, accounts))
  {
    if accounts != [] {
      var a, rest := accounts[0], CloseKind(accounts[1..], income);
      CloseKindTotals(accounts[1..], income);
      UnitsRoundTrip(Abs(Balance(a)));
      UnitsRoundTrip(0);
      var all := CloseKind(accounts, income);
      if all != rest {
        assert all[1..] == rest;
        assert forall line <- all :: line == all[0] || line in rest;
      }
    }
  }

  lemma {:induction false} WholeCentsTotals(lines: seq<EntryLine>)
    requires WholeCents(lines)
    ensures Sum(ScaledDebit, lines) == 100 * Sum(LineDebit, lines)
    ensures Sum(ScaledCredit, lines) == 100 * Sum(LineCredit, lines)
    ensures TotalDebit(lines) == Units(Sum(LineDebit, lines))
    ensures TotalCredit(lines) == Units(Sum(LineCredit, lines))
    ensures Sum(DebitCents, Store(lines)) == Sum(LineDebit, lines)
    ensures Sum(CreditCents, Store(lines)) == Sum(LineCredit, lines)
  {
    if lines != [] {
      assert lines[0] in lines;
      assert WholeCents(lines[1..]) by {
        assert forall line <- lines[1..] :: line in lines;
      }
      WholeCentsTotals(lines[1..]);
      assert Store(lines)[1..] == Store(lines[1..]);
    }
  }

  lemma GeneratedTotals(accounts: seq<Account>, retainedEarningsId: nat)
    ensures var lines := GenerateClosingEntries(accounts, retainedEarningsId);
      && WholeCents(lines)
      && Sum(LineDebit, lines) - Sum(LineCredit, lines) ==
        2 * (Sum(ContraIncome, accounts) - Sum(ContraExpense, accounts))
  {
    var incomes, expenses := CloseKind(accounts, true), CloseKind(accounts, false);
    var net := NetIncome(accounts);
    var transfer := TransferLine(net, retainedEarningsId);
    CloseKindTotals(accounts, true);
    CloseKindTotals(accounts, false);
    UnitsRoundTrip(Abs(net));
    UnitsRoundTrip(0);
    assert WholeCents(transfer);
    assert Sum(LineDebit, transfer) - Sum(LineCredit, transfer) == -net;
    SumConcat(LineDebit, incomes, expenses);
    SumConcat(LineDebit, incomes + expenses, transfer);
    SumConcat(LineCredit, incomes, expenses);
    SumConcat(LineCredit, incomes + expenses, transfer);
    assert forall line <- incomes + expenses + transfer :: line in incomes || line in expenses || line in transfer;
  }

  /** The generated entry passes every check exactly when the amounts standing on the wrong
      side of income accounts equal those on the wrong side of expense accounts. */
  lemma ClosingEntriesBalanceIff(accounts: seq<Account>, retainedEarningsId: nat)
    ensures var lines := GenerateClosingEntries(accounts, retainedEarningsId);
      var balanced := Sum(ContraIncome, accounts) == Sum(ContraExpense, accounts);
      && (ScaledTotalsAgree(lines) <==> balanced)
      && (balanced ==> ManualEntryValid(lines) && StoredTotalsAgree(Store(lines)))
  {
    GeneratedTotals(accounts, retainedEarningsId);
    WholeCentsTotals(GenerateClosingEntries(accounts, retainedEarningsId));
  }

  // ----------------------------------------------------- what closing achieves

  /** What the posted lines add to the debit side less the credit side of one account. */
  function Movement(lines: seq<StoredLine>, id: nat): int {
    if lines == [] then 0
    else (if lines[0].accountId == id then lines[0].debitCents - lines[0].creditCents else 0) + Movement(lines[1..], id)
  }

  lemma {:induction false} MovementConcat(a: seq<StoredLine>, b: seq<StoredLine>, id: nat)
    ensures Movement(a + b, id) == Movement(a, id) + Movement(b, id)
  {
    if a == [] {
      assert a + b == b;
    } else {
      assert (a + b)[1..] == a[1..] + b;
      MovementConcat(a[1..], b, id);
    }
  }

  /** The balance of an account after the lines are posted. */
  function BalanceAfter(a: Account, lines: seq<StoredLine>): int {
    if IsIncome(a) then Balance(a) - Movement(lines, a.id) else Balance(a) + Movement(lines, a.id)
  }

  ghost predicate DistinctIds(accounts: seq<Account>) {
    forall i, j :: 0 <= i < j < |accounts| ==> accounts[i].id != accounts[j].id
  }

  lemma {:induction false} StoreConcat(a: seq<EntryLine>, b: seq<EntryLine>)
    ensures Store(a + b) == Store(a) + Store(b)
  {
  }

  lemma {:induction false} CloseKindMovement(accounts: seq<Account>, income: bool, id: nat)
    requires DistinctIds(accounts)
    ensures (forall a <- accounts :: a.id != id) ==> Movement(Store(CloseKind(accounts, income)), id) == 0
    ensures forall a <- accounts :: a.id == id ==>
      Movement(Store(CloseKind(accounts, income)), id) ==
        if IsIncome(a) != income then 0 else if income then Abs(Balance(a)) else 0 - Abs(Balance(a))
  {
    if accounts != [] {
      var a, tail := accounts[0], accounts[1..];
      var all, rest := CloseKind(accounts, income), CloseKind(tail, income);
      CloseKindMovement(tail, income, id);
      UnitsRoundTrip(Abs(Balance(a)));
      UnitsRoundTrip(0);
      if all != rest {
        assert all == [all[0]] + rest;
        StoreConcat([all[0]], rest);
        MovementConcat(Store([all[0]]), Store(rest), id);
        assert Store([all[0]]) == [StoreLine(all[0])];
      }
      if a.id == id {
        assert forall b <- tail :: b.id != id;
      }
      assert forall b <- accounts :: b == a || b in tail;
    }
  }

  lemma ThreeMovements(a: seq<EntryLine>, b: seq<EntryLine>, c: seq<EntryLine>, id: nat)
    ensures Movement(Store(a + b + c), id) == Movement(Store(a), id) + Movement(Store(b), id) + Movement(Store(c), id)
  {
    StoreConcat(a, b);
    StoreConcat(a + b, c);
    MovementConcat(Store(a), Store(b), id);
    MovementConcat(Store(a) + Store(b), Store(c), id);
  }

  /** Posting the entry leaves each profit-and-loss account at zero exactly when it stood on
      its normal side (otherwise its balance is doubled), and moves the net income of the
      year into retained earnings. */
  lemma ClosingZeroesAccounts(accounts: seq<Account>, retainedEarningsId: nat)
    requires DistinctIds(accounts)
    requires forall a <- accounts :: a.id != retainedEarningsId
    ensures var lines := Store(GenerateClosingEntries(accounts, retainedEarningsId));
      && (forall a <- accounts :: BalanceAfter(a, lines) == if Balance(a) >= 0 then 0 else 2 * Balance(a))
      && Movement(lines, retainedEarningsId) == -NetIncome(accounts)
  {
    var incomes, expenses := CloseKind(accounts, true), CloseKind(accounts, false);
    var net := NetIncome(accounts);
    var transfer := TransferLine(net, retainedEarningsId);
    UnitsRoundTrip(Abs(net));
    UnitsRoundTrip(0);
    assert Store(transfer) == if net == 0 then [] else [StoreLine(transfer[0])];
    forall id: nat
      ensures Movement(Store(incomes + expenses + transfer), id) ==
        Movement(Store(incomes), id) + Movement(Store(expenses), id) + (if id == retainedEarningsId then -net else 0)
    {
      ThreeMovements(incomes, expenses, transfer, id);
    }
    hide CloseKind, Store, TransferLine;
    CloseKindMovement(accounts, true, retainedEarningsId);
    CloseKindMovement(accounts, false, retainedEarningsId);
    forall a <- accounts
      ensures BalanceAfter(a, Store(incomes + expenses + transfer)) == if Balance(a) >= 0 then 0 else 2 * Balance(a)
    {
      CloseKindMovement(accounts, true, a.id);
      CloseKindMovement(accounts, false, a.id);
    }
  }

  /** A single income account with a debit surplus of 100.00 cannot be closed. */
  lemma DebitSurplusBlocksTheClose(retainedEarningsId: nat)
    ensures !ScaledTotalsAgree(GenerateClosingEntries([Account(1, 'K', 10000, 0)], retainedEarningsId))
  {
    var accounts := [Account(1, 'K', 10000, 0)];
    ClosingEntriesBalanceIff(accounts, retainedEarningsId);
    assert accounts[1..] == [];
    assert Sum(ContraIncome, accounts) == 10000 && Sum(ContraExpense, accounts) == 0;
  }

  /** Neither can a single account with ordinary income that the import has marked 'C'. */
  lemma UnmarkedIncomeBlocksTheClose(retainedEarningsId: nat)
    ensures !ScaledTotalsAgree(GenerateClosingEntries([Account(1, 'C', 0, 10000)], retainedEarningsId))
  {
    var accounts := [Account(1, 'C', 0, 10000)];
    NoIncomeAccountsCloseIff(accounts, retainedEarningsId);
    assert accounts[0] in accounts;
  }

  /** The accounting import marks income accounts 'C', not 'K'.  A chart without any 'K'
      account can therefore be closed only while no account has a credit surplus. */
  lemma NoIncomeAccountsCloseIff(accounts: seq<Account>, retainedEarningsId: nat)
    requires forall a <- accounts :: !IsIncome(a)
    ensures ScaledTotalsAgree(GenerateClosingEntries(accounts, retainedEarningsId)) <==>
      forall a <- accounts :: a.creditSum <= a.debitSum
  {
    ClosingEntriesBalanceIff(accounts, retainedEarningsId);
    ContraSums(accounts);
  }

  lemma {:induction false} ContraSums(accounts: seq<Account>)
    requires forall a <- accounts :: !IsIncome(a)
    ensures Sum(ContraIncome, accounts) == 0 <= Sum(ContraExpense, accounts)
    ensures Sum(ContraExpense, accounts) == 0 <==> forall a <- accounts :: a.creditSum <= a.debitSum
  {
    if accounts != [] {
      assert accounts[0] in accounts;
      assert forall a <- accounts[1..] :: a in accounts;
      ContraSums(accounts[1..]);
      assert forall a <- accounts :: a == accounts[0] || a in accounts[1..];
    }
  }
}
