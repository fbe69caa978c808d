/** Runs of the number allocator: generated numbers never repeat. */
module NumberingRuns {
  import opened Common
  import opened Calendar
  import opened Decimal
  import opened NumberPattern
  import opened Numbering

  datatype Op =
    | Generate(scope: Scope, now: Day)
    | Reserve(scope: Scope, requested: string, taken: bool)

  function Apply(rows: seq<Template>, op: Op): seq<Template> {
    match op
    case Generate(scope, now) => AfterGenerate(rows, scope, now)
    case Reserve(scope, requested, taken) => AfterReserve(rows, scope, requested, taken)
  }

  function RowsAfter(rows: seq<Template>, ops: seq<Op>): seq<Template> {
    if ops == [] then rows else Apply(RowsAfter(rows, ops[..|ops| - 1]), ops[|ops| - 1])
  }

  /** A number handed out for a template, with the reset period it was handed out in. */
  datatype Issue = Issue(value: nat, period: int, day: Day, number: string)

  /** What one operation hands out for template `k`, if anything. */
  function IssuedBy(rows: seq<Template>, op: Op, k: nat): seq<Issue> {
    if op.Generate? && GenerateOutcome(rows, op.scope, op.now).Success? && SelectTemplate(rows, op.scope) == Some(k)
    then [IssueOf(rows[k], op.now)]
    else []
  }

  function IssueOf(row: Template, now: Day): Issue {
    var value := Advance(row, now).currentValue;
    Issue(value, PeriodKey(row.resetPeriod, now), now, ApplyPattern(row.pattern, value, now))
  }

  /** All numbers a run hands out for template `k`, in order. */
  function Issued(rows: seq<Template>, ops: seq<Op>, k: nat): seq<Issue> {
    if ops == [] then []
    else
      var before := ops[..|ops| - 1];
      Issued(rows, before, k) + IssuedBy(RowsAfter(rows, before), ops[|ops| - 1], k)
  }

  /** The clock never runs backwards and stays in four-digit years. */
  ghost predicate ClockRuns(ops: seq<Op>) {
    && (forall i :: 0 <= i < |ops| && ops[i].Generate? ==> FourDigitYear(ops[i].now))
    && (forall i, j :: 0 <= i < j < |ops| && ops[i].Generate? && ops[j].Generate? ==> ops[i].now <= ops[j].now)
  }

  /** Rows keep everything but their counter and reset date, and a null reset date stays null. */
  ghost predicate SameTemplate(a: Template, b: Template) {
    && b == a.(currentValue := b.currentValue, lastReset := b.lastReset)
    && (a.lastReset.None? <==> b.lastReset.None?)
  }

  lemma StepPersists(rows: seq<Template>, op: Op, k: nat)
    requires k < |rows|
    ensures |Apply(rows, op)| == |rows| && SameTemplate(rows[k], Apply(rows, op)[k])
  {
    hide ApplyPattern, ParseTrailingSequence, SelectTemplate, GetISOWeek, SameDayLocal, YearOf, MonthOf;
  }

  lemma LastApplied(rows: seq<Template>, before: seq<Op>, op: Op, k: nat)
    ensures RowsAfter(rows, before + [op]) == Apply(RowsAfter(rows, before), op)
    ensures Issued(rows, before + [op], k) == Issued(rows, before, k) + IssuedBy(RowsAfter(rows, before), op, k)
  {
    hide Apply, IssuedBy;
    assert (before + [op])[..|before|] == before;
  }

  /** The issues of a run are the answers of its successful generations from the row, in order. */
  lemma EveryAnswerIsIssued(rows: seq<Template>, before: seq<Op>, op: Op, k: nat)
    ensures
      var mid := RowsAfter(rows, before);
      var answered := op.Generate? && SelectTemplate(mid, op.scope) == Some(k)
                      && GenerateOutcome(mid, op.scope, op.now).Success?;
      var issued, issued' := Issued(rows, before, k), Issued(rows, before + [op], k);
      if answered
      then |issued'| == |issued| + 1 && issued'[..|issued|] == issued && issued'[|issued|].day == op.now
           && issued'[|issued|].number == GenerateOutcome(mid, op.scope, op.now).value
           && issued'[|issued|].value == AfterGenerate(mid, op.scope, op.now)[k].currentValue
      else issued' == issued
    ensures Issued(rows, [], k) == []
  {
    hide ApplyPattern, SelectTemplate, NeedsReset, PeriodKey, Apply, RowsAfter;
    LastApplied(rows, before, op, k);
  }

  lemma {:induction false} TemplatesPersist(rows: seq<Template>, ops: seq<Op>)
    ensures |RowsAfter(rows, ops)| == |rows|
    ensures forall k :: 0 <= k < |rows| ==> SameTemplate(rows[k], RowsAfter(rows, ops)[k])
  {
    hide Apply;
    if ops != [] {
      var before := RowsAfter(rows, ops[..|ops| - 1]);
      TemplatesPersist(rows, ops[..|ops| - 1]);
      ApplyKeepsRows(before, ops[|ops| - 1]);
      forall k | 0 <= k < |rows| ensures SameTemplate(rows[k], RowsAfter(rows, ops)[k]) {
        StepPersists(before, ops[|ops| - 1], k);
      }
    }
  }

  lemma ApplyKeepsRows(rows: seq<Template>, op: Op)
    ensures |Apply(rows, op)| == |rows|
  {
    hide ApplyPattern, Advance, ParseTrailingSequence, SelectTemplate;
  }

  // ------------------------------------------------------ numbers stay distinct

  /** A row's counter, with the period of its last reset. */
  datatype Counter = Counter(value: nat, period: Option<int>)

  function CounterOf(row: Template): Counter {
    Counter(row.currentValue,
            if row.lastReset.None? then None else Some(PeriodKey(row.resetPeriod, row.lastReset.value)))
  }

  function Next(c: Counter, period: int): Counter {
    if c.period.Some? && c.period.value != period then Counter(1, Some(period)) else Counter(c.value + 1, c.period)
  }

  lemma AdvanceIsNext(row: Template, now: Day)
    requires FromYear100(now) && (row.lastReset.Some? ==> FromYear100(row.lastReset.value))
    requires row.resetPeriod.Never? ==> row.lastReset.Some? ==>
      PeriodKey(Never, row.lastReset.value) == PeriodKey(Never, now)
    ensures CounterOf(Advance(row, now)) == Next(CounterOf(row), PeriodKey(row.resetPeriod, now))
  {
    if row.lastReset.Some? {
      NeedsResetIff(row.lastReset.value, row.resetPeriod, now);
    }
  }

  /** What the numbers issued so far say about the counter. */
  ghost predicate Tracks(issues: seq<Issue>, c: Counter) {
    && (forall i, j :: 0 <= i < j < |issues| ==> issues[i].period <= issues[j].period)
    && (issues != [] && c.period.Some? ==> c.period.value == issues[|issues| - 1].period)
    && (forall i :: 0 <= i < |issues| && (c.period.None? || issues[i].period == issues[|issues| - 1].period) ==>
          issues[i].value <= c.value)
    && (forall i, j :: 0 <= i < j < |issues| && (c.period.None? || issues[i].period == issues[j].period) ==>
          issues[i].value < issues[j].value)
  }

  lemma NextTracks(issues: seq<Issue>, c: Counter, issue: Issue)
    requires Tracks(issues, c)
    requires forall i :: 0 <= i < |issues| ==> issues[i].period <= issue.period
    requires issue.value == Next(c, issue.period).value
    ensures Tracks(issues + [issue], Next(c, issue.period))
  {
  }

  /** Issues come from the run, carry their period, and spell their value by the pattern. */
  ghost predicate Genuine(issues: seq<Issue>, row: Template, ops: seq<Op>) {
    forall e <- issues :: GenuineIssue(e, row, ops)
  }

  ghost predicate GenuineIssue(e: Issue, row: Template, ops: seq<Op>) {
    && e.period == PeriodKey(row.resetPeriod, e.day)
    && e.number == ApplyPattern(row.pattern, e.value, e.day)
    && exists i :: 0 <= i < |ops| && ops[i].Generate? && ops[i].now == e.day
  }

  lemma GenuineExtends(e: Issue, row: Template, row': Template, ops: seq<Op>, op: Op)
    requires GenuineIssue(e, row, ops) && SameTemplate(row, row')
    ensures GenuineIssue(e, row', ops + [op])
  {
    var i :| 0 <= i < |ops| && ops[i].Generate? && ops[i].now == e.day;
    assert (ops + [op])[i] == ops[i];
  }

  lemma IssueIsGenuine(rows: seq<Template>, op: Op, k: nat, e: Issue, row': Template, before: seq<Op>)
    requires k < |rows| && e in IssuedBy(rows, op, k) && SameTemplate(rows[k], row')
    ensures GenuineIssue(e, row', before + [op])
  {
    assert (before + [op])[|before|] == op;
  }

  lemma {:induction false} RunIsGenuine(rows: seq<Template>, ops: seq<Op>, k: nat)
    requires k < |rows|
    ensures |RowsAfter(rows, ops)| == |rows|
    ensures Genuine(Issued(rows, ops, k), RowsAfter(rows, ops)[k], ops)
  {
    hide Apply, IssuedBy, GenuineIssue;
    TemplatesPersist(rows, ops);
    if ops != [] {
      var before, op := ops[..|ops| - 1], ops[|ops| - 1];
      TemplatesPersist(rows, before);
      RunIsGenuine(rows, before, k);
      var mid, row' := RowsAfter(rows, before), RowsAfter(rows, ops)[k];
      assert before + [op] == ops;
      StepPersists(mid, op, k);
      forall e <- Issued(rows, ops, k) ensures GenuineIssue(e, row', ops) {
        if e in Issued(rows, before, k) {
          GenuineExtends(e, mid[k], row', before, op);
        } else {
          IssueIsGenuine(mid, op, k, e, row', before);
        }
      }
    }
  }

  /** A step that issues nothing for the row can only raise its counter. */
  lemma QuietStep(rows: seq<Template>, op: Op, k: nat)
    requires k < |rows| && IssuedBy(rows, op, k) == []
    ensures |Apply(rows, op)| == |rows|
    ensures Apply(rows, op)[k].lastReset == rows[k].lastReset && Apply(rows, op)[k].resetPeriod == rows[k].resetPeriod
    ensures rows[k].currentValue <= Apply(rows, op)[k].currentValue
  {
  }

  /** A raised counter of the same period is still tracked. */
  lemma RaisedCounterTracks(issues: seq<Issue>, c: Counter, c': Counter)
    requires Tracks(issues, c) && c.period == c'.period && c.value <= c'.value
    ensures Tracks(issues, c')
  {
  }

  lemma ClockPrefix(before: seq<Op>, op: Op)
    requires ClockRuns(before + [op])
    ensures ClockRuns(before)
  {
    var ops := before + [op];
    assert forall i :: 0 <= i < |before| ==> ops[i] == before[i];
  }

  lemma {:induction false} RunTracks(rows: seq<Template>, ops: seq<Op>, k: nat)
    requires k < |rows| && ClockRuns(ops)
    requires rows[k].lastReset.Some? ==> FromYear100(rows[k].lastReset.value)
    ensures |RowsAfter(rows, ops)| == |rows|
    ensures Tracks(Issued(rows, ops, k), CounterOf(RowsAfter(rows, ops)[k]))
    ensures RowsAfter(rows, ops)[k].lastReset.Some? ==> FromYear100(RowsAfter(rows, ops)[k].lastReset.value)
  {
    hide Apply, IssuedBy, Tracks, ClockRuns, FromYear100, PeriodKey;
    TemplatesPersist(rows, ops);
    if ops == [] {
      NothingTracked(CounterOf(rows[k]));
    } else {
      var before, op := ops[..|ops| - 1], ops[|ops| - 1];
      assert ops == before + [op];
      ClockPrefix(before, op);
      RunTracks(rows, before, k);
      LastApplied(rows, before, op, k);
      var mid, issues := RowsAfter(rows, before), Issued(rows, before, k);
      if IssuedBy(mid, op, k) == [] {
        QuietStep(mid, op, k);
        assert Issued(rows, ops, k) == issues;
        RaisedCounterTracks(issues, CounterOf(mid[k]), CounterOf(RowsAfter(rows, ops)[k]));
      } else {
        IssueTracks(rows, before, op, k);
      }
    }
  }

  lemma NothingTracked(c: Counter)
    ensures Tracks([], c)
  {
  }

  /** Earlier issues belong to no later period than the present moment. */
  lemma IssuesCameEarlier(issues: seq<Issue>, row: Template, before: seq<Op>, op: Op)
    requires ClockRuns(before + [op]) && op.Generate? && Genuine(issues, row, before)
    ensures forall i :: 0 <= i < |issues| ==> issues[i].period <= PeriodKey(row.resetPeriod, op.now)
  {
    hide PeriodKey, ApplyPattern;
    var ops := before + [op];
    assert ops[|before|] == op;
    forall i | 0 <= i < |issues| ensures issues[i].period <= PeriodKey(row.resetPeriod, op.now) {
      assert GenuineIssue(issues[i], row, before);
      var n :| 0 <= n < |before| && before[n].Generate? && before[n].now == issues[i].day;
      assert ops[n] == before[n];
      PeriodKeyMonotone(row.resetPeriod, issues[i].day, op.now);
    }
  }

  lemma ClockIsRecent(before: seq<Op>, op: Op)
    requires ClockRuns(before + [op]) && op.Generate?
    ensures FromYear100(op.now)
  {
    assert (before + [op])[|before|] == op;
  }

  lemma IssueTracks(rows: seq<Template>, before: seq<Op>, op: Op, k: nat)
    requires k < |rows| == |RowsAfter(rows, before)| && ClockRuns(before + [op])
    requires Tracks(Issued(rows, before, k), CounterOf(RowsAfter(rows, before)[k]))
    requires RowsAfter(rows, before)[k].lastReset.Some? ==> FromYear100(RowsAfter(rows, before)[k].lastReset.value)
    requires IssuedBy(RowsAfter(rows, before), op, k) != []
    ensures var row := Apply(RowsAfter(rows, before), op)[k];
      && Tracks(Issued(rows, before, k) + IssuedBy(RowsAfter(rows, before), op, k), CounterOf(row))
      && (row.lastReset.Some? ==> FromYear100(row.lastReset.value))
  {
    hide RowsAfter, Issued, Tracks, FromYear100, ApplyPattern, NeedsReset, YearOf, MonthOf, MondayOf, ClockRuns,
      Genuine;
    var row, issues := RowsAfter(rows, before)[k], Issued(rows, before, k);
    ClockIsRecent(before, op);
    AdvanceIsNext(row, op.now);
    RunIsGenuine(rows, before, k);
    IssuesCameEarlier(issues, row, before, op);
    NextTracks(issues, CounterOf(row), IssueOf(row, op.now));
  }

  predicate Shows(tokens: seq<Token>, p: Placeholder) { Hole(p) in tokens }

  predicate ShowsYear(tokens: seq<Token>) { Shows(tokens, Yyyy) || Shows(tokens, Yy) }

  /** The pattern shows enough of the date to tell reset periods apart. */
  predicate Covers(tokens: seq<Token>, period: ResetPeriod) {
    match period
    case Never => true
    case Yearly => ShowsYear(tokens)
    case Monthly => ShowsYear(tokens) && Shows(tokens, Mm)
    case Weekly => ShowsYear(tokens) && Shows(tokens, Mm) && Shows(tokens, Dd)
    case Daily => ShowsYear(tokens) && Shows(tokens, Mm) && Shows(tokens, Dd)
  }

  lemma TwoDigitYear(d: Day)
    requires FourDigitYear(d)
    ensures AllDigits(LastTwo(Print(YearOf(d)))) && Read(LastTwo(Print(YearOf(d)))) == YearOf(d) % 100
  {
    var y := YearOf(d);
    var s := Print(y);
    assert s == Print(y / 10) + [DigitChar(y % 10)];
    assert Print(y / 10) == Print(y / 10 / 10) + [DigitChar(y / 10 % 10)];
    var t := LastTwo(s);
    assert t == [DigitChar(y / 10 % 10), DigitChar(y % 10)];
    assert t[..1] == [DigitChar(y / 10 % 10)] && t[..1][..0] == [];
    assert Read(t[..1]) == y / 10 % 10;
    assert Read(t) == 10 * Read(t[..1]) + y % 10;
    TwoDigits(y);
  }

  lemma TwoDigits(y: nat)
    ensures 10 * (y / 10 % 10) + y % 10 == y % 100
  {
  }

  lemma ShownYearsAgree(p: Placeholder, v: nat, a: Day, b: Day)
    requires p.Yyyy? || p.Yy?
    requires FourDigitYear(a) && FourDigitYear(b) && YearOf(a) / 100 == YearOf(b) / 100
    requires PlaceholderText(p, v, a) == PlaceholderText(p, v, b)
    ensures YearOf(a) == YearOf(b)
  {
    if p.Yyyy? {
      ReadPrint(YearOf(a));
      ReadPrint(YearOf(b));
    } else {
      TwoDigitYear(a);
      TwoDigitYear(b);
    }
  }

  lemma ShownPartsAgree(v: nat, a: Day, b: Day)
    ensures PlaceholderText(Mm, v, a) == PlaceholderText(Mm, v, b) ==> MonthOf(a) == MonthOf(b)
    ensures PlaceholderText(Dd, v, a) == PlaceholderText(Dd, v, b) ==> DateOf(a) == DateOf(b)
  {
    ReadPadded(MonthOf(a) + 1, 2);
    ReadPadded(MonthOf(b) + 1, 2);
    ReadPadded(DateOf(a), 2);
    ReadPadded(DateOf(b), 2);
  }

  lemma ShownDatesAgree(tokens: seq<Token>, v: nat, a: Day, b: Day)
    requires FourDigitYear(a) && FourDigitYear(b) && YearOf(a) / 100 == YearOf(b) / 100
    requires forall t <- tokens :: Chunk(t, v, a) == Chunk(t, v, b)
    ensures ShowsYear(tokens) ==> YearOf(a) == YearOf(b)
    ensures Shows(tokens, Mm) ==> MonthOf(a) == MonthOf(b)
    ensures Shows(tokens, Dd) ==> DateOf(a) == DateOf(b)
  {
    forall p | Shows(tokens, p) ensures PlaceholderText(p, v, a) == PlaceholderText(p, v, b) {
      assert Chunk(Hole(p), v, a) == Chunk(Hole(p), v, b);
    }
    if Shows(tokens, Yyyy) {
      ShownYearsAgree(Yyyy, v, a, b);
    } else if Shows(tokens, Yy) {
      ShownYearsAgree(Yy, v, a, b);
    }
    ShownPartsAgree(v, a, b);
  }

  lemma CoveredPeriodsAgree(tokens: seq<Token>, period: ResetPeriod, v: nat, a: Day, b: Day)
    requires Covers(tokens, period)
    requires FourDigitYear(a) && FourDigitYear(b) && YearOf(a) / 100 == YearOf(b) / 100
    requires forall t <- tokens :: Chunk(t, v, a) == Chunk(t, v, b)
    ensures PeriodKey(period, a) == PeriodKey(period, b)
  {
    ShownDatesAgree(tokens, v, a, b);
    SameDayIff(a, b);
  }

  /** All numbers are generated in the same century. */
  ghost predicate OneCentury(ops: seq<Op>) {
    forall m, n :: 0 <= m < |ops| && 0 <= n < |ops| && ops[m].Generate? && ops[n].Generate? ==>
      YearOf(ops[m].now) / 100 == YearOf(ops[n].now) / 100
  }

  /** Whatever mix of generations and manual reservations a run makes, across any number of
      resets, the numbers generated from one template are pairwise distinct, provided the
      clock does not run backwards or leave the century and the pattern shows a sequence and
      its reset period.  A template whose reset date is null needs no date in its pattern and
      no common century. */
  lemma NumbersAreUnique(rows: seq<Template>, ops: seq<Op>, k: nat, tokens: seq<Token>, i: nat, j: nat)
    requires k < |rows| && ClockRuns(ops)
    requires rows[k].lastReset.Some? ==>
      OneCentury(ops) && FromYear100(rows[k].lastReset.value) && Covers(tokens, rows[k].resetPeriod)
    requires rows[k].pattern == Render(tokens) && WellFormed(tokens) && HasSequence(tokens)
    requires i < j < |Issued(rows, ops, k)|
    ensures Issued(rows, ops, k)[i].number != Issued(rows, ops, k)[j].number
  {
    RunTracks(rows, ops, k);
    RunIsGenuine(rows, ops, k);
    TemplatesPersist(rows, ops);
    var a, b := Issued(rows, ops, k)[i], Issued(rows, ops, k)[j];
    var row := RowsAfter(rows, ops)[k];
    assert GenuineIssue(a, row, ops) && GenuineIssue(b, row, ops);
    ChainIsSimultaneous(tokens, a.value, a.day);
    ChainIsSimultaneous(tokens, b.value, b.day);
    if a.number == b.number {
      ExpandIsInjective(tokens, a.value, b.value, a.day, b.day);
      if row.lastReset.Some? {
        CoveredPeriodsAgree(tokens, row.resetPeriod, a.value, a.day, b.day);
      }
    }
  }

  // ------------------------------------- manual reservations push the counter on

  predicate ResetBy(rows: seq<Template>, op: Op, k: nat) {
    && op.Generate? && k < |rows| && SelectTemplate(rows, op.scope) == Some(k)
    && NeedsReset(rows[k].lastReset, rows[k].resetPeriod, op.now)
  }

  /** No operation of the run resets template `k`. */
  predicate NeverResets(rows: seq<Template>, ops: seq<Op>, k: nat) {
    ops == [] ||
    (NeverResets(rows, ops[..|ops| - 1], k) && !ResetBy(RowsAfter(rows, ops[..|ops| - 1]), ops[|ops| - 1], k))
  }

  lemma {:induction false} CounterOnlyGrows(rows: seq<Template>, ops: seq<Op>, k: nat)
    requires k < |rows| && NeverResets(rows, ops, k)
    ensures |RowsAfter(rows, ops)| == |rows| && rows[k].currentValue <= RowsAfter(rows, ops)[k].currentValue
  {
    TemplatesPersist(rows, ops);
    hide NeedsReset, ParseTrailingSequence, ApplyPattern;
    if ops != [] {
      CounterOnlyGrows(rows, ops[..|ops| - 1], k);
    }
  }

  /** After a committed reservation of number n, or a generated number n, every number
      generated from the template before its next reset has a larger sequence. */
  lemma GeneratedExceedsEarlier(rows: seq<Template>, earlier: Op, between: seq<Op>, later: Op, k: nat)
    requires k < |rows| && SelectTemplate(rows, earlier.scope) == Some(k)
    requires NeverResets(Apply(rows, earlier), between, k)
    requires !ResetBy(RowsAfter(Apply(rows, earlier), between), later, k)
    ensures forall e <- IssuedBy(RowsAfter(Apply(rows, earlier), between), later, k) ::
      && (forall f <- IssuedBy(rows, earlier, k) :: f.value < e.value)
      && (earlier.Reserve? && ReserveOutcome(rows, earlier.scope, earlier.requested, earlier.taken).Success?
          && ParseTrailingSequence(earlier.requested).Some? ==>
            ParseTrailingSequence(earlier.requested).value < e.value)
  {
    hide ApplyPattern, SelectTemplate, ParseTrailingSequence, NeedsReset, NeverResets, RowsAfter, PeriodKey;
    CounterOnlyGrows(Apply(rows, earlier), between, k);
  }

  // --------------------------------------------------------- default templates

  datatype DefaultTemplate = DefaultTemplate(docType: string, pattern: string, tokens: seq<Token>, period: ResetPeriod)

  function Monthly4(docType: string, prefix: string): DefaultTemplate {
    DefaultTemplate(docType, prefix + "/{{yy}}{{mm}}/{{seq4}}",
                    [Literal(prefix + "/"), Hole(Yy), Hole(Mm), Literal("/"), Hole(Seq4)], Monthly)
  }

  const CUSTOMER_TEMPLATE := DefaultTemplate(
    "SALES_CUSTOMER", "CUST/{{yyyy}}/{{seq4}}", [Literal("CUST/"), Hole(Yyyy), Literal("/"), Hole(Seq4)], Yearly)

  const DEFAULT_TEMPLATES: seq<DefaultTemplate> := [
    Monthly4("SALES_INVOICE", "INV"),
    Monthly4("SALES_PAYMENT", "PAY"),
    Monthly4("SALES_ORDER", "SO"),
    Monthly4("CREDIT_NOTE", "CN"),
    CUSTOMER_TEMPLATE
  ]

  function DefaultRow(companyId: nat, d: DefaultTemplate): Template {
    Template(companyId, None, d.docType, d.pattern, d.period, 0, None, true)
  }

  ghost predicate Covered(d: DefaultTemplate) {
    d.pattern == Render(d.tokens) && WellFormed(d.tokens) && HasSequence(d.tokens) && Covers(d.tokens, d.period)
  }

  lemma RenderCons(t: Token, rest: seq<Token>)
    ensures Render([t] + rest) == (if t.Literal? then t.text else Name(t.placeholder)) + Render(rest)
  {
    assert ([t] + rest)[1..] == rest;
  }

  lemma RenderTail()
    ensures Render([Literal("/"), Hole(Seq4)]) == "/{{seq4}}"
  {
    RenderCons(Hole(Seq4), []);
    RenderCons(Literal("/"), [Hole(Seq4)]);
    assert [Literal("/")] + [Hole(Seq4)] == [Literal("/"), Hole(Seq4)];
    assert [Hole(Seq4)] + [] == [Hole(Seq4)];
    assert Name(Seq4) + "" == "{{seq4}}";
  }

  lemma RenderMonth()
    ensures Render([Hole(Yy), Hole(Mm), Literal("/"), Hole(Seq4)]) == "{{yy}}{{mm}}/{{seq4}}"
  {
    var tail := [Literal("/"), Hole(Seq4)];
    RenderTail();
    RenderCons(Hole(Mm), tail);
    RenderCons(Hole(Yy), [Hole(Mm)] + tail);
    assert [Hole(Yy)] + ([Hole(Mm)] + tail) == [Hole(Yy), Hole(Mm), Literal("/"), Hole(Seq4)];
    assert Name(Mm) + "/{{seq4}}" == "{{mm}}/{{seq4}}";
    assert Name(Yy) + "{{mm}}/{{seq4}}" == "{{yy}}{{mm}}/{{seq4}}";
  }

  lemma MonthlyIsRendered(docType: string, prefix: string)
    ensures Monthly4(docType, prefix).pattern == Render(Monthly4(docType, prefix).tokens)
  {
    var rest := [Hole(Yy), Hole(Mm), Literal("/"), Hole(Seq4)];
    RenderMonth();
    RenderCons(Literal(prefix + "/"), rest);
    assert [Literal(prefix + "/")] + rest == Monthly4(docType, prefix).tokens;
    assert prefix + "/" + "{{yy}}{{mm}}/{{seq4}}" == prefix + "/{{yy}}{{mm}}/{{seq4}}";
  }

  lemma MonthlyIsCovered(docType: string, prefix: string)
    requires '{' !in prefix
    ensures Covered(Monthly4(docType, prefix))
  {
    MonthlyIsRendered(docType, prefix);
    var t := Monthly4(docType, prefix).tokens;
    assert t[4] == Hole(Seq4) && t[1] == Hole(Yy) && t[2] == Hole(Mm);
    assert t[4] in t && t[1] in t && t[2] in t;
  }

  lemma RenderCustomer()
    ensures Render([Literal("CUST/"), Hole(Yyyy), Literal("/"), Hole(Seq4)]) == "CUST/{{yyyy}}/{{seq4}}"
  {
    var tail := [Literal("/"), Hole(Seq4)];
    RenderTail();
    RenderCons(Hole(Yyyy), tail);
    RenderCons(Literal("CUST/"), [Hole(Yyyy)] + tail);
    assert [Literal("CUST/")] + ([Hole(Yyyy)] + tail) == [Literal("CUST/"), Hole(Yyyy), Literal("/"), Hole(Seq4)];
    assert Name(Yyyy) + "/{{seq4}}" == "{{yyyy}}/{{seq4}}";
    assert "CUST/" + "{{yyyy}}/{{seq4}}" == "CUST/{{yyyy}}/{{seq4}}";
  }

  lemma CustomerIsCovered()
    ensures Covered(CUSTOMER_TEMPLATE)
  {
    RenderCustomer();
    var t := CUSTOMER_TEMPLATE.tokens;
    assert t[3] == Hole(Seq4) && t[1] == Hole(Yyyy);
    assert t[3] in t && t[1] in t;
  }

  /** Every default pattern is a token pattern that shows its sequence and its reset period. */
  lemma DefaultsAreCovered(i: nat)
    requires i < |DEFAULT_TEMPLATES|
    ensures Covered(DEFAULT_TEMPLATES[i])
  {
    match i
    case 0 => MonthlyIsCovered("SALES_INVOICE", "INV");
    case 1 => MonthlyIsCovered("SALES_PAYMENT", "PAY");
    case 2 => MonthlyIsCovered("SALES_ORDER", "SO");
    case 3 => MonthlyIsCovered("CREDIT_NOTE", "CN");
    case 4 => CustomerIsCovered();
  }

  lemma ExpandCons(t: Token, rest: seq<Token>, value: nat, day: Day)
    ensures Expand([t] + rest, value, day) == Chunk(t, value, day) + Expand(rest, value, day)
  {
    assert ([t] + rest)[1..] == rest;
  }

  lemma ExpandFive(a: Token, b: Token, c: Token, d: Token, e: Token, value: nat, day: Day)
    ensures Expand([a, b, c, d, e], value, day) ==
            Chunk(a, value, day) + (Chunk(b, value, day) + (Chunk(c, value, day)
            + (Chunk(d, value, day) + (Chunk(e, value, day) + ""))))
  {
    hide Chunk;
    assert [a, b, c, d, e] == [a] + [b, c, d, e] && [b, c, d, e] == [b] + [c, d, e];
    assert [c, d, e] == [c] + [d, e] && [d, e] == [d] + [e] && [e] == [e] + [];
    EmptyExpands(value, day);
    hide Expand;
    ExpandCons(a, [b, c, d, e], value, day);
    ExpandCons(b, [c, d, e], value, day);
    ExpandCons(c, [d, e], value, day);
    ExpandCons(d, [e], value, day);
    ExpandCons(e, [], value, day);
  }

  lemma EmptyExpands(value: nat, day: Day)
    ensures Expand([], value, day) == ""
  {
  }

  /** A number of a monthly default template, from left to right. */
  lemma MonthlyNumber(docType: string, prefix: string, value: nat, day: Day)
    requires '{' !in prefix
    ensures ApplyPattern(prefix + "/{{yy}}{{mm}}/{{seq4}}", value, day) ==
            prefix + "/" + PlaceholderText(Yy, value, day) + PlaceholderText(Mm, value, day) + "/"
            + PlaceholderText(Seq4, value, day)
  {
    hide PlaceholderText, ApplyPattern, Expand, Render;
    MonthlyIsCovered(docType, prefix);
    ChainIsSimultaneous(Monthly4(docType, prefix).tokens, value, day);
    ExpandFive(Literal(prefix + "/"), Hole(Yy), Hole(Mm), Literal("/"), Hole(Seq4), value, day);
    Flatten(prefix + "/", PlaceholderText(Yy, value, day), PlaceholderText(Mm, value, day), "/",
            PlaceholderText(Seq4, value, day));
  }

  lemma Flatten(a: string, b: string, c: string, d: string, e: string)
    ensures a + (b + (c + (d + (e + "")))) == a + b + c + d + e
  {
  }

  /** Day 739676 is 1 March 2026. */
  lemma FirstOfMarch2026()
    ensures YearOf(739676) == 2026 && MonthOf(739676) == 2 && DateOf(739676) == 1
  {
    assert Jan1(2026) == 739617;
    assert DaysBefore(Leap(2026), 2) == 59 && MonthLength(2026, 2) == 31;
    CivilDayIsUnique(739676, 2026, 2, 1);
  }

  lemma TextsOfMarch2026()
    ensures PlaceholderText(Yy, 1, 739676) == "26"
    ensures PlaceholderText(Mm, 1, 739676) == "03"
    ensures PlaceholderText(Seq4, 1, 739676) == "0001"
  {
    hide PlaceholderText, YearOf, MonthOf, DateOf;
    FirstOfMarch2026();
    PlaceholderTexts(1, 739676);
    ReadPair("26");
    ReadPair("03");
    ReadIsInjective(PlaceholderText(Yy, 1, 739676), "26");
    ReadIsInjective(PlaceholderText(Mm, 1, 739676), "03");
    SequenceOne();
  }

  lemma ReadPair(s: string)
    requires AllDigits(s) && |s| == 2
    ensures Read(s) == 10 * DigitValue(s[0]) + DigitValue(s[1])
  {
    assert s[..1][..0] == [] && s[..1][0] == s[0];
    assert Read(s[..1]) == DigitValue(s[0]);
  }

  lemma SequenceOne()
    ensures PlaceholderText(Seq4, 1, 739676) == "0001"
  {
    assert Print(1) == "1";
    assert Zeros(3) == ['0'] + (['0'] + (['0'] + []));
  }

  /** The first invoice of March 2026 from the default template is INV/2603/0001. */
  lemma FirstInvoiceOfMarch2026()
    ensures ApplyPattern(DEFAULT_TEMPLATES[0].pattern, 1, 739676) == "INV/2603/0001"
  {
    hide ApplyPattern, PlaceholderText;
    MonthlyNumber("SALES_INVOICE", "INV", 1, 739676);
    TextsOfMarch2026();
  }

  /** The uniqueness of generated numbers, for a row made from a default template and whatever
      its counter and reset date have become. */
  lemma DefaultNumbersAreUnique(rows: seq<Template>, ops: seq<Op>, k: nat, d: nat, i: nat, j: nat)
    requires k < |rows| && d < |DEFAULT_TEMPLATES| && ClockRuns(ops)
    requires rows[k].pattern == DEFAULT_TEMPLATES[d].pattern && rows[k].resetPeriod == DEFAULT_TEMPLATES[d].period
    requires rows[k].lastReset.Some? ==> OneCentury(ops) && FromYear100(rows[k].lastReset.value)
    requires i < j < |Issued(rows, ops, k)|
    ensures Issued(rows, ops, k)[i].number != Issued(rows, ops, k)[j].number
  {
    DefaultsAreCovered(d);
    NumbersAreUnique(rows, ops, k, DEFAULT_TEMPLATES[d].tokens, i, j);
  }

  /** A template seeded with a null reset date never resets, whatever its period says: its
      reset date stays null and its counter never goes down. */
  lemma {:induction false} NullResetNeverFires(rows: seq<Template>, ops: seq<Op>, k: nat)
    requires k < |rows| && rows[k].lastReset.None?
    ensures |RowsAfter(rows, ops)| == |rows|
    ensures RowsAfter(rows, ops)[k].lastReset.None?
    ensures rows[k].currentValue <= RowsAfter(rows, ops)[k].currentValue
  {
    TemplatesPersist(rows, ops);
    if ops != [] {
      NullResetNeverFires(rows, ops[..|ops| - 1], k);
    }
  }

  /** A row seeded from a default template keeps a null reset date for ever: its counter only
      grows, and its numbers never repeat, in this century or any other. */
  lemma SeededTemplatesCountUp(rows: seq<Template>, ops: seq<Op>, k: nat, companyId: nat, d: nat, i: nat, j: nat)
    requires k < |rows| && d < |DEFAULT_TEMPLATES| && rows[k] == DefaultRow(companyId, DEFAULT_TEMPLATES[d])
    requires ClockRuns(ops) && i < j < |Issued(rows, ops, k)|
    ensures |RowsAfter(rows, ops)| == |rows| && RowsAfter(rows, ops)[k].lastReset.None?
    ensures Issued(rows, ops, k)[i].value < Issued(rows, ops, k)[j].value
    ensures Issued(rows, ops, k)[i].number != Issued(rows, ops, k)[j].number
  {
    NullResetNeverFires(rows, ops, k);
    RunTracks(rows, ops, k);
    DefaultNumbersAreUnique(rows, ops, k, d, i, j);
  }
}
