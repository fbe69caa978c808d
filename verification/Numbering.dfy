/** Allocation of document numbers from templates with period resets and manual
    reservations. */
module Numbering {
  import opened Common
  import opened Calendar
  import opened Decimal
  import opened NumberPattern
  import opened Text

  datatype ResetPeriod = Never | Yearly | Monthly | Weekly | Daily

  datatype Template = Template(
    companyId: nat,
    outletId: Option<nat>,
    docType: string,
    pattern: string,
    resetPeriod: ResetPeriod,
    currentValue: nat,
    lastReset: Option<Day>,
    isActive: bool)

  datatype NumberingError = TemplateNotFound | NumberTaken | DatabaseError

  /** The largest value of an INT UNSIGNED column. */
  const MAX_VALUE: nat := 4294967295

  const DEFAULT_MAX_RETRIES := 5

  /** Which template row a call works on. */
  datatype Scope = Scope(companyId: nat, outletId: Option<nat>, docType: string)

  function NeedsReset(lastReset: Option<Day>, period: ResetPeriod, now: Day): bool {
    if period.Never? || lastReset.None? then false
    else
      var last := lastReset.value;
      match period
      case Yearly => YearOf(last) != YearOf(now)
      case Monthly => YearOf(last) != YearOf(now) || MonthOf(last) != MonthOf(now)
      case Weekly => GetISOWeek(last).year != GetISOWeek(now).year || GetISOWeek(last).week != GetISOWeek(now).week
      case Daily => !SameDayLocal(last, now)
      case Never => false
  }

  predicate InScope(t: Template, scope: Scope, outletId: Option<nat>) {
    t.isActive && t.companyId == scope.companyId && t.docType == scope.docType && t.outletId == outletId
  }

  /** The first active row of the scope's company and type whose outlet is exactly `outletId`. */
  function FirstRow(rows: seq<Template>, scope: Scope, outletId: Option<nat>): (r: Option<nat>)
    ensures r.Some? ==> r.value < |rows| && InScope(rows[r.value], scope, outletId)
    ensures r.Some? ==> forall j :: 0 <= j < r.value ==> !InScope(rows[j], scope, outletId)
    ensures r.None? ==> forall t <- rows :: !InScope(t, scope, outletId)
  {
    if rows == [] then None
    else if InScope(rows[0], scope, outletId) then Some(0)
    else
      match FirstRow(rows[1..], scope, outletId)
      case None => None
      case Some(i) => Some(i + 1)
  }

  /** ORDER BY outlet_id DESC LIMIT 1: an outlet's own template before the company's. */
  function SelectTemplate(rows: seq<Template>, scope: Scope): (r: Option<nat>)
    ensures r.Some? ==> r.value < |rows|
  {
    if scope.outletId.Some? && FirstRow(rows, scope, scope.outletId).Some?
    then FirstRow(rows, scope, scope.outletId)
    else FirstRow(rows, scope, None)
  }

  /** The row after one generated number; the new current value is that number's sequence. */
  function Advance(t: Template, now: Day): Template {
    if NeedsReset(t.lastReset, t.resetPeriod, now)
    then t.(currentValue := 1, lastReset := Some(now))
    else t.(currentValue := t.currentValue + 1)
  }

  function GenerateOutcome(rows: seq<Template>, scope: Scope, now: Day): Result<string, NumberingError> {
    match SelectTemplate(rows, scope)
    case None => Failure(TemplateNotFound)
    case Some(k) =>
      var t := Advance(rows[k], now);
      if t.currentValue > MAX_VALUE then Failure(DatabaseError)
      else Success(ApplyPattern(rows[k].pattern, t.currentValue, now))
  }

  function AfterGenerate(rows: seq<Template>, scope: Scope, now: Day): seq<Template> {
    if GenerateOutcome(rows, scope, now).Failure? then rows
    else var k := SelectTemplate(rows, scope).value; rows[k := Advance(rows[k], now)]
  }

  // ------------------------------------------------------ manual reservations

  function TrailingDigits(s: string): (d: string)
    ensures AllDigits(d)
  {
    if s == [] || !IsDigit(s[|s| - 1]) then [] else TrailingDigits(s[..|s| - 1]) + [s[|s| - 1]]
  }

  /** The digits before optional trailing whitespace, if they denote a number below the point
      where a double overflows to Infinity. */
  function ParseTrailingSequence(value: string): Option<nat> {
    var digits := TrailingDigits(TrimEnd(value));
    if digits == [] || Read(digits) >= Power2(1024) - Power2(970) then None else Some(Read(digits))
  }

  function ReserveOutcome(rows: seq<Template>, scope: Scope, requested: string, taken: bool): Result<string,
                          NumberingError> {
    if taken then Failure(NumberTaken)
    else
      match (ParseTrailingSequence(requested), SelectTemplate(rows, scope))
      case (Some(n), Some(k)) =>
        if n > MAX_VALUE && n > rows[k].currentValue then Failure(DatabaseError) else Success(requested)
      case _ => Success(requested)
  }

  function AfterReserve(rows: seq<Template>, scope: Scope, requested: string, taken: bool): seq<Template> {
    if ReserveOutcome(rows, scope, requested, taken).Failure? then rows
    else
      match (ParseTrailingSequence(requested), SelectTemplate(rows, scope))
      case (Some(n), Some(k)) =>
        rows[k := rows[k].(currentValue := if n > rows[k].currentValue then n else rows[k].currentValue)]
      case _ => rows
  }

  // ---------------------------------------------------------------- the store

  function Attempts(maxRetries: int): nat { if maxRetries < 1 then 1 else maxRetries }

  class NumberingStore {
    /** The numbering_templates table in primary-key order. */
    var templates: seq<Template>

    constructor (rows: seq<Template>)
      ensures templates == rows
    {
      templates := rows;
    }

    /** One transaction of the allocator: lock the row, advance it, write it back. */
    method AllocateValue(scope: Scope, now: Day) returns (r: Result<string, NumberingError>)
      modifies this
      ensures r == GenerateOutcome(old(templates), scope, now)
      ensures templates == AfterGenerate(old(templates), scope, now)
    {
      hide NeedsReset, ApplyPattern, SelectTemplate;
      var row := SelectTemplate(templates, scope);
      if row.None? {
        return Failure(TemplateNotFound);
      }
      var template := templates[row.value];
      var shouldReset := NeedsReset(template.lastReset, template.resetPeriod, now);
      var newValue;
      var newLastReset := template.lastReset;
      if shouldReset {
        newValue := 1;
        newLastReset := Some(now);
      } else {
        newValue := template.currentValue + 1;
      }
      if newValue > MAX_VALUE {
        return Failure(DatabaseError);
      }
      templates := templates[row.value := template.(currentValue := newValue, lastReset := newLastReset)];
      r := Success(ApplyPattern(template.pattern, newValue, now));
    }

    /** `faults[i]` says that attempt `i` fails in the database and is rolled back. */
    method GenerateDocumentNumber(scope: Scope, now: Day, maxRetries: int, faults: seq<bool>)
      returns (r: Result<string, NumberingError>)
      requires |faults| == if maxRetries < 1 then 1 else maxRetries
      modifies this
      ensures (forall i :: 0 <= i < |faults| ==> faults[i]) ==>
        r == Failure(DatabaseError) && templates == old(templates)
      ensures (exists i :: 0 <= i < |faults| && !faults[i]) ==>
        r == GenerateOutcome(old(templates), scope, now) && templates == AfterGenerate(old(templates), scope, now)
    {
      hide ApplyPattern, SelectTemplate, Advance;
      var attempts := Attempts(maxRetries);
      var attempt := 0;
      r := Failure(DatabaseError);
      while attempt < attempts
        invariant 0 <= attempt <= attempts
        invariant r == Failure(DatabaseError) && templates == old(templates)
        invariant (exists i :: 0 <= i < attempt && !faults[i]) ==> GenerateOutcome(templates, scope, now) == r
      {
        if !faults[attempt] {
          r := AllocateValue(scope, now);
          if r.Success? || r.error == TemplateNotFound {
            return;
          }
        }
        attempt := attempt + 1;
      }
    }

    /** `taken` says that a document of this type already has the requested number. */
    method ReserveDocumentNumber(scope: Scope, requested: string, taken: bool)
      returns (r: Result<string, NumberingError>)
      modifies this
      ensures r == ReserveOutcome(old(templates), scope, requested, taken)
      ensures templates == AfterReserve(old(templates), scope, requested, taken)
    {
      var manualSeq := ParseTrailingSequence(requested);
      if taken {
        return Failure(NumberTaken);
      }
      if manualSeq.Some? {
        var row := SelectTemplate(templates, scope);
        if row.Some? {
          var template := templates[row.value];
          var newCurrentValue := template.currentValue;
          if manualSeq.value > newCurrentValue {
            newCurrentValue := manualSeq.value;
            if newCurrentValue > MAX_VALUE {
              return Failure(DatabaseError);
            }
          }
          templates := templates[row.value := template.(currentValue := newCurrentValue)];
        }
      }
      r := Success(requested);
    }

    /** Reserves a requested number that is not blank, and generates one otherwise; generation
        fails when all its attempts do. */
    method GetNextDocumentNumber(scope: Scope, requested: Option<string>, taken: bool, now: Day, faults: seq<bool>)
      returns (r: Result<string, NumberingError>)
      requires |faults| == 5
      modifies this
      ensures requested.Some? && Trim(requested.value) != [] ==>
        && r == ReserveOutcome(old(templates), scope, Trim(requested.value), taken)
        && templates == AfterReserve(old(templates), scope, Trim(requested.value), taken)
      ensures requested.None? || Trim(requested.value) == [] ==>
        if forall i :: 0 <= i < |faults| ==> faults[i] then r == Failure(DatabaseError) && templates == old(templates)
        else r == GenerateOutcome(old(templates), scope, now) && templates == AfterGenerate(old(templates), scope, now)
    {
      if requested.Some? && Trim(requested.value) != [] {
        r := ReserveDocumentNumber(scope, Trim(requested.value), taken);
      } else {
        r := GenerateDocumentNumber(scope, now, DEFAULT_MAX_RETRIES, faults);
      }
    }
  }

  // ------------------------------------------------ what the operations mean

  /** The chosen row is an active one of the scope's company and document type.  It is the
      outlet's own if and only if the outlet has one, and the company's otherwise; there is no
      choice if and only if there is no such row. */
  lemma ChosenTemplate(rows: seq<Template>, scope: Scope)
    ensures
      var r := SelectTemplate(rows, scope);
      r.Some? ==>
        && rows[r.value].isActive && rows[r.value].companyId == scope.companyId
        && rows[r.value].docType == scope.docType
        && (rows[r.value].outletId.None? || rows[r.value].outletId == scope.outletId)
    ensures
      var r := SelectTemplate(rows, scope);
      r.Some? ==>
        (rows[r.value].outletId.Some? <==>
         scope.outletId.Some? && exists t <- rows ::
           t.isActive && t.companyId == scope.companyId && t.docType == scope.docType && t.outletId == scope.outletId)
    ensures SelectTemplate(rows, scope).None? <==>
      (forall t <- rows :: !(t.isActive && t.companyId == scope.companyId && t.docType == scope.docType
                             && (t.outletId.None? || t.outletId == scope.outletId)))
  {
    assert forall t <- rows, o: Option<nat> :: InScope(t, scope, o) <==>
      t.isActive && t.companyId == scope.companyId && t.docType == scope.docType && t.outletId == o;
    var r := SelectTemplate(rows, scope);
    if r.Some? {
      assert rows[r.value] in rows;
    }
  }

  /** Which rows a reset concerns, period by period and without the week numbers: a year, a
      month, a Monday to Sunday week or a day has ended since the last reset. */
  lemma NeedsResetByPeriod(last: Day, now: Day)
    ensures !NeedsReset(Some(last), Never, now) && forall p :: !NeedsReset(None, p, now)
    ensures NeedsReset(Some(last), Yearly, now) <==> YearOf(last) != YearOf(now)
    ensures NeedsReset(Some(last), Monthly, now) <==> (YearOf(last), MonthOf(last)) != (YearOf(now), MonthOf(now))
    ensures FromYear100(last) && FromYear100(now) ==>
      (NeedsReset(Some(last), Weekly, now) <==> last - (last - 1) % 7 != now - (now - 1) % 7)
    ensures NeedsReset(Some(last), Daily, now) <==> last != now
  {
    hide GetISOWeek, SameDayLocal, YearOf, MonthOf;
    SameDayIff(last, now);
    if FromYear100(last) && FromYear100(now) {
      SameWeekIffSameMonday(last, now);
    }
  }

  /** One generated number and the table after it. */
  lemma GeneratedNumber(rows: seq<Template>, scope: Scope, now: Day)
    ensures
      var choice, r := SelectTemplate(rows, scope), GenerateOutcome(rows, scope, now);
      && (r == Failure(TemplateNotFound) <==> choice.None?)
      && (r == Failure(DatabaseError) <==>
          choice.Some? && rows[choice.value].currentValue >= 4294967295
          && !NeedsReset(rows[choice.value].lastReset, rows[choice.value].resetPeriod, now))
      && r != Failure(NumberTaken)
      && (r.Failure? ==> AfterGenerate(rows, scope, now) == rows)
    ensures GenerateOutcome(rows, scope, now).Success? ==>
      var k := SelectTemplate(rows, scope).value;
      var row, after := rows[k], AfterGenerate(rows, scope, now);
      var resets := NeedsReset(row.lastReset, row.resetPeriod, now);
      var value := if resets then 1 else row.currentValue + 1;
      && GenerateOutcome(rows, scope, now).value == ApplyPattern(row.pattern, value, now)
      && |after| == |rows| && (forall j :: 0 <= j < |rows| && j != k ==> after[j] == rows[j])
      && after[k] == row.(currentValue := value, lastReset := if resets then Some(now) else row.lastReset)
  {
    hide NeedsReset, ApplyPattern, SelectTemplate;
  }

  lemma {:induction false} TrailingDigitsAre(s: string, digits: string)
    requires s == [] || !IsDigit(s[|s| - 1])
    requires AllDigits(digits)
    ensures TrailingDigits(s + digits) == digits
  {
    if digits == [] {
      assert s + digits == s;
    } else {
      assert digits[|digits| - 1] in digits;
      assert (s + digits)[..|s + digits| - 1] == s + digits[..|digits| - 1];
      TrailingDigitsAre(s, digits[..|digits| - 1]);
    }
  }

  /** The sequence of a requested number: all the digits at its end, before any whitespace, read
      as one number, unless they denote 2^1024 - 2^970 or more. */
  lemma SequenceAtEnd(s: string, digits: string, blanks: string)
    requires s == [] || !IsDigit(s[|s| - 1])
    requires digits != [] && AllDigits(digits) && AllSpace(blanks)
    ensures ParseTrailingSequence(s + digits + blanks) ==
            if Read(digits) < Power2(1024) - Power2(970) then Some(Read(digits)) else None
  {
    hide Power2, Read;
    assert digits[|digits| - 1] in digits;
    TrimEndDrops(s + digits, blanks);
    TrailingDigitsAre(s, digits);
  }

  /** No sequence is read from a number that does not end in a digit, before any whitespace. */
  lemma NoSequenceAtEnd(s: string, blanks: string)
    requires s == [] || (!IsDigit(s[|s| - 1]) && !IsSpace(s[|s| - 1]))
    requires AllSpace(blanks)
    ensures ParseTrailingSequence(s + blanks) == None
  {
    hide Power2;
    TrimEndDrops(s, blanks);
    assert TrailingDigits(s) == [];
  }

  /** A number printed with or without padding is read back. */
  lemma PrintedSequenceIsRead(s: string, n: nat, width: nat, blanks: string)
    requires (s == [] || !IsDigit(s[|s| - 1])) && AllSpace(blanks)
    requires n < Power2(1024) - Power2(970)
    ensures ParseTrailingSequence(s + Print(n) + blanks) == Some(n)
    ensures ParseTrailingSequence(s + PadStart(Print(n), width) + blanks) == Some(n)
  {
    hide Power2, Read, ParseTrailingSequence;
    ReadPrint(n);
    ReadPadded(n, width);
    SequenceAtEnd(s, Print(n), blanks);
    SequenceAtEnd(s, PadStart(Print(n), width), blanks);
  }

  /** One reservation and the table after it: the counter of the chosen row goes up to the
      requested sequence and never down, and no other field or row changes. */
  lemma ReservedNumber(rows: seq<Template>, scope: Scope, requested: string, taken: bool)
    ensures
      var choice, n := SelectTemplate(rows, scope), ParseTrailingSequence(requested);
      var r, after := ReserveOutcome(rows, scope, requested, taken), AfterReserve(rows, scope, requested, taken);
      var counted := choice.Some? && n.Some?;
      && (r == Failure(NumberTaken) <==> taken)
      && (r == Failure(DatabaseError) <==>
          !taken && counted && n.value > 4294967295 && n.value > rows[choice.value].currentValue)
      && (r.Success? ==> r.value == requested) && r != Failure(TemplateNotFound)
      && (r.Failure? || !counted ==> after == rows)
      && |after| == |rows|
      && (r.Success? && counted ==>
          && (forall j :: 0 <= j < |rows| && j != choice.value ==> after[j] == rows[j])
          && after[choice.value] == rows[choice.value].(currentValue := after[choice.value].currentValue)
          && after[choice.value].currentValue in {n.value, rows[choice.value].currentValue}
          && after[choice.value].currentValue >= n.value
          && after[choice.value].currentValue >= rows[choice.value].currentValue)
  {
    hide ParseTrailingSequence, SelectTemplate;
  }

  // --------------------------------------------------------- resets by period

  /** A number that two days share exactly when they fall in the same reset period. */
  function PeriodKey(period: ResetPeriod, d: Day): int {
    match period
    case Never => 0
    case Yearly => YearOf(d)
    case Monthly => 12 * YearOf(d) + MonthOf(d)
    case Weekly => MondayOf(d)
    case Daily => d
  }

  predicate FromYear100(d: Day) { YearOf(d) >= 100 }

  /** A reset fires exactly when the last reset and now lie in different periods; for WEEKLY,
      in weeks with different Mondays. */
  lemma NeedsResetIff(last: Day, period: ResetPeriod, now: Day)
    requires period.Weekly? ==> FromYear100(last) && FromYear100(now)
    ensures NeedsReset(Some(last), period, now) <==> PeriodKey(period, last) != PeriodKey(period, now)
  {
    hide GetISOWeek, MondayOf, SameDayLocal, YearOf, MonthOf;
    if period.Weekly? {
      SameWeekIffSameMonday(last, now);
    }
    SameDayIff(last, now);
  }

  /** For all dates, a WEEKLY reset fires exactly between days that the Date constructor puts
      under different Mondays. */
  lemma WeeklyResetIff(last: Day, now: Day)
    ensures NeedsReset(Some(last), Weekly, now) <==> MondayOf(SeenDay(last)) != MondayOf(SeenDay(now))
  {
    hide GetISOWeek, MondayOf, SeenDay;
    SameWeekIffSameSeenMonday(last, now);
  }

  lemma PeriodKeyMonotone(period: ResetPeriod, a: Day, b: Day)
    requires a <= b
    ensures PeriodKey(period, a) <= PeriodKey(period, b)
  {
    match period
    case Yearly => YearMonotone(a, b);
    case Monthly =>
      YearMonotone(a, b);
      if YearOf(a) == YearOf(b) {
        MonthMonotone(a, b);
      }
    case Weekly => MondayMonotone(a, b);
    case _ =>
  }

  lemma MondayMonotone(a: int, b: int)
    requires a <= b
    ensures MondayOf(a) <= MondayOf(b)
  {
    var i, j := (a - 1) / 7, (b - 1) / 7;
    assert i <= j;
    assert MondayOf(a) == 7 * i + 1 && MondayOf(b) == 7 * j + 1;
  }
}
