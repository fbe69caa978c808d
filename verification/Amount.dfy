/** The locale-aware amount reader of the accounting import.  Amounts are exact decimals;
    the rounding of parseFloat to a double is not part of this model. */
module Amount {
  import opened Common
  import opened Decimal
  import opened Text

  // ------------------------------------------------------------------ reading

  /** replace(/Rp/gi, ""). */
  function DropRp(s: string): string {
    if |s| >= 2 && s[0] in {'R', 'r'} && s[1] in {'P', 'p'} then DropRp(s[2..])
    else if s == [] then []
    else [s[0]] + DropRp(s[1..])
  }

  function DropSpaces(s: string): string {
    if s == [] then [] else (if IsSpace(s[0]) then [] else [s[0]]) + DropSpaces(s[1..])
  }

  predicate AmountChar(c: char) { IsDigit(c) || c == ',' || c == '.' || c == '-' }

  function KeepAmountChars(s: string): string {
    if s == [] then [] else (if AmountChar(s[0]) then [s[0]] else []) + KeepAmountChars(s[1..])
  }

  function Remove(s: string, c: char): string {
    if s == [] then [] else (if s[0] == c then [] else [s[0]]) + Remove(s[1..], c)
  }

  function Replace(s: string, c: char, d: char): string {
    if s == [] then [] else [if s[0] == c then d else s[0]] + Replace(s[1..], c, d)
  }

  function LastIndexOf(s: string, c: char): int {
    if s == [] then -1 else if s[|s| - 1] == c then |s| - 1 else LastIndexOf(s[..|s| - 1], c)
  }

  function Split(s: string, c: char): (parts: seq<string>)
    ensures parts != []
  {
    if s == [] then [[]]
    else
      var parts := Split(s[1..], c);
      if s[0] == c then [[]] + parts else [[s[0]] + parts[0]] + parts[1..]
  }

  function Normalized(cleaned: string): string {
    if ',' in cleaned && '.' in cleaned then
      if LastIndexOf(cleaned, ',') > LastIndexOf(cleaned, '.')
      then Replace(Remove(cleaned, '.'), ',', '.')
      else Remove(cleaned, ',')
    else if ',' in cleaned then
      var parts := Split(cleaned, ',');
      if |parts| == 2 && |parts[1]| <= 2 then parts[0] + "." + parts[1] else Remove(cleaned, ',')
    else cleaned
  }

  function DigitPrefix(s: string): (d: string)
    ensures AllDigits(d) && d <= s
  {
    if s == [] || !IsDigit(s[0]) then [] else [s[0]] + DigitPrefix(s[1..])
  }

  /** The decimal value of `whole.fraction`. */
  function Value(negative: bool, whole: string, fraction: string): real
    requires AllDigits(whole) && AllDigits(fraction)
  {
    var magnitude := Read(whole + fraction) as real / Power10(|fraction|) as real;
    if negative then -magnitude else magnitude
  }

  /** The value of the longest unsigned decimal literal that `body` starts with. */
  function ParseUnsigned(negative: bool, body: string): Option<real> {
    var whole := DigitPrefix(body);
    var rest := body[|whole|..];
    var fraction := if rest != [] && rest[0] == '.' then DigitPrefix(rest[1..]) else [];
    if whole == [] && fraction == [] then None else Some(Value(negative, whole, fraction))
  }

  /** The longest decimal literal that the text starts with; None is NaN. */
  function ParseFloat(s: string): Option<real> {
    var negative := s != [] && s[0] == '-';
    ParseUnsigned(negative, if negative then s[1..] else s)
  }

  /** None stands for the "Invalid amount" error. */
  function NormalizeAmount(input: string): Option<real> {
    var cleaned := KeepAmountChars(DropSpaces(DropRp(input)));
    if cleaned == [] then Some(0.0) else ParseFloat(Normalized(cleaned))
  }

  // ----------------------------------------------------------------- printing

  datatype Style = DotGroups | CommaGroups

  function GroupMark(style: Style): char { if style.DotGroups? then '.' else ',' }

  function DecimalMark(style: Style): char { if style.DotGroups? then ',' else '.' }

  /** Groups of three digits from the right. */
  function Group(digits: string, mark: char): string {
    if |digits| <= 3 then digits else Group(digits[..|digits| - 3], mark) + [mark] + digits[|digits| - 3..]
  }

  function Magnitude(n: int): nat { if n < 0 then -n else n }

  function Sign(n: int): string { if n < 0 then "-" else "" }

  /** A signed amount of whole units. */
  function PrintUnits(n: int, style: Style): string {
    Sign(n) + Group(Print(Magnitude(n)), GroupMark(style))
  }

  /** A signed amount in cents, with two decimals. */
  function PrintAmount(cents: int, style: Style): string {
    Sign(cents) + Group(Print(Magnitude(cents) / 100), GroupMark(style))
      + [DecimalMark(style)] + PadStart(Print(Magnitude(cents) % 100), 2)
  }

  // ---------------------------------------------------------------- cleaning

  lemma {:induction false} DropSpacesKeeps(s: string)
    ensures KeepAmountChars(DropSpaces(s)) == KeepAmountChars(s)
  {
    if s != [] {
      DropSpacesKeeps(s[1..]);
      if IsSpace(s[0]) {
        assert !AmountChar(s[0]);
        assert DropSpaces(s) == DropSpaces(s[1..]);
      } else {
        assert DropSpaces(s)[1..] == DropSpaces(s[1..]);
      }
    }
  }

  lemma {:induction false} DropRpKeeps(s: string)
    ensures KeepAmountChars(DropRp(s)) == KeepAmountChars(s)
    decreases |s|
  {
    if |s| >= 2 && s[0] in {'R', 'r'} && s[1] in {'P', 'p'} {
      DropRpKeeps(s[2..]);
      assert s[1..][1..] == s[2..];
    } else if s != [] {
      DropRpKeeps(s[1..]);
      assert DropRp(s)[1..] == DropRp(s[1..]);
    }
  }

  lemma CleaningKeeps(s: string)
    ensures KeepAmountChars(DropSpaces(DropRp(s))) == KeepAmountChars(s)
  {
    DropSpacesKeeps(DropRp(s));
    DropRpKeeps(s);
  }

  lemma {:induction false} KeepAll(s: string)
    requires forall c <- s :: AmountChar(c)
    ensures KeepAmountChars(s) == s
  {
    if s != [] {
      assert s[0] in s && forall c <- s[1..] :: c in s;
      KeepAll(s[1..]);
    }
  }

  lemma KeepFirst(s: string)
    requires s != []
    ensures KeepAmountChars(s) == (if AmountChar(s[0]) then [s[0]] else []) + KeepAmountChars(s[1..])
  {
  }

  lemma {:induction false} KeepConcat(a: string, b: string)
    ensures KeepAmountChars(a + b) == KeepAmountChars(a) + KeepAmountChars(b)
  {
    if a == [] {
      assert a + b == b;
    } else {
      assert (a + b)[1..] == a[1..] + b && (a + b)[0] == a[0];
      KeepConcat(a[1..], b);
      KeepFirst(a);
      KeepFirst(a + b);
      hide KeepAmountChars, AmountChar;
    }
  }

  // ------------------------------------------------------- grouping is undone

  lemma {:induction false} RemoveConcat(a: string, b: string, c: char)
    ensures Remove(a + b, c) == Remove(a, c) + Remove(b, c)
  {
    if a == [] {
      assert a + b == b;
    } else {
      assert (a + b)[1..] == a[1..] + b;
      RemoveConcat(a[1..], b, c);
    }
  }

  lemma RemoveSelf(c: char)
    ensures Remove([c], c) == []
  {
  }

  lemma {:induction false} RemoveAbsent(s: string, c: char)
    requires c !in s
    ensures Remove(s, c) == s
  {
    if s != [] {
      RemoveAbsent(s[1..], c);
    }
  }

  lemma {:induction false} ReplaceConcat(a: string, b: string, c: char, d: char)
    ensures Replace(a + b, c, d) == Replace(a, c, d) + Replace(b, c, d)
  {
    if a == [] {
      assert a + b == b;
    } else {
      assert (a + b)[1..] == a[1..] + b;
      ReplaceConcat(a[1..], b, c, d);
    }
  }

  lemma {:induction false} ReplaceAbsent(s: string, c: char, d: char)
    requires c !in s
    ensures Replace(s, c, d) == s
  {
    if s != [] {
      ReplaceAbsent(s[1..], c, d);
    }
  }

  lemma {:induction false} GroupFacts(digits: string, mark: char)
    requires AllDigits(digits) && !IsDigit(mark)
    ensures Remove(Group(digits, mark), mark) == digits
    ensures mark in Group(digits, mark) <==> |digits| > 3
    ensures forall c <- Group(digits, mark) :: IsDigit(c) || c == mark
  {
    hide Remove;
    if |digits| <= 3 {
      RemoveAbsent(digits, mark);
    } else {
      RemoveSelf(mark);
      var high, low := digits[..|digits| - 3], digits[|digits| - 3..];
      assert AllDigits(high) && AllDigits(low);
      GroupFacts(high, mark);
      RemoveAbsent(low, mark);
      RemoveConcat(Group(high, mark) + [mark], low, mark);
      RemoveConcat(Group(high, mark), [mark], mark);
      assert high + low == digits;
      assert (Group(high, mark) + [mark] + low)[|Group(high, mark)|] == mark;
    }
  }

  lemma {:induction false} LastIndexOfTail(s: string, t: string, c: char)
    requires c !in t
    ensures LastIndexOf(s + [c] + t, c) == |s|
  {
    var whole := s + [c] + t;
    if t == [] {
      assert whole[|whole| - 1] == c;
    } else {
      assert whole[|whole| - 1] == t[|t| - 1];
      assert whole[..|whole| - 1] == s + [c] + t[..|t| - 1];
      LastIndexOfTail(s, t[..|t| - 1], c);
    }
  }

  lemma {:induction false} LastIndexOfBound(s: string, t: string, c: char)
    requires c !in t
    ensures LastIndexOf(s + t, c) < |s|
  {
    if t == [] {
      assert s + t == s;
      LastIndexOfLength(s, c);
    } else {
      assert (s + t)[|s + t| - 1] == t[|t| - 1];
      assert (s + t)[..|s + t| - 1] == s + t[..|t| - 1];
      LastIndexOfBound(s, t[..|t| - 1], c);
    }
  }

  lemma {:induction false} LastIndexOfLength(s: string, c: char)
    ensures LastIndexOf(s, c) < |s|
  {
    if s != [] {
      LastIndexOfLength(s[..|s| - 1], c);
    }
  }

  lemma {:induction false} SplitOnce(a: string, b: string, c: char)
    requires c !in a && c !in b
    ensures Split(a + [c] + b, c) == [a, b]
  {
    if a == [] {
      assert a + [c] + b == [c] + b;
      assert ([c] + b)[1..] == b;
      SplitNone(b, c);
    } else {
      assert (a + [c] + b)[1..] == a[1..] + [c] + b;
      SplitOnce(a[1..], b, c);
      assert [a[0]] + a[1..] == a;
    }
  }

  lemma {:induction false} SplitNone(s: string, c: char)
    requires c !in s
    ensures Split(s, c) == [s]
  {
    if s != [] {
      SplitNone(s[1..], c);
      assert [s[0]] + s[1..] == s;
    }
  }

  // ------------------------------------------------------- the decimal literal

  lemma {:induction false} DigitPrefixStops(digits: string, rest: string)
    requires AllDigits(digits) && (rest == [] || !IsDigit(rest[0]))
    ensures DigitPrefix(digits + rest) == digits
  {
    if digits == [] {
      assert digits + rest == rest;
    } else {
      assert (digits + rest)[1..] == digits[1..] + rest;
      DigitPrefixStops(digits[1..], rest);
    }
  }

  lemma ParseSigned(n: int, body: string)
    requires body != [] && IsDigit(body[0])
    ensures ParseFloat(Sign(n) + body) == ParseUnsigned(n < 0, body)
  {
    hide ParseUnsigned;
    assert n < 0 ==> (Sign(n) + body)[1..] == body;
    assert n >= 0 ==> Sign(n) + body == body;
  }

  /** Reading back `sign whole.fraction`, whatever follows the fraction. */
  lemma ParseLiteral(n: int, whole: string, fraction: string, rest: string)
    requires AllDigits(whole) && AllDigits(fraction) && whole != []
    requires rest == [] || !IsDigit(rest[0])
    ensures ParseFloat(Sign(n) + whole + "." + fraction + rest) == Some(Value(n < 0, whole, fraction))
  {
    hide DigitPrefix, Value, ParseFloat;
    var after := "." + (fraction + rest);
    assert Sign(n) + whole + "." + fraction + rest == Sign(n) + (whole + after);
    ParseSigned(n, whole + after);
    DigitPrefixStops(whole, after);
    assert (whole + after)[|whole|..] == after && after[1..] == fraction + rest;
    DigitPrefixStops(fraction, rest);
  }

  lemma ParseWhole(n: int, whole: string)
    requires AllDigits(whole) && whole != []
    ensures ParseFloat(Sign(n) + whole) == Some(Value(n < 0, whole, []))
  {
    hide DigitPrefix, Value, ParseFloat;
    ParseSigned(n, whole);
    assert whole + [] == whole;
    DigitPrefixStops(whole, []);
    assert whole[|whole|..] == [];
  }

  /** The two printed parts of a magnitude m are m / 100 and, on two digits, m % 100. */
  lemma CentsDigits(m: nat)
    ensures var whole, fraction := Print(m / 100), PadStart(Print(m % 100), 2);
      AllDigits(whole) && AllDigits(fraction) && |fraction| == 2 && Read(whole + fraction) == m
  {
    hide Print, Read;
    var whole, fraction := Print(m / 100), PadStart(Print(m % 100), 2);
    ReadPrint(m / 100);
    ReadPadded(m % 100, 2);
    PrintLengthBound(m % 100, 2);
    ReadConcat(whole, fraction);
    Hundred();
  }

  lemma Hundred()
    ensures Power10(2) == 100
  {
    assert Power10(1) == 10 * Power10(0);
  }

  lemma CentsValue(cents: int)
    ensures var whole, fraction := Print(Magnitude(cents) / 100), PadStart(Print(Magnitude(cents) % 100), 2);
      && AllDigits(fraction) && |fraction| == 2
      && Value(cents < 0, whole, fraction) == cents as real / 100.0
  {
    hide Print, PadStart, Read, Power10;
    CentsDigits(Magnitude(cents));
    Hundred();
  }

  // ---------------------------------------------------------------- round trip

  lemma SignIsPlain(n: int, c: char)
    requires c != '-'
    ensures c !in Sign(n)
  {
  }

  /** Where the two marks stand in `head d fraction`. */
  lemma MarksOf(head: string, fraction: string, d: char, g: char)
    requires d != g && d !in head && d !in fraction && g !in fraction
    ensures var s := head + [d] + fraction;
      && d in s && (g in s <==> g in head)
      && LastIndexOf(s, d) == |head| > LastIndexOf(s, g)
  {
    var s := head + [d] + fraction;
    assert s[|head|] == d;
    LastIndexOfTail(head, fraction, d);
    assert s == head + ([d] + fraction);
    LastIndexOfBound(head, [d] + fraction, g);
  }

  lemma HeadFacts(n: int, whole: string, style: Style)
    requires AllDigits(whole)
    ensures var g, d := GroupMark(style), DecimalMark(style);
      var head := Sign(n) + Group(whole, g);
      && d != g && d !in head && (g in head <==> |whole| > 3)
      && Remove(head, g) == Sign(n) + whole
      && (|whole| <= 3 ==> head == Sign(n) + whole)
  {
    var g, d := GroupMark(style), DecimalMark(style);
    GroupFacts(whole, g);
    SignIsPlain(n, g);
    SignIsPlain(n, d);
    RemoveConcat(Sign(n), Group(whole, g), g);
    RemoveAbsent(Sign(n), g);
  }

  lemma StripGroups(head: string, fraction: string, g: char, d: char)
    requires g !in fraction && g != d
    ensures Remove(head + [d] + fraction, g) == Remove(head, g) + [d] + fraction
  {
    RemoveAbsent(fraction, g);
    RemoveConcat(head + [d], fraction, g);
    RemoveConcat(head, [d], g);
  }

  lemma CommaToDot(head: string, fraction: string)
    requires ',' !in head && ',' !in fraction
    ensures Replace(head + [','] + fraction, ',', '.') == head + "." + fraction
  {
    ReplaceAbsent(head, ',', '.');
    ReplaceAbsent(fraction, ',', '.');
    ReplaceConcat(head + [','], fraction, ',', '.');
    ReplaceConcat(head, [','], ',', '.');
    assert Replace([','], ',', '.') == ".";
  }

  /** The printed form of `whole.fraction` is normalized to a plain decimal literal. */
  lemma NormalizedLiteral(n: int, whole: string, fraction: string, style: Style)
    requires AllDigits(whole) && AllDigits(fraction) && |fraction| == 2
    ensures Normalized(Sign(n) + Group(whole, GroupMark(style)) + [DecimalMark(style)] + fraction)
         == Sign(n) + whole + "." + fraction
  {
    var g, d := GroupMark(style), DecimalMark(style);
    var head := Sign(n) + Group(whole, g);
    HeadFacts(n, whole, style);
    assert d !in fraction && g !in fraction;
    MarksOf(head, fraction, d, g);
    StripGroups(head, fraction, g, d);
    if style.DotGroups? {
      if |whole| > 3 {
        SignIsPlain(n, ',');
        CommaToDot(Sign(n) + whole, fraction);
      } else {
        SplitOnce(head, fraction, ',');
      }
    }
  }

  lemma PrintedAmountParses(cents: int, style: Style)
    ensures PrintAmount(cents, style) != []
    ensures ParseFloat(Normalized(PrintAmount(cents, style))) == Some(cents as real / 100.0)
  {
    hide Print, PadStart, Group, Normalized, ParseFloat, Value, Sign, Magnitude, GroupMark, DecimalMark;
    var whole, fraction := Print(Magnitude(cents) / 100), PadStart(Print(Magnitude(cents) % 100), 2);
    CentsValue(cents);
    NormalizedLiteral(cents, whole, fraction, style);
    ParseLiteral(cents, whole, fraction, []);
    assert Sign(cents) + whole + "." + fraction + [] == Sign(cents) + whole + "." + fraction;
  }

  /** Any signed amount in cents, printed with two decimals in either style and decorated with
      anything but digits, commas, dots and hyphens ("Rp", spaces, letters), is read exactly. */
  lemma AmountRoundTrip(input: string, cents: int, style: Style)
    requires KeepAmountChars(input) == PrintAmount(cents, style)
    ensures NormalizeAmount(input) == Some(cents as real / 100.0)
  {
    CleaningKeeps(input);
    PrintedAmountParses(cents, style);
  }

  lemma PrintedIsClean(cents: int, style: Style)
    ensures forall c <- PrintAmount(cents, style) :: AmountChar(c)
  {
    GroupFacts(Print(Magnitude(cents) / 100), GroupMark(style));
    CentsValue(cents);
  }

  /** The currency prefix in particular. */
  lemma RupiahRoundTrip(cents: int, style: Style)
    ensures NormalizeAmount(PrintAmount(cents, style)) == Some(cents as real / 100.0)
    ensures NormalizeAmount("Rp " + PrintAmount(cents, style)) == Some(cents as real / 100.0)
  {
    PrintedIsClean(cents, style);
    KeepAll(PrintAmount(cents, style));
    AmountRoundTrip(PrintAmount(cents, style), cents, style);
    KeepConcat("Rp ", PrintAmount(cents, style));
    assert KeepAmountChars("Rp ") == [];
    AmountRoundTrip("Rp " + PrintAmount(cents, style), cents, style);
  }

  // ------------------------------------------------------ whole units, no decimals

  lemma UnitsValue(n: int)
    ensures Value(n < 0, Print(Magnitude(n)), []) == n as real
  {
    ReadPrint(Magnitude(n));
    assert Print(Magnitude(n)) + [] == Print(Magnitude(n));
  }

  lemma {:induction false} LastGroup(digits: string, mark: char)
    requires |digits| > 3 && AllDigits(digits) && !IsDigit(mark)
    ensures Group(digits, mark) == Group(digits[..|digits| - 3], mark) + [mark] + digits[|digits| - 3..]
    ensures mark !in digits[|digits| - 3..]
  {
  }

  lemma {:induction false} SplitTail(s: string, t: string, c: char)
    requires c !in t
    ensures var parts := Split(s + [c] + t, c); |parts| >= 2 && parts[|parts| - 1] == t
  {
    if s == [] {
      assert s + [c] + t == [c] + t && ([c] + t)[1..] == t;
      SplitNone(t, c);
    } else {
      assert (s + [c] + t)[1..] == s[1..] + [c] + t;
      SplitTail(s[1..], t, c);
    }
  }

  lemma NormalizedCommaUnits(n: int, digits: string)
    requires AllDigits(digits)
    ensures Normalized(Sign(n) + Group(digits, ',')) == Sign(n) + digits
  {
    hide Group, Remove, Split, LastIndexOf;
    var s := Sign(n) + Group(digits, ',');
    HeadFacts(n, digits, CommaGroups);
    if |digits| > 3 {
      LastGroup(digits, ',');
      var head, low := Sign(n) + Group(digits[..|digits| - 3], ','), digits[|digits| - 3..];
      assert s == head + [','] + low;
      SplitTail(head, low, ',');
    }
  }

  /** Comma-grouped whole amounts are always read exactly, through any decoration. */
  lemma CommaUnitsRoundTrip(input: string, n: int)
    requires KeepAmountChars(input) == PrintUnits(n, CommaGroups)
    ensures NormalizeAmount(input) == Some(n as real)
  {
    CleaningKeeps(input);
    GroupIsNonempty(Print(Magnitude(n)), ',');
    CommaUnitsParse(n);
    hide KeepAmountChars, PrintUnits, Normalized, ParseFloat;
  }

  lemma GroupIsNonempty(digits: string, mark: char)
    requires digits != []
    ensures Group(digits, mark) != []
  {
  }

  lemma CommaUnitsParse(n: int)
    ensures ParseFloat(Normalized(PrintUnits(n, CommaGroups))) == Some(n as real)
  {
    NormalizedCommaUnits(n, Print(Magnitude(n)));
    ParseWhole(n, Print(Magnitude(n)));
    UnitsValue(n);
  }

  /** A grouped number of more than three digits starts `a mark b`, with b three digits long. */
  lemma {:induction false} FirstGroup(digits: string, mark: char) returns (a: string, b: string, rest: string)
    requires AllDigits(digits) && |digits| > 3 && !IsDigit(mark)
    ensures Group(digits, mark) == a + [mark] + b + rest
    ensures 0 < |a| <= 3 && |b| == 3 && AllDigits(a) && AllDigits(b) && (rest == [] || rest[0] == mark)
  {
    var high, low := digits[..|digits| - 3], digits[|digits| - 3..];
    assert AllDigits(high) && AllDigits(low);
    LastGroup(digits, mark);
    if |high| <= 3 {
      a, b, rest := high, low, [];
      assert Group(high, mark) == high;
    } else {
      var tail;
      a, b, tail := FirstGroup(high, mark);
      rest := tail + ([mark] + low);
      RegroupTail(a + [mark] + b, tail, [mark], low);
    }
  }

  lemma RegroupTail(head: string, tail: string, mark: string, low: string)
    ensures head + tail + mark + low == head + (tail + (mark + low))
  {
  }

  lemma GroupedValueIsSmall(n: int, a: string, b: string)
    requires AllDigits(a) && AllDigits(b) && |a| <= 3 && |b| == 3
    ensures -1000.0 < Value(n < 0, a, b) < 1000.0
  {
    ReadBound(a);
    ReadBound(b);
    ReadConcat(a, b);
    assert Power10(3) == 1000 by {
      assert Power10(1) == 10 && Power10(2) == 100;
    }
    PowerMonotone(|a|, 3);
    assert Read(a + b) < 1000 * 1000;
    SmallQuotient(Read(a + b));
  }

  lemma SmallQuotient(n: nat)
    requires n < 1000 * 1000
    ensures n as real / 1000.0 < 1000.0
  {
  }

  lemma {:induction false} PowerMonotone(a: nat, b: nat)
    requires a <= b
    ensures Power10(a) <= Power10(b)
  {
    if a < b {
      PowerMonotone(a, b - 1);
    }
  }

  lemma {:induction false} LongPrint(n: nat)
    ensures |Print(n)| > 3 <==> n >= 1000
  {
    if n < 1000 {
      assert Power10(3) == 1000 by {
        assert Power10(1) == 10 && Power10(2) == 100;
      }
      PrintLengthBound(n, 3);
    } else {
      PrintLengthMonotone(1000, n);
      assert Print(1000) == Print(100) + [DigitChar(0)];
      assert Print(100) == Print(10) + [DigitChar(0)];
      assert Print(10) == Print(1) + [DigitChar(0)];
    }
  }

  lemma NormalizedDotUnits(n: int, digits: string)
    requires AllDigits(digits)
    ensures Normalized(Sign(n) + Group(digits, '.')) == Sign(n) + Group(digits, '.')
  {
    HeadFacts(n, digits, DotGroups);
  }

  /** Dot-grouped whole amounts are read exactly only below one thousand: from there on the
      first dot is taken for the decimal point. */
  lemma DotUnitsRoundTripIff(input: string, n: int)
    requires KeepAmountChars(input) == PrintUnits(n, DotGroups)
    ensures NormalizeAmount(input) == Some(n as real) <==> Magnitude(n) < 1000
  {
    CleaningKeeps(input);
    GroupIsNonempty(Print(Magnitude(n)), '.');
    DotUnitsParseIff(n);
    hide KeepAmountChars, PrintUnits, Normalized, ParseFloat;
  }

  lemma DotUnitsParseIff(n: int)
    ensures ParseFloat(Normalized(PrintUnits(n, DotGroups))) == Some(n as real) <==> Magnitude(n) < 1000
  {
    var digits := Print(Magnitude(n));
    NormalizedDotUnits(n, digits);
    LongPrint(Magnitude(n));
    if |digits| > 3 {
      var a, b, rest := FirstGroup(digits, '.');
      assert Sign(n) + Group(digits, '.') == Sign(n) + a + "." + b + rest;
      ParseLiteral(n, a, b, rest);
      GroupedValueIsSmall(n, a, b);
    } else {
      ParseWhole(n, digits);
      UnitsValue(n);
    }
  }

  // ------------------------------------------------------ cells without a number

  predicate NoDigits(s: string) { forall c <- s :: !IsDigit(c) }

  lemma {:induction false} KeptChars(s: string)
    ensures forall c :: c in KeepAmountChars(s) <==> c in s && AmountChar(c)
  {
    if s != [] {
      KeptChars(s[1..]);
      assert s == [s[0]] + s[1..];
    }
  }

  lemma {:induction false} RemoveChars(s: string, c: char)
    ensures forall x <- Remove(s, c) :: x in s
  {
    if s != [] {
      RemoveChars(s[1..], c);
    }
  }

  lemma {:induction false} ReplaceChars(s: string, c: char, d: char)
    ensures forall x <- Replace(s, c, d) :: x in s || x == d
  {
    if s != [] {
      ReplaceChars(s[1..], c, d);
    }
  }

  lemma {:induction false} SplitChars(s: string, c: char)
    ensures forall part <- Split(s, c), x <- part :: x in s
  {
    if s != [] {
      SplitChars(s[1..], c);
      var parts := Split(s[1..], c);
      assert parts[0] in parts && forall part <- parts[1..] :: part in parts;
    }
  }

  lemma NormalizedChars(cleaned: string)
    requires NoDigits(cleaned)
    ensures NoDigits(Normalized(cleaned))
  {
    hide Remove, Replace, Split, LastIndexOf;
    RemoveChars(cleaned, ',');
    RemoveChars(cleaned, '.');
    ReplaceChars(Remove(cleaned, '.'), ',', '.');
    SplitChars(cleaned, ',');
    var parts := Split(cleaned, ',');
    if |parts| == 2 {
      assert parts[0] in parts && parts[1] in parts;
    }
  }

  lemma NoNumber(s: string)
    requires NoDigits(s)
    ensures ParseFloat(s) == None
  {
    var body := if s != [] && s[0] == '-' then s[1..] else s;
    assert DigitPrefix(body) == [];
    assert body[0..] == body;
  }

  /** A cell without a digit is zero if it has no comma, dot or minus either, such as a blank
      cell or a bare "Rp", and an error otherwise. */
  lemma CellsWithoutDigits(input: string)
    requires forall c <- input :: !('0' <= c <= '9')
    ensures NormalizeAmount(input) ==
      if (exists c <- input :: c == ',' || c == '.' || c == '-') then None else Some(0.0)
  {
    hide Normalized, ParseFloat;
    CleaningKeeps(input);
    KeptChars(input);
    var cleaned := KeepAmountChars(input);
    if cleaned != [] {
      assert cleaned[0] in cleaned;
      NormalizedChars(cleaned);
      NoNumber(Normalized(cleaned));
    }
    assert forall c: char :: c == ',' || c == '.' || c == '-' ==> AmountChar(c);
  }
}
