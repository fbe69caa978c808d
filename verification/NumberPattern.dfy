/** Document-number patterns: placeholders in double braces, replaced one kind after another. */
module NumberPattern {
  import opened Calendar
  import opened Decimal
  import opened Text

  datatype Placeholder = Yyyy | Yy | Mm | Dd | Seq1 | Seq2 | Seq3 | Seq4 | Seq5 | Seq6 | Seq

  /** The order in which the program replaces the placeholders. */
  const ORDER: seq<Placeholder> := [Yyyy, Yy, Mm, Dd, Seq1, Seq2, Seq3, Seq4, Seq5, Seq6, Seq]

  function Inner(p: Placeholder): string {
    match p
    case Yyyy => "yyyy"
    case Yy => "yy"
    case Mm => "mm"
    case Dd => "dd"
    case Seq1 => "seq1"
    case Seq2 => "seq2"
    case Seq3 => "seq3"
    case Seq4 => "seq4"
    case Seq5 => "seq5"
    case Seq6 => "seq6"
    case Seq => "seq"
  }

  function Name(p: Placeholder): string { "{{" + Inner(p) + "}}" }

  predicate IsSequence(p: Placeholder) { !p.Yyyy? && !p.Yy? && !p.Mm? && !p.Dd? }

  function Width(p: Placeholder): nat
    requires IsSequence(p)
  {
    match p
    case Seq1 => 1
    case Seq2 => 2
    case Seq3 => 3
    case Seq4 => 4
    case Seq5 => 5
    case Seq6 => 6
    case Seq => 4
  }

  /** slice(-2). */
  function LastTwo(s: string): string { if |s| < 2 then s else s[|s| - 2..] }

  /** The text that a placeholder stands for. */
  function PlaceholderText(p: Placeholder, value: nat, date: Day): string {
    match p
    case Yyyy => Print(YearOf(date))
    case Yy => LastTwo(Print(YearOf(date)))
    case Mm => PadStart(Print(MonthOf(date) + 1), 2)
    case Dd => PadStart(Print(DateOf(date)), 2)
    case _ => PadStart(Print(value), Width(p))
  }

  /** Replaces every occurrence of `target`, scanning from the left without overlap. */
  function ReplaceAll(s: string, target: string, text: string): string
    requires target != []
  {
    if |s| < |target| then s
    else if s[..|target|] == target then text + ReplaceAll(s[|target|..], target, text)
    else [s[0]] + ReplaceAll(s[1..], target, text)
  }

  /** The chain of global replacements, up to the k-th placeholder. */
  function ReplaceUpTo(s: string, k: nat, value: nat, date: Day): string
    requires k <= |ORDER|
  {
    if k == 0 then s
    else
      var p := ORDER[k - 1];
      ReplaceAll(ReplaceUpTo(s, k - 1, value, date), Name(p), PlaceholderText(p, value, date))
  }

  function ApplyPattern(pattern: string, value: nat, date: Day): string {
    ReplaceUpTo(pattern, |ORDER|, value, date)
  }

  // ------------------------------------------------- patterns made of tokens

  datatype Token = Literal(text: string) | Hole(placeholder: Placeholder)

  predicate WellFormed(tokens: seq<Token>) {
    forall t <- tokens :: t.Literal? ==> '{' !in t.text
  }

  function Render(tokens: seq<Token>): string {
    if tokens == [] then ""
    else (if tokens[0].Literal? then tokens[0].text else Name(tokens[0].placeholder)) + Render(tokens[1..])
  }

  function Chunk(t: Token, value: nat, date: Day): string {
    if t.Literal? then t.text else PlaceholderText(t.placeholder, value, date)
  }

  /** One simultaneous substitution of all placeholders. */
  function Expand(tokens: seq<Token>, value: nat, date: Day): string {
    if tokens == [] then "" else Chunk(tokens[0], value, date) + Expand(tokens[1..], value, date)
  }

  // ------------------------------------ the chain is a simultaneous substitution

  /** A position where the target does not start is copied unchanged. */
  lemma SkipOne(s: string, target: string, text: string)
    requires s != [] && target != [] && (|s| >= |target| ==> s[..|target|] != target)
    ensures ReplaceAll(s, target, text) == [s[0]] + ReplaceAll(s[1..], target, text)
  {
    if |s| < |target| {
      assert ReplaceAll(s[1..], target, text) == s[1..];
    }
  }

  lemma {:induction false} SkipWithoutBrace(l: string, rest: string, target: string, text: string)
    requires '{' !in l && target != [] && target[0] == '{'
    ensures ReplaceAll(l + rest, target, text) == l + ReplaceAll(rest, target, text)
  {
    if l == [] {
      assert l + rest == rest;
    } else {
      var s := l + rest;
      assert s[1..] == l[1..] + rest;
      SkipWithoutBrace(l[1..], rest, target, text);
      if |s| >= |target| {
        assert s[..|target|][0] == l[0];
        assert ReplaceAll(s, target, text) == [l[0]] + (l[1..] + ReplaceAll(rest, target, text));
        assert [l[0]] + (l[1..] + ReplaceAll(rest, target, text)) == l + ReplaceAll(rest, target, text);
      } else {
        assert ReplaceAll(rest, target, text) == rest;
      }
    }
  }

  lemma InnerIsPlain(p: Placeholder)
    ensures |Inner(p)| >= 2 && '{' !in Inner(p) && '}' !in Inner(p)
    ensures Name(p)[0] == '{' == Name(p)[1] && Name(p)[2] == Inner(p)[0]
    ensures forall i :: 0 <= i < |Inner(p)| ==> Name(p)[2 + i] == Inner(p)[i]
    ensures Name(p)[2 + |Inner(p)|] == '}'
  {
  }

  lemma InnersDiffer(p: Placeholder, q: Placeholder)
    requires p != q
    ensures Inner(p) != Inner(q)
  {
    assert Inner(p)[0] == Inner(q)[0] && |Inner(p)| == |Inner(q)| ==> |Inner(p)| == 4 && Inner(p)[3] != Inner(q)[3];
  }

  /** The first place where two different words part. */
  lemma FirstDifference(a: string, b: string) returns (i: nat)
    requires a != b
    ensures i <= |a| && i <= |b|
    ensures if i < |a| && i < |b| then a[i] != b[i] else |a| != |b|
  {
    if a != [] && b != [] && a[0] == b[0] {
      i := FirstDifference(a[1..], b[1..]);
      i := i + 1;
    } else {
      i := 0;
    }
  }

  /** No placeholder's name starts with another's. */
  lemma NamesDiffer(p: Placeholder, q: Placeholder, rest: string)
    requires p != q && |Name(q) + rest| >= |Name(p)|
    ensures (Name(q) + rest)[..|Name(p)|] != Name(p)
  {
    InnerIsPlain(p);
    InnerIsPlain(q);
    InnersDiffer(p, q);
    var i := FirstDifference(Inner(p), Inner(q));
    assert (Name(q) + rest)[2 + i] == Name(q)[2 + i];
    assert (Name(q) + rest)[..|Name(p)|][2 + i] != Name(p)[2 + i];
  }

  /** A braced word that does not start with the target is copied unchanged. */
  lemma SkipBraced(inner: string, rest: string, target: string, text: string)
    requires |target| >= 3 && target[0] == '{' == target[1] && target[2] != '{'
    requires inner != [] && '{' !in inner
    requires var s := "{{" + inner + "}}" + rest; |s| >= |target| ==> s[..|target|] != target
    ensures var word := "{{" + inner + "}}";
      ReplaceAll(word + rest, target, text) == word + ReplaceAll(rest, target, text)
  {
    hide ReplaceAll;
    var s2 := inner + "}}" + rest;
    var s1 := "{" + s2;
    var s0 := "{{" + inner + "}}" + rest;
    assert s0 == "{" + s1 && s0[1..] == s1 && s1[1..] == s2;
    if |s1| >= |target| {
      assert s1[..|target|][1] == inner[0] != target[1];
    }
    SkipOne(s0, target, text);
    SkipOne(s1, target, text);
    SkipWithoutBrace(inner + "}}", rest, target, text);
    var tail := ReplaceAll(rest, target, text);
    assert "{" + ("{" + (inner + "}}" + tail)) == "{{" + inner + "}}" + tail;
  }

  lemma SkipName(p: Placeholder, q: Placeholder, rest: string, text: string)
    requires p != q
    ensures ReplaceAll(Name(q) + rest, Name(p), text) == Name(q) + ReplaceAll(rest, Name(p), text)
  {
    InnerIsPlain(p);
    InnerIsPlain(q);
    if |Name(q) + rest| >= |Name(p)| {
      NamesDiffer(p, q, rest);
    }
    SkipBraced(Inner(q), rest, Name(p), text);
  }

  /** Fills one kind of placeholder with its text. */
  function Fill(tokens: seq<Token>, p: Placeholder, text: string): (r: seq<Token>)
    ensures |r| == |tokens|
    ensures forall i :: 0 <= i < |tokens| ==> r[i] == if tokens[i] == Hole(p) then Literal(text) else tokens[i]
  {
    if tokens == [] then []
    else [if tokens[0] == Hole(p) then Literal(text) else tokens[0]] + Fill(tokens[1..], p, text)
  }

  lemma {:induction false} ReplaceIsFill(tokens: seq<Token>, p: Placeholder, text: string)
    requires WellFormed(tokens)
    ensures ReplaceAll(Render(tokens), Name(p), text) == Render(Fill(tokens, p, text))
  {
    if tokens != [] {
      var t, rest := tokens[0], Render(tokens[1..]);
      assert t in tokens;
      assert WellFormed(tokens[1..]) by {
        assert forall u <- tokens[1..] :: u in tokens;
      }
      ReplaceIsFill(tokens[1..], p, text);
      if t.Literal? {
        InnerIsPlain(p);
        SkipWithoutBrace(t.text, rest, Name(p), text);
      } else if t.placeholder == p {
        assert (Name(p) + rest)[..|Name(p)|] == Name(p) && (Name(p) + rest)[|Name(p)|..] == rest;
      } else {
        SkipName(p, t.placeholder, rest, text);
      }
    }
  }

  lemma TextIsDigits(p: Placeholder, value: nat, date: Day)
    ensures AllDigits(PlaceholderText(p, value, date))
  {
    if IsSequence(p) {
      ReadPadded(value, Width(p));
    } else {
      var year := Print(YearOf(date));
      assert forall c <- LastTwo(year) :: c in year;
      ReadPadded(MonthOf(date) + 1, 2);
      ReadPadded(DateOf(date), 2);
    }
  }

  lemma FilledIsWellFormed(tokens: seq<Token>, filled: seq<Token>, k: nat, value: nat, date: Day)
    requires WellFormed(tokens) && k <= |ORDER| && FilledUpTo(tokens, filled, k, value, date)
    ensures WellFormed(filled)
  {
    forall t <- filled | t.Literal? ensures '{' !in t.text {
      var i :| 0 <= i < |filled| && filled[i] == t;
      assert tokens[i] in tokens;
      if tokens[i].Hole? {
        TextIsDigits(tokens[i].placeholder, value, date);
        assert !IsDigit('{');
      }
    }
  }

  /** The first k kinds of placeholder have been filled in. */
  ghost predicate FilledUpTo(tokens: seq<Token>, filled: seq<Token>, k: nat, value: nat, date: Day)
    requires k <= |ORDER|
  {
    && |filled| == |tokens|
    && forall i :: 0 <= i < |tokens| ==>
         filled[i] == if tokens[i].Hole? && tokens[i].placeholder in ORDER[..k]
                      then Literal(Chunk(tokens[i], value, date)) else tokens[i]
  }

  lemma FillNext(tokens: seq<Token>, filled: seq<Token>, k: nat, value: nat, date: Day)
    requires k < |ORDER| && FilledUpTo(tokens, filled, k, value, date)
    ensures FilledUpTo(tokens, Fill(filled, ORDER[k], PlaceholderText(ORDER[k], value, date)), k + 1, value, date)
  {
    var before, p := ORDER[..k], ORDER[k];
    assert ORDER[..k + 1] == before + [p];
    assert p !in before by {
      EveryPlaceholderIsOrdered(p);
    }
  }

  lemma NothingFilled(tokens: seq<Token>, value: nat, date: Day)
    ensures FilledUpTo(tokens, tokens, 0, value, date)
  {
  }

  /** Each replacement fills one more kind of placeholder. */
  lemma {:induction false} ChainFills(tokens: seq<Token>, k: nat, value: nat, date: Day) returns (filled: seq<Token>)
    requires WellFormed(tokens) && k <= |ORDER|
    ensures FilledUpTo(tokens, filled, k, value, date)
    ensures ReplaceUpTo(Render(tokens), k, value, date) == Render(filled)
  {
    hide ReplaceAll, PlaceholderText, Render, Fill, WellFormed, FilledUpTo, Name;
    if k == 0 {
      filled := tokens;
      NothingFilled(tokens, value, date);
    } else {
      var p := ORDER[k - 1];
      var text := PlaceholderText(p, value, date);
      var before := ChainFills(tokens, k - 1, value, date);
      FilledIsWellFormed(tokens, before, k - 1, value, date);
      ReplaceIsFill(before, p, text);
      FillNext(tokens, before, k - 1, value, date);
      filled := Fill(before, p, text);
    }
  }

  lemma EveryPlaceholderIsOrdered(p: Placeholder)
    ensures p in ORDER[..|ORDER|]
  {
    assert ORDER[..|ORDER|] == ORDER;
    assert p == ORDER[match p case Yyyy => 0 case Yy => 1 case Mm => 2 case Dd => 3 case Seq1 => 4 case Seq2 => 5
                      case Seq3 => 6 case Seq4 => 7 case Seq5 => 8 case Seq6 => 9 case Seq => 10];
  }

  lemma {:induction false} AllFilled(tokens: seq<Token>, filled: seq<Token>, value: nat, date: Day)
    requires FilledUpTo(tokens, filled, |ORDER|, value, date)
    ensures Render(filled) == Expand(tokens, value, date)
  {
    if tokens != [] {
      if tokens[0].Hole? {
        EveryPlaceholderIsOrdered(tokens[0].placeholder);
      }
      AllFilled(tokens[1..], filled[1..], value, date);
    }
  }

  /** For patterns of placeholders and literals without an opening brace, the chain of global
      replacements equals one simultaneous substitution. */
  lemma ChainIsSimultaneous(tokens: seq<Token>, value: nat, date: Day)
    requires WellFormed(tokens)
    ensures ApplyPattern(Render(tokens), value, date) == Expand(tokens, value, date)
  {
    var filled := ChainFills(tokens, |ORDER|, value, date);
    AllFilled(tokens, filled, value, date);
  }

  // ------------------------------------------------------------- injectivity

  predicate HasSequence(tokens: seq<Token>) {
    exists t <- tokens :: t.Hole? && IsSequence(t.placeholder)
  }

  /** Years that print with four digits. */
  predicate FourDigitYear(d: Day) { 1000 <= YearOf(d) <= 9999 }

  lemma ThousandHasFourDigits()
    ensures |Print(1000)| == 4
  {
    assert Print(10) == Print(1) + [DigitChar(0)];
    assert Print(100) == Print(10) + [DigitChar(0)];
  }

  lemma DateTextLength(p: Placeholder, value: nat, date: Day)
    requires !IsSequence(p) && FourDigitYear(date)
    ensures |PlaceholderText(p, value, date)| == if p.Yyyy? then 4 else 2
  {
    ThousandHasFourDigits();
    hide Print, YearOf, MonthOf, DateOf;
    PrintLengthBound(YearOf(date), 4);
    PrintLengthMonotone(1000, YearOf(date));
    PrintLengthBound(MonthOf(date) + 1, 2);
    PrintLengthBound(DateOf(date), 2);
  }

  lemma ChunkGrows(t: Token, a: nat, b: nat, da: Day, db: Day)
    requires a <= b && FourDigitYear(da) && FourDigitYear(db)
    ensures |Chunk(t, a, da)| <= |Chunk(t, b, db)|
  {
    if t.Hole? {
      if IsSequence(t.placeholder) {
        PrintLengthMonotone(a, b);
      } else {
        DateTextLength(t.placeholder, a, da);
        DateTextLength(t.placeholder, b, db);
      }
    }
  }

  lemma {:induction false} ExpansionGrows(tokens: seq<Token>, a: nat, b: nat, da: Day, db: Day)
    requires a <= b && FourDigitYear(da) && FourDigitYear(db)
    ensures |Expand(tokens, a, da)| <= |Expand(tokens, b, db)|
  {
    if tokens != [] {
      ChunkGrows(tokens[0], a, b, da, db);
      ExpansionGrows(tokens[1..], a, b, da, db);
    }
  }

  /** Equal expansions agree chunk by chunk: no length can be traded between placeholders,
      because all chunk lengths grow together with the sequence value. */
  lemma {:induction false} EqualChunks(tokens: seq<Token>, a: nat, b: nat, da: Day, db: Day)
    requires a <= b && FourDigitYear(da) && FourDigitYear(db)
    requires Expand(tokens, a, da) == Expand(tokens, b, db)
    ensures forall t <- tokens :: Chunk(t, a, da) == Chunk(t, b, db)
  {
    if tokens != [] {
      var t := tokens[0];
      var head, head' := Chunk(t, a, da), Chunk(t, b, db);
      var tail, tail' := Expand(tokens[1..], a, da), Expand(tokens[1..], b, db);
      ChunkGrows(t, a, b, da, db);
      ExpansionGrows(tokens[1..], a, b, da, db);
      assert |head| == |head'|;
      assert head == (head + tail)[..|head|] == (head' + tail')[..|head|] == head';
      assert tail == (head + tail)[|head|..] == (head' + tail')[|head|..] == tail';
      EqualChunks(tokens[1..], a, b, da, db);
      assert forall u <- tokens :: u == t || u in tokens[1..];
    }
  }

  /** A pattern with a sequence placeholder never gives two values, or two dates that differ
      in a shown part, the same number, even past the pad width. */
  lemma ExpandIsInjective(tokens: seq<Token>, a: nat, b: nat, da: Day, db: Day)
    requires HasSequence(tokens) && FourDigitYear(da) && FourDigitYear(db)
    requires Expand(tokens, a, da) == Expand(tokens, b, db)
    ensures a == b
    ensures forall t <- tokens :: Chunk(t, a, da) == Chunk(t, b, db)
  {
    if a <= b {
      EqualChunks(tokens, a, b, da, db);
    } else {
      EqualChunks(tokens, b, a, db, da);
    }
    var t :| t in tokens && t.Hole? && IsSequence(t.placeholder);
    assert Chunk(t, a, da) == Chunk(t, b, db);
    ReadPadded(a, Width(t.placeholder));
    ReadPadded(b, Width(t.placeholder));
  }

  // ------------------------------------------- what the placeholders stand for

  lemma YearTexts(value: nat, date: Day)
    ensures IsNumeral(PlaceholderText(Yyyy, value, date), YearOf(date), 1)
    ensures var yy := PlaceholderText(Yy, value, date);
      AllDigits(yy) && Read(yy) == YearOf(date) % 100 && (YearOf(date) >= 10 ==> |yy| == 2)
  {
    hide YearOf;
    var year := Print(YearOf(date));
    PadStartIsNumeral(YearOf(date), 1);
    PrintHasNoLeadingZero(YearOf(date));
    ReadPrint(YearOf(date));
    if |year| >= 2 {
      ReadLastTwo(year);
    }
  }

  /** The text of every placeholder, by the civil date and the sequence value: the full year;
      its last two digits; the month from 01 to 12; the day; and the value in at least the
      placeholder's number of digits. */
  lemma PlaceholderTexts(value: nat, date: Day)
    ensures IsNumeral(PlaceholderText(Yyyy, value, date), YearOf(date), 1)
    ensures var yy := PlaceholderText(Yy, value, date);
      AllDigits(yy) && Read(yy) == YearOf(date) % 100 && (YearOf(date) >= 10 ==> |yy| == 2)
    ensures IsNumeral(PlaceholderText(Mm, value, date), MonthOf(date) + 1, 2)
    ensures |PlaceholderText(Mm, value, date)| == 2 && 1 <= MonthOf(date) + 1 <= 12
    ensures IsNumeral(PlaceholderText(Dd, value, date), DateOf(date), 2)
    ensures |PlaceholderText(Dd, value, date)| == 2 && 1 <= DateOf(date) <= 31
    ensures IsNumeral(PlaceholderText(Seq1, value, date), value, 1)
    ensures IsNumeral(PlaceholderText(Seq2, value, date), value, 2)
    ensures IsNumeral(PlaceholderText(Seq3, value, date), value, 3)
    ensures IsNumeral(PlaceholderText(Seq4, value, date), value, 4)
    ensures IsNumeral(PlaceholderText(Seq5, value, date), value, 5)
    ensures IsNumeral(PlaceholderText(Seq6, value, date), value, 6)
    ensures IsNumeral(PlaceholderText(Seq, value, date), value, 4)
  {
    hide YearOf, MonthOf, DateOf, Print, PadStart, IsNumeral;
    YearTexts(value, date);
    PadStartIsNumeral(MonthOf(date) + 1, 2);
    PadStartIsNumeral(DateOf(date), 2);
    PairLength(MonthOf(date) + 1);
    PairLength(DateOf(date));
    forall w: nat | 1 <= w <= 6 ensures IsNumeral(PadStart(Print(value), w), value, w) {
      PadStartIsNumeral(value, w);
    }
  }

  /** How the placeholders are written. */
  lemma PlaceholderNames()
    ensures Name(Yyyy) == "{{yyyy}}" && Name(Yy) == "{{yy}}" && Name(Mm) == "{{mm}}" && Name(Dd) == "{{dd}}"
    ensures Name(Seq1) == "{{seq1}}" && Name(Seq2) == "{{seq2}}" && Name(Seq3) == "{{seq3}}"
    ensures Name(Seq4) == "{{seq4}}" && Name(Seq5) == "{{seq5}}" && Name(Seq6) == "{{seq6}}"
    ensures Name(Seq) == "{{seq}}"
  {
  }

  lemma PairLength(n: nat)
    requires n < 100
    ensures |PadStart(Print(n), 2)| == 2
  {
    OneHundred();
    PrintLengthBound(n, 2);
  }

  /** A numeral of at most its width is determined by its number. */
  lemma TextOfNumeral(s: string, t: string, n: nat, width: nat)
    requires IsNumeral(s, n, width) && |s| == |t| && AllDigits(t) && Read(t) == n
    ensures s == t
  {
    ReadIsInjective(s, t);
  }
}
