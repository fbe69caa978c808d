/** The delimited-text reader of the accounting import, against a writer that quotes fields
    as section 2 of RFC 4180 describes. */
module CsvText {
  import opened Common
  import opened Text

  const QUOTE := '"'

  // ------------------------------------------------------------------ reading

  /** The fields still to come, given the rest of the line, the field being collected and
      whether a quoted stretch is open. */
  function Scan(rest: string, delimiter: char, current: string, inQuotes: bool): seq<string>
    decreases |rest|
  {
    if rest == [] then [Trim(current)]
    else if rest[0] == QUOTE then
      if inQuotes && |rest| > 1 && rest[1] == QUOTE then Scan(rest[2..], delimiter, current + [QUOTE], true)
      else Scan(rest[1..], delimiter, current, !inQuotes)
    else if rest[0] == delimiter && !inQuotes then [Trim(current)] + Scan(rest[1..], delimiter, [], false)
    else Scan(rest[1..], delimiter, current + [rest[0]], inQuotes)
  }

  method ParseDelimitedLine(line: string, delimiter: char) returns (fields: seq<string>)
    ensures fields == Scan(line, delimiter, [], false)
  {
    fields := [];
    var current := "";
    var inQuotes := false;
    var i := 0;
    while i < |line|
      invariant 0 <= i <= |line|
      invariant fields + Scan(line[i..], delimiter, current, inQuotes) == Scan(line, delimiter, [], false)
    {
      var c := line[i];
      assert line[i..][0] == c && line[i..][1..] == line[i + 1..];
      if c == QUOTE {
        if inQuotes && i + 1 < |line| && line[i + 1] == QUOTE {
          assert line[i..][2..] == line[i + 2..];
          current := current + [QUOTE];
          i := i + 1;
        } else {
          inQuotes := !inQuotes;
        }
      } else if c == delimiter && !inQuotes {
        assert fields + ([Trim(current)] + Scan(line[i + 1..], delimiter, [], false))
            == fields + [Trim(current)] + Scan(line[i + 1..], delimiter, [], false);
        fields := fields + [Trim(current)];
        current := "";
      } else {
        current := current + [c];
      }
      i := i + 1;
    }
    assert line[i..] == [];
    fields := fields + [Trim(current)];
  }

  /** text.split(/\r?\n/). */
  function SplitLines(text: string): (lines: seq<string>)
    ensures lines != []
  {
    SplitFrom(text, [])
  }

  function SplitFrom(rest: string, current: string): (lines: seq<string>)
    ensures lines != []
    decreases |rest|
  {
    if rest == [] then [current]
    else if rest[0] == '\n' then [DropReturn(current)] + SplitFrom(rest[1..], [])
    else SplitFrom(rest[1..], current + [rest[0]])
  }

  function DropReturn(s: string): string {
    if s != [] && s[|s| - 1] == '\r' then s[..|s| - 1] else s
  }

  function KeepLines(lines: seq<string>): seq<string> {
    if lines == [] then []
    else if Trim(TrimEnd(lines[0])) == [] then KeepLines(lines[1..])
    else [TrimEnd(lines[0])] + KeepLines(lines[1..])
  }

  function DetectDelimiter(line: string): char { if '\t' in line then '\t' else ',' }

  datatype Sheet = Sheet(headers: seq<string>, rows: seq<seq<string>>)

  function TrimAll(fields: seq<string>): seq<string> {
    if fields == [] then [] else [Trim(fields[0])] + TrimAll(fields[1..])
  }

  function ScanAll(lines: seq<string>, delimiter: char): seq<seq<string>> {
    if lines == [] then [] else [Scan(lines[0], delimiter, [], false)] + ScanAll(lines[1..], delimiter)
  }

  /** None stands for the "CSV is empty" error. */
  function ReadSheet(text: string): Option<Sheet> {
    var lines := KeepLines(SplitLines(text));
    if lines == [] then None
    else
      var delimiter := DetectDelimiter(lines[0]);
      Some(Sheet(TrimAll(Scan(lines[0], delimiter, [], false)), ScanAll(lines[1..], delimiter)))
  }

  // ------------------------------------------------------------------ writing

  /** A field written as it is, or enclosed in double quotes. */
  datatype Cell = Bare(text: string) | Quoted(text: string)

  function Escape(s: string): string {
    if s == [] then [] else (if s[0] == QUOTE then [QUOTE, QUOTE] else [s[0]]) + Escape(s[1..])
  }

  function WriteCell(c: Cell): string {
    if c.Bare? then c.text else [QUOTE] + Escape(c.text) + [QUOTE]
  }

  function WriteLine(cells: seq<Cell>, delimiter: char): string {
    if cells == [] then []
    else if |cells| == 1 then WriteCell(cells[0])
    else WriteCell(cells[0]) + [delimiter] + WriteLine(cells[1..], delimiter)
  }

  /** Rules 5 to 7: a field containing the delimiter or a quote must be enclosed. */
  predicate Enclosed(c: Cell, delimiter: char) { c.Bare? ==> QUOTE !in c.text && delimiter !in c.text }

  predicate Writable(c: Cell, delimiter: char) { Trimmed(c.text) && Enclosed(c, delimiter) }

  predicate AllWritable(cells: seq<Cell>, delimiter: char) {
    forall c <- cells :: Writable(c, delimiter)
  }

  function Texts(cells: seq<Cell>): seq<string> {
    if cells == [] then [] else [cells[0].text] + Texts(cells[1..])
  }

  // --------------------------------------------------------- one line survives

  lemma {:induction false} ScanBare(s: string, rest: string, delimiter: char, current: string)
    requires QUOTE !in s && delimiter !in s
    ensures Scan(s + rest, delimiter, current, false) == Scan(rest, delimiter, current + s, false)
    decreases |s|
  {
    if s == [] {
      assert s + rest == rest && current + s == current;
    } else {
      assert (s + rest)[1..] == s[1..] + rest;
      assert current + [s[0]] + s[1..] == current + s;
      ScanBare(s[1..], rest, delimiter, current + [s[0]]);
    }
  }

  /** Inside quotes everything up to the closing quote is collected, doubled quotes as one. */
  lemma {:induction false} ScanQuoted(s: string, rest: string, delimiter: char, current: string)
    requires rest == [] || rest[0] != QUOTE
    ensures Scan(Escape(s) + [QUOTE] + rest, delimiter, current, true) == Scan(rest, delimiter, current + s, false)
    decreases |s|
  {
    var line := Escape(s) + [QUOTE] + rest;
    if s == [] {
      assert line[0] == QUOTE && line[1..] == rest && current + s == current;
    } else {
      assert current + [s[0]] + s[1..] == current + s;
      ScanQuoted(s[1..], rest, delimiter, current + [s[0]]);
      if s[0] == QUOTE {
        assert line[2..] == Escape(s[1..]) + [QUOTE] + rest;
      } else {
        assert line[1..] == Escape(s[1..]) + [QUOTE] + rest;
      }
    }
  }

  lemma OpenQuote(tail: string, delimiter: char)
    ensures Scan([QUOTE] + tail, delimiter, [], false) == Scan(tail, delimiter, [], true)
  {
    assert ([QUOTE] + tail)[1..] == tail;
  }

  lemma ScanCell(c: Cell, rest: string, delimiter: char)
    requires Enclosed(c, delimiter) && (rest == [] || rest[0] != QUOTE)
    ensures Scan(WriteCell(c) + rest, delimiter, [], false) == Scan(rest, delimiter, c.text, false)
  {
    hide Scan, Escape;
    assert [] + c.text == c.text;
    if c.Bare? {
      ScanBare(c.text, rest, delimiter, []);
    } else {
      var tail := Escape(c.text) + [QUOTE] + rest;
      assert WriteCell(c) + rest == [QUOTE] + tail;
      OpenQuote(tail, delimiter);
      ScanQuoted(c.text, rest, delimiter, []);
    }
  }

  lemma ScanDelimiter(tail: string, delimiter: char, current: string)
    requires delimiter != QUOTE
    ensures Scan([delimiter] + tail, delimiter, current, false) == [Trim(current)] + Scan(tail, delimiter, [], false)
  {
    assert ([delimiter] + tail)[1..] == tail;
  }

  lemma ScanFirstCell(c: Cell, tail: string, delimiter: char)
    requires Enclosed(c, delimiter) && delimiter != QUOTE
    ensures Scan(WriteCell(c) + [delimiter] + tail, delimiter, [], false) ==
      [Trim(c.text)] + Scan(tail, delimiter, [], false)
  {
    hide Scan, Trim, WriteCell;
    ScanCell(c, [delimiter] + tail, delimiter);
    ScanDelimiter(tail, delimiter, c.text);
    assert WriteCell(c) + [delimiter] + tail == WriteCell(c) + ([delimiter] + tail);
  }

  lemma ScanLastCell(c: Cell, delimiter: char)
    requires Enclosed(c, delimiter)
    ensures Scan(WriteCell(c), delimiter, [], false) == [Trim(c.text)]
  {
    ScanCell(c, [], delimiter);
    assert WriteCell(c) + [] == WriteCell(c);
  }

  /** Whatever fields are written, and whichever of them are quoted beyond need, reading the
      line gives the fields without the white space around them, for any delimiter but the
      quote itself. */
  lemma {:induction false} LineReadsTrimmed(cells: seq<Cell>, delimiter: char)
    requires cells != [] && delimiter != QUOTE && forall c <- cells :: Enclosed(c, delimiter)
    ensures Scan(WriteLine(cells, delimiter), delimiter, [], false) == TrimAll(Texts(cells))
    decreases |cells|
  {
    assert Enclosed(cells[0], delimiter);
    if |cells| == 1 {
      ScanLastCell(cells[0], delimiter);
      assert Texts(cells[1..]) == [] && Texts(cells)[1..] == [];
    } else {
      forall c <- cells[1..] ensures Enclosed(c, delimiter) {
        assert c in cells;
      }
      ScanFirstCell(cells[0], WriteLine(cells[1..], delimiter), delimiter);
      LineReadsTrimmed(cells[1..], delimiter);
      assert Texts(cells)[1..] == Texts(cells[1..]);
    }
  }

  /** Fields without white space around them come back unchanged. */
  lemma LineRoundTrip(cells: seq<Cell>, delimiter: char)
    requires cells != [] && AllWritable(cells, delimiter) && delimiter != QUOTE
    ensures Scan(WriteLine(cells, delimiter), delimiter, [], false) == Texts(cells)
  {
    forall c <- cells ensures Enclosed(c, delimiter) && Trimmed(c.text) {
      assert Writable(c, delimiter);
    }
    LineReadsTrimmed(cells, delimiter);
    TrimAllKeepsTrimmed(cells);
  }

  /** Every line with something in it is kept, cut of the white space at its end, and every
      other line is dropped, wherever it stands. */
  lemma {:induction false} KeepLinesAround(before: seq<string>, line: string, after: seq<string>)
    ensures KeepLines(before + [line] + after) ==
      KeepLines(before) + (if AllSpace(line) then [] else [TrimEnd(line)]) + KeepLines(after)
  {
    hide TrimEnd, Trim;
    if before == [] {
      assert before + [line] + after == [line] + after && ([line] + after)[1..] == after;
      BlankIff(line);
    } else {
      assert (before + [line] + after)[1..] == before[1..] + [line] + after;
      KeepLinesAround(before[1..], line, after);
    }
  }

  lemma BlankIff(line: string)
    ensures Trim(TrimEnd(line)) == [] <==> AllSpace(line)
  {
    if AllSpace(line) {
      TrimEndDrops([], line);
      assert [] + line == line;
    } else {
      var c :| c in line && !IsSpace(c);
      var i :| 0 <= i < |line| && line[i] == c;
      TrimEndKeepsInk(line, i);
      assert TrimEnd(line)[i] == line[i];
      TrimKeepsInk(TrimEnd(line), i);
    }
  }

  // ---------------------------------------------------- whole documents survive

  /** Every line of text is cut of trailing white space before it is scanned.  That is
      harmless unless the line ends in a bare empty field after a tab, or is empty. */
  predicate EndSafe(cells: seq<Cell>, delimiter: char)
    requires cells != []
  {
    var last := cells[|cells| - 1];
    last.Quoted? || last.text != [] || (|cells| > 1 && !IsSpace(delimiter))
  }

  lemma WriteLineOne(c: Cell, delimiter: char)
    ensures WriteLine([c], delimiter) == WriteCell(c)
  {
  }

  lemma WriteLineCons(cells: seq<Cell>, delimiter: char)
    requires |cells| > 1
    ensures WriteLine(cells, delimiter) == WriteCell(cells[0]) + [delimiter] + WriteLine(cells[1..], delimiter)
  {
  }

  lemma {:induction false} WriteLineEnd(cells: seq<Cell>, delimiter: char)
    requires cells != []
    ensures var last := cells[|cells| - 1];
      WriteLine(cells, delimiter) ==
        (if |cells| == 1 then [] else WriteLine(cells[..|cells| - 1], delimiter) + [delimiter]) + WriteCell(last)
    decreases |cells|
  {
    hide WriteLine, WriteCell;
    var n := |cells|;
    if n == 1 {
      WriteLineOne(cells[0], delimiter);
      assert cells == [cells[0]];
    } else {
      var init, tail := cells[..n - 1], cells[1..];
      WriteLineEnd(tail, delimiter);
      WriteLineCons(cells, delimiter);
      if n == 2 {
        WriteLineOne(cells[0], delimiter);
        assert init == [cells[0]];
      } else {
        WriteLineCons(init, delimiter);
        assert init[1..] == tail[..n - 2];
      }
    }
  }

  lemma EndSafeKeepsLine(cells: seq<Cell>, delimiter: char)
    requires cells != [] && AllWritable(cells, delimiter) && EndSafe(cells, delimiter)
    ensures var line := WriteLine(cells, delimiter); TrimEnd(line) == line && Trim(line) != []
  {
    var line, last := WriteLine(cells, delimiter), cells[|cells| - 1];
    assert last in cells;
    WriteLineEnd(cells, delimiter);
    assert !IsSpace(line[|line| - 1]);
    TrimKeepsInk(line, |line| - 1);
  }

  lemma {:induction false} TrimStartKeepsInk(s: string, i: nat)
    requires i < |s| && !IsSpace(s[i])
    ensures TrimStart(s) != []
  {
    if IsSpace(s[0]) {
      TrimStartKeepsInk(s[1..], i - 1);
    }
  }

  lemma {:induction false} TrimEndKeepsInk(s: string, i: nat)
    requires i < |s| && !IsSpace(s[i])
    ensures i < |TrimEnd(s)|
  {
    if IsSpace(s[|s| - 1]) {
      TrimEndKeepsInk(s[..|s| - 1], i);
    }
  }

  lemma TrimKeepsInk(s: string, i: nat)
    requires i < |s| && !IsSpace(s[i])
    ensures Trim(s) != []
  {
    TrimStartKeepsInk(s, i);
    TrimEndKeepsInk(TrimStart(s), 0);
  }

  lemma {:induction false} TextsLength(cells: seq<Cell>)
    ensures |Texts(cells)| == |cells|
  {
    if cells != [] {
      TextsLength(cells[1..]);
    }
  }

  /** Cutting trailing white space never adds a field. */
  lemma {:induction false} CutLineIsShort(cells: seq<Cell>, delimiter: char)
    requires cells != [] && AllWritable(cells, delimiter) && delimiter != QUOTE
    ensures |Scan(TrimEnd(WriteLine(cells, delimiter)), delimiter, [], false)| <= |cells|
    decreases |cells|
  {
    var n := |cells|;
    WriteLineEnd(cells, delimiter);
    if EndSafe(cells, delimiter) {
      EndSafeKeepsLine(cells, delimiter);
      LineRoundTrip(cells, delimiter);
      TextsLength(cells);
    } else if n > 1 {
      assert forall c <- cells[..n - 1] :: c in cells;
      CutLineIsShort(cells[..n - 1], delimiter);
      CutDelimiter(WriteLine(cells[..n - 1], delimiter), delimiter);
      assert WriteCell(cells[n - 1]) == [];
      assert WriteLine(cells, delimiter) == WriteLine(cells[..n - 1], delimiter) + [delimiter];
    }
  }

  lemma CutDelimiter(s: string, delimiter: char)
    requires IsSpace(delimiter)
    ensures TrimEnd(s + [delimiter]) == TrimEnd(s)
  {
    assert (s + [delimiter])[..|s + [delimiter]| - 1] == s;
  }

  /** After the cut a line still reads back as its fields exactly when its end is safe. */
  lemma CutLineRoundTripIff(cells: seq<Cell>, delimiter: char)
    requires cells != [] && AllWritable(cells, delimiter) && delimiter != QUOTE
    ensures var line := TrimEnd(WriteLine(cells, delimiter));
      (Trim(line) != [] && Scan(line, delimiter, [], false) == Texts(cells)) <==> EndSafe(cells, delimiter)
  {
    var n := |cells|;
    WriteLineEnd(cells, delimiter);
    if EndSafe(cells, delimiter) {
      EndSafeKeepsLine(cells, delimiter);
      LineRoundTrip(cells, delimiter);
    } else if n > 1 {
      assert forall c <- cells[..n - 1] :: c in cells;
      CutLineIsShort(cells[..n - 1], delimiter);
      assert WriteLine(cells, delimiter) == WriteLine(cells[..n - 1], delimiter) + [delimiter];
      CutDelimiter(WriteLine(cells[..n - 1], delimiter), delimiter);
      TextsLength(cells);
    } else {
      assert WriteLine(cells, delimiter) == [];
    }
  }

  /** A line of a document, ended by "\r\n" or by "\n". */
  datatype Line = Line(cells: seq<Cell>, carriageReturn: bool)

  function WriteSheet(lines: seq<Line>, delimiter: char, finalBreak: bool): string {
    if lines == [] then []
    else
      var text := WriteLine(lines[0].cells, delimiter);
      if |lines| == 1 && !finalBreak then text
      else
        var lineBreak := if lines[0].carriageReturn then ['\r', '\n'] else ['\n'];
        text + lineBreak + WriteSheet(lines[1..], delimiter, finalBreak)
  }

  predicate LineOk(l: Line, delimiter: char) {
    && l.cells != [] && AllWritable(l.cells, delimiter) && EndSafe(l.cells, delimiter)
    && (forall c <- l.cells :: '\n' !in c.text)
  }

  lemma {:induction false} EscapeHasNoBreak(s: string)
    requires '\n' !in s
    ensures '\n' !in Escape(s)
  {
    if s != [] {
      EscapeHasNoBreak(s[1..]);
    }
  }

  lemma {:induction false} LineHasNoBreak(cells: seq<Cell>, delimiter: char)
    requires cells != [] && delimiter != '\n' && forall c <- cells :: '\n' !in c.text
    ensures '\n' !in WriteLine(cells, delimiter)
    decreases |cells|
  {
    assert cells[0] in cells;
    EscapeHasNoBreak(cells[0].text);
    if |cells| > 1 {
      assert forall c <- cells[1..] :: c in cells;
      LineHasNoBreak(cells[1..], delimiter);
    }
  }

  lemma {:induction false} SplitSkips(s: string, rest: string, current: string)
    requires '\n' !in s
    ensures SplitFrom(s + rest, current) == SplitFrom(rest, current + s)
    decreases |s|
  {
    if s == [] {
      assert s + rest == rest && current + s == current;
    } else {
      assert (s + rest)[1..] == s[1..] + rest;
      assert current + [s[0]] + s[1..] == current + s;
      SplitSkips(s[1..], rest, current + [s[0]]);
    }
  }

  lemma SplitAtBreak(line: string, carriageReturn: bool, rest: string)
    requires '\n' !in line && line != [] && !IsSpace(line[|line| - 1])
    ensures SplitLines(line + (if carriageReturn then ['\r', '\n'] else ['\n']) + rest) == [line] + SplitLines(rest)
  {
    var head := if carriageReturn then line + ['\r'] else line;
    assert line + (if carriageReturn then ['\r', '\n'] else ['\n']) + rest == head + (['\n'] + rest);
    SplitSkips(head, ['\n'] + rest, []);
    assert [] + head == head;
    assert (['\n'] + rest)[1..] == rest;
    assert DropReturn(head) == line;
  }

  function RowTexts(lines: seq<Line>): seq<seq<string>> {
    if lines == [] then [] else [Texts(lines[0].cells)] + RowTexts(lines[1..])
  }

  lemma {:induction false} SheetLines(lines: seq<Line>, delimiter: char, finalBreak: bool)
    requires delimiter != '\n' && delimiter != QUOTE && forall l <- lines :: LineOk(l, delimiter)
    ensures var kept := KeepLines(SplitLines(WriteSheet(lines, delimiter, finalBreak)));
      && |kept| == |lines|
      && (lines != [] ==> kept[0] == WriteLine(lines[0].cells, delimiter))
      && ScanAll(kept, delimiter) == RowTexts(lines)
  {
    if lines != [] {
      var l, tail := lines[0], lines[1..];
      assert l in lines && forall m <- tail :: m in lines;
      SheetLines(tail, delimiter, finalBreak);
      var text, rest := WriteLine(l.cells, delimiter), WriteSheet(tail, delimiter, finalBreak);
      EndSafeKeepsLine(l.cells, delimiter);
      LineHasNoBreak(l.cells, delimiter);
      LineRoundTrip(l.cells, delimiter);
      if |lines| == 1 && !finalBreak {
        SplitSkips(text, [], []);
        assert text + [] == text && [] + text == text;
        assert SplitLines(text) == [text];
        assert tail == [];
        assert KeepLines([text]) == [text];
        assert [text][1..] == [];
      } else {
        SplitAtBreak(text, l.carriageReturn, rest);
        var split := SplitLines(rest);
        assert ([text] + split)[1..] == split;
        assert KeepLines([text] + split) == [text] + KeepLines(split);
        assert ([text] + KeepLines(split))[1..] == KeepLines(split);
      }
    }
  }

  lemma {:induction false} TrimAllKeepsTrimmed(cells: seq<Cell>)
    requires forall c <- cells :: Trimmed(c.text)
    ensures TrimAll(Texts(cells)) == Texts(cells)
  {
    if cells != [] {
      assert cells[0] in cells && forall c <- cells[1..] :: c in cells;
      TrimmedIff(cells[0].text);
      TrimAllKeepsTrimmed(cells[1..]);
      assert Texts(cells)[1..] == Texts(cells[1..]);
    }
  }

  /** A whole sheet, with any mixture of line endings and with or without a final one, reads
      back as its header and rows; a tab may occur in the header line only as the delimiter
      that it announces. */
  lemma SheetRoundTrip(lines: seq<Line>, delimiter: char, finalBreak: bool)
    requires lines != [] && (delimiter == ',' || delimiter == '\t')
    requires forall l <- lines :: LineOk(l, delimiter)
    requires '\t' in WriteLine(lines[0].cells, delimiter) <==> delimiter == '\t'
    ensures ReadSheet(WriteSheet(lines, delimiter, finalBreak)) ==
      Some(Sheet(Texts(lines[0].cells), RowTexts(lines[1..])))
  {
    SheetLines(lines, delimiter, finalBreak);
    var kept := KeepLines(SplitLines(WriteSheet(lines, delimiter, finalBreak)));
    assert ScanAll(kept, delimiter) == [Scan(kept[0], delimiter, [], false)] + ScanAll(kept[1..], delimiter);
    assert RowTexts(lines) == [Texts(lines[0].cells)] + RowTexts(lines[1..]);
    assert ScanAll(kept, delimiter)[1..] == ScanAll(kept[1..], delimiter) &&
      RowTexts(lines)[1..] == RowTexts(lines[1..]);
    assert lines[0] in lines && forall c <- lines[0].cells :: Writable(c, delimiter);
    TrimAllKeepsTrimmed(lines[0].cells);
  }
}
