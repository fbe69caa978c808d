/** The sprint-status cleaner: it scans the story lines of epic sections and repairs malformed
    keys by editing the lines of the file in place, from the bottom up. */
module SprintStatus {
  import opened Common
  import opened SprintKeys
  import opened Text

  /** `line` counts from one, as in the report. */
  datatype Finding = Finding(line: nat, key: string, verdict: Verdict)

  datatype Section = Section(epic: string, header: nat, end: nat)

  datatype Stats = Stats(renamed: nat, removed: nat)

  /** The verdict on a line inside a section. */
  function LineVerdict(line: string, epic: string): Option<Verdict> {
    match KeyOf(line)
    case None => None
    case Some(key) => if "epic-" <= key then None else AnalyzeStoryKey(key, epic)
  }

  predicate InScope(epic: string, target: Option<string>) {
    target.None? || target.value == "" || epic == target.value
  }

  // --------------------------------------------------- the scan in one pass

  /** The epic whose section continues after these lines. */
  function EpicAfter(lines: seq<string>): (r: Option<string>)
    ensures r.Some? ==> forall c <- r.value :: IsDigit(c)
  {
    if lines == [] then None
    else
      var header := HeaderEpic(lines[|lines| - 1]);
      if header.Some? then header else EpicAfter(lines[..|lines| - 1])
  }

  function VerdictAfter(before: seq<string>, line: string, target: Option<string>): Option<Verdict> {
    var epic := EpicAfter(before);
    if epic.Some? && InScope(epic.value, target) && HeaderEpic(line).None? then LineVerdict(line, epic.value) else None
  }

  /** The findings of a file, top to bottom. */
  function Findings(lines: seq<string>, target: Option<string>): seq<Finding> {
    if lines == [] then []
    else
      var before, line := lines[..|lines| - 1], lines[|lines| - 1];
      Findings(before, target) +
        match VerdictAfter(before, line, target)
        case None => []
        case Some(v) => [Finding(|lines|, KeyOf(line).value, v)]
  }

  // ------------------------------------------------ the scan, section by section

  /** The first header at or after `i`, or the number of lines. */
  function NextHeader(lines: seq<string>, i: nat): (n: nat)
    requires i <= |lines|
    ensures i <= n <= |lines|
    decreases |lines| - i
  {
    if i == |lines| || HeaderEpic(lines[i]).Some? then i else NextHeader(lines, i + 1)
  }

  lemma {:induction false} NoHeaderBefore(lines: seq<string>, i: nat)
    requires i <= |lines|
    ensures forall j :: i <= j < NextHeader(lines, i) ==> HeaderEpic(lines[j]).None?
    decreases |lines| - i
  {
    hide HeaderEpic;
    if i < |lines| && HeaderEpic(lines[i]).None? {
      NoHeaderBefore(lines, i + 1);
    }
  }

  ghost predicate InFile(lines: seq<string>, sections: seq<Section>) {
    forall s <- sections :: s.header < s.end <= |lines|
  }

  function RangeFindings(lines: seq<string>, from: nat, end: nat, epic: string): seq<Finding>
    requires from <= end <= |lines|
  {
    if from == end then []
    else
      RangeFindings(lines, from, end - 1, epic) +
        match LineVerdict(lines[end - 1], epic)
        case None => []
        case Some(v) => [Finding(end, KeyOf(lines[end - 1]).value, v)]
  }

  ghost function SectionFindings(lines: seq<string>, sections: seq<Section>): seq<Finding>
    requires InFile(lines, sections)
  {
    if sections == [] then []
    else
      var s := sections[|sections| - 1];
      SectionFindings(lines, sections[..|sections| - 1]) + RangeFindings(lines, s.header + 1, s.end, s.epic)
  }

  lemma OneMoreLine(before: seq<string>, line: string, target: Option<string>)
    ensures Findings(before + [line], target) ==
      Findings(before, target) +
        match VerdictAfter(before, line, target)
        case None => []
        case Some(v) => [Finding(|before| + 1, KeyOf(line).value, v)]
    ensures EpicAfter(before + [line]) == if HeaderEpic(line).Some? then HeaderEpic(line) else EpicAfter(before)
  {
    hide HeaderEpic, KeyOf, AnalyzeStoryKey;
    assert (before + [line])[..|before|] == before;
  }

  /** Inside one section the one-pass scan and the scan of the range agree. */
  lemma {:induction false} RangeIsScanned(lines: seq<string>, header: nat, end: nat, target: Option<string>)
    requires header < end <= |lines| && HeaderEpic(lines[header]).Some?
    requires forall j :: header < j < end ==> HeaderEpic(lines[j]).None?
    ensures EpicAfter(lines[..end]) == HeaderEpic(lines[header])
    ensures var epic := HeaderEpic(lines[header]).value;
      Findings(lines[..end], target) ==
        Findings(lines[..header], target) +
          if InScope(epic, target) then RangeFindings(lines, header + 1, end, epic) else []
    decreases end
  {
    hide HeaderEpic, LineVerdict, KeyOf, InScope, Findings, EpicAfter, AnalyzeStoryKey;
    assert lines[..end] == lines[..end - 1] + [lines[end - 1]];
    OneMoreLine(lines[..end - 1], lines[end - 1], target);
    if end > header + 1 {
      RangeIsScanned(lines, header, end - 1, target);
    }
  }

  lemma {:induction false} NothingBeforeHeaders(lines: seq<string>, n: nat, target: Option<string>)
    requires n <= |lines| && forall j :: 0 <= j < n ==> HeaderEpic(lines[j]).None?
    ensures EpicAfter(lines[..n]).None? && Findings(lines[..n], target) == []
  {
    hide HeaderEpic, LineVerdict, KeyOf, AnalyzeStoryKey;
    if n > 0 {
      NothingBeforeHeaders(lines, n - 1, target);
      assert lines[..n][..n - 1] == lines[..n - 1];
    }
  }

  /** The findings up to the end of the section that starts in line i. */
  lemma SectionIsScanned(lines: seq<string>, i: nat, target: Option<string>)
    requires i < |lines|
    ensures HeaderEpic(lines[i]).None? ==> NextHeader(lines, i) == NextHeader(lines, i + 1)
    ensures HeaderEpic(lines[i]).Some? ==> NextHeader(lines, i) == i
    ensures HeaderEpic(lines[i]).Some? ==>
      Findings(lines[..NextHeader(lines, i + 1)], target) == Findings(lines[..i], target) + (
        if InScope(HeaderEpic(lines[i]).value, target)
        then RangeFindings(lines, i + 1, NextHeader(lines, i + 1), HeaderEpic(lines[i]).value) else [])
  {
    hide HeaderEpic, RangeFindings, Findings, InScope;
    if HeaderEpic(lines[i]).Some? {
      NoHeaderBefore(lines, i + 1);
      RangeIsScanned(lines, i, NextHeader(lines, i + 1), target);
    }
  }

  lemma OneMoreSection(lines: seq<string>, sections: seq<Section>, s: Section)
    requires InFile(lines, sections) && s.header < s.end <= |lines|
    ensures InFile(lines, sections + [s])
    ensures SectionFindings(lines, sections + [s]) ==
      SectionFindings(lines, sections) + RangeFindings(lines, s.header + 1, s.end, s.epic)
  {
    hide RangeFindings;
    var all := sections + [s];
    assert all[|all| - 1] == s && all[..|all| - 1] == sections;
  }

  /** The line at which the section of header i ends. */
  method SectionEnd(lines: seq<string>, i: nat) returns (end: nat)
    requires i < |lines|
    ensures end == NextHeader(lines, i + 1)
  {
    hide HeaderEpic;
    end := |lines|;
    var j := i + 1;
    while j < |lines|
      invariant i < j <= |lines| && end == |lines|
      invariant NextHeader(lines, j) == NextHeader(lines, i + 1)
    {
      if HeaderEpic(lines[j]).Some? {
        end := j;
        break;
      }
      j := j + 1;
    }
  }

  method FindSections(lines: seq<string>, target: Option<string>) returns (sections: seq<Section>)
    ensures InFile(lines, sections)
    ensures SectionFindings(lines, sections) == Findings(lines, target)
  {
    hide HeaderEpic, RangeFindings, Findings, InScope, SectionFindings, NextHeader;
    sections := [];
    NoSectionsYet(lines, target);
    var i := 0;
    while i < |lines|
      invariant 0 <= i <= |lines|
      invariant InFile(lines, sections)
      invariant SectionFindings(lines, sections) == Findings(lines[..NextHeader(lines, i)], target)
    {
      SectionIsScanned(lines, i, target);
      var epic := HeaderEpic(lines[i]);
      if epic.Some? && InScope(epic.value, target) {
        var sectionEnd := SectionEnd(lines, i);
        OneMoreSection(lines, sections, Section(epic.value, i, sectionEnd));
        sections := sections + [Section(epic.value, i, sectionEnd)];
      }
      i := i + 1;
    }
    assert NextHeader(lines, i) == |lines| && lines[..|lines|] == lines;
  }

  lemma NoSectionsYet(lines: seq<string>, target: Option<string>)
    ensures SectionFindings(lines, []) == Findings(lines[..NextHeader(lines, 0)], target)
  {
    NoHeaderBefore(lines, 0);
    NothingBeforeHeaders(lines, NextHeader(lines, 0), target);
  }

  method ScanEpicSection(lines: seq<string>, header: nat, end: nat, epic: string) returns (findings: seq<Finding>)
    requires header < end <= |lines|
    ensures findings == RangeFindings(lines, header + 1, end, epic)
  {
    hide AnalyzeStoryKey, KeyOf;
    findings := [];
    var i := header + 1;
    while i < end
      invariant header < i <= end
      invariant findings == RangeFindings(lines, header + 1, i, epic)
    {
      var key := KeyOf(lines[i]);
      if key.Some? && !("epic-" <= key.value) {
        var verdict := AnalyzeStoryKey(key.value, epic);
        if verdict.Some? {
          findings := findings + [Finding(i + 1, key.value, verdict.value)];
        }
      }
      i := i + 1;
    }
  }

  /** Scanning the sections one after the other finds what one pass over the file finds. */
  method ScanFile(lines: seq<string>, target: Option<string>) returns (findings: seq<Finding>)
    ensures findings == Findings(lines, target)
  {
    hide RangeFindings, Findings;
    var sections := FindSections(lines, target);
    findings := [];
    var k := 0;
    while k < |sections|
      invariant 0 <= k <= |sections|
      invariant InFile(lines, sections[..k]) && findings == SectionFindings(lines, sections[..k])
    {
      assert sections[..k + 1][..k] == sections[..k] && sections[k] in sections;
      var found := ScanEpicSection(lines, sections[k].header, sections[k].end, sections[k].epic);
      findings := findings + found;
      k := k + 1;
    }
    assert sections[..k] == sections;
  }

  // --------------------------------------------------------------- the repair

  /** Replaces the key of a line that starts with whitespace, the key and a colon. */
  function Renamed(line: string, key: string, to: string): string {
    var from := LeadingSpaces(line);
    if key + ":" <= line[from..] then line[..from] + to + line[from + |key|..] else line
  }

  function Spliced(lines: seq<string>, i: nat): seq<string>
    requires i < |lines|
  {
    lines[..i] + lines[i + 1..]
  }

  /** The keys of a file that are not themselves epics. */
  function KeysOf(lines: seq<string>): set<string> {
    set line | line in lines && KeyOf(line).Some? && !("epic-" <= KeyOf(line).value) :: KeyOf(line).value
  }

  datatype File = File(lines: seq<string>, keys: set<string>, stats: Stats)

  /** One repair.  A rename onto a key that exists becomes a removal. */
  function Repaired(f: File, d: Finding): File {
    if d.line == 0 || d.line > |f.lines| then f
    else if d.verdict.Rename? && d.verdict.to != "" && !(d.verdict.to != d.key && d.verdict.to in f.keys) then
      File(f.lines[d.line - 1 := Renamed(f.lines[d.line - 1], d.key, d.verdict.to)],
           f.keys - {d.key} + {d.verdict.to}, f.stats.(renamed := f.stats.renamed + 1))
    else
      File(Spliced(f.lines, d.line - 1), f.keys - {d.key}, f.stats.(removed := f.stats.removed + 1))
  }

  /** All repairs, the last finding first. */
  function RepairedAll(f: File, findings: seq<Finding>): File
    decreases |findings|
  {
    if findings == [] then f
    else RepairedAll(Repaired(f, findings[|findings| - 1]), findings[..|findings| - 1])
  }

  /** A stable sort by descending line. */
  function Inserted(d: Finding, sorted: seq<Finding>): seq<Finding> {
    if sorted == [] || sorted[|sorted| - 1].line >= d.line then sorted + [d]
    else Inserted(d, sorted[..|sorted| - 1]) + [sorted[|sorted| - 1]]
  }

  function SortedDescending(findings: seq<Finding>): seq<Finding> {
    if findings == [] then []
    else Inserted(findings[|findings| - 1], SortedDescending(findings[..|findings| - 1]))
  }

  predicate Ascending(findings: seq<Finding>) {
    forall i, j :: 0 <= i < j < |findings| ==> findings[i].line < findings[j].line
  }

  function Reversed(findings: seq<Finding>): (r: seq<Finding>)
    ensures |r| == |findings| && forall i :: 0 <= i < |r| ==> r[i] == findings[|findings| - 1 - i]
  {
    seq(|findings|, i requires 0 <= i < |findings| => findings[|findings| - 1 - i])
  }

  lemma {:induction false} InsertedFirst(d: Finding, sorted: seq<Finding>)
    requires forall e <- sorted :: e.line < d.line
    ensures Inserted(d, sorted) == [d] + sorted
  {
    if sorted != [] {
      assert sorted[|sorted| - 1] in sorted && forall e <- sorted[..|sorted| - 1] :: e in sorted;
      InsertedFirst(d, sorted[..|sorted| - 1]);
      assert [d] + sorted == [d] + sorted[..|sorted| - 1] + [sorted[|sorted| - 1]];
    }
  }

  lemma ReversedSnoc(findings: seq<Finding>, d: Finding)
    ensures Reversed(findings + [d]) == [d] + Reversed(findings)
  {
  }

  lemma LastIsLargest(init: seq<Finding>, d: Finding)
    requires Ascending(init + [d])
    ensures Ascending(init) && forall e <- Reversed(init) :: e.line < d.line
  {
    var all := init + [d];
    forall i, j | 0 <= i < j < |init| ensures init[i].line < init[j].line {
      assert all[i].line < all[j].line;
    }
    forall e <- Reversed(init) ensures e.line < d.line {
      var k :| 0 <= k < |init| && init[k] == e;
      assert all[k].line < all[|init|].line;
    }
  }

  lemma {:induction false} SortReversesAscending(findings: seq<Finding>)
    requires Ascending(findings)
    ensures SortedDescending(findings) == Reversed(findings)
  {
    hide Ascending, Inserted, Reversed;
    if findings == [] {
      assert Reversed(findings) == [];
    } else {
      var init, d := findings[..|findings| - 1], findings[|findings| - 1];
      assert findings == init + [d];
      LastIsLargest(init, d);
      SortReversesAscending(init);
      InsertedFirst(d, Reversed(init));
      ReversedSnoc(init, d);
    }
  }

  ghost predicate Descending(findings: seq<Finding>) {
    forall i, j :: 0 <= i < j < |findings| ==> findings[i].line >= findings[j].line
  }

  lemma AppendDescending(sorted: seq<Finding>, d: Finding)
    requires Descending(sorted) && forall e <- sorted :: e.line >= d.line
    ensures Descending(sorted + [d])
  {
    assert forall i :: 0 <= i < |sorted| ==> sorted[i] in sorted;
  }

  lemma InitDescending(init: seq<Finding>, last: Finding)
    requires Descending(init + [last])
    ensures Descending(init) && forall e <- init :: e.line >= last.line
  {
    var all := init + [last];
    forall i, j | 0 <= i < j < |init| ensures init[i].line >= init[j].line {
      assert all[i].line >= all[j].line;
    }
    forall e <- init ensures e.line >= last.line {
      var i :| 0 <= i < |init| && init[i] == e;
      assert all[i].line >= all[|init|].line;
    }
  }

  lemma {:induction false} InsertedElements(d: Finding, sorted: seq<Finding>)
    ensures multiset(Inserted(d, sorted)) == multiset(sorted) + multiset{d}
    ensures forall e <- Inserted(d, sorted) :: e in sorted || e == d
  {
    if sorted != [] && sorted[|sorted| - 1].line < d.line {
      var init, last := sorted[..|sorted| - 1], sorted[|sorted| - 1];
      InsertedElements(d, init);
      assert sorted == init + [last];
    }
  }

  lemma {:induction false} InsertedIsSorted(d: Finding, sorted: seq<Finding>)
    requires Descending(sorted)
    ensures Descending(Inserted(d, sorted))
  {
    hide Descending;
    if sorted == [] {
      OneDescends(d);
    } else {
      var init, last := sorted[..|sorted| - 1], sorted[|sorted| - 1];
      assert sorted == init + [last];
      InitDescending(init, last);
      if last.line < d.line {
        InsertedIsSorted(d, init);
        InsertedElements(d, init);
        AppendDescending(Inserted(d, init), last);
      } else {
        AppendDescending(sorted, d);
      }
    }
  }

  lemma OneDescends(d: Finding)
    ensures Descending([d]) && Inserted(d, []) == [d]
  {
  }

  /** The sort orders any findings by descending line, losing and adding none. */
  lemma {:induction false} SortIsDescending(findings: seq<Finding>)
    ensures Descending(SortedDescending(findings)) && multiset(SortedDescending(findings)) == multiset(findings)
  {
    hide Inserted;
    if findings != [] {
      var init, d := findings[..|findings| - 1], findings[|findings| - 1];
      SortIsDescending(init);
      InsertedIsSorted(d, SortedDescending(init));
      InsertedElements(d, SortedDescending(init));
      assert findings == init + [d];
    }
  }

  lemma LastRepairFirst(f: File, findings: seq<Finding>)
    requires findings != []
    ensures RepairedAll(f, findings) == RepairedAll(Repaired(f, findings[|findings| - 1]), findings[..|findings| - 1])
  {
  }

  method ApplyFixes(lines0: seq<string>, findings: seq<Finding>) returns (lines: seq<string>, stats: Stats)
    ensures var r := RepairedAll(File(lines0, KeysOf(lines0), Stats(0, 0)), Reversed(SortedDescending(findings)));
      lines == r.lines && stats == r.stats
  {
    hide RepairedAll, KeysOf, Renamed, SortedDescending;
    lines := lines0;
    var sorted := SortedDescending(findings);
    ghost var ordered := Reversed(sorted);
    var existingKeys := KeysOf(lines);
    stats := Stats(0, 0);
    ghost var result := RepairedAll(File(lines, existingKeys, stats), ordered);
    var k := 0;
    assert ordered[..|ordered| - k] == ordered;
    while k < |sorted|
      invariant 0 <= k <= |sorted|
      invariant RepairedAll(File(lines, existingKeys, stats), ordered[..|ordered| - k]) == result
    {
      var d := sorted[k];
      ghost var pending := ordered[..|ordered| - k];
      LastRepairFirst(File(lines, existingKeys, stats), pending);
      assert d == pending[|pending| - 1] && pending[..|pending| - 1] == ordered[..|ordered| - (k + 1)];
      k := k + 1;
      if d.line == 0 || d.line > |lines| {
        continue;
      }
      var lineIdx := d.line - 1;
      if d.verdict.Rename? && d.verdict.to != "" {
        if d.verdict.to != d.key && d.verdict.to in existingKeys {
          lines := Spliced(lines, lineIdx);
          existingKeys := existingKeys - {d.key};
          stats := stats.(removed := stats.removed + 1);
          continue;
        }
        lines := lines[lineIdx := Renamed(lines[lineIdx], d.key, d.verdict.to)];
        existingKeys := existingKeys - {d.key} + {d.verdict.to};
        stats := stats.(renamed := stats.renamed + 1);
        continue;
      }
      lines := Spliced(lines, lineIdx);
      existingKeys := existingKeys - {d.key};
      stats := stats.(removed := stats.removed + 1);
    }
    assert ordered[..|ordered| - k] == [];
    AllRepaired(File(lines, existingKeys, stats));
  }

  lemma AllRepaired(f: File)
    ensures RepairedAll(f, []) == f
  {
  }

  // ------------------------------------------------- what a rename leaves behind

  /** Lower-casing leaves a prefix of digits alone. */
  lemma {:induction false} LowerPrefix(key: string)
    requires forall c <- Prefix(key) :: IsDigit(c)
    ensures Prefix(Lower(key)) == Prefix(key)
  {
    if key != [] && key[0] != '-' {
      assert Prefix(key)[0] == key[0] && Prefix(key)[1..] == Prefix(key[1..]);
      assert key[0] in Prefix(key) && forall c <- Prefix(key[1..]) :: c in Prefix(key);
      LowerPrefix(key[1..]);
      assert Lower(key)[1..] == Lower(key[1..]);
    }
  }

  /** The prefix ends at the first hyphen, whatever follows. */
  lemma {:induction false} PrefixIsLocal(a: string, b: string, n: nat)
    requires n < |a| && n < |b| && a[..n + 1] == b[..n + 1] && a[n] == '-'
    ensures Prefix(a) == Prefix(b)
  {
    assert a[0] == a[..n + 1][0] && b[0] == b[..n + 1][0];
    if n > 0 && a[0] != '-' {
      assert a[n] == a[..n + 1][n] && b[n] == b[..n + 1][n];
      assert a[1..][..n] == a[..n + 1][1..] && b[1..][..n] == b[..n + 1][1..];
      PrefixIsLocal(a[1..], b[1..], n - 1);
    }
  }

  lemma HyphenKeepsPrefix(key: string)
    requires NormalizeMissingHyphenSuffix(key).Some?
    ensures Prefix(NormalizeMissingHyphenSuffix(key).value) == Prefix(key)
  {
    var n, a := StoryNumber(key), LeadingDigits(key);
    var h := NormalizeMissingHyphenSuffix(key).value;
    assert h[..a + 1] == key[..a + 1];
    PrefixIsLocal(h, key, a);
  }

  /** The canonical form chosen for a key is itself accepted. */
  lemma ReplacementIsAccepted(key: string, epic: string, to: string)
    requires forall c <- epic :: IsDigit(c)
    requires AnalyzeStoryKey(key, epic) == Some(Rename(to))
    ensures AnalyzeStoryKey(to, epic) == None
    ensures Canonical(to)
  {
    CanonicalChars(to);
    LowerOfSlug(to);
    LowerPrefix(key);
    if NormalizeMissingHyphenSuffix(Lower(key)).Some? {
      HyphenKeepsPrefix(Lower(key));
    }
    assert '.' !in to;
    assert NormalizeMissingHyphenSuffix(to).None?;
  }

  lemma KeyShape(line: string)
    requires KeyOf(line).Some?
    ensures var from, key := LeadingSpaces(line), KeyOf(line).value;
      && |key| > 0 && from + |key| < |line| && line[from..from + |key|] == key && EndsKey(line, from, |key|)
      && key + ":" <= line[from..]
  {
    hide LeadingSpaces, KeyLength;
    var from, key := LeadingSpaces(line), KeyOf(line).value;
    assert line[from..][..|key|] == key && line[from..][|key|] == ':';
  }

  /** Behind the key, the old and the new line look the same. */
  lemma ColonsMove(line: string, from: nat, key: string, to: string, i: nat)
    requires |key| > 0 && to != "" && from + |key| < |line| && line[from..from + |key|] == key
    requires forall j :: from <= j < from + |key| ==> !IsSpace(line[j])
    requires forall c <- to :: SlugChar(c)
    ensures var line' := line[..from] + to + line[from + |key|..];
      EndsKey(line', from, |to| + i) <==> EndsKey(line, from, |key| + i)
  {
    var line' := line[..from] + to + line[from + |key|..];
    forall j | from <= j < from + |to| ensures !IsSpace(line'[j]) {
      assert line'[j] == to[j - from] && to[j - from] in to;
    }
    assert forall j :: from + |to| <= j < |line'| ==> line'[j] == line[j - |to| + |key|];
    assert forall j :: from + |key| <= j < |line| ==> line[j] == line'[j - |key| + |to|];
  }

  /** The largest key length is the one that qualifies while no longer one does. */
  lemma LongestKey(line: string, from: nat, n: nat)
    requires from <= |line| && EndsKey(line, from, n)
    requires forall i :: i > n ==> !EndsKey(line, from, i)
    ensures KeyLength(line, from, |line| - from) == n
  {
    var m := KeyLength(line, from, |line| - from);
    assert !(m < n);
  }

  /** No colon behind a line's key could have ended a longer one. */
  lemma LongestOf(line: string, from: nat, k: nat)
    requires from == LeadingSpaces(line) && KeyOf(line).Some? && k > |KeyOf(line).value|
    ensures !EndsKey(line, from, k)
  {
  }

  lemma KeyFrom(line: string, from: nat, n: nat)
    requires LeadingSpaces(line) == from && n > 0 && KeyLength(line, from, |line| - from) == n
    ensures KeyOf(line) == Some(line[from..from + n])
  {
    hide LeadingSpaces, KeyLength, EndsKey;
  }

  lemma RenamedShape(line: string, to: string)
    requires KeyOf(line).Some? && to != "" && forall c <- to :: SlugChar(c)
    ensures var from, key := LeadingSpaces(line), KeyOf(line).value;
      && from + |key| < |line|
      && Renamed(line, key, to) == line[..from] + to + line[from + |key|..]
      && LeadingSpaces(Renamed(line, key, to)) == from
  {
    hide KeyOf, KeyLength, EndsKey, LeadingSpaces;
    KeyShape(line);
    var from, key := LeadingSpaces(line), KeyOf(line).value;
    assert to[0] in to;
    SpacesBefore(line[..from], to + line[from + |key|..]);
    assert line[..from] + to + line[from + |key|..] == line[..from] + (to + line[from + |key|..]);
  }

  lemma RenamedKeyLength(line: string, from: nat, key: string, to: string)
    requires from == LeadingSpaces(line) && KeyOf(line) == Some(key) && EndsKey(line, from, |key|)
    requires from + |key| < |line| && line[from..from + |key|] == key && to != "" && forall c <- to :: SlugChar(c)
    ensures var line' := line[..from] + to + line[from + |key|..]; KeyLength(line', from, |line'| - from) == |to|
  {
    hide LeadingSpaces, KeyLength;
    var line' := line[..from] + to + line[from + |key|..];
    ColonsMove(line, from, key, to, 0);
    forall i | i > |to| ensures !EndsKey(line', from, i) {
      ColonsMove(line, from, key, to, i - |to|);
      LongestOf(line, from, |key| + (i - |to|));
    }
    LongestKey(line', from, |to|);
  }

  /** After a rename the line's key is the new key: the colon that ends it is the same one. */
  lemma RenameChangesKey(line: string, to: string)
    requires KeyOf(line).Some? && to != "" && forall c <- to :: SlugChar(c)
    ensures KeyOf(Renamed(line, KeyOf(line).value, to)) == Some(to)
    ensures var from, key := LeadingSpaces(line), KeyOf(line).value;
      from + |key| < |line| && Renamed(line, key, to) == line[..from] + to + line[from + |key|..]
  {
    hide KeyOf, KeyLength, EndsKey, LeadingSpaces, Renamed;
    KeyShape(line);
    RenamedShape(line, to);
    var from, key := LeadingSpaces(line), KeyOf(line).value;
    RenamedKeyLength(line, from, key, to);
    KeyFrom(Renamed(line, key, to), from, |to|);
    assert (line[..from] + to + line[from + |key|..])[from..from + |to|] == to;
  }

  /** A header is not a story line. */
  lemma HeaderHasNoKey(line: string)
    requires HeaderEpic(line).Some?
    ensures KeyOf(line).None?
  {
    hide LeadingSpaces, LeadingDigits, KeyLength;
    var a := LeadingSpaces(line);
    var b := a + 1 + LeadingSpaces(line[a + 1..]);
    assert line[b..][..4] == "Epic";
    assert line[b] == 'E' && line[b + 1] == 'p' && line[b + 2] == 'i' && line[b + 3] == 'c';
    assert line[b + 4..][0] == line[b + 4] && IsSpace(line[b + 4]);
    assert forall i :: a + 1 <= i < b ==> line[i] == line[a + 1..][i - a - 1];
    assert forall i :: a <= i < b + 4 ==> line[i] != ':';
  }

  /** A renamed line is not a header. */
  lemma RenamedIsNoHeader(line: string, to: string)
    requires KeyOf(line).Some? && Canonical(to)
    ensures HeaderEpic(Renamed(line, KeyOf(line).value, to)).None?
  {
    hide LeadingSpaces, LeadingDigits, KeyLength, KeyOf, EndsKey, Canonical, StoryNumber;
    KeyShape(line);
    CanonicalChars(to);
    var from, key := LeadingSpaces(line), KeyOf(line).value;
    SpacesBefore(line[..from], to + line[from + |key|..]);
    assert Renamed(line, key, to) == line[..from] + (to + line[from + |key|..]);
  }

  // -------------------------------------------------------------- main results

  /** `out` is the file with every finding removed or, where the verdict is to rename, renamed,
      and every other line kept in its place. */
  ghost predicate Repairs(lines: seq<string>, out: seq<string>, target: Option<string>) {
    if lines == [] then out == []
    else
      var before, line := lines[..|lines| - 1], lines[|lines| - 1];
      match VerdictAfter(before, line, target)
      case None => out != [] && out[|out| - 1] == line && Repairs(before, out[..|out| - 1], target)
      case Some(v) =>
        || Repairs(before, out, target)
        || (v.Rename? && out != [] && out[|out| - 1] == Renamed(line, KeyOf(line).value, v.to)
            && Repairs(before, out[..|out| - 1], target))
  }

  lemma {:induction false} FindingsAscend(lines: seq<string>, target: Option<string>)
    ensures Ascending(Findings(lines, target))
    ensures forall d <- Findings(lines, target) :: 1 <= d.line <= |lines|
  {
    if lines != [] {
      FindingsAscend(lines[..|lines| - 1], target);
    }
  }

  lemma RenameIsNonempty(before: seq<string>, line: string, target: Option<string>)
    requires VerdictAfter(before, line, target).Some? && VerdictAfter(before, line, target).value.Rename?
    ensures var to := VerdictAfter(before, line, target).value.to;
      Canonical(to) && to != "" && AnalyzeStoryKey(to, EpicAfter(before).value) == None
  {
    var to := VerdictAfter(before, line, target).value.to;
    ReplacementIsAccepted(KeyOf(line).value, EpicAfter(before).value, to);
    CanonicalChars(to);
  }

  lemma VerdictHasKey(before: seq<string>, line: string, target: Option<string>)
    requires VerdictAfter(before, line, target).Some?
    ensures KeyOf(line).Some? && EpicAfter(before).Some? && HeaderEpic(line).None?
  {
  }

  lemma LastFinding(lines: seq<string>, target: Option<string>)
    requires lines != [] && VerdictAfter(lines[..|lines| - 1], lines[|lines| - 1], target).Some?
    ensures var before, line := lines[..|lines| - 1], lines[|lines| - 1];
      Findings(lines, target) == Findings(before, target)
        + [Finding(|lines|, KeyOf(line).value, VerdictAfter(before, line, target).value)]
  {
  }

  lemma NotFound(lines: seq<string>, target: Option<string>)
    requires lines != [] && VerdictAfter(lines[..|lines| - 1], lines[|lines| - 1], target).None?
    ensures Findings(lines, target) == Findings(lines[..|lines| - 1], target)
  {
  }

  /** A repair touches the line it names and nothing else. */
  lemma RepairLast(before: seq<string>, line: string, tail: seq<string>, keys: set<string>, stats: Stats, d: Finding)
    requires d.line == |before| + 1
    ensures var f := Repaired(File(before + [line] + tail, keys, stats), d);
      || (d.verdict.Rename? && f.lines == before + ([Renamed(line, d.key, d.verdict.to)] + tail)
          && f.stats == stats.(renamed := stats.renamed + 1))
      || (f.lines == before + tail && f.stats == stats.(removed := stats.removed + 1))
  {
    var all := before + [line] + tail;
    assert all[|before|] == line && all[..|before|] == before && all[|before| + 1..] == tail;
    if d.verdict.Rename? {
      var line' := Renamed(line, d.key, d.verdict.to);
      assert all[|before| := line'] == before + ([line'] + tail);
    }
  }

  lemma RepairsExtend(before: seq<string>, line: string, init: seq<string>, line': string, target: Option<string>)
    requires Repairs(before, init, target)
    requires var v := VerdictAfter(before, line, target);
      if v.None? then line' == line else v.value.Rename? && line' == Renamed(line, KeyOf(line).value, v.value.to)
    ensures Repairs(before + [line], init + [line'], target)
  {
    assert (before + [line])[..|before|] == before && (init + [line'])[..|init|] == init;
  }

  lemma RepairsDrop(before: seq<string>, line: string, out: seq<string>, target: Option<string>)
    requires Repairs(before, out, target) && VerdictAfter(before, line, target).Some?
    ensures Repairs(before + [line], out, target)
  {
    assert (before + [line])[..|before|] == before;
  }

  /** Repairing from the bottom leaves the lines above untouched, so that every pending line
      number still points at the line that was scanned. */
  lemma {:induction false} BottomUp(lines: seq<string>, tail: seq<string>, keys: set<string>, stats: Stats,
                                    target: Option<string>)
    returns (out: seq<string>)
    ensures var r := RepairedAll(File(lines + tail, keys, stats), Findings(lines, target));
      && r.lines == out + tail && Repairs(lines, out, target)
      && r.stats.removed - stats.removed == |lines| - |out|
      && r.stats.renamed + r.stats.removed == stats.renamed + stats.removed + |Findings(lines, target)|
    decreases |lines|
  {
    hide VerdictAfter, Repaired, Renamed, KeyOf, Findings, RepairedAll, Repairs;
    if lines == [] {
      NothingToScan(target);
      AllRepaired(File(lines + tail, keys, stats));
      assert lines + tail == tail;
      out := [];
      NothingToRepair(target);
      return;
    }
    var before, line := lines[..|lines| - 1], lines[|lines| - 1];
    assert lines == before + [line];
    if VerdictAfter(before, line, target).None? {
      NotFound(lines, target);
      out := BottomUp(before, [line] + tail, keys, stats, target);
      assert before + ([line] + tail) == lines + tail;
      RepairsExtend(before, line, out, line, target);
      assert out + ([line] + tail) == (out + [line]) + tail;
      out := out + [line];
    } else {
      VerdictHasKey(before, line, target);
      var d := Finding(|lines|, KeyOf(line).value, VerdictAfter(before, line, target).value);
      var f := Repaired(File(lines + tail, keys, stats), d);
      LastFinding(lines, target);
      assert Findings(lines, target)[..|Findings(before, target)|] == Findings(before, target);
      LastRepairFirst(File(lines + tail, keys, stats), Findings(lines, target));
      RepairLast(before, line, tail, keys, stats, d);
      if f.stats.renamed > stats.renamed {
        var line' := Renamed(line, d.key, d.verdict.to);
        out := BottomUp(before, [line'] + tail, f.keys, f.stats, target);
        RepairsExtend(before, line, out, line', target);
        assert out + ([line'] + tail) == (out + [line']) + tail;
        out := out + [line'];
      } else {
        out := BottomUp(before, tail, f.keys, f.stats, target);
        RepairsDrop(before, line, out, target);
      }
    }
  }

  lemma NothingToRepair(target: Option<string>)
    ensures Repairs([], [], target)
  {
  }

  /** A renamed line is no finding and no header any more. */
  lemma RenamedIsAccepted(before: seq<string>, line: string, out: seq<string>, target: Option<string>)
    requires VerdictAfter(before, line, target).Some? && VerdictAfter(before, line, target).value.Rename?
    requires EpicAfter(out) == EpicAfter(before)
    ensures var line' := Renamed(line, KeyOf(line).value, VerdictAfter(before, line, target).value.to);
      HeaderEpic(line').None? && VerdictAfter(out, line', target).None? && HeaderEpic(line).None?
  {
    var to := VerdictAfter(before, line, target).value.to;
    VerdictHasKey(before, line, target);
    RenameIsNonempty(before, line, target);
    CanonicalChars(to);
    RenameChangesKey(line, to);
    RenamedIsNoHeader(line, to);
    hide AnalyzeStoryKey, KeyOf, Renamed, Canonical, HeaderEpic, EpicAfter;
  }

  /** A repaired file has the same sections and nothing left to report. */
  lemma {:induction false} RepairsLeaveNothing(lines: seq<string>, out: seq<string>, target: Option<string>)
    requires Repairs(lines, out, target)
    ensures EpicAfter(out) == EpicAfter(lines) && Findings(out, target) == []
  {
    hide VerdictAfter, HeaderEpic, KeyOf, Renamed, EpicAfter, Findings;
    if lines == [] {
      NothingToScan(target);
      return;
    }
    var before, line := lines[..|lines| - 1], lines[|lines| - 1];
    assert lines == before + [line];
    OneMoreLine(before, line, target);
    var verdict := VerdictAfter(before, line, target);
    if verdict.Some? {
      VerdictHasKey(before, line, target);
    }
    if verdict.Some? && Repairs(before, out, target) {
      RepairsLeaveNothing(before, out, target);
    } else {
      var out', line' := out[..|out| - 1], out[|out| - 1];
      RepairsLeaveNothing(before, out', target);
      assert out == out' + [line'];
      OneMoreLine(out', line', target);
      if verdict.Some? {
        RenamedIsAccepted(before, line, out', target);
      } else {
        SameVerdict(before, out', line, target);
      }
    }
  }

  lemma NothingToScan(target: Option<string>)
    ensures EpicAfter([]) == None && Findings([], target) == []
  {
  }

  lemma SameVerdict(before: seq<string>, out: seq<string>, line: string, target: Option<string>)
    requires EpicAfter(out) == EpicAfter(before)
    ensures VerdictAfter(out, line, target) == VerdictAfter(before, line, target)
  {
    hide EpicAfter, HeaderEpic, LineVerdict;
  }

  /** Fixpoint: after all repairs of a scan, the same scan finds nothing.  Every finding was
      either renamed or removed, and only removals shorten the file. */
  lemma FixReachesFixpoint(lines: seq<string>, target: Option<string>)
    ensures var r := RepairedAll(File(lines, KeysOf(lines), Stats(0, 0)), Findings(lines, target));
      && Findings(r.lines, target) == []
      && r.stats.renamed + r.stats.removed == |Findings(lines, target)|
      && |r.lines| + r.stats.removed == |lines|
  {
    var out := BottomUp(lines, [], KeysOf(lines), Stats(0, 0), target);
    assert lines + [] == lines && out + [] == out;
    RepairsLeaveNothing(lines, out, target);
  }

  /** The lines that are no findings. */
  function Untouched(lines: seq<string>, target: Option<string>): seq<string> {
    if lines == [] then []
    else
      var before, line := lines[..|lines| - 1], lines[|lines| - 1];
      Untouched(before, target) + if VerdictAfter(before, line, target).None? then [line] else []
  }

  function Headers(lines: seq<string>): seq<string> {
    if lines == [] then []
    else
      var line := lines[|lines| - 1];
      Headers(lines[..|lines| - 1]) + if HeaderEpic(line).Some? then [line] else []
  }

  /** `a` can be obtained from `b` by deleting lines. */
  ghost predicate Subsequence(a: seq<string>, b: seq<string>) {
    if a == [] then true
    else if b == [] then false
    else Subsequence(a, b[..|b| - 1]) || (a[|a| - 1] == b[|b| - 1] && Subsequence(a[..|a| - 1], b[..|b| - 1]))
  }

  lemma {:induction false} RepairsKeepHeaders(lines: seq<string>, out: seq<string>, target: Option<string>)
    requires Repairs(lines, out, target)
    ensures Headers(out) == Headers(lines)
  {
    hide HeaderEpic, KeyOf, Renamed, VerdictAfter;
    if lines != [] {
      var before, line := lines[..|lines| - 1], lines[|lines| - 1];
      var verdict := VerdictAfter(before, line, target);
      if verdict.Some? {
        VerdictHasKey(before, line, target);
      }
      if verdict.Some? && Repairs(before, out, target) {
        RepairsKeepHeaders(before, out, target);
      } else {
        RepairsKeepHeaders(before, out[..|out| - 1], target);
        if verdict.Some? {
          RenameIsNonempty(before, line, target);
          RenamedIsNoHeader(line, verdict.value.to);
        }
      }
    }
  }

  lemma {:induction false} RepairsKeepOthers(lines: seq<string>, out: seq<string>, target: Option<string>)
    requires Repairs(lines, out, target)
    ensures Subsequence(Untouched(lines, target), out)
  {
    hide HeaderEpic, KeyOf, Renamed, VerdictAfter;
    if lines != [] {
      var before, line := lines[..|lines| - 1], lines[|lines| - 1];
      var verdict := VerdictAfter(before, line, target);
      if verdict.None? {
        RepairsKeepOthers(before, out[..|out| - 1], target);
        assert Untouched(lines, target)[..|Untouched(before, target)|] == Untouched(before, target);
      } else {
        assert Untouched(lines, target) == Untouched(before, target);
        if Repairs(before, out, target) {
          RepairsKeepOthers(before, out, target);
        } else {
          RepairsKeepOthers(before, out[..|out| - 1], target);
        }
      }
    }
  }

  /** Headers survive unchanged, and lines that are no findings survive in order. */
  lemma FixKeepsOtherLines(lines: seq<string>, target: Option<string>)
    ensures var r := RepairedAll(File(lines, KeysOf(lines), Stats(0, 0)), Findings(lines, target));
      Headers(r.lines) == Headers(lines) && Subsequence(Untouched(lines, target), r.lines)
  {
    var out := BottomUp(lines, [], KeysOf(lines), Stats(0, 0), target);
    assert lines + [] == lines && out + [] == out;
    RepairsKeepHeaders(lines, out, target);
    RepairsKeepOthers(lines, out, target);
  }

  // ----------------------------------------------------- what becomes of a line

  /** Line `i` stands in the section of `epic`: that is the nearest header above it. */
  ghost predicate InSection(lines: seq<string>, i: nat, epic: string)
    requires i < |lines|
  {
    exists h :: 0 <= h < i && HeaderEpic(lines[h]) == Some(epic) &&
      forall j :: h < j <= i ==> HeaderEpic(lines[j]).None?
  }

  /** Line `i` is a story line that the scan looks at. */
  ghost predicate StoryAt(lines: seq<string>, i: nat, target: Option<string>, epic: string, key: string)
    requires i < |lines|
  {
    && InSection(lines, i, epic) && (target.None? || target.value == "" || epic == target.value)
    && KeyOf(lines[i]) == Some(key) && !("epic-" <= key)
  }

  /** Line `i` is a story line with a canonical key of its epic. */
  ghost predicate CanonicalAt(lines: seq<string>, i: nat, target: Option<string>)
    requires i < |lines|
  {
    exists epic, key :: StoryAt(lines, i, target, epic, key) && OfEpic(key, epic) && CanonicalForm(key)
  }

  /** Line `i` is a story line whose key belongs to the epic and can be spelled canonically. */
  ghost predicate RepairableAt(lines: seq<string>, i: nat, target: Option<string>, to: string)
    requires i < |lines|
  {
    exists epic, key ::
      StoryAt(lines, i, target, epic, key) && OfEpic(key, epic) && '.' !in key && CanBecome(key, to)
  }

  /** ... whose canonical spelling is no key of the file and is not taken by a line below. */
  ghost predicate FreeAt(lines: seq<string>, i: nat, target: Option<string>, to: string)
    requires i < |lines|
  {
    && RepairableAt(lines, i, target, to) && to !in KeysOf(lines)
    && forall j :: i < j < |lines| ==> !RepairableAt(lines, j, target, to)
  }

  /** Line `i` is no story line of the scanned sections. */
  ghost predicate NoStoryAt(lines: seq<string>, i: nat, target: Option<string>)
    requires i < |lines|
  {
    forall epic, key :: !StoryAt(lines, i, target, epic, key)
  }

  function VerdictAt(lines: seq<string>, i: nat, target: Option<string>): Option<Verdict>
    requires i < |lines|
  {
    VerdictAfter(lines[..i], lines[i], target)
  }

  lemma {:induction false} EpicIsNearest(lines: seq<string>, n: nat, epic: string)
    requires n <= |lines|
    ensures EpicAfter(lines[..n]) == Some(epic) <==>
      exists h :: 0 <= h < n && HeaderEpic(lines[h]) == Some(epic) &&
        forall j :: h < j < n ==> HeaderEpic(lines[j]).None?
  {
    hide HeaderEpic;
    if n > 0 {
      assert lines[..n][..n - 1] == lines[..n - 1];
      EpicIsNearest(lines, n - 1, epic);
    }
  }

  lemma SectionIff(lines: seq<string>, i: nat, epic: string)
    requires i < |lines|
    ensures InSection(lines, i, epic) <==> HeaderEpic(lines[i]).None? && EpicAfter(lines[..i]) == Some(epic)
  {
    hide HeaderEpic, EpicAfter;
    EpicIsNearest(lines, i, epic);
  }

  /** The verdict of the scan on a line is the verdict on its key under its epic. */
  lemma VerdictOfStory(lines: seq<string>, i: nat, target: Option<string>, epic: string, key: string)
    requires i < |lines| && StoryAt(lines, i, target, epic, key)
    ensures VerdictAt(lines, i, target) == AnalyzeStoryKey(key, epic) && forall c <- epic :: IsDigit(c)
  {
    hide HeaderEpic, EpicAfter, KeyOf, AnalyzeStoryKey, InSection;
    SectionIff(lines, i, epic);
  }

  lemma NoVerdictElsewhere(lines: seq<string>, i: nat, target: Option<string>)
    requires i < |lines| && VerdictAt(lines, i, target).Some?
    ensures exists epic, key :: StoryAt(lines, i, target, epic, key)
  {
    hide HeaderEpic, EpicAfter, KeyOf, AnalyzeStoryKey, InSection;
    var epic, key := EpicAfter(lines[..i]).value, KeyOf(lines[i]).value;
    SectionIff(lines, i, epic);
    assert StoryAt(lines, i, target, epic, key);
  }

  lemma StoryIsUnique(lines: seq<string>, i: nat, target: Option<string>, epic: string, key: string, epic': string,
                      key': string)
    requires i < |lines| && StoryAt(lines, i, target, epic, key) && StoryAt(lines, i, target, epic', key')
    ensures epic == epic' && key == key'
  {
    hide HeaderEpic, EpicAfter, KeyOf, InSection;
    SectionIff(lines, i, epic);
    SectionIff(lines, i, epic');
  }

  lemma RepairableIff(lines: seq<string>, i: nat, target: Option<string>, to: string)
    requires i < |lines|
    ensures RepairableAt(lines, i, target, to) <==> VerdictAt(lines, i, target) == Some(Rename(to))
  {
    hide StoryAt, OfEpic, CanBecome, AnalyzeStoryKey, VerdictAt, CanonicalForm;
    if RepairableAt(lines, i, target, to) {
      var epic, key :|
        StoryAt(lines, i, target, epic, key) && OfEpic(key, epic) && '.' !in key && CanBecome(key, to);
      VerdictOfStory(lines, i, target, epic, key);
      VerdictIff(key, epic, to);
    }
    if VerdictAt(lines, i, target) == Some(Rename(to)) {
      NoVerdictElsewhere(lines, i, target);
      var epic, key :| StoryAt(lines, i, target, epic, key);
      VerdictOfStory(lines, i, target, epic, key);
      VerdictIff(key, epic, to);
    }
  }

  /** The scan leaves a line alone exactly when it is no story line or its key is canonical. */
  lemma LeftAloneIff(lines: seq<string>, i: nat, target: Option<string>)
    requires i < |lines|
    ensures VerdictAt(lines, i, target) == None <==> CanonicalAt(lines, i, target) || NoStoryAt(lines, i, target)
  {
    hide StoryAt, OfEpic, CanBecome, AnalyzeStoryKey, VerdictAt, CanonicalForm;
    if epic, key :| StoryAt(lines, i, target, epic, key) {
      VerdictOfStory(lines, i, target, epic, key);
      VerdictIff(key, epic, "");
      if CanonicalAt(lines, i, target) {
        var epic', key' :| StoryAt(lines, i, target, epic', key') && OfEpic(key', epic') && CanonicalForm(key');
        StoryIsUnique(lines, i, target, epic, key, epic', key');
      }
    } else if VerdictAt(lines, i, target).Some? {
      NoVerdictElsewhere(lines, i, target);
    }
  }

  lemma {:induction false} RepairsKeepLine(lines: seq<string>, out: seq<string>, target: Option<string>, i: nat)
    requires Repairs(lines, out, target) && i < |lines| && VerdictAt(lines, i, target).None?
    ensures lines[i] in out
  {
    hide VerdictAfter, KeyOf, Renamed;
    var before, line := lines[..|lines| - 1], lines[|lines| - 1];
    if i < |before| {
      assert before[..i] == lines[..i] && before[i] == lines[i];
      if Repairs(before, out, target) && VerdictAfter(before, line, target).Some? {
        RepairsKeepLine(before, out, target, i);
      } else {
        RepairsKeepLine(before, out[..|out| - 1], target, i);
      }
    }
  }

  lemma SameVerdictsAbove(before: seq<string>, line: string, target: Option<string>)
    ensures forall j :: 0 <= j < |before| ==>
      (before + [line])[j] == before[j] && VerdictAt(before + [line], j, target) == VerdictAt(before, j, target)
  {
    hide VerdictAfter;
    forall j | 0 <= j < |before|
      ensures VerdictAt(before + [line], j, target) == VerdictAt(before, j, target)
    {
      assert (before + [line])[..j] == before[..j];
    }
  }

  /** A line that can be spelled canonically is renamed unless the new key is known already. */
  lemma {:induction false} Survives(lines: seq<string>, tail: seq<string>, keys: set<string>, stats: Stats,
                                    target: Option<string>, i: nat, to: string)
    requires i < |lines| && VerdictAt(lines, i, target) == Some(Rename(to)) && to != "" && to !in keys
    requires forall j :: i < j < |lines| ==> VerdictAt(lines, j, target) != Some(Rename(to))
    ensures Renamed(lines[i], KeyOf(lines[i]).value, to) in
      RepairedAll(File(lines + tail, keys, stats), Findings(lines, target)).lines
    decreases |lines|
  {
    hide VerdictAfter, VerdictAt, Renamed, KeyOf, Findings, RepairedAll, Repaired, Repairs;
    var before, line := lines[..|lines| - 1], lines[|lines| - 1];
    assert lines == before + [line];
    SameVerdictsAbove(before, line, target);
    LastVerdict(before, line, target);
    if VerdictAfter(before, line, target).None? {
      NotFound(lines, target);
      Survives(before, [line] + tail, keys, stats, target, i, to);
      assert before + ([line] + tail) == lines + tail;
    } else {
      var f := FirstRepair(before, line, tail, keys, stats, target);
      if i < |before| {
        Survives(before, f.lines[|before|..], f.keys, f.stats, target, i, to);
        assert f.lines == before + f.lines[|before|..];
      } else {
        var line' := Renamed(line, KeyOf(line).value, to);
        var out := BottomUp(before, [line'] + tail, f.keys, f.stats, target);
        assert f == File(before + ([line'] + tail), f.keys, f.stats);
        assert (out + ([line'] + tail))[|out|] == line';
      }
    }
  }

  lemma LastVerdict(before: seq<string>, line: string, target: Option<string>)
    ensures VerdictAt(before + [line], |before|, target) == VerdictAfter(before, line, target)
  {
    hide VerdictAfter;
    assert (before + [line])[..|before|] == before;
  }

  /** The file after the first repair, that of the last line. */
  lemma FirstRepair(before: seq<string>, line: string, tail: seq<string>, keys: set<string>, stats: Stats,
                    target: Option<string>)
    returns (f: File)
    requires VerdictAfter(before, line, target).Some?
    ensures RepairedAll(File(before + [line] + tail, keys, stats), Findings(before + [line], target)) ==
      RepairedAll(f, Findings(before, target))
    ensures KeyOf(line).Some?
    ensures var verdict := VerdictAfter(before, line, target).value;
      && |f.lines| >= |before| && f.lines[..|before|] == before
      && (forall k <- f.keys :: k in keys || verdict == Rename(k))
      && (verdict.Rename? && verdict.to != "" && verdict.to !in keys ==>
            f.lines == before + ([Renamed(line, KeyOf(line).value, verdict.to)] + tail))
  {
    hide VerdictAfter, Renamed, KeyOf, Findings, RepairedAll, Repaired;
    var lines := before + [line];
    assert lines[..|lines| - 1] == before;
    VerdictHasKey(before, line, target);
    var d := Finding(|lines|, KeyOf(line).value, VerdictAfter(before, line, target).value);
    f := Repaired(File(lines + tail, keys, stats), d);
    LastFinding(lines, target);
    assert Findings(lines, target)[..|Findings(before, target)|] == Findings(before, target);
    LastRepairFirst(File(lines + tail, keys, stats), Findings(lines, target));
    RepairStep(before, line, tail, keys, stats, d);
  }

  /** One repair of the last scanned line, with its keys. */
  lemma RepairStep(before: seq<string>, line: string, tail: seq<string>, keys: set<string>, stats: Stats, d: Finding)
    requires d.line == |before| + 1
    ensures var f := Repaired(File(before + [line] + tail, keys, stats), d);
      && |f.lines| >= |before| && f.lines[..|before|] == before
      && (forall k <- f.keys :: k in keys || d.verdict == Rename(k))
      && (d.verdict.Rename? && d.verdict.to != "" && d.verdict.to !in keys ==>
            f.lines == before + ([Renamed(line, d.key, d.verdict.to)] + tail))
  {
    hide Renamed;
    var all := before + [line] + tail;
    assert all[|before|] == line && all[..|before|] == before && all[|before| + 1..] == tail;
    if d.verdict.Rename? {
      var line' := Renamed(line, d.key, d.verdict.to);
      assert all[|before| := line'] == before + ([line'] + tail);
    }
  }

  /** `line` is a line of the file that the scan leaves alone, or one under its canonical key. */
  ghost predicate FromLine(lines0: seq<string>, target: Option<string>, line: string) {
    exists i :: 0 <= i < |lines0| && (
      || (line == lines0[i] && (CanonicalAt(lines0, i, target) || NoStoryAt(lines0, i, target)))
      || (exists to :: RepairableAt(lines0, i, target, to) && line == Renamed(lines0[i], KeyOf(lines0[i]).value, to)))
  }

  /** What the verdict on line `i` can leave of it. */
  ghost predicate LeftOf(lines: seq<string>, target: Option<string>, i: nat, line: string)
    requires i < |lines|
  {
    match VerdictAt(lines, i, target)
    case None => line == lines[i]
    case Some(Remove) => false
    case Some(Rename(to)) => line == Renamed(lines[i], KeyOf(lines[i]).value, to)
  }

  lemma {:induction false} RepairsInventNothing(lines: seq<string>, out: seq<string>, target: Option<string>, k: nat)
    requires Repairs(lines, out, target) && k < |out|
    ensures exists i :: 0 <= i < |lines| && LeftOf(lines, target, i, out[k])
  {
    hide VerdictAfter, KeyOf, Renamed;
    var before, line := lines[..|lines| - 1], lines[|lines| - 1];
    assert lines == before + [line];
    var init := if VerdictAfter(before, line, target).Some? && Repairs(before, out, target) then out
                else out[..|out| - 1];
    if k < |init| {
      RepairsInventNothing(before, init, target, k);
      var i :| 0 <= i < |before| && LeftOf(before, target, i, out[k]);
      SameVerdictsAbove(before, line, target);
      assert LeftOf(lines, target, i, out[k]);
    } else {
      assert LeftOf(lines, target, |before|, out[k]);
    }
  }

  lemma NothingElse(lines: seq<string>, target: Option<string>)
    ensures forall line <- RepairedAll(File(lines, KeysOf(lines), Stats(0, 0)), Findings(lines, target)).lines ::
      FromLine(lines, target, line)
  {
    hide RepairedAll, Findings, Repairs, VerdictAfter, VerdictAt, RepairableAt, CanonicalAt, StoryAt, KeysOf, Renamed,
      KeyOf;
    var out := BottomUp(lines, [], KeysOf(lines), Stats(0, 0), target);
    assert lines + [] == lines && out + [] == out;
    forall line <- out ensures FromLine(lines, target, line) {
      var k :| 0 <= k < |out| && out[k] == line;
      RepairsInventNothing(lines, out, target, k);
      var i :| 0 <= i < |lines| && LeftOf(lines, target, i, line);
      LeftAloneIff(lines, i, target);
      if VerdictAt(lines, i, target).Some? {
        var to := VerdictAt(lines, i, target).value.to;
        RepairableIff(lines, i, target, to);
      }
      assert FromLine(lines, target, line);
    }
  }

  lemma RenamedKey(lines: seq<string>, target: Option<string>, i: nat, to: string)
    requires i < |lines|
    ensures RepairableAt(lines, i, target, to) ==>
      KeyOf(Renamed(lines[i], KeyOf(lines[i]).value, to)) == Some(to) && to != ""
  {
    hide KeyOf, Renamed, InSection;
    if RepairableAt(lines, i, target, to) {
      CanonicalIff(to);
      CanonicalChars(to);
      RenameChangesKey(lines[i], to);
    }
  }

  /** What a repair does to each line: canonical story lines and lines that are no story lines
      stay as they are; a story line that can be spelled canonically stays under that key,
      unless the file has the key already or another line further down takes it. */
  lemma EveryLineIsTreated(lines: seq<string>, target: Option<string>, i: nat, to: string)
    requires i < |lines|
    ensures var fixed := RepairedAll(File(lines, KeysOf(lines), Stats(0, 0)), Findings(lines, target)).lines;
      && (CanonicalAt(lines, i, target) || NoStoryAt(lines, i, target) ==> lines[i] in fixed)
      && (FreeAt(lines, i, target, to) ==>
            var line := Renamed(lines[i], KeyOf(lines[i]).value, to);
            line in fixed && KeyOf(line) == Some(to))
  {
    hide RepairedAll, Findings, Repairs, VerdictAfter, VerdictAt, RepairableAt, CanonicalAt, NoStoryAt, StoryAt, KeysOf,
      Renamed, KeyOf;
    LeftAloneIff(lines, i, target);
    if VerdictAt(lines, i, target).None? {
      var out := BottomUp(lines, [], KeysOf(lines), Stats(0, 0), target);
      assert lines + [] == lines && out + [] == out;
      RepairsKeepLine(lines, out, target, i);
    }
    if FreeAt(lines, i, target, to) {
      forall j | i <= j < |lines|
        ensures RepairableAt(lines, j, target, to) <==> VerdictAt(lines, j, target) == Some(Rename(to))
      {
        RepairableIff(lines, j, target, to);
      }
      RenamedKey(lines, target, i, to);
      assert lines + [] == lines;
      Survives(lines, [], KeysOf(lines), Stats(0, 0), target, i, to);
    }
  }

  // ------------------------------------------------------ keys stay distinct

  /** The key of a line that is no epic line. */
  function StoryKey(line: string): Option<string> {
    if KeyOf(line).Some? && "epic-" <= KeyOf(line).value then None else KeyOf(line)
  }

  ghost predicate KeysDistinct(lines: seq<string>) {
    forall i, j :: 0 <= i < j < |lines| && StoryKey(lines[i]).Some? ==> StoryKey(lines[i]) != StoryKey(lines[j])
  }

  lemma KeyIsListed(lines: seq<string>, i: nat)
    requires i < |lines| && StoryKey(lines[i]).Some?
    ensures StoryKey(lines[i]).value in KeysOf(lines)
  {
    hide KeyOf;
    assert lines[i] in lines;
  }

  lemma ListedKey(lines: seq<string>, key: string) returns (i: nat)
    requires key in KeysOf(lines)
    ensures i < |lines| && StoryKey(lines[i]) == Some(key)
  {
    hide KeyOf;
    var line :| line in lines && KeyOf(line).Some? && !("epic-" <= KeyOf(line).value) && KeyOf(line).value == key;
    i :| 0 <= i < |lines| && lines[i] == line;
  }

  /** Taking out a line takes out its key, since no other line has it. */
  lemma DropKeepsDistinct(a: seq<string>, line: string, b: seq<string>)
    requires KeysDistinct(a + [line] + b) && StoryKey(line).Some?
    ensures KeysDistinct(a + b) && KeysOf(a + b) <= KeysOf(a + [line] + b) - {StoryKey(line).value}
  {
    hide StoryKey, KeysOf;
    var all, rest := a + [line] + b, a + b;
    assert all[|a|] == line;
    assert forall i :: 0 <= i < |rest| ==> rest[i] == all[if i < |a| then i else i + 1];
    forall i, j | 0 <= i < j < |rest| && StoryKey(rest[i]).Some? ensures StoryKey(rest[i]) != StoryKey(rest[j]) {
      assert rest[i] == all[if i < |a| then i else i + 1] && rest[j] == all[if j < |a| then j else j + 1];
    }
    forall key <- KeysOf(rest) ensures key in KeysOf(all) && Some(key) != StoryKey(line) {
      var i := ListedKey(rest, key);
      var k := if i < |a| then i else i + 1;
      assert all[k] == rest[i];
      KeyIsListed(all, k);
    }
  }

  /** Giving a line a new key that no line has keeps the keys distinct. */
  lemma PutKeepsDistinct(a: seq<string>, line: string, b: seq<string>)
    requires KeysDistinct(a + b) && StoryKey(line).Some? && StoryKey(line).value !in KeysOf(a + b)
    ensures KeysDistinct(a + ([line] + b)) && KeysOf(a + ([line] + b)) <= KeysOf(a + b) + {StoryKey(line).value}
  {
    hide StoryKey, KeysOf;
    var all, rest := a + ([line] + b), a + b;
    assert all[|a|] == line;
    forall i, j | 0 <= i < j < |all| && StoryKey(all[i]).Some? ensures StoryKey(all[i]) != StoryKey(all[j]) {
      var i', j' := if i < |a| then i else i - 1, if j < |a| then j else j - 1;
      if i == |a| {
        assert all[j] == rest[j'];
        if StoryKey(all[j]) == StoryKey(line) {
          KeyIsListed(rest, j');
        }
      } else {
        assert all[i] == rest[i'];
        if j == |a| {
          KeyIsListed(rest, i');
        } else {
          assert all[j] == rest[j'];
        }
      }
    }
    forall key <- KeysOf(all) ensures key in KeysOf(rest) || Some(key) == StoryKey(line) {
      var i := ListedKey(all, key);
      if i != |a| {
        var k := if i < |a| then i else i - 1;
        assert rest[k] == all[i];
        KeyIsListed(rest, k);
      }
    }
  }

  lemma RepairKeepsDistinct(before: seq<string>, line: string, tail: seq<string>, keys: set<string>, stats: Stats,
                            d: Finding)
    requires d.line == |before| + 1 && StoryKey(line) == Some(d.key)
    requires d.verdict.Rename? ==> (
      d.verdict.to != "" && d.verdict.to != d.key && StoryKey(Renamed(line, d.key, d.verdict.to)) == Some(d.verdict.to))
    requires KeysDistinct(before + [line] + tail) && KeysOf(before + [line] + tail) <= keys
    ensures var f := Repaired(File(before + [line] + tail, keys, stats), d);
      KeysDistinct(f.lines) && KeysOf(f.lines) <= f.keys && |f.lines| >= |before| && f.lines[..|before|] == before
  {
    hide StoryKey, KeysOf, KeysDistinct, Renamed;
    var all := before + [line] + tail;
    assert all[|before|] == line && all[..|before|] == before && all[|before| + 1..] == tail;
    DropKeepsDistinct(before, line, tail);
    if d.verdict.Rename? && d.verdict.to !in keys {
      var line' := Renamed(line, d.key, d.verdict.to);
      PutKeepsDistinct(before, line', tail);
      assert all[|before| := line'] == before + ([line'] + tail);
    }
  }

  lemma RenameGivesStoryKey(before: seq<string>, line: string, target: Option<string>)
    requires VerdictAfter(before, line, target).Some?
    ensures StoryKey(line).Some? && StoryKey(line) == KeyOf(line)
    ensures VerdictAfter(before, line, target).value.Rename? ==>
      var to, key := VerdictAfter(before, line, target).value.to, KeyOf(line).value;
      to != "" && to != key && StoryKey(Renamed(line, key, to)) == Some(to)
  {
    hide Renamed, KeyOf, EpicAfter, HeaderEpic;
    if VerdictAfter(before, line, target).value.Rename? {
      var to := VerdictAfter(before, line, target).value.to;
      RenameIsNonempty(before, line, target);
      CanonicalChars(to);
      RenameChangesKey(line, to);
      assert to[0] != "epic-"[0];
    }
  }

  lemma {:induction false} RepairsKeepDistinct(lines: seq<string>, tail: seq<string>, keys: set<string>, stats: Stats,
                                               target: Option<string>)
    requires KeysDistinct(lines + tail) && KeysOf(lines + tail) <= keys
    ensures KeysDistinct(RepairedAll(File(lines + tail, keys, stats), Findings(lines, target)).lines)
    decreases |lines|
  {
    hide VerdictAfter, Renamed, KeyOf, StoryKey, KeysOf, KeysDistinct, Findings, RepairedAll, Repaired;
    if lines == [] {
      NothingToScan(target);
      AllRepaired(File(lines + tail, keys, stats));
      return;
    }
    var before, line := lines[..|lines| - 1], lines[|lines| - 1];
    assert lines == before + [line];
    if VerdictAfter(before, line, target).None? {
      NotFound(lines, target);
      assert before + ([line] + tail) == lines + tail;
      RepairsKeepDistinct(before, [line] + tail, keys, stats, target);
    } else {
      RenameGivesStoryKey(before, line, target);
      var d := Finding(|lines|, KeyOf(line).value, VerdictAfter(before, line, target).value);
      var f := Repaired(File(lines + tail, keys, stats), d);
      LastFinding(lines, target);
      assert Findings(lines, target)[..|Findings(before, target)|] == Findings(before, target);
      LastRepairFirst(File(lines + tail, keys, stats), Findings(lines, target));
      RepairKeepsDistinct(before, line, tail, keys, stats, d);
      assert f.lines == before + f.lines[|before|..];
      RepairsKeepDistinct(before, f.lines[|before|..], f.keys, f.stats, target);
    }
  }

  /** A repair gives no two story lines the same key, if none had the same key before: a rename
      onto a key that exists is turned into a removal. */
  lemma FixKeepsKeysDistinct(lines: seq<string>, target: Option<string>)
    requires KeysDistinct(lines)
    ensures KeysDistinct(RepairedAll(File(lines, KeysOf(lines), Stats(0, 0)), Findings(lines, target)).lines)
  {
    assert lines + [] == lines;
    RepairsKeepDistinct(lines, [], KeysOf(lines), Stats(0, 0), target);
  }

  /** `lines` is a repaired form of `lines0`: canonical story lines, and lines that are no story
      lines, stay as they are; story lines that can be spelled canonically stay under that key,
      unless it is taken; and no other line is left. */
  ghost predicate Cleaned(lines0: seq<string>, lines: seq<string>, target: Option<string>) {
    && (forall i :: 0 <= i < |lines0| && CanonicalAt(lines0, i, target) ==> lines0[i] in lines)
    && (forall i :: 0 <= i < |lines0| && NoStoryAt(lines0, i, target) ==> lines0[i] in lines)
    && (forall i, to :: 0 <= i < |lines0| && FreeAt(lines0, i, target, to) ==>
          var line := Renamed(lines0[i], KeyOf(lines0[i]).value, to);
          line in lines && KeyOf(line) == Some(to))
    && (forall line <- lines :: FromLine(lines0, target, line))
  }

  lemma FreeHasKey(lines: seq<string>, i: nat, target: Option<string>, to: string)
    requires i < |lines| && FreeAt(lines, i, target, to)
    ensures KeyOf(lines[i]).Some?
  {
    hide InSection;
  }

  lemma FixCleans(lines: seq<string>, target: Option<string>)
    ensures Cleaned(lines, RepairedAll(File(lines, KeysOf(lines), Stats(0, 0)), Findings(lines, target)).lines, target)
  {
    hide RepairedAll, Findings, FreeAt, NoStoryAt, CanonicalAt, KeysOf, Renamed, KeyOf, FromLine;
    var fixed := RepairedAll(File(lines, KeysOf(lines), Stats(0, 0)), Findings(lines, target)).lines;
    forall i | 0 <= i < |lines|
      ensures CanonicalAt(lines, i, target) || NoStoryAt(lines, i, target) ==> lines[i] in fixed
    {
      EveryLineIsTreated(lines, target, i, "");
    }
    forall i, to | 0 <= i < |lines| && FreeAt(lines, i, target, to)
      ensures KeyOf(lines[i]).Some?
      ensures var line := Renamed(lines[i], KeyOf(lines[i]).value, to); line in fixed && KeyOf(line) == Some(to)
    {
      FreeHasKey(lines, i, target, to);
      EveryLineIsTreated(lines, target, i, to);
    }
    NothingElse(lines, target);
  }

  /** The whole run with `--fix`: scan, repair, and a second scan that comes back empty. */
  method CleanFile(lines0: seq<string>, target: Option<string>) returns (lines: seq<string>, stats: Stats)
    ensures Findings(lines, target) == [] && Headers(lines) == Headers(lines0)
    ensures Subsequence(Untouched(lines0, target), lines)
    ensures stats.renamed + stats.removed == |Findings(lines0, target)| && |lines| + stats.removed == |lines0|
    ensures Cleaned(lines0, lines, target)
    ensures KeysDistinct(lines0) ==> KeysDistinct(lines)
  {
    hide Cleaned, KeysDistinct, Headers, Untouched, Subsequence;
    var findings := ScanFile(lines0, target);
    FindingsAscend(lines0, target);
    SortReversesAscending(findings);
    assert Reversed(Reversed(findings)) == findings;
    FixReachesFixpoint(lines0, target);
    FixKeepsOtherLines(lines0, target);
    FixCleans(lines0, target);
    if KeysDistinct(lines0) {
      FixKeepsKeysDistinct(lines0, target);
    }
    lines, stats := ApplyFixes(lines0, findings);
  }
}
