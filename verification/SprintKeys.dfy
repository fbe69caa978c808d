/** The text patterns of the sprint-status file: epic headers, story keys and the verdict on a
    key, with what each of them means. */
module SprintKeys {
  import opened Common
  import opened Text

  datatype Verdict = Remove | Rename(to: string)

  // -------------------------------------------------------------- text patterns

  predicate IsLetter(c: char) { 'a' <= c <= 'z' || 'A' <= c <= 'Z' }

  function LeadingSpaces(s: string): (n: nat)
    ensures n <= |s| && (forall i :: 0 <= i < n ==> IsSpace(s[i])) && (n < |s| ==> !IsSpace(s[n]))
  {
    if s != [] && IsSpace(s[0]) then 1 + LeadingSpaces(s[1..]) else 0
  }

  function LeadingDigits(s: string): (n: nat)
    ensures n <= |s| && (forall i :: 0 <= i < n ==> IsDigit(s[i])) && (n < |s| ==> !IsDigit(s[n]))
  {
    if s != [] && IsDigit(s[0]) then 1 + LeadingDigits(s[1..]) else 0
  }

  /** A colon `k` characters after `from` that can end a key: no whitespace in between, and
      something other than whitespace after it. */
  predicate EndsKey(line: string, from: nat, k: nat) {
    && k >= 1 && from + k < |line| && line[from + k] == ':'
    && (forall i :: from <= i < from + k ==> !IsSpace(line[i]))
    && exists i :: from + k < i < |line| && !IsSpace(line[i])
  }

  /** The longest key of at most `k` characters, or 0. */
  function KeyLength(line: string, from: nat, k: nat): (n: nat)
    ensures n <= k && (n > 0 ==> EndsKey(line, from, n))
    ensures forall j :: n < j <= k ==> !EndsKey(line, from, j)
  {
    if k == 0 then 0 else if EndsKey(line, from, k) then k else KeyLength(line, from, k - 1)
  }

  /** The key of a `key: value` line. */
  function KeyOf(line: string): Option<string> {
    var from := LeadingSpaces(line);
    var n := KeyLength(line, from, |line| - from);
    if n == 0 then None else Some(line[from..from + n])
  }

  /** The number between whitespace and a colon. */
  function NumberBeforeColon(s: string): (r: Option<string>)
    ensures r.Some? ==> r.value != "" && forall c <- r.value :: IsDigit(c)
  {
    var d := LeadingSpaces(s);
    var e := d + LeadingDigits(s[d..]);
    if d == 0 || e == d || e == |s| || s[e] != ':' then None else Some(s[d..e])
  }

  function EpicBehindHash(s: string): (r: Option<string>)
    ensures r.Some? ==> r.value != "" && forall c <- r.value :: IsDigit(c)
  {
    var b := LeadingSpaces(s);
    if "Epic" <= s[b..] then NumberBeforeColon(s[b + 4..]) else None
  }

  /** The epic number of a `# Epic N:` line. */
  function HeaderEpic(line: string): (r: Option<string>)
    ensures r.Some? ==> r.value != "" && forall c <- r.value :: IsDigit(c)
  {
    var a := LeadingSpaces(line);
    if a < |line| && line[a] == '#' then EpicBehindHash(line[a + 1..]) else None
  }

  /** The part of a key before its first hyphen. */
  function Prefix(key: string): string {
    if key == [] || key[0] == '-' then [] else [key[0]] + Prefix(key[1..])
  }

  /** U+212A is the one character outside ASCII whose lower-case form is an ASCII letter. */
  function LowerChar(c: char): char {
    if 'A' <= c <= 'Z' then c - 'A' + 'a' else if c == '\U{212A}' then 'k' else c
  }

  function Lower(s: string): (r: string)
    ensures |r| == |s| && forall i :: 0 <= i < |s| ==> r[i] == LowerChar(s[i])
  {
    seq(|s|, i requires 0 <= i < |s| => LowerChar(s[i]))
  }

  /** The length of the leading digits-hyphen-digits, or 0. */
  function StoryNumber(key: string): (n: nat)
    ensures n <= |key|
    ensures n > 0 ==> LeadingDigits(key) + 1 < n && key[LeadingDigits(key)] == '-'
    ensures n > 0 ==> forall c <- key[..n] :: IsDigit(c) || c == '-'
    ensures 0 < n < |key| ==> !IsDigit(key[n])
  {
    var a := LeadingDigits(key);
    if a == 0 || a == |key| || key[a] != '-' then 0
    else
      var b := LeadingDigits(key[a + 1..]);
      if b == 0 then 0 else a + 1 + b
  }

  predicate Canonical(key: string) {
    var n := StoryNumber(key);
    n > 0 && (n == |key| || (key[n] == '-' && n + 1 < |key| && forall c <- key[n + 1..] :: SlugChar(c)))
  }

  /** Inserts the hyphen that is missing between the number and a name. */
  function NormalizeMissingHyphenSuffix(key: string): Option<string> {
    var n := StoryNumber(key);
    if n > 0 && n < |key| && IsLetter(key[n]) && forall c <- key[n + 1..] :: IsLetter(c) || IsDigit(c) || c == '-'
    then Some(key[..n] + "-" + key[n..])
    else None
  }

  function AnalyzeStoryKey(key: string, epic: string): Option<Verdict> {
    if '.' in key || Prefix(key) != epic then Some(Remove)
    else
      var lower := Lower(key);
      var hyphenated := NormalizeMissingHyphenSuffix(lower);
      var normal := if hyphenated.Some? then hyphenated.value else lower;
      if normal != key && Canonical(normal) then Some(Rename(normal))
      else if !Canonical(key) then Some(Remove)
      else None
  }

  // ------------------------------------------------------- what the patterns mean

  predicate Digits(s: string) { s != "" && forall c <- s :: IsDigit(c) }

  /** Digits, a hyphen, digits, and perhaps a hyphen with a name of [a-z0-9-]. */
  ghost predicate CanonicalForm(key: string) {
    exists a, b, rest ::
      && key == a + "-" + b + rest && Digits(a) && Digits(b)
      && (rest == "" || (|rest| >= 2 && rest[0] == '-' && forall c <- rest[1..] :: SlugChar(c)))
  }

  /** `to` is the lower-case key `low`, or is it with a hyphen between the story number and a
      name that follows it directly. */
  ghost predicate Respelled(low: string, to: string) {
    to == low ||
    exists a, b, name ::
      && low == a + "-" + b + name && Digits(a) && Digits(b) && name != "" && 'a' <= name[0] <= 'z'
      && to == a + "-" + b + "-" + name
  }

  /** The canonical spelling of a key that is not spelled so. */
  ghost predicate CanBecome(key: string, to: string) {
    to != key && CanonicalForm(to) && Respelled(Lower(key), to)
  }

  /** The key is the epic's number, alone or before a hyphen. */
  predicate OfEpic(key: string, epic: string) { key == epic || epic + "-" <= key }

  lemma {:induction false} DigitsFirst(a: string, rest: string)
    requires Digits(a) && (rest == "" || !IsDigit(rest[0]))
    ensures LeadingDigits(a + rest) == |a|
  {
    var s := a + rest;
    assert forall i :: 0 <= i < |a| ==> s[i] == a[i] && a[i] in a;
    if rest != "" {
      assert s[|a|] == rest[0];
    }
  }

  lemma NumberFirst(a: string, b: string, rest: string)
    requires Digits(a) && Digits(b) && (rest == "" || !IsDigit(rest[0]))
    ensures StoryNumber(a + "-" + b + rest) == |a| + 1 + |b|
  {
    hide LeadingDigits;
    var key := a + "-" + b + rest;
    assert key == a + ("-" + b + rest) && ("-" + b + rest)[0] == '-';
    DigitsFirst(a, "-" + b + rest);
    assert key[|a| + 1..] == b + rest;
    DigitsFirst(b, rest);
  }

  /** A key splits at the end of its story number. */
  lemma SplitKey(key: string) returns (a: string, b: string, rest: string)
    requires StoryNumber(key) > 0
    ensures key == a + "-" + b + rest && Digits(a) && Digits(b) && (rest == "" || !IsDigit(rest[0]))
    ensures |a| + 1 + |b| == StoryNumber(key) && rest == key[StoryNumber(key)..]
  {
    var d, n := LeadingDigits(key), StoryNumber(key);
    a, b, rest := key[..d], key[d + 1..n], key[n..];
    var e := LeadingDigits(key[d + 1..]);
    assert e == n - d - 1;
    forall c <- b ensures IsDigit(c) {
      var i :| 0 <= i < |b| && b[i] == c;
      assert key[d + 1..][i] == c;
    }
  }

  lemma CanonicalHasForm(key: string)
    requires Canonical(key)
    ensures CanonicalForm(key)
  {
    hide StoryNumber, Digits;
    var a, b, rest := SplitKey(key);
    if rest != "" {
      assert rest[1..] == key[StoryNumber(key) + 1..];
    }
  }

  lemma FormIsCanonical(a: string, b: string, rest: string)
    requires Digits(a) && Digits(b)
    requires rest == "" || (|rest| >= 2 && rest[0] == '-' && forall c <- rest[1..] :: SlugChar(c))
    ensures Canonical(a + "-" + b + rest)
  {
    hide StoryNumber, Digits;
    NumberFirst(a, b, rest);
    var key := a + "-" + b + rest;
    var n := StoryNumber(key);
    assert key[n..] == rest;
    if rest != "" {
      assert key[n + 1..] == rest[1..];
    }
  }

  /** The pattern accepts exactly the keys of canonical form. */
  lemma CanonicalIff(key: string)
    ensures Canonical(key) <==> CanonicalForm(key)
  {
    hide Canonical, Digits;
    if Canonical(key) {
      CanonicalHasForm(key);
    }
    if CanonicalForm(key) {
      var a, b, rest :| && key == a + "-" + b + rest && Digits(a) && Digits(b)
        && (rest == "" || (|rest| >= 2 && rest[0] == '-' && forall c <- rest[1..] :: SlugChar(c)));
      FormIsCanonical(a, b, rest);
    }
  }

  /** The spelling that the analysis tries. */
  function Normal(low: string): string {
    var hyphenated := NormalizeMissingHyphenSuffix(low);
    if hyphenated.Some? then hyphenated.value else low
  }

  lemma Halves(head: string, name: string)
    ensures (head + name)[..|head|] == head && (head + name)[|head|..] == name
    ensures (head + "-" + name)[|head| + 1..] == name
  {
  }

  lemma HyphenatedParts(low: string) returns (a: string, b: string, name: string)
    requires NormalizeMissingHyphenSuffix(low).Some?
    ensures low == a + "-" + b + name && Digits(a) && Digits(b) && name != "" && IsLetter(name[0])
    ensures var to := Normal(low);
      to == a + "-" + b + "-" + name && StoryNumber(to) + 1 < |to| && to[StoryNumber(to) + 1..] == name
  {
    hide StoryNumber, Digits;
    a, b, name := SplitKey(low);
    var head := a + "-" + b;
    Halves(head, name);
    NumberFirst(a, b, "-" + name);
    assert head + "-" + name == head + ("-" + name);
  }

  lemma NormalIsRespelled(low: string)
    requires Canonical(Normal(low))
    ensures Respelled(low, Normal(low))
  {
    hide StoryNumber, Digits, Canonical, NormalizeMissingHyphenSuffix, IsLetter;
    if NormalizeMissingHyphenSuffix(low).Some? {
      var a, b, name := HyphenatedParts(low);
      LowerName(Normal(low), name);
    }
  }

  lemma LowerName(to: string, name: string)
    requires Canonical(to) && name != "" && StoryNumber(to) + 1 < |to| && to[StoryNumber(to) + 1..] == name
    requires IsLetter(name[0])
    ensures 'a' <= name[0] <= 'z'
  {
    hide StoryNumber;
    assert name[0] in name;
    assert SlugChar(name[0]);
  }

  lemma HyphenatedIsNormal(a: string, b: string, name: string)
    requires Digits(a) && Digits(b) && name != "" && 'a' <= name[0] <= 'z'
    requires Canonical(a + "-" + b + "-" + name)
    ensures Normal(a + "-" + b + name) == a + "-" + b + "-" + name
  {
    hide StoryNumber, Digits;
    var head := a + "-" + b;
    NumberFirst(a, b, name);
    NumberFirst(a, b, "-" + name);
    assert head + "-" + name == head + ("-" + name);
    Halves(head, name);
    SlugName(head + "-" + name, name);
  }

  lemma SlugName(to: string, name: string)
    requires Canonical(to) && name != "" && StoryNumber(to) + 1 < |to| && to[StoryNumber(to) + 1..] == name
    ensures forall c <- name[1..] :: IsLetter(c) || IsDigit(c) || c == '-'
  {
    hide StoryNumber;
    forall c <- name[1..] ensures IsLetter(c) || IsDigit(c) || c == '-' {
      assert c in name;
      assert SlugChar(c);
    }
  }

  lemma CanonicalIsNormal(low: string)
    requires Canonical(low)
    ensures Normal(low) == low
  {
    hide StoryNumber;
  }

  lemma RespelledIsNormal(low: string, to: string)
    requires Respelled(low, to) && Canonical(to)
    ensures to == Normal(low)
  {
    hide Canonical, Normal, Digits;
    if to == low {
      CanonicalIsNormal(low);
    } else {
      var a, b, name :|
        && low == a + "-" + b + name && Digits(a) && Digits(b) && name != "" && 'a' <= name[0] <= 'z'
        && to == a + "-" + b + "-" + name;
      HyphenatedIsNormal(a, b, name);
    }
  }

  lemma CanBecomeIff(key: string, to: string)
    ensures CanBecome(key, to) <==> to != key && to == Normal(Lower(key)) && Canonical(to)
  {
    hide Canonical, Normal, Lower, CanonicalForm, Respelled;
    CanonicalIff(to);
    if CanBecome(key, to) {
      RespelledIsNormal(Lower(key), to);
    }
    if to == Normal(Lower(key)) && Canonical(to) {
      NormalIsRespelled(Lower(key));
    }
  }

  lemma {:induction false} OfEpicIff(key: string, epic: string)
    requires '-' !in epic
    ensures Prefix(key) == epic <==> OfEpic(key, epic)
  {
    assert epic != [] ==> epic[0] in epic && (epic + "-")[0] == epic[0];
    if key != [] && key[0] != '-' && epic != [] {
      OfEpicIff(key[1..], epic[1..]);
      assert key == [key[0]] + key[1..] && epic == [epic[0]] + epic[1..];
      assert epic + "-" == [epic[0]] + (epic[1..] + "-");
    }
  }

  lemma {:induction false} LowerOfSlug(key: string)
    requires forall c <- key :: SlugChar(c)
    ensures Lower(key) == key
  {
    forall i | 0 <= i < |key| ensures Lower(key)[i] == key[i] {
      assert key[i] in key;
    }
  }

  lemma CanonicalChars(key: string)
    requires Canonical(key)
    ensures forall c <- key :: SlugChar(c)
    ensures key != "" && IsDigit(key[0])
  {
    var n := StoryNumber(key);
    forall i | 0 <= i < |key| ensures SlugChar(key[i]) {
      if i < n {
        assert key[i] in key[..n];
      } else if i > n {
        assert key[i] == key[n + 1..][i - n - 1];
      }
    }
  }

  lemma CanonicalHasNoDot(key: string)
    requires Canonical(key)
    ensures '.' !in key
  {
    hide Canonical;
    CanonicalChars(key);
  }

  lemma CanonicalStays(key: string)
    requires Canonical(key)
    ensures Normal(Lower(key)) == key
  {
    hide Canonical, Normal, Lower;
    CanonicalChars(key);
    LowerOfSlug(key);
    CanonicalIsNormal(key);
  }

  /** The verdict on a key under an epic: it is left alone exactly when it is a canonical key of
      the epic; it is respelled exactly when the epic fits, there is no dot and `to` is its
      canonical spelling; and it is removed exactly when neither is possible. */
  lemma VerdictIff(key: string, epic: string, to: string)
    requires forall c <- epic :: IsDigit(c)
    ensures AnalyzeStoryKey(key, epic) == None <==> OfEpic(key, epic) && CanonicalForm(key)
    ensures AnalyzeStoryKey(key, epic) == Some(Rename(to)) <==>
      OfEpic(key, epic) && '.' !in key && CanBecome(key, to)
    ensures AnalyzeStoryKey(key, epic) == Some(Remove) <==>
      !OfEpic(key, epic) || '.' in key || (!CanonicalForm(key) && forall t :: !CanBecome(key, t))
  {
    hide Canonical, NormalizeMissingHyphenSuffix, CanonicalForm, OfEpic, CanBecome, Prefix;
    OfEpicIff(key, epic);
    CanonicalIff(key);
    forall t ensures CanBecome(key, t) <==> t != key && t == Normal(Lower(key)) && Canonical(t) {
      CanBecomeIff(key, t);
    }
    if CanonicalForm(key) {
      CanonicalHasNoDot(key);
      CanonicalStays(key);
    }
  }

  /** A key has at most one canonical spelling. */
  lemma CanBecomeOneKey(key: string, a: string, b: string)
    requires CanBecome(key, a) && CanBecome(key, b)
    ensures a == b
  {
    CanBecomeIff(key, a);
    CanBecomeIff(key, b);
  }

  // ------------------------------------------------------ what the line patterns mean

  lemma {:induction false} SpacesBefore(spaces: string, rest: string)
    requires forall c <- spaces :: IsSpace(c)
    requires rest != "" && !IsSpace(rest[0])
    ensures LeadingSpaces(spaces + rest) == |spaces|
  {
    assert (spaces + rest)[|spaces|] == rest[0];
    assert forall i :: 0 <= i < |spaces| ==> (spaces + rest)[i] == spaces[i] && spaces[i] in spaces;
  }

  lemma BlanksFirst(blanks: string, rest: string)
    requires AllSpace(blanks) && rest != "" && !IsSpace(rest[0])
    ensures LeadingSpaces(blanks + rest) == |blanks|
    ensures (blanks + rest)[..|blanks|] == blanks && (blanks + rest)[|blanks|..] == rest
  {
    SpacesBefore(blanks, rest);
  }

  /** Whitespace, the number, a colon and anything. */
  ghost predicate NumberForm(s: string, epic: string) {
    exists blanks, rest ::
      s == blanks + (epic + (":" + rest)) && AllSpace(blanks) && blanks != "" && Digits(epic)
  }

  lemma NumberIff(s: string, epic: string)
    ensures NumberBeforeColon(s) == Some(epic) <==> NumberForm(s, epic)
  {
    if NumberBeforeColon(s) == Some(epic) {
      hide LeadingSpaces, LeadingDigits;
      var d := LeadingSpaces(s);
      var e := d + |epic|;
      BlankPrefix(s);
      assert s[d..] == epic + (":" + s[e + 1..]);
      assert s == s[..d] + s[d..];
      assert NumberForm(s, epic);
    }
    if NumberForm(s, epic) {
      var blanks, rest :|
        s == blanks + (epic + (":" + rest)) && AllSpace(blanks) && blanks != "" && Digits(epic);
      FormIsNumber(blanks, epic, rest);
    }
  }

  lemma BlankPrefix(s: string)
    ensures AllSpace(s[..LeadingSpaces(s)])
  {
    hide LeadingSpaces;
  }

  lemma FormIsNumber(blanks: string, epic: string, rest: string)
    requires AllSpace(blanks) && blanks != "" && Digits(epic)
    ensures NumberBeforeColon(blanks + (epic + (":" + rest))) == Some(epic)
  {
    hide LeadingSpaces, LeadingDigits, AllSpace, IsSpace;
    var tail := ":" + rest;
    assert epic[0] in epic && !IsSpace(epic[0]) by {
      DigitIsInk(epic[0]);
    }
    BlanksFirst(blanks, epic + tail);
    DigitsFirst(epic, tail);
    var s := blanks + (epic + tail);
    assert s[|blanks|..] == epic + tail;
    assert s[|blanks|..|blanks| + |epic|] == epic && s[|blanks| + |epic|] == ':';
  }

  lemma DigitIsInk(c: char)
    requires IsDigit(c)
    ensures !IsSpace(c)
  {
  }

  /** Whitespace, "Epic" and the number. */
  ghost predicate EpicForm(s: string, epic: string) {
    exists blanks, rest :: s == blanks + ("Epic" + rest) && AllSpace(blanks) && NumberForm(rest, epic)
  }

  lemma EpicIff(s: string, epic: string)
    ensures EpicBehindHash(s) == Some(epic) <==> EpicForm(s, epic)
  {
    hide LeadingSpaces, NumberForm, NumberBeforeColon, AllSpace;
    if EpicBehindHash(s) == Some(epic) {
      var b := LeadingSpaces(s);
      BlankPrefix(s);
      NumberIff(s[b + 4..], epic);
      assert s[b..] == "Epic" + s[b + 4..];
      assert s == s[..b] + s[b..];
      assert EpicForm(s, epic);
    }
    if EpicForm(s, epic) {
      var blanks, rest :| s == blanks + ("Epic" + rest) && AllSpace(blanks) && NumberForm(rest, epic);
      FormIsEpic(blanks, rest);
      NumberIff(rest, epic);
    }
  }

  lemma FormIsEpic(blanks: string, rest: string)
    requires AllSpace(blanks)
    ensures EpicBehindHash(blanks + ("Epic" + rest)) == NumberBeforeColon(rest)
  {
    hide LeadingSpaces, NumberBeforeColon, AllSpace;
    BlanksFirst(blanks, "Epic" + rest);
    var s := blanks + ("Epic" + rest);
    assert s[|blanks|..][4..] == rest && s[|blanks| + 4..] == rest;
  }

  /** A header line is: whitespace, a hash, whitespace, "Epic", some whitespace, the number, a
      colon, and anything. */
  ghost predicate HeaderForm(line: string, epic: string) {
    exists blanks, rest :: line == blanks + ("#" + rest) && AllSpace(blanks) && EpicForm(rest, epic)
  }

  lemma HeaderIff(line: string, epic: string)
    ensures HeaderEpic(line) == Some(epic) <==> HeaderForm(line, epic)
  {
    hide LeadingSpaces, EpicForm, EpicBehindHash, AllSpace;
    if HeaderEpic(line) == Some(epic) {
      var a := LeadingSpaces(line);
      BlankPrefix(line);
      EpicIff(line[a + 1..], epic);
      assert line[a..] == "#" + line[a + 1..];
      assert line == line[..a] + line[a..];
      assert HeaderForm(line, epic);
    }
    if HeaderForm(line, epic) {
      var blanks, rest :| line == blanks + ("#" + rest) && AllSpace(blanks) && EpicForm(rest, epic);
      FormIsHeader(blanks, rest);
      EpicIff(rest, epic);
    }
  }

  lemma FormIsHeader(blanks: string, rest: string)
    requires AllSpace(blanks)
    ensures HeaderEpic(blanks + ("#" + rest)) == EpicBehindHash(rest)
  {
    hide LeadingSpaces, EpicBehindHash, AllSpace;
    BlanksFirst(blanks, "#" + rest);
    var line := blanks + ("#" + rest);
    assert line[|blanks| + 1..] == rest;
  }

  /** Whitespace, the key without whitespace, a colon, and something that is not blank. */
  ghost predicate KeyForm(line: string, key: string) {
    exists blanks, rest ::
      && line == blanks + (key + (":" + rest)) && AllSpace(blanks)
      && key != "" && (forall c <- key :: !IsSpace(c)) && !AllSpace(rest)
  }

  lemma KeyIsForm(line: string, from: nat, n: nat)
    requires from == LeadingSpaces(line) && from + n < |line| && EndsKey(line, from, n)
    ensures KeyForm(line, line[from..from + n])
  {
    hide LeadingSpaces, IsSpace, EndsKey, KeyForm;
    BlankPrefix(line);
    hide AllSpace;
    KeyAndRest(line, from, n);
    Cut(line, from, n);
    MakeForm(line[..from], line[from..from + n], line[from + n + 1..]);
  }

  lemma Cut(line: string, from: nat, n: nat)
    requires from + n < |line| && line[from + n] == ':'
    ensures line == line[..from] + (line[from..from + n] + (":" + line[from + n + 1..]))
  {
  }

  lemma KeyAndRest(line: string, from: nat, n: nat)
    requires from + n < |line| && EndsKey(line, from, n)
    ensures line[from + n] == ':' && n > 0 && forall c <- line[from..from + n] :: !IsSpace(c)
    ensures !AllSpace(line[from + n + 1..])
  {
    hide IsSpace;
    var i :| from + n < i < |line| && !IsSpace(line[i]);
    HasInk(line[from + n + 1..], i - from - n - 1);
  }

  lemma MakeForm(blanks: string, key: string, rest: string)
    requires AllSpace(blanks) && key != "" && (forall c <- key :: !IsSpace(c)) && !AllSpace(rest)
    ensures KeyForm(blanks + (key + (":" + rest)), key)
  {
    hide AllSpace, IsSpace;
  }

  lemma HasInk(s: string, i: nat)
    requires i < |s| && !IsSpace(s[i])
    ensures !AllSpace(s)
  {
    assert s[i] in s;
  }

  lemma FormIsKey(blanks: string, key: string, rest: string)
    requires AllSpace(blanks) && key != "" && (forall c <- key :: !IsSpace(c)) && !AllSpace(rest)
    ensures
      var line := blanks + (key + (":" + rest));
      var from := LeadingSpaces(line);
      from == |blanks| && line[from..from + |key|] == key && EndsKey(line, from, |key|)
  {
    hide LeadingSpaces, IsSpace;
    var line, from := blanks + (key + (":" + rest)), |blanks|;
    assert key[0] in key;
    BlanksFirst(blanks, key + (":" + rest));
    assert forall i :: from <= i < from + |key| ==> line[i] == key[i - from] && key[i - from] in key;
    var c :| c in rest && !IsSpace(c);
    var i :| 0 <= i < |rest| && rest[i] == c;
    assert line[from + |key| + 1 + i] == c;
  }

  ghost predicate IsKeyAt(line: string, k: string) {
    var from := LeadingSpaces(line);
    0 < |k| && from + |k| < |line| && line[from..from + |k|] == k && EndsKey(line, from, |k|)
  }

  lemma KeyIsThere(line: string, k: string)
    requires KeyForm(line, k)
    ensures IsKeyAt(line, k)
  {
    hide LeadingSpaces, EndsKey, AllSpace, IsSpace;
    var blanks, rest :|
      && line == blanks + (k + (":" + rest)) && AllSpace(blanks)
      && k != "" && (forall c <- k :: !IsSpace(c)) && !AllSpace(rest);
    FormIsKey(blanks, k, rest);
  }

  lemma KeyIsLongest(line: string, k: string)
    requires KeyForm(line, k)
    ensures
      var from := LeadingSpaces(line);
      0 < |k| <= KeyLength(line, from, |line| - from) && from + |k| < |line| && line[from..from + |k|] == k
  {
    hide LeadingSpaces, EndsKey, KeyLength, KeyForm;
    KeyIsThere(line, k);
  }

  lemma InLine(line: string, from: nat, n: nat)
    requires EndsKey(line, from, n)
    ensures from + n < |line|
  {
  }

  /** The key of a line is the longest that the line can be read with. */
  lemma KeyIff(line: string, key: string)
    ensures KeyOf(line) == Some(key) <==> KeyForm(line, key) && forall k :: KeyForm(line, k) ==> |k| <= |key|
    ensures KeyOf(line) == None <==> forall k :: !KeyForm(line, k)
  {
    hide LeadingSpaces, KeyForm, EndsKey, KeyLength;
    var from := LeadingSpaces(line);
    var n := KeyLength(line, from, |line| - from);
    forall k | KeyForm(line, k) ensures 0 < |k| <= n && from + |k| < |line| && line[from..from + |k|] == k {
      KeyIsLongest(line, k);
    }
    if n > 0 {
      InLine(line, from, n);
      KeyIsForm(line, from, n);
      assert |line[from..from + n]| == n;
    }
  }
}
