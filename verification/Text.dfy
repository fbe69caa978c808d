/** Characters and whitespace as JavaScript's String and RegExp see them. */
module Text {

  /** \s, which is also what trim() removes. */
  predicate IsSpace(c: char) {
    || '\t' <= c <= '\r' || c == ' ' || c == '\U{00A0}' || c == '\U{1680}'
    || '\U{2000}' <= c <= '\U{200A}' || c == '\U{2028}' || c == '\U{2029}'
    || c == '\U{202F}' || c == '\U{205F}' || c == '\U{3000}' || c == '\U{FEFF}'
  }

  predicate IsDigit(c: char) { '0' <= c <= '9' }

  /** [a-z0-9-]. */
  predicate SlugChar(c: char) { 'a' <= c <= 'z' || IsDigit(c) || c == '-' }

  function TrimStart(s: string): (r: string)
    ensures r == [] || !IsSpace(r[0])
    ensures |r| <= |s|
  {
    if s != [] && IsSpace(s[0]) then TrimStart(s[1..]) else s
  }

  function TrimEnd(s: string): (r: string)
    ensures r == [] || !IsSpace(r[|r| - 1])
    ensures r <= s
  {
    if s != [] && IsSpace(s[|s| - 1]) then TrimEnd(s[..|s| - 1]) else s
  }

  function Trim(s: string): string { TrimEnd(TrimStart(s)) }

  predicate AllSpace(s: string) { forall c <- s :: IsSpace(c) }

  /** trimEnd() removes exactly the whitespace at the end. */
  lemma {:induction false} TrimEndDrops(s: string, blanks: string)
    requires s == [] || !IsSpace(s[|s| - 1])
    requires AllSpace(blanks)
    ensures TrimEnd(s + blanks) == s
  {
    if blanks == [] {
      assert s + blanks == s;
    } else {
      assert blanks[|blanks| - 1] in blanks;
      assert (s + blanks)[..|s + blanks| - 1] == s + blanks[..|blanks| - 1];
      TrimEndDrops(s, blanks[..|blanks| - 1]);
    }
  }

  /** trimStart() removes exactly the whitespace in front. */
  lemma {:induction false} TrimStartDrops(blanks: string, s: string)
    requires s == [] || !IsSpace(s[0])
    requires AllSpace(blanks)
    ensures TrimStart(blanks + s) == s
  {
    if blanks == [] {
      assert blanks + s == s;
    } else {
      assert blanks[0] in blanks;
      assert (blanks + s)[1..] == blanks[1..] + s;
      TrimStartDrops(blanks[1..], s);
    }
  }

  predicate Trimmed(s: string) {
    s == [] || (!IsSpace(s[0]) && !IsSpace(s[|s| - 1]))
  }

  /** trim() leaves exactly the trimmed strings alone. */
  lemma TrimmedIff(s: string)
    ensures Trim(s) == s <==> Trimmed(s)
  {
    if s != [] && IsSpace(s[0]) {
      assert |Trim(s)| <= |TrimStart(s[1..])| < |s|;
    }
  }

  /** trim() removes the whitespace around a trimmed text and nothing else. */
  lemma TrimDrops(before: string, s: string, after: string)
    requires AllSpace(before) && AllSpace(after) && Trimmed(s)
    ensures Trim(before + s + after) == s
  {
    if s == [] {
      assert AllSpace(before + after);
      TrimStartDrops(before + after, s);
      assert before + s + after == before + after + s;
    } else {
      assert (s + after)[0] == s[0];
      TrimStartDrops(before, s + after);
      assert before + s + after == before + (s + after);
      TrimEndDrops(s, after);
    }
  }
}
