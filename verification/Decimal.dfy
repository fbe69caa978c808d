/** Decimal numerals: printing, reading and padding. */
module Decimal {

  import opened Text

  predicate AllDigits(s: string) { forall c <- s :: IsDigit(c) }

  function DigitValue(c: char): nat
    requires IsDigit(c)
  {
    (c - '0') as nat
  }

  function DigitChar(n: nat): (c: char)
    requires n < 10
    ensures IsDigit(c) && DigitValue(c) == n
  {
    '0' + n as char
  }

  /** n.toString(). */
  function Print(n: nat): (s: string)
    ensures s != [] && AllDigits(s)
  {
    if n < 10 then [DigitChar(n)] else Print(n / 10) + [DigitChar(n % 10)]
  }

  /** The number a string of digits denotes. */
  function Read(s: string): nat
    requires AllDigits(s)
  {
    if s == [] then 0 else 10 * Read(s[..|s| - 1]) + DigitValue(s[|s| - 1])
  }

  function Zeros(n: nat): (s: string)
    ensures |s| == n && AllDigits(s)
  {
    if n == 0 then [] else ['0'] + Zeros(n - 1)
  }

  /** s.padStart(width, "0"). */
  function PadStart(s: string, width: nat): string {
    if |s| >= width then s else Zeros(width - |s|) + s
  }

  lemma {:induction false} ReadPrint(n: nat)
    ensures Read(Print(n)) == n
  {
    if n >= 10 {
      ReadPrint(n / 10);
      var s := Print(n);
      assert s[..|s| - 1] == Print(n / 10);
    }
  }

  lemma {:induction false} ReadLeadingZeros(k: nat, s: string)
    requires AllDigits(s)
    ensures Read(Zeros(k) + s) == Read(s)
  {
    if s == [] {
      ReadZeros(k);
      assert Zeros(k) + s == Zeros(k);
    } else {
      ReadLeadingZeros(k, s[..|s| - 1]);
      var padded := Zeros(k) + s;
      assert padded[..|padded| - 1] == Zeros(k) + s[..|s| - 1];
    }
  }

  lemma {:induction false} ReadZeros(k: nat)
    ensures Read(Zeros(k)) == 0
  {
    if k > 0 {
      ReadZeros(k - 1);
      ZerosEnd(k);
    }
  }

  lemma {:induction false} ZerosEnd(k: nat)
    requires k > 0
    ensures Zeros(k)[k - 1] == '0' && Zeros(k)[..k - 1] == Zeros(k - 1)
  {
    if k > 1 {
      ZerosEnd(k - 1);
      assert Zeros(k)[..k - 1] == ['0'] + Zeros(k - 1)[..k - 2];
    }
  }

  /** Padding never loses the number. */
  lemma ReadPadded(n: nat, width: nat)
    ensures AllDigits(PadStart(Print(n), width))
    ensures Read(PadStart(Print(n), width)) == n
  {
    ReadPrint(n);
    if |Print(n)| < width {
      ReadLeadingZeros(width - |Print(n)|, Print(n));
    }
  }

  lemma {:induction false} PrintLengthMonotone(a: nat, b: nat)
    requires a <= b
    ensures |Print(a)| <= |Print(b)|
  {
    if b >= 10 {
      PrintLengthMonotone(a / 10, b / 10);
    }
  }

  lemma {:induction false} ReadConcat(a: string, b: string)
    requires AllDigits(a) && AllDigits(b)
    ensures Read(a + b) == Read(a) * Power10(|b|) + Read(b)
  {
    if b == [] {
      assert a + b == a;
    } else {
      var b', d := b[..|b| - 1], DigitValue(b[|b| - 1]);
      ReadConcat(a, b');
      calc {
        Read(a + b);
        { assert (a + b)[..|a + b| - 1] == a + b'; }
        10 * Read(a + b') + d;
        10 * (Read(a) * Power10(|b'|) + Read(b')) + d;
        { ShiftDigit(Read(a), Power10(|b'|), Read(b'), d); }
        Read(a) * (10 * Power10(|b'|)) + (10 * Read(b') + d);
        Read(a) * Power10(|b|) + Read(b);
      }
    }
  }

  lemma ShiftDigit(x: int, p: int, r: int, d: int)
    ensures 10 * (x * p + r) + d == x * (10 * p) + (10 * r + d)
  {
  }

  function Power10(n: nat): (p: nat)
    ensures p >= 1
  {
    if n == 0 then 1 else 10 * Power10(n - 1)
  }

  lemma {:induction false} ReadBound(s: string)
    requires AllDigits(s)
    ensures Read(s) < Power10(|s|)
  {
    if s != [] {
      ReadBound(s[..|s| - 1]);
      assert s[|s| - 1] in s;
      assert DigitValue(s[|s| - 1]) <= 9;
      assert Power10(|s|) == 10 * Power10(|s| - 1);
    }
  }

  lemma {:induction false} PrintLengthBound(n: nat, digits: nat)
    requires n < Power10(digits) && digits >= 1
    ensures |Print(n)| <= digits
  {
    if n >= 10 {
      PrintLengthBound(n / 10, digits - 1);
    }
  }

  /** `s` is the number `n` in at least `width` digits, with no zero in front that the width
      does not need. */
  predicate IsNumeral(s: string, n: nat, width: nat) {
    AllDigits(s) && Read(s) == n && |s| >= width && |s| >= 1 && (|s| > width && |s| > 1 ==> s[0] != '0')
  }

  lemma {:induction false} PrintHasNoLeadingZero(n: nat)
    ensures n >= 1 ==> Print(n)[0] != '0'
    ensures n >= 10 ==> |Print(n)| >= 2
  {
    if n >= 10 {
      PrintHasNoLeadingZero(n / 10);
    }
  }

  /** Padding a printed number gives its numeral. */
  lemma PadStartIsNumeral(n: nat, width: nat)
    ensures IsNumeral(PadStart(Print(n), width), n, width)
  {
    ReadPadded(n, width);
    PrintHasNoLeadingZero(n);
  }

  /** n % 100 is what the last two digits denote. */
  lemma ReadLastTwo(s: string)
    requires AllDigits(s) && |s| >= 2
    ensures AllDigits(s[|s| - 2..]) && Read(s[|s| - 2..]) == Read(s) % 100
  {
    hide Read, Power10;
    var k := |s| - 2;
    var high, low := s[..k], s[k..];
    assert high + low == s;
    ReadConcat(high, low);
    ReadBound(low);
    OneHundred();
    Hundreds(Read(high), Read(low));
  }

  lemma OneHundred()
    ensures Power10(2) == 100
  {
    assert Power10(1) == 10 * Power10(0);
  }

  lemma Hundreds(high: nat, low: nat)
    requires low < 100
    ensures (high * 100 + low) % 100 == low
  {
  }

  /** Two numerals of the same length denote the same number only if they are equal. */
  lemma {:induction false} ReadIsInjective(a: string, b: string)
    requires AllDigits(a) && AllDigits(b) && |a| == |b| && Read(a) == Read(b)
    ensures a == b
  {
    if a != [] {
      var a', b' := a[..|a| - 1], b[..|b| - 1];
      var x, y := a[|a| - 1], b[|b| - 1];
      assert x in a && y in b;
      assert 0 <= DigitValue(x) <= 9 && 0 <= DigitValue(y) <= 9;
      assert Read(a') == Read(b') && x == y;
      ReadIsInjective(a', b');
      assert a == a' + [x] && b == b' + [y];
    }
  }
}
