/** Barcode validation: check digits and the choice of a symbology. */
module Barcodes {
  import opened Common
  import opened Decimal
  import opened Text

  datatype BarcodeType = EAN13 | UPCA | CODE128 | CUSTOM

  predicate Digits(code: string, n: nat) { |code| == n && forall i :: 0 <= i < n ==> IsDigit(code[i]) }

  function Weight(fromRight: nat): nat { if fromRight % 2 == 0 then 1 else 3 }

  /** The weighted sum of section 7.9 of the GS1 General Specifications: counted from the right,
      the check digit weighs 1, its neighbour 3, and so on alternately. */
  function WeightedSum(code: string): nat
    requires forall i :: 0 <= i < |code| ==> IsDigit(code[i])
  {
    if code == [] then 0 else DigitValue(code[0]) * Weight(|code| - 1) + WeightedSum(code[1..])
  }

  /** A code is valid when its weighted sum is a multiple of ten. */
  predicate CheckDigitFits(code: string, n: nat) { Digits(code, n) && WeightedSum(code) % 10 == 0 }

  lemma RoundUp(sum: nat, check: nat)
    requires check < 10
    ensures (10 - sum % 10) % 10 == check <==> (sum + check) % 10 == 0
  {
  }

  /** The sum over the first k digits, read from the left with the given first weight. */
  function LeftSum(code: string, k: nat, even: nat, odd: nat): nat
    requires k <= |code| && forall i :: 0 <= i < |code| ==> IsDigit(code[i])
  {
    if k == 0 then 0
    else LeftSum(code, k - 1, even, odd) + DigitValue(code[k - 1]) * (if (k - 1) % 2 == 0 then even else odd)
  }

  lemma WeightFromLeft(n: nat, k: nat)
    requires k < n
    ensures Weight(n - 1 - k) == if k % 2 == 0 then Weight(n - 1) else Weight(n)
  {
  }

  /** Reading from the left or from the right gives the same sum. */
  lemma {:induction false} LeftIsRight(code: string, k: nat)
    requires 0 < |code| && k <= |code| && forall i :: 0 <= i < |code| ==> IsDigit(code[i])
    ensures LeftSum(code, k, Weight(|code| - 1), Weight(|code|)) + WeightedSum(code[k..]) == WeightedSum(code)
  {
    if k == 0 {
      assert code[0..] == code;
    } else {
      LeftIsRight(code, k - 1);
      assert code[k - 1..][1..] == code[k..];
      WeightFromLeft(|code|, k - 1);
      hide Weight;
    }
  }

  method ValidateEAN13(barcode: string) returns (valid: bool)
    ensures valid <==> CheckDigitFits(barcode, 13)
  {
    if !Digits(barcode, 13) {
      return false;
    }
    var sum := 0;
    for i := 0 to 12
      invariant sum == LeftSum(barcode, i, 1, 3)
    {
      sum := sum + DigitValue(barcode[i]) * (if i % 2 == 0 then 1 else 3);
    }
    var checksum := (10 - sum % 10) % 10;
    LeftIsRight(barcode, 12);
    assert WeightedSum(barcode[12..]) == DigitValue(barcode[12]);
    RoundUp(sum, DigitValue(barcode[12]));
    valid := checksum == DigitValue(barcode[12]);
  }

  method ValidateUPCA(barcode: string) returns (valid: bool)
    ensures valid <==> CheckDigitFits(barcode, 12)
  {
    if !Digits(barcode, 12) {
      return false;
    }
    var sum := 0;
    for i := 0 to 11
      invariant sum == LeftSum(barcode, i, 3, 1)
    {
      sum := sum + DigitValue(barcode[i]) * (if i % 2 == 0 then 3 else 1);
    }
    var checksum := (10 - sum % 10) % 10;
    LeftIsRight(barcode, 11);
    assert WeightedSum(barcode[11..]) == DigitValue(barcode[11]);
    RoundUp(sum, DigitValue(barcode[11]));
    valid := checksum == DigitValue(barcode[11]);
  }

  // -------------------------------------------------------------- main results

  /** Both symbologies are one: a UPC-A code is an EAN-13 code with a leading zero. */
  lemma UpcIsEanWithZero(code: string)
    ensures CheckDigitFits(code, 12) <==> CheckDigitFits("0" + code, 13)
  {
    assert ("0" + code)[1..] == code;
    if Digits("0" + code, 13) {
      assert forall i :: 0 <= i < 12 ==> code[i] == ("0" + code)[i + 1];
    }
  }

  lemma {:induction false} SumAfterChange(code: string, i: nat, c: char)
    requires i < |code| && IsDigit(c) && forall k :: 0 <= k < |code| ==> IsDigit(code[k])
    ensures WeightedSum(code[i := c]) ==
      WeightedSum(code) + (DigitValue(c) - DigitValue(code[i])) * Weight(|code| - 1 - i)
    decreases i
  {
    hide Weight, DigitValue;
    if i == 0 {
      assert code[0 := c][1..] == code[1..];
    } else {
      SumAfterChange(code[1..], i - 1, c);
      assert code[i := c][1..] == code[1..][i - 1 := c];
    }
  }

  lemma ChangeShows(sum: nat, d: int, w: nat)
    requires sum % 10 == 0 && (w == 1 || w == 3) && -10 < d < 10 && d != 0 && sum + d * w >= 0
    ensures (sum + d * w) % 10 != 0
  {
  }

  lemma SwapShows(sum: nat, d: int)
    requires sum % 10 == 0 && -10 < d < 10 && sum + 2 * d >= 0
    ensures (sum + 2 * d) % 10 == 0 <==> d == 0 || d == 5 || d == -5
  {
  }

  /** Changing any one digit of a valid code makes it invalid. */
  lemma OneWrongDigitIsFound(code: string, n: nat, i: nat, c: char)
    requires CheckDigitFits(code, n) && i < n && IsDigit(c) && c != code[i]
    ensures !CheckDigitFits(code[i := c], n)
  {
    SumAfterChange(code, i, c);
    ChangeShows(WeightedSum(code), DigitValue(c) - DigitValue(code[i]), Weight(n - 1 - i));
  }

  lemma DigitsAreSmall(c: char)
    requires IsDigit(c)
    ensures DigitValue(c) < 10
  {
  }

  /** What a swap of a and b adds to the sum, k places from the right. */
  lemma SwapWeighs(a: int, b: int, k: nat) returns (d: int)
    ensures (d == a - b || d == b - a) && (b - a) * Weight(k + 1) + (a - b) * Weight(k) == 2 * d
  {
    d := if k % 2 == 0 then b - a else a - b;
  }

  /** Swapping two neighbours of a valid code goes unnoticed exactly when they are equal or
      differ by five. */
  lemma SwapIsFoundIff(code: string, n: nat, i: nat)
    requires CheckDigitFits(code, n) && i + 1 < n
    ensures var a, b := DigitValue(code[i]), DigitValue(code[i + 1]);
      CheckDigitFits(code[i := code[i + 1]][i + 1 := code[i]], n) <==> a == b || a == b + 5 || b == a + 5
  {
    hide WeightedSum, Weight, DigitValue;
    var a: int, b: int := DigitValue(code[i]), DigitValue(code[i + 1]);
    var once := code[i := code[i + 1]];
    SumAfterChange(code, i, code[i + 1]);
    SumAfterChange(once, i + 1, code[i]);
    DigitsAreSmall(code[i]);
    DigitsAreSmall(code[i + 1]);
    var d := SwapWeighs(a, b, n - 2 - i);
    SwapShows(WeightedSum(code), d);
  }

  // ------------------------------------------------------------------ validation

  predicate Code128Char(c: char) {
    'A' <= c <= 'Z' || 'a' <= c <= 'z' || IsDigit(c) || c == '-' || c == '.' || c == '_' || IsSpace(c)
  }

  predicate IsCode128(code: string) { 1 <= |code| <= 48 && forall c <- code :: Code128Char(c) }

  function DetectBarcodeType(barcode: string): BarcodeType {
    var clean := Trim(barcode);
    if Digits(clean, 13) then EAN13
    else if Digits(clean, 12) then UPCA
    else if IsCode128(clean) then CODE128
    else CUSTOM
  }

  /** The check of each symbology. */
  predicate FitsType(clean: string, kind: BarcodeType) {
    match kind
    case EAN13 => CheckDigitFits(clean, 13)
    case UPCA => CheckDigitFits(clean, 12)
    case CODE128 => IsCode128(clean)
    case CUSTOM => |clean| <= 100
  }

  method ValidateBarcode(barcode: string, wanted: Option<BarcodeType>)
    returns (valid: bool, detected: Option<BarcodeType>)
    ensures var clean := Trim(barcode);
      && (clean == "" ==> !valid && detected.None?)
      && (clean != "" ==> detected == Some(if wanted.Some? then wanted.value else DetectBarcodeType(clean)))
      && (valid <==> clean != "" && FitsType(clean, detected.value))
  {
    var clean := Trim(barcode);
    if clean == "" {
      return false, None;
    }
    var kind := if wanted.Some? then wanted.value else DetectBarcodeType(clean);
    detected := Some(kind);
    match kind {
      case EAN13 => valid := ValidateEAN13(clean);
      case UPCA => valid := ValidateUPCA(clean);
      case CODE128 => valid := IsCode128(clean);
      case CUSTOM => valid := |clean| <= 100;
    }
  }

  /** A barcode whose type is left to detection is accepted exactly when it is short enough and,
      if it consists of 12 or 13 digits, its check digit fits. */
  lemma DetectionAcceptsIff(clean: string)
    requires Trimmed(clean) && clean != ""
    ensures FitsType(clean, DetectBarcodeType(clean)) <==>
      |clean| <= 100 && (Digits(clean, 13) ==> CheckDigitFits(clean, 13)) &&
        (Digits(clean, 12) ==> CheckDigitFits(clean, 12))
  {
    TrimmedIff(clean);
  }

  /** How a type is detected, by the trimmed text alone. */
  lemma DetectionIff(barcode: string)
    ensures
      var t, kind := Trim(barcode), DetectBarcodeType(barcode);
      var digits := forall c <- t :: '0' <= c <= '9';
      && (kind == EAN13 <==> |t| == 13 && digits)
      && (kind == UPCA <==> |t| == 12 && digits)
      && (kind == CODE128 <==>
          && 1 <= |t| <= 48 && !(|t| in {12, 13} && digits)
          && forall c <- t :: ('A' <= c <= 'Z' || 'a' <= c <= 'z' || '0' <= c <= '9' || c in "-._" || IsSpace(c)))
  {
    hide Trim;
    var t := Trim(barcode);
    assert (forall c <- t :: IsDigit(c)) <==> forall i :: 0 <= i < |t| ==> IsDigit(t[i]);
  }

  lemma TailSum(code: string, k: nat)
    requires Digits(code, 13) && k < 13
    ensures forall i :: 0 <= i < |code[k..]| ==> IsDigit(code[k..][i])
    ensures WeightedSum(code[k..]) ==
      DigitValue(code[k]) * Weight(12 - k) + WeightedSum(code[k + 1..])
  {
    hide Weight;
    assert code[k..][1..] == code[k + 1..];
  }

  lemma PairSum(code: string, k: nat)
    requires Digits(code, 13) && k < 12 && k % 2 == 0
    ensures WeightedSum(code[k..]) == DigitValue(code[k]) + 3 * DigitValue(code[k + 1]) + WeightedSum(code[k + 2..])
  {
    hide WeightedSum;
    TailSum(code, k);
    TailSum(code, k + 1);
  }

  lemma LastSum(code: string)
    requires Digits(code, 13)
    ensures WeightedSum(code[12..]) == DigitValue(code[12])
  {
  }

  /** The thirteen weights, written out. */
  lemma ThirteenWeights(code: string)
    requires Digits(code, 13)
    ensures
      var odd := DigitValue(code[0]) + DigitValue(code[2]) + DigitValue(code[4]) + DigitValue(code[6])
                 + DigitValue(code[8]) + DigitValue(code[10]) + DigitValue(code[12]);
      var even := DigitValue(code[1]) + DigitValue(code[3]) + DigitValue(code[5]) + DigitValue(code[7])
                  + DigitValue(code[9]) + DigitValue(code[11]);
      CheckDigitFits(code, 13) <==> (odd + 3 * even) % 10 == 0
  {
    assert code[0..] == code;
    LastSum(code);
    hide WeightedSum, DigitValue;
    PairSum(code, 0);
    PairSum(code, 2);
    PairSum(code, 4);
    PairSum(code, 6);
    PairSum(code, 8);
    PairSum(code, 10);
  }

  /** 4006381333931 is a valid EAN-13 code and 036000291452 a valid UPC-A code. */
  lemma KnownCodes()
    ensures CheckDigitFits("4006381333931", 13) && CheckDigitFits("036000291452", 12)
  {
    hide WeightedSum;
    ThirteenWeights("4006381333931");
    ThirteenWeights("0036000291452");
    UpcIsEanWithZero("036000291452");
    assert "0" + "036000291452" == "0036000291452";
  }
}
