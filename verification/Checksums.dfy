// The two checksums of the detectors (apps/api/app/detectors/pii.py): the Luhn formula (Annex B of ISO/IEC 7812-1) and
// the Korean resident registration number.
module Checksums {

  type Digit = d: int | 0 <= d <= 9

  // What the interpreter says of a character. `Decimal` has a value; a superscript, say, counts as a digit for
  // `str.isdigit` but `int` refuses it.
  datatype CharKind = NotDigit | Decimal(value: Digit) | DigitWithoutValue

  // A verdict, or the ValueError that `int` raises on a digit without a decimal value.
  datatype Verdict = Verdict(valid: bool) | Raised

  function DigitsOnly(text: string, kind: char -> CharKind): string {
    if text == [] then []
    else
      var c := text[|text| - 1];
      DigitsOnly(text[..|text| - 1], kind) + if kind(c).NotDigit? then [] else [c]
  }

  ghost predicate AllDecimal(digits: string, kind: char -> CharKind) {
    forall i :: 0 <= i < |digits| ==> kind(digits[i]).Decimal?
  }

  ghost function Values(digits: string, kind: char -> CharKind): (r: seq<Digit>)
    requires AllDecimal(digits, kind)
    ensures |r| == |digits|
  {
    seq(|digits|, i requires 0 <= i < |digits| => kind(digits[i]).value)
  }

  // The decimal values read so far, while a loop goes over the digits.
  ghost predicate ReadSoFar(digits: string, kind: char -> CharKind, vals: seq<Digit>) {
    |vals| <= |digits| && forall i :: 0 <= i < |vals| ==> kind(digits[i]) == Decimal(vals[i])
  }

  lemma {:induction false} AllRead(digits: string, kind: char -> CharKind, vals: seq<Digit>)
    requires ReadSoFar(digits, kind, vals) && |vals| == |digits|
    ensures AllDecimal(digits, kind) && Values(digits, kind) == vals
  {
  }

  // ---------------------------------------------------------------- Luhn

  // The standard: from the right, every second digit is doubled and the digits of the product are added. A product of
  // ten or more has the digits 1 and 2d - 10.
  function Weighed(d: Digit, doubled: bool): int {
    if !doubled then d else if 2 * d < 10 then 2 * d else 1 + (2 * d - 10)
  }

  function LuhnSum(digits: seq<Digit>, doubleLast: bool): int {
    if digits == [] then 0
    else LuhnSum(digits[..|digits| - 1], !doubleLast) + Weighed(digits[|digits| - 1], doubleLast)
  }

  predicate LuhnValid(digits: seq<Digit>) {
    13 <= |digits| <= 19 && LuhnSum(digits, false) % 10 == 0
  }

  // The source runs from the left, finds the doubled places by the parity of the length and subtracts nine.
  method IsValidLuhn(value: string, kind: char -> CharKind) returns (r: Verdict)
    ensures var digits := DigitsOnly(value, kind);
            r == if !(13 <= |digits| <= 19) then Verdict(false)
                 else if !AllDecimal(digits, kind) then Raised
                 else Verdict(LuhnValid(Values(digits, kind)))
  {
    var digits := DigitsOnly(value, kind);
    if !(13 <= |digits| <= 19) {
      return Verdict(false);
    }
    var total, parity := 0, |digits| % 2;
    ghost var vals: seq<Digit> := [];
    for index := 0 to |digits|
      invariant |vals| == index && ReadSoFar(digits, kind, vals)
      invariant total == LuhnSum(vals, index % 2 != parity)
    {
      if !kind(digits[index]).Decimal? {
        return Raised;
      }
      var number: int := kind(digits[index]).value;
      ghost var digit: Digit := number;
      if index % 2 == parity {
        number := number * 2;
        if number > 9 { number := number - 9; }
      }
      assert number == Weighed(digit, index % 2 == parity);
      assert (index + 1) % 2 != parity <==> index % 2 == parity;
      total := total + number;
      vals := vals + [digit];
    }
    AllRead(digits, kind, vals);
    return Verdict(total % 10 == 0);
  }

  predicate DoubledAt(doubleLast: bool, distance: nat) {
    doubleLast == (distance % 2 == 0)
  }

  lemma {:induction false} LuhnSumUpdate(digits: seq<Digit>, i: nat, x: Digit, doubleLast: bool)
    requires i < |digits|
    ensures var doubled := DoubledAt(doubleLast, |digits| - 1 - i);
            LuhnSum(digits[i := x], doubleLast) - Weighed(x, doubled) == LuhnSum(digits, doubleLast) - Weighed(digits[i], doubled)
  {
    var n := |digits| - 1;
    if i < n {
      LuhnSumUpdate(digits[..n], i, x, !doubleLast);
      assert digits[i := x][..n] == digits[..n][i := x];
    } else {
      assert digits[i := x][..n] == digits[..n];
    }
  }

  const DOUBLED_DIGITS: seq<int> := [0, 2, 4, 6, 8, 1, 3, 5, 7, 9]

  // What each digit adds to the sum: at an even distance from the right its value, at an odd one the digit sum of its double.
  lemma {:induction false} LuhnPlaces(digits: seq<Digit>, i: nat, x: Digit)
    requires i < |digits|
    ensures LuhnSum(digits[i := x], false) - LuhnSum(digits, false)
            == if (|digits| - 1 - i) % 2 == 0 then x as int - digits[i] else DOUBLED_DIGITS[x] - DOUBLED_DIGITS[digits[i]]
  {
    LuhnSumUpdate(digits, i, x, false);
    DoubledDigit(x);
    DoubledDigit(digits[i]);
  }

  lemma {:induction false} DoubledDigit(d: Digit)
    ensures Weighed(d, true) == DOUBLED_DIGITS[d]
  {
  }

  // ... and zeros add nothing.
  lemma {:induction false} LuhnZeros(zeros: seq<Digit>, doubleLast: bool)
    requires forall i :: 0 <= i < |zeros| ==> zeros[i] == 0
    ensures LuhnSum(zeros, doubleLast) == 0
  {
    if zeros != [] { LuhnZeros(zeros[..|zeros| - 1], !doubleLast); }
  }

  lemma {:induction false} WeighedInjective(a: Digit, b: Digit, doubled: bool)
    ensures 0 <= Weighed(a, doubled) <= 9
    ensures Weighed(a, doubled) == Weighed(b, doubled) <==> a == b
  {
  }

  // Any single-digit change of a valid number is rejected.
  lemma {:induction false} LuhnDetectsSingleChange(digits: seq<Digit>, i: nat, x: Digit)
    requires LuhnValid(digits) && i < |digits| && x != digits[i]
    ensures !LuhnValid(digits[i := x])
  {
    LuhnSumUpdate(digits, i, x, false);
    WeighedInjective(x, digits[i], DoubledAt(false, |digits| - 1 - i));
  }

  predicate Completes(digits: seq<Digit>, i: nat, x: Digit)
    requires i < |digits|
  {
    LuhnValid(digits[i := x])
  }

  // Every choice of the other digits has exactly one digit that completes it, at every place of the number.
  lemma {:induction false} LuhnCompletion(digits: seq<Digit>, i: nat) returns (x: Digit)
    requires 13 <= |digits| <= 19 && i < |digits|
    ensures forall y: Digit :: Completes(digits, i, y) <==> y == x
  {
    var doubled := DoubledAt(false, |digits| - 1 - i);
    var missing := (LuhnSum(digits, false) - Weighed(digits[i], doubled)) % 10;
    x := PlaceFor((10 - missing) % 10, doubled);
    LuhnSumUpdate(digits, i, x, false);
    assert Completes(digits, i, x);
    forall y: Digit | y != x
      ensures !Completes(digits, i, y)
    {
      assert digits[i := x][i := y] == digits[i := y];
      LuhnDetectsSingleChange(digits[i := x], i, y);
    }
  }

  // The digit that weighs a given amount.
  function PlaceFor(weight: Digit, doubled: bool): (d: Digit)
    ensures Weighed(d, doubled) == weight
  {
    if !doubled then weight else if weight % 2 == 0 then weight / 2 else (weight + 9) / 2
  }

  function Swapped(digits: seq<Digit>, i: nat): seq<Digit>
    requires i + 1 < |digits|
  {
    digits[i := digits[i + 1]][i + 1 := digits[i]]
  }

  lemma {:induction false} LuhnPairUpdate(digits: seq<Digit>, i: nat, x: Digit, y: Digit)
    requires i + 1 < |digits|
    ensures var doubled := DoubledAt(false, |digits| - 1 - i);
            LuhnSum(digits[i := x][i + 1 := y], false) - Weighed(x, doubled) - Weighed(y, !doubled)
            == LuhnSum(digits, false) - Weighed(digits[i], doubled) - Weighed(digits[i + 1], !doubled)
  {
    LuhnSumUpdate(digits, i, x, false);
    LuhnSumUpdate(digits[i := x], i + 1, y, false);
  }

  predicate OneOfEach(a: int, b: int, x: int, y: int) {
    (a == x && b == y) || (a == y && b == x)
  }

  lemma {:induction false} SwapBalance(a: Digit, b: Digit, doubled: bool)
    requires a != b
    ensures (Weighed(a, doubled) + Weighed(b, !doubled) - Weighed(b, doubled) - Weighed(a, !doubled)) % 10 == 0
            <==> OneOfEach(a, b, 0, 9)
  {
    assert Weighed(a, true) - Weighed(a, false) == if a <= 4 then a as int else a - 9;
    assert Weighed(b, true) - Weighed(b, false) == if b <= 4 then b as int else b - 9;
  }

  lemma {:induction false} TakeAway(total: int, difference: int)
    requires total % 10 == 0
    ensures (total - difference) % 10 == 0 <==> difference % 10 == 0
  {
  }

  // Swapping two unequal neighbours of a valid number goes unnoticed exactly when they are 0 and 9.
  lemma {:induction false} LuhnSwap(digits: seq<Digit>, i: nat)
    requires LuhnValid(digits) && i + 1 < |digits| && digits[i] != digits[i + 1]
    ensures LuhnValid(Swapped(digits, i)) <==> OneOfEach(digits[i], digits[i + 1], 0, 9)
  {
    var doubled := DoubledAt(false, |digits| - 1 - i);
    LuhnPairUpdate(digits, i, digits[i + 1], digits[i]);
    SwapBalance(digits[i], digits[i + 1], doubled);
    TakeAway(LuhnSum(digits, false), LuhnSum(digits, false) - LuhnSum(Swapped(digits, i), false));
  }

  lemma {:induction false} TwinBalance(a: Digit, b: Digit)
    requires a != b
    ensures (Weighed(b, true) + Weighed(b, false) - Weighed(a, true) - Weighed(a, false)) % 10 == 0
            <==> (2 <= a <= 4 && b - a == 3) || (2 <= b <= 4 && a - b == 3)
  {
    assert Weighed(b, true) + Weighed(b, false) == if b <= 4 then 3 * b else 3 * b - 9;
    assert Weighed(a, true) + Weighed(a, false) == if a <= 4 then 3 * a else 3 * a - 9;
  }

  // Writing a doubled digit aa as bb goes unnoticed exactly for 22-55, 33-66 and 44-77.
  lemma {:induction false} LuhnTwins(digits: seq<Digit>, i: nat, x: Digit)
    requires LuhnValid(digits) && i + 1 < |digits| && digits[i] == digits[i + 1] != x
    ensures LuhnValid(digits[i := x][i + 1 := x])
            <==> (2 <= digits[i] <= 4 && x - digits[i] == 3) || (2 <= x <= 4 && digits[i] - x == 3)
  {
    LuhnPairUpdate(digits, i, x, x);
    TwinBalance(digits[i], x);
    var before, after := LuhnSum(digits, false), LuhnSum(digits[i := x][i + 1 := x], false);
    assert before - after == -(Weighed(x, true) + Weighed(x, false) - Weighed(digits[i], true) - Weighed(digits[i], false));
    Opposite(before - after, after - before);
    TakeAway(before, before - after);
  }

  lemma {:induction false} Opposite(a: int, b: int)
    requires a == -b
    ensures a % 10 == 0 <==> b % 10 == 0
  {
  }

  // ---------------------------------------------------------------- RRN

  const RRN_CHECKSUM_WEIGHTS: seq<int> := [2, 3, 4, 5, 6, 7, 8, 9, 2, 3, 4, 5]

  // The sum over the zip of digits and weights.
  function ZipSum(digits: seq<Digit>, weights: seq<int>): int
    requires |digits| <= |weights|
  {
    if digits == [] then 0
    else
      var n := |digits| - 1;
      ZipSum(digits[..n], weights) + weights[n] * digits[n]
  }

  function WeightedSum(digits: seq<Digit>): int
    requires |digits| <= 12
  {
    ZipSum(digits, RRN_CHECKSUM_WEIGHTS)
  }

  // The check digit for a weighted sum.
  function RrnCheckDigit(sum: int): Digit {
    (11 - sum % 11) % 10
  }

  predicate RrnValid(digits: seq<Digit>) {
    |digits| == 13 && RrnCheckDigit(WeightedSum(digits[..12])) == digits[12]
  }

  method IsValidRrn(value: string, kind: char -> CharKind) returns (r: Verdict)
    ensures var digits := DigitsOnly(value, kind);
            r == if |digits| != 13 then Verdict(false)
                 else if !AllDecimal(digits, kind) then Raised
                 else Verdict(RrnValid(Values(digits, kind)))
  {
    var digits := DigitsOnly(value, kind);
    if |digits| != 13 {
      return Verdict(false);
    }
    var sum := 0;
    ghost var vals: seq<Digit> := [];
    for index := 0 to 12
      invariant |vals| == index && ReadSoFar(digits, kind, vals)
      invariant sum == WeightedSum(vals)
    {
      if !kind(digits[index]).Decimal? {
        return Raised;
      }
      ghost var more := vals + [kind(digits[index]).value];
      assert more[..index] == vals;
      sum := sum + kind(digits[index]).value * RRN_CHECKSUM_WEIGHTS[index];
      vals := more;
    }
    if !kind(digits[12]).Decimal? {
      return Raised;
    }
    ghost var all := vals + [kind(digits[12]).value];
    AllRead(digits, kind, all);
    assert all[..12] == vals;
    return Verdict((11 - sum % 11) % 10 == kind(digits[12]).value);
  }

  lemma {:induction false} NextPlace(digits: seq<Digit>, n: nat)
    requires n < |digits| <= 12
    ensures ZipSum(digits[..n + 1], RRN_CHECKSUM_WEIGHTS)
            == ZipSum(digits[..n], RRN_CHECKSUM_WEIGHTS) + RRN_CHECKSUM_WEIGHTS[n] * digits[n] as int
  {
    assert digits[..n + 1][..n] == digits[..n];
  }

  // Four more places of the sum.
  lemma {:induction false} NextFour(digits: seq<Digit>, n: nat)
    requires n + 4 <= |digits| <= 12
    ensures ZipSum(digits[..n + 4], RRN_CHECKSUM_WEIGHTS)
            == ZipSum(digits[..n], RRN_CHECKSUM_WEIGHTS)
               + RRN_CHECKSUM_WEIGHTS[n] * digits[n] as int + RRN_CHECKSUM_WEIGHTS[n + 1] * digits[n + 1] as int
               + RRN_CHECKSUM_WEIGHTS[n + 2] * digits[n + 2] as int + RRN_CHECKSUM_WEIGHTS[n + 3] * digits[n + 3] as int
  {
    NextPlace(digits, n);
    NextPlace(digits, n + 1);
    NextPlace(digits, n + 2);
    NextPlace(digits, n + 3);
  }

  // The rule of the registration number, written out.
  lemma {:induction false} RrnRule(d: seq<Digit>)
    requires |d| == 13
    ensures RrnValid(d)
            <==> (11 - (2 * d[0] as int + 3 * d[1] as int + 4 * d[2] as int + 5 * d[3] as int + 6 * d[4] as int + 7 * d[5] as int
                        + 8 * d[6] as int + 9 * d[7] as int + 2 * d[8] as int + 3 * d[9] as int + 4 * d[10] as int
                        + 5 * d[11] as int) % 11) % 10 == d[12]
  {
    var first := d[..12];
    assert first[..0] == [] && first[..12] == first;
    NextFour(first, 0);
    NextFour(first, 4);
    NextFour(first, 8);
  }

  lemma {:induction false} ZipSumUpdate(digits: seq<Digit>, weights: seq<int>, i: nat, x: Digit, delta: int)
    requires i < |digits| <= |weights| && delta == x as int - digits[i]
    ensures ZipSum(digits[i := x], weights) == ZipSum(digits, weights) + weights[i] * delta
  {
    var n := |digits| - 1;
    if i < n {
      ZipSumUpdate(digits[..n], weights, i, x, delta);
      assert digits[i := x][..n] == digits[..n][i := x];
    } else {
      assert digits[i := x][..n] == digits[..n];
    }
  }

  lemma {:induction false} ZipSumSwap(digits: seq<Digit>, weights: seq<int>, i: nat, step: int, delta: int)
    requires i + 1 < |digits| <= |weights|
    requires step == weights[i] - weights[i + 1] && delta == digits[i + 1] as int - digits[i]
    ensures ZipSum(Swapped(digits, i), weights) == ZipSum(digits, weights) + step * delta
  {
    var one: seq<Digit> := digits[i := digits[i + 1]];
    ZipSumUpdate(digits, weights, i, digits[i + 1], delta);
    ZipSumUpdate(one, weights, i + 1, digits[i], -delta);
  }

  // Eleven is prime, so a non-zero digit difference times a non-zero weight never vanishes modulo eleven.
  lemma {:induction false} NeverEleven(weight: int, delta: int)
    requires -9 <= weight <= 9 && weight != 0 && -9 <= delta <= 9 && delta != 0
    ensures (weight * delta) % 11 != 0
  {
    var w, d := if weight < 0 then -weight else weight, if delta < 0 then -delta else delta;
    assert weight * delta == w * d || weight * delta == -(w * d);
    SmallProduct(w, d);
  }

  lemma {:induction false} SmallProduct(w: int, d: int)
    requires 1 <= w <= 9 && 1 <= d <= 9
    ensures (w * d) % 11 != 0 && (-(w * d)) % 11 != 0
  {
    match w
    case 1 => case 2 => case 3 => case 4 => case 5 => case 6 => case 7 => case 8 =>
    case _ => assert w == 9;
  }

  lemma {:induction false} SameCheckDigit(sum: int, changed: int)
    requires (changed - sum) % 11 != 0
    ensures RrnCheckDigit(sum) == RrnCheckDigit(changed) <==> OneOfEach(sum % 11, changed % 11, 0, 10)
  {
  }

  // A single change in the first twelve digits goes undetected exactly when the weighted sum modulo 11 moves between
  // 0 and 10; a changed check digit is always detected.
  lemma {:induction false} RrnSingleChange(digits: seq<Digit>, i: nat, x: Digit)
    requires RrnValid(digits) && i < 13 && x != digits[i]
    ensures RrnValid(digits[i := x])
            <==> i < 12 && OneOfEach(WeightedSum(digits[..12]) % 11, WeightedSum(digits[..12][i := x]) % 11, 0, 10)
  {
    if i < 12 {
      assert digits[i := x][..12] == digits[..12][i := x];
      ZipSumUpdate(digits[..12], RRN_CHECKSUM_WEIGHTS, i, x, x as int - digits[i]);
      NeverEleven(RRN_CHECKSUM_WEIGHTS[i], x - digits[i]);
      SameCheckDigit(WeightedSum(digits[..12]), WeightedSum(digits[..12][i := x]));
    } else {
      assert digits[i := x][..12] == digits[..12];
    }
  }

  // The same condition decides whether a swap of two unequal neighbours among the first twelve digits is caught.
  lemma {:induction false} RrnSwap(digits: seq<Digit>, i: nat)
    requires RrnValid(digits) && i < 11 && digits[i] != digits[i + 1]
    ensures RrnValid(Swapped(digits, i))
            <==> OneOfEach(WeightedSum(digits[..12]) % 11, WeightedSum(Swapped(digits, i)[..12]) % 11, 0, 10)
  {
    var step, delta := RRN_CHECKSUM_WEIGHTS[i] - RRN_CHECKSUM_WEIGHTS[i + 1], digits[i + 1] as int - digits[i];
    ZipSumSwap(digits[..12], RRN_CHECKSUM_WEIGHTS, i, step, delta);
    assert Swapped(digits, i)[..12] == Swapped(digits[..12], i);
    NeverEleven(step, delta);
    SameCheckDigit(WeightedSum(digits[..12]), WeightedSum(Swapped(digits, i)[..12]));
  }

  // Such changes exist: 000000-0000001 and 500000-0000001 are both accepted.
  lemma {:induction false} RrnMissesSome() returns (digits: seq<Digit>, i: nat, x: Digit)
    ensures RrnValid(digits) && i < 12 && x != digits[i] && RrnValid(digits[i := x])
  {
    var zeros: seq<Digit> := seq(12, _ => 0);
    digits, i, x := zeros + [1], 0, 5;
    ZeroSum(zeros);
    assert digits[..12] == zeros && digits[0 := 5][..12] == zeros[0 := 5];
    ZipSumUpdate(zeros, RRN_CHECKSUM_WEIGHTS, 0, 5, 5);
  }

  lemma {:induction false} ZeroSum(zeros: seq<Digit>)
    requires |zeros| <= 12 && forall i :: 0 <= i < |zeros| ==> zeros[i] == 0
    ensures WeightedSum(zeros) == 0
  {
    if zeros != [] { ZeroSum(zeros[..|zeros| - 1]); }
  }
}
