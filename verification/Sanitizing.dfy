/** Personal data in flattened values: card numbers, phone numbers, filtered keys.
    Which characters are alphanumeric, what lower-casing does and which texts hold an
    email address are parameters. */
module Sanitizing {
  import opened Digits
  import opened Wrappers
  import F = Flattening

  const MIN_CARD_DIGITS := 13
  const MAX_CARD_DIGITS := 19
  const MIN_PHONE_DIGITS := 10
  const MAX_PHONE_DIGITS := 15
  const FILTERED := "[FILTERED]"

  /** What joins the groups of a card number. */
  predicate Joint(c: char) {
    c == ' ' || c == '-'
  }

  function DigitsIn(text: string): (digits: string)
    ensures forall i | 0 <= i < |digits| :: IsDigit(digits[i])
    ensures |digits| <= |text|
  {
    if text == "" then "" else (if IsDigit(text[0]) then [text[0]] else "") + DigitsIn(text[1..])
  }

  lemma {:induction false} DigitsOfConcat(one: string, other: string)
    ensures DigitsIn(one + other) == DigitsIn(one) + DigitsIn(other)
  {
    if one == "" {
      assert one + other == other;
    } else {
      assert (one + other)[1..] == one[1..] + other;
      DigitsOfConcat(one[1..], other);
    }
  }

  // --- The run of a card number ------------------------------------------------------------

  /** Whether a run goes on over index `i`: a digit, or a joint before a digit. */
  predicate Carries(text: string, i: nat)
    requires i < |text|
  {
    IsDigit(text[i]) || (Joint(text[i]) && i + 1 < |text| && IsDigit(text[i + 1]))
  }

  /** `end` is the first index from `start` that a run does not go on over. */
  predicate RunEnds(text: string, start: nat, end: nat) {
    && start <= end <= |text|
    && (forall i | start <= i < end :: Carries(text, i))
    && (end < |text| ==> !Carries(text, end))
  }

  function RunEnd(text: string, start: nat): (end: nat)
    requires start <= |text|
    ensures RunEnds(text, start, end)
    decreases |text| - start
  {
    if start < |text| && Carries(text, start) then RunEnd(text, start + 1) else start
  }

  lemma RunEndIsUnique(text: string, start: nat, end: nat)
    requires RunEnds(text, start, end)
    ensures RunEnd(text, start) == end
  {
    assert RunEnds(text, start, RunEnd(text, start));
  }

  /** What the scan has found by `index`; between two groups it stands before a digit. */
  predicate Scanned(text: string, start: nat, index: nat, digits: string) {
    && start <= index <= |text|
    && (forall i | start <= i < index :: Carries(text, i))
    && digits == DigitsIn(text[start..index])
    && (digits == "" ==> index == start || (index < |text| && IsDigit(text[index])))
  }

  lemma NothingScanned(text: string, start: nat)
    requires start <= |text|
    ensures Scanned(text, start, start, "")
  {
  }

  lemma DigitsInOne(c: char)
    ensures DigitsIn([c]) == if IsDigit(c) then [c] else ""
  {
    assert [c][1..] == "" && DigitsIn("") == "";
  }

  lemma DigitsInMore(text: string, start: nat, index: nat)
    requires start <= index < |text|
    ensures DigitsIn(text[start..index + 1]) ==
      DigitsIn(text[start..index]) + if IsDigit(text[index]) then [text[index]] else ""
  {
    hide DigitsIn;
    assert text[start..index + 1] == text[start..index] + [text[index]];
    DigitsOfConcat(text[start..index], [text[index]]);
    DigitsInOne(text[index]);
  }

  lemma DigitScanned(text: string, start: nat, index: nat, digits: string)
    requires Scanned(text, start, index, digits) && index < |text| && IsDigit(text[index])
    ensures Scanned(text, start, index + 1, digits + [text[index]])
  {
    hide DigitsIn, IsDigit;
    DigitsInMore(text, start, index);
  }

  lemma JointScanned(text: string, start: nat, index: nat, digits: string)
    requires Scanned(text, start, index, digits) && index < |text| && !IsDigit(text[index]) && Carries(text, index)
    ensures Scanned(text, start, index + 1, digits)
  {
    hide DigitsIn, IsDigit;
    DigitsInMore(text, start, index);
  }

  lemma ScanEnds(text: string, start: nat, index: nat, digits: string)
    requires Scanned(text, start, index, digits) && (index < |text| ==> !Carries(text, index))
    ensures RunEnd(text, start) == index && digits == DigitsIn(text[start..index]) && (digits == "" <==> index == start)
  {
    hide IsDigit, RunEnd;
    assert RunEnds(text, start, index);
    RunEndIsUnique(text, start, index);
    assert text[start..start] == "";
  }

  /** The scan of one run, a digit or a joint at a time. */
  method CardDigits(text: string, start: nat) returns (run: Option<(string, nat)>)
    requires start <= |text|
    ensures run.None? <==> RunEnd(text, start) == start
    ensures run.Some? ==>
      run.value == (DigitsIn(text[start..RunEnd(text, start)]), RunEnd(text, start)) && run.value.0 != ""
  {
    hide Scanned, DigitsIn, RunEnd;
    var digits: string := "";
    var index := start;
    var scanning := true;
    NothingScanned(text, start);
    while scanning && index < |text|
      invariant start <= index <= |text|
      invariant Scanned(text, start, index, digits)
      invariant !scanning ==> index < |text| && !Carries(text, index)
      decreases |text| - index, scanning
    {
      if IsDigit(text[index]) {
        DigitScanned(text, start, index, digits);
        digits := digits + [text[index]];
        index := index + 1;
      } else if Joint(text[index]) && index + 1 < |text| && IsDigit(text[index + 1]) {
        JointScanned(text, start, index, digits);
        index := index + 1;
      } else {
        scanning := false;
      }
    }
    ScanEnds(text, start, index, digits);
    run := if digits == "" then None else Some((digits, index));
  }

  /** Digits joined by single spaces or dashes. */
  predicate Grouped(text: string) {
    && text != "" && IsDigit(text[0])
    && (|text| == 1 || Grouped(text[1..]) || ((text[1] == ' ' || text[1] == '-') && Grouped(text[2..])))
  }

  lemma {:induction false} GroupedCarries(text: string, i: nat)
    requires Grouped(text) && i < |text|
    ensures Carries(text, i) && IsDigit(text[|text| - 1])
  {
    if |text| > 1 {
      if Grouped(text[1..]) {
        GroupedCarries(text[1..], if i > 0 then i - 1 else 0);
      } else {
        GroupedCarries(text[2..], if i > 1 then i - 2 else 0);
      }
    }
  }

  lemma {:induction false} CarryingIsGrouped(text: string)
    requires text != "" && IsDigit(text[0]) && IsDigit(text[|text| - 1])
    requires forall i: nat | i < |text| :: Carries(text, i)
    ensures Grouped(text)
  {
    if |text| > 1 {
      var skipped := if IsDigit(text[1]) then 1 else 2;
      assert Carries(text, 1);
      var rest := text[skipped..];
      forall i: nat | i < |rest| ensures Carries(rest, i) {
        assert Carries(text, i + skipped);
        assert i + 1 < |rest| ==> rest[i + 1] == text[i + skipped + 1];
      }
      CarryingIsGrouped(rest);
    }
  }

  /** From a digit, the scan takes the longest text of digits joined by single spaces or dashes. */
  lemma RunIsTheLongestGrouped(text: string, start: nat, end: nat)
    requires start < end <= |text| && IsDigit(text[start])
    ensures end == RunEnd(text, start) ==> Grouped(text[start..end])
    ensures Grouped(text[start..end]) ==> end <= RunEnd(text, start)
  {
    if end == RunEnd(text, start) {
      RunIsGrouped(text, start, end);
    }
    if Grouped(text[start..end]) {
      GroupedIsInRun(text, start, end);
    }
  }

  lemma RunIsGrouped(text: string, start: nat, end: nat)
    requires start < end <= |text| && IsDigit(text[start]) && RunEnds(text, start, end)
    ensures Grouped(text[start..end])
  {
    var group := text[start..end];
    assert Carries(text, end - 1);
    assert end < |text| ==> !Carries(text, end);
    assert IsDigit(text[end - 1]);
    hide Grouped;
    forall i: nat | i < |group| ensures Carries(group, i) {
      assert Carries(text, start + i);
      assert i + 1 < |group| ==> group[i + 1] == text[start + i + 1];
    }
    CarryingIsGrouped(group);
  }

  lemma GroupedIsInRun(text: string, start: nat, end: nat)
    requires start < end <= |text| && Grouped(text[start..end])
    ensures end <= RunEnd(text, start)
  {
    var stop := RunEnd(text, start);
    if stop < end {
      GroupedCarries(text[start..end], stop - start);
      hide Grouped, RunEnd;
      CarriesInWhole(text, start, end, stop);
    }
  }

  lemma CarriesInWhole(text: string, start: nat, end: nat, i: nat)
    requires start <= i < end <= |text| && Carries(text[start..end], i - start)
    ensures Carries(text, i)
  {
  }

  // --- The Luhn check ------------------------------------------------------------------------

  /** What a digit adds, by its position from the right. */
  function Weighed(value: nat, position: nat): nat {
    if position % 2 == 0 then value
    else if value * 2 > 9 then value * 2 - 9
    else value * 2
  }

  function LuhnSum(digits: string): nat
    requires AllDigits(digits)
  {
    if digits == "" then 0 else Weighed(ValueOf(digits[0]), |digits| - 1) + LuhnSum(digits[1..])
  }

  /** Every second digit from the right doubled, and the decimal digits of all that added up. */
  function Checksum(digits: string): nat
    requires AllDigits(digits)
  {
    if digits == "" then 0
    else
      var value := ValueOf(digits[0]);
      (if |digits| % 2 == 0 then 2 * value / 10 + 2 * value % 10 else value) + Checksum(digits[1..])
  }

  lemma WeighedIsDigitSum(value: nat, position: nat)
    requires value < 10
    ensures Weighed(value, position) == if (position + 1) % 2 == 0 then 2 * value / 10 + 2 * value % 10 else value
  {
  }

  lemma LuhnSumOfMore(digits: string)
    requires AllDigits(digits) && digits != ""
    ensures LuhnSum(digits) == Weighed(ValueOf(digits[0]), |digits| - 1) + LuhnSum(digits[1..])
  {
    hide Weighed;
  }

  lemma ChecksumOfMore(digits: string)
    requires AllDigits(digits) && digits != ""
    ensures
      var value := ValueOf(digits[0]);
      Checksum(digits)
        == (if |digits| % 2 == 0 then 2 * value / 10 + 2 * value % 10 else value) + Checksum(digits[1..])
  {
  }

  lemma {:induction false} SumIsChecksum(digits: string)
    requires AllDigits(digits)
    ensures LuhnSum(digits) == Checksum(digits)
  {
    if digits != "" {
      var value, rest := ValueOf(digits[0]), digits[1..];
      SumIsChecksum(rest);
      WeighedIsDigitSum(value, |rest|);
      hide LuhnSum, Checksum, Weighed;
      LuhnSumOfMore(digits);
      ChecksumOfMore(digits);
    }
  }

  predicate Luhn(digits: string)
    requires AllDigits(digits)
  {
    LuhnSum(digits) % 10 == 0
  }

  lemma {:induction false} SumAfterChange(digits: string, i: nat, c: char)
    requires AllDigits(digits) && i < |digits| && IsDigit(c)
    ensures AllDigits(digits[i := c])
    ensures LuhnSum(digits[i := c]) + Weighed(ValueOf(digits[i]), |digits| - 1 - i)
         == LuhnSum(digits) + Weighed(ValueOf(c), |digits| - 1 - i)
  {
    hide Weighed, ValueOf;
    if i == 0 {
      assert digits[i := c][1..] == digits[1..];
    } else {
      assert digits[i := c][1..] == digits[1..][i - 1 := c];
      SumAfterChange(digits[1..], i - 1, c);
    }
  }

  /** Two sums that differ by two weights: one is valid with the other exactly when the weights agree modulo ten. */
  lemma ValidWithTheOther(sum: nat, own: int, other: nat, its: int)
    requires sum + own == other + its && other % 10 == 0
    ensures sum % 10 == 0 <==> (its - own) % 10 == 0
  {
    assert sum == other + (its - own);
  }

  /** No two digits weigh the same, even modulo ten. */
  lemma WeightsDiffer(one: nat, other: nat, position: nat)
    requires one < 10 && other < 10
    ensures (Weighed(one, position) - Weighed(other, position)) % 10 == 0 <==> one == other
  {
    var doubled := position % 2 != 0;
    assert Weighed(one, position) == if !doubled then one else if one > 4 then one * 2 - 9 else one * 2;
    assert Weighed(other, position) == if !doubled then other else if other > 4 then other * 2 - 9 else other * 2;
    assert -9 <= Weighed(one, position) - Weighed(other, position) <= 9;
  }

  /** Replacing one digit of a valid number keeps it valid only when the digit is the same (ISO/IEC 7812-1, Annex B). */
  lemma OneWrongDigitIsCaught(digits: string, i: nat, c: char)
    requires AllDigits(digits) && Luhn(digits) && i < |digits| && IsDigit(c)
    ensures AllDigits(digits[i := c])
    ensures Luhn(digits[i := c]) <==> c == digits[i]
  {
    hide Weighed;
    var p := |digits| - 1 - i;
    SumAfterChange(digits, i, c);
    ValidWithTheOther(LuhnSum(digits[i := c]), Weighed(ValueOf(digits[i]), p), LuhnSum(digits), Weighed(ValueOf(c), p));
    WeightsDiffer(ValueOf(c), ValueOf(digits[i]), p);
  }

  function Swapped(digits: string, i: nat): string
    requires i + 1 < |digits|
  {
    digits[i := digits[i + 1]][i + 1 := digits[i]]
  }

  /** What doubling changes about a digit's weight. */
  function Twist(value: nat): int {
    if value > 4 then value - 9 else value
  }

  lemma TwistOfWeights(value: nat, position: nat)
    ensures Weighed(value, position + 1) - Weighed(value, position)
      == if position % 2 == 0 then Twist(value) else -Twist(value)
  {
    assert (position + 1) % 2 == 0 <==> position % 2 != 0;
  }

  lemma TwistsDiffer(one: nat, other: nat)
    requires one < 10 && other < 10
    ensures -8 <= Twist(one) - Twist(other) <= 8
    ensures Twist(one) == Twist(other) <==> one == other || (one == 0 && other == 9) || (one == 9 && other == 0)
  {
  }

  lemma SmallMultiple(difference: int)
    requires -9 <= difference <= 9
    ensures difference % 10 == 0 <==> difference == 0
  {
  }

  /** What swapping `one` and `other` adds is a multiple of ten only for equal digits and for 0 and 9. */
  lemma SwapWeights(one: nat, other: nat, position: nat)
    requires one < 10 && other < 10
    ensures
      (Weighed(other, position + 1) + Weighed(one, position)
       - Weighed(one, position + 1) - Weighed(other, position)) % 10 == 0
      <==> one == other || (one == 0 && other == 9) || (one == 9 && other == 0)
  {
    TwistOfWeights(one, position);
    TwistOfWeights(other, position);
    TwistsDiffer(one, other);
    hide Weighed, Twist;
    SmallMultiple(Weighed(other, position + 1) + Weighed(one, position)
                  - Weighed(one, position + 1) - Weighed(other, position));
  }

  /** Swapping two adjacent digits is caught too, but for equal digits and for 0 and 9. */
  lemma SwapIsCaughtUnlessNineZero(digits: string, i: nat)
    requires AllDigits(digits) && Luhn(digits) && i + 1 < |digits|
    ensures AllDigits(Swapped(digits, i))
    ensures
      var one, other := digits[i], digits[i + 1];
      Luhn(Swapped(digits, i)) <==> one == other || (one == '0' && other == '9') || (one == '9' && other == '0')
  {
    hide Weighed;
    var one, other := digits[i], digits[i + 1];
    var a, b, p := ValueOf(one), ValueOf(other), |digits| - 2 - i;
    var half := digits[i := other];
    SumAfterChange(digits, i, other);
    SumAfterChange(half, i + 1, one);
    assert half[i + 1] == other && Swapped(digits, i) == half[i + 1 := one];
    ValidWithTheOther(LuhnSum(Swapped(digits, i)), Weighed(a, p + 1) + Weighed(b, p), LuhnSum(digits),
                      Weighed(b, p + 1) + Weighed(a, p));
    SwapWeights(a, b, p);
  }

  lemma ReplacedLast(digits: string, c: char)
    requires AllDigits(digits) && IsDigit(c)
    ensures AllDigits(digits + ['0']) && AllDigits(digits + [c])
    ensures LuhnSum(digits + [c]) == LuhnSum(digits + ['0']) + ValueOf(c)
  {
    var zero := digits + ['0'];
    SumAfterChange(zero, |digits|, c);
    assert zero[|digits| := c] == digits + [c];
  }

  /** What the check digit has to add. */
  function CheckValue(sum: nat): (value: nat)
    ensures value < 10 && (sum + value) % 10 == 0
  {
    UpToTen(sum, sum / 10, sum % 10);
    if sum % 10 == 0 then 0 else 10 - sum % 10
  }

  lemma UpToTen(sum: nat, tens: nat, last: nat)
    requires sum == 10 * tens + last && last < 10
    ensures (sum + (if last == 0 then 0 else 10 - last)) % 10 == 0
  {
    assert sum + (10 - last) == 10 * (tens + 1);
  }

  lemma OneResidue(sum: nat, one: nat, other: nat)
    requires one < 10 && other < 10 && (sum + one) % 10 == 0 && (sum + other) % 10 == 0
    ensures one == other
  {
  }

  function DigitOf(value: nat): (c: char)
    requires value < 10
    ensures IsDigit(c) && ValueOf(c) == value
  {
    '0' + (value as char)
  }

  lemma DigitsHaveTheirValues(one: char, other: char)
    requires IsDigit(one) && IsDigit(other) && ValueOf(one) == ValueOf(other)
    ensures one == other
  {
  }

  lemma ValueIsOneDigit(c: char)
    requires IsDigit(c)
    ensures ValueOf(c) < 10
  {
  }

  /** Every number has exactly one check digit. */
  lemma CheckDigitIsUnique(digits: string) returns (check: char)
    requires AllDigits(digits)
    ensures IsDigit(check) && AllDigits(digits + [check]) && Luhn(digits + [check])
    ensures forall c | IsDigit(c) && AllDigits(digits + [c]) && Luhn(digits + [c]) :: c == check
  {
    hide LuhnSum, AllDigits, IsDigit, ValueOf, CheckValue, DigitOf;
    ReplacedLast(digits, DigitOf(0));
    var sum := LuhnSum(digits + ['0']);
    check := DigitOf(CheckValue(sum));
    ReplacedLast(digits, check);
    forall c | IsDigit(c) && AllDigits(digits + [c]) && Luhn(digits + [c]) ensures c == check {
      ReplacedLast(digits, c);
      ValueIsOneDigit(c);
      OneResidue(sum, ValueOf(c), CheckValue(sum));
      DigitsHaveTheirValues(c, check);
    }
  }

  // --- Finding a card --------------------------------------------------------------------------

  predicate DetachedBefore(text: string, start: nat, alphanumeric: char -> bool)
    requires start <= |text|
  {
    start == 0 || !alphanumeric(text[start - 1])
  }

  predicate DetachedAfter(text: string, end: nat, alphanumeric: char -> bool) {
    end >= |text| || !alphanumeric(text[end])
  }

  predicate CardNumber(digits: string)
    requires AllDigits(digits)
  {
    MIN_CARD_DIGITS <= |digits| <= MAX_CARD_DIGITS && '2' <= digits[0] <= '6' && Luhn(digits)
  }

  predicate CardAt(text: string, start: nat, alphanumeric: char -> bool)
    requires start < |text|
  {
    && IsDigit(text[start])
    && DetachedBefore(text, start, alphanumeric)
    && DetachedAfter(text, RunEnd(text, start), alphanumeric)
    && CardNumber(DigitsIn(text[start..RunEnd(text, start)]))
  }

  predicate ContainsCard(text: string, alphanumeric: char -> bool) {
    exists start: nat | start < |text| :: CardAt(text, start, alphanumeric)
  }

  /** From `start` to `end` stands a card number: the longest text there of digits joined by single spaces or dashes,
      next to nothing alphanumeric, of 13 to 19 digits that begin with 2 to 6 and whose checksum is a multiple of
      ten. */
  ghost predicate IsCard(text: string, start: nat, end: nat, alphanumeric: char -> bool) {
    && start < end <= |text| && Grouped(text[start..end])
    && (forall more: nat | end < more <= |text| :: !Grouped(text[start..more]))
    && (start > 0 ==> !alphanumeric(text[start - 1])) && (end < |text| ==> !alphanumeric(text[end]))
    && var digits := DigitsIn(text[start..end]);
       13 <= |digits| <= 19 && '2' <= digits[0] <= '6' && Checksum(digits) % 10 == 0
  }

  ghost predicate HoldsCard(text: string, alphanumeric: char -> bool) {
    exists start: nat, end: nat :: IsCard(text, start, end, alphanumeric)
  }

  lemma LongestIsRun(text: string, start: nat, end: nat)
    requires start < end <= |text| && Grouped(text[start..end])
    requires forall more: nat | end < more <= |text| :: !Grouped(text[start..more])
    ensures RunEnd(text, start) == end
  {
    hide Grouped, RunEnd;
    assert IsDigit(text[start]) by { GroupedStarts(text, start, end); }
    RunIsTheLongestGrouped(text, start, end);
    RunIsTheLongestGrouped(text, start, RunEnd(text, start));
  }

  lemma GroupedStarts(text: string, start: nat, end: nat)
    requires start < end <= |text| && Grouped(text[start..end])
    ensures IsDigit(text[start])
  {
  }

  lemma RunIsLongest(text: string, start: nat)
    requires start < |text| && IsDigit(text[start])
    ensures
      var end := RunEnd(text, start);
      && start < end <= |text| && Grouped(text[start..end])
      && forall more: nat | end < more <= |text| :: !Grouped(text[start..more])
  {
    hide Grouped;
    var end := RunEnd(text, start);
    RunIsTheLongestGrouped(text, start, end);
    forall more: nat | end < more <= |text| ensures !Grouped(text[start..more]) {
      RunIsTheLongestGrouped(text, start, more);
    }
  }

  lemma CardAtIff(text: string, start: nat, alphanumeric: char -> bool)
    requires start < |text|
    ensures CardAt(text, start, alphanumeric) <==> exists end: nat :: IsCard(text, start, end, alphanumeric)
  {
    hide Grouped, RunEnd, DigitsIn, LuhnSum, Checksum;
    if CardAt(text, start, alphanumeric) {
      var end := RunEnd(text, start);
      RunIsLongest(text, start);
      SumIsChecksum(DigitsIn(text[start..end]));
      assert IsCard(text, start, end, alphanumeric);
    }
    if end: nat :| IsCard(text, start, end, alphanumeric) {
      LongestIsRun(text, start, end);
      GroupedStarts(text, start, end);
      SumIsChecksum(DigitsIn(text[start..end]));
    }
  }

  lemma ContainsCardIff(text: string, alphanumeric: char -> bool)
    ensures ContainsCard(text, alphanumeric) <==> HoldsCard(text, alphanumeric)
  {
    hide CardAt, IsCard;
    if ContainsCard(text, alphanumeric) {
      var start: nat :| start < |text| && CardAt(text, start, alphanumeric);
      CardAtIff(text, start, alphanumeric);
    }
    if start: nat, end: nat :| IsCard(text, start, end, alphanumeric) {
      CardIsInside(text, start, end, alphanumeric);
      CardAtIff(text, start, alphanumeric);
    }
  }

  lemma CardIsInside(text: string, start: nat, end: nat, alphanumeric: char -> bool)
    requires IsCard(text, start, end, alphanumeric)
    ensures start < |text|
  {
  }

  /** The search of `contains_card`: a scan from every detached digit. */
  method FindsCard(text: string, alphanumeric: char -> bool) returns (found: bool)
    ensures found <==> HoldsCard(text, alphanumeric)
    ensures found <==> ContainsCard(text, alphanumeric)
  {
    ContainsCardIff(text, alphanumeric);
    hide HoldsCard;
    found := false;
    for start := 0 to |text|
      invariant !found
      invariant forall before: nat | before < start :: !CardAt(text, before, alphanumeric)
    {
      if IsDigit(text[start]) && DetachedBefore(text, start, alphanumeric) {
        var run := CardDigits(text, start);
        if run.Some? && DetachedAfter(text, run.value.1, alphanumeric) && CardNumber(run.value.0) {
          assert CardAt(text, start, alphanumeric);
          return true;
        }
      }
    }
  }

  // --- One more separator ------------------------------------------------------------------------

  /** A place between two digits. */
  predicate BetweenDigits(text: string, i: nat) {
    0 < i < |text| && IsDigit(text[i - 1]) && IsDigit(text[i])
  }

  function WithSeparator(text: string, i: nat, separator: char): string
    requires i <= |text|
  {
    text[..i] + [separator] + text[i..]
  }

  /** Where an index of the text is once the separator is in. */
  function Moved(index: nat, i: nat): nat {
    if index < i then index else index + 1
  }

  lemma CharMoves(text: string, i: nat, separator: char, index: nat)
    requires i <= |text| && index < |text|
    ensures |WithSeparator(text, i, separator)| == |text| + 1
    ensures WithSeparator(text, i, separator)[Moved(index, i)] == text[index]
  {
  }

  lemma DetachedMoves(text: string, i: nat, separator: char, index: nat, alphanumeric: char -> bool)
    requires i <= |text| && index <= |text| && index != i
    ensures |WithSeparator(text, i, separator)| == |text| + 1
    ensures DetachedBefore(WithSeparator(text, i, separator), Moved(index, i), alphanumeric)
      == DetachedBefore(text, index, alphanumeric)
    ensures DetachedAfter(WithSeparator(text, i, separator), Moved(index, i), alphanumeric)
      == DetachedAfter(text, index, alphanumeric)
  {
    assert |WithSeparator(text, i, separator)| == |text| + 1;
    hide WithSeparator;
    if index < |text| {
      CharMoves(text, i, separator, index);
    }
    if index > 0 {
      CharMoves(text, i, separator, index - 1);
    }
  }

  lemma JointIsNoDigit(joint: char)
    requires Joint(joint)
    ensures !IsDigit(joint)
  {
  }

  lemma MovedCarries(text: string, i: nat, joint: char, index: nat)
    requires BetweenDigits(text, i) && Joint(joint)
    ensures Carries(WithSeparator(text, i, joint), i)
    ensures index < |text| ==> Carries(WithSeparator(text, i, joint), Moved(index, i)) == Carries(text, index)
  {
  }

  lemma MovedRunEnds(text: string, i: nat, joint: char, start: nat, end: nat)
    requires BetweenDigits(text, i) && Joint(joint)
    requires start < |text| && IsDigit(text[start]) && RunEnds(text, start, end)
    ensures end != i && RunEnds(WithSeparator(text, i, joint), Moved(start, i), Moved(end, i))
  {
    var longer := WithSeparator(text, i, joint);
    assert Carries(text, i);
    forall k: nat | Moved(start, i) <= k < Moved(end, i) ensures Carries(longer, k) {
      MovedCarries(text, i, joint, if k < i then k else if k > i then k - 1 else 0);
    }
    if end < |text| {
      MovedCarries(text, i, joint, end);
    }
  }

  lemma DigitsAround(one: string, separator: char, other: string)
    requires !IsDigit(separator)
    ensures DigitsIn(one + [separator] + other) == DigitsIn(one + other)
  {
    assert DigitsIn([separator]) == "";
    hide DigitsIn;
    DigitsOfConcat(one + [separator], other);
    DigitsOfConcat(one, [separator]);
    DigitsOfConcat(one, other);
  }

  lemma PartAround(text: string, i: nat, separator: char, start: nat, end: nat)
    requires start < i < end <= |text|
    ensures WithSeparator(text, i, separator)[start..end + 1] == text[start..i] + [separator] + text[i..end]
  {
    var part, parts := WithSeparator(text, i, separator)[start..end + 1], text[start..i] + [separator] + text[i..end];
    assert |part| == |parts|;
    forall k | 0 <= k < |part| ensures part[k] == parts[k] {
      assert part[k] == WithSeparator(text, i, separator)[start + k];
    }
  }

  lemma PartBefore(text: string, i: nat, separator: char, start: nat, end: nat)
    requires start <= end <= i <= |text|
    ensures WithSeparator(text, i, separator)[start..end] == text[start..end]
  {
  }

  lemma PartBehind(text: string, i: nat, separator: char, start: nat, end: nat)
    requires i <= start <= end <= |text|
    ensures WithSeparator(text, i, separator)[start + 1..end + 1] == text[start..end]
  {
    var longer := WithSeparator(text, i, separator);
    forall k | 0 <= k < end - start ensures longer[start + 1..end + 1][k] == text[start..end][k] {
      assert longer[start + 1 + k] == text[start + k];
    }
  }

  lemma MovedDigits(text: string, i: nat, separator: char, start: nat, end: nat)
    requires i <= |text| && !IsDigit(separator) && start <= end <= |text| && end != i
    ensures DigitsIn(WithSeparator(text, i, separator)[Moved(start, i)..Moved(end, i)]) == DigitsIn(text[start..end])
  {
    assert |WithSeparator(text, i, separator)| == |text| + 1;
    hide DigitsIn, WithSeparator, IsDigit;
    if start < i < end {
      var one, other := text[start..i], text[i..end];
      DigitsAround(one, separator, other);
      assert text[start..end] == one + other;
      PartAround(text, i, separator, start, end);
    } else if end < i {
      PartBefore(text, i, separator, start, end);
    } else {
      PartBehind(text, i, separator, start, end);
    }
  }

  lemma MovedCard(text: string, i: nat, joint: char, start: nat, alphanumeric: char -> bool)
    requires BetweenDigits(text, i) && Joint(joint) && start < |text|
    requires forall c | IsDigit(c) :: alphanumeric(c)
    requires start != i
    ensures CardAt(WithSeparator(text, i, joint), Moved(start, i), alphanumeric) == CardAt(text, start, alphanumeric)
  {
    hide CardNumber, DigitsIn, RunEnd, RunEnds, WithSeparator, DetachedBefore, DetachedAfter, IsDigit, Joint;
    var longer := WithSeparator(text, i, joint);
    CharMoves(text, i, joint, start);
    if IsDigit(text[start]) {
      var end := RunEnd(text, start);
      JointIsNoDigit(joint);
      MovedRunEnds(text, i, joint, start, end);
      RunEndIsUnique(longer, Moved(start, i), Moved(end, i));
      MovedDigits(text, i, joint, start, end);
      DetachedMoves(text, i, joint, start, alphanumeric);
      DetachedMoves(text, i, joint, end, alphanumeric);
    }
  }

  lemma NoCardAtSeparator(text: string, i: nat, joint: char, alphanumeric: char -> bool)
    requires BetweenDigits(text, i) && Joint(joint)
    requires forall c | IsDigit(c) :: alphanumeric(c)
    ensures !CardAt(text, i, alphanumeric) && !CardAt(WithSeparator(text, i, joint), i, alphanumeric)
  {
  }

  /** A space or dash between two adjacent digits never hides a card; all it can add is a card that starts right
      behind it. */
  lemma SeparatorKeepsCards(text: string, i: nat, joint: char, alphanumeric: char -> bool)
    requires BetweenDigits(text, i) && Joint(joint)
    requires forall c | IsDigit(c) :: alphanumeric(c)
    ensures ContainsCard(text, alphanumeric) ==> ContainsCard(WithSeparator(text, i, joint), alphanumeric)
    ensures ContainsCard(WithSeparator(text, i, joint), alphanumeric)
       <==> ContainsCard(text, alphanumeric) || CardAt(WithSeparator(text, i, joint), i + 1, alphanumeric)
  {
    hide CardAt, WithSeparator;
    var longer := WithSeparator(text, i, joint);
    NoCardAtSeparator(text, i, joint, alphanumeric);
    CharMoves(text, i, joint, i);
    if ContainsCard(text, alphanumeric) {
      var start: nat :| start < |text| && CardAt(text, start, alphanumeric);
      MovedCard(text, i, joint, start, alphanumeric);
    }
    if ContainsCard(longer, alphanumeric) {
      var start: nat :| start < |longer| && CardAt(longer, start, alphanumeric);
      if start != i + 1 {
        MovedCard(text, i, joint, if start < i then start else start - 1, alphanumeric);
      }
    }
  }

  // --- Finding a phone number -----------------------------------------------------------------------

  predicate PhoneChar(c: char) {
    IsDigit(c) || c == ' ' || c == '-' || c == '.' || c == '(' || c == ')'
  }

  /** Phone characters from `start`, the last of them a digit. */
  predicate PhoneRun(text: string, start: nat, end: nat) {
    && start < end <= |text|
    && IsDigit(text[end - 1])
    && forall i | start <= i < end :: PhoneChar(text[i])
  }

  predicate IsPhoneEnd(text: string, start: nat, end: nat) {
    PhoneRun(text, start, end) && forall other | end < other <= |text| :: !PhoneRun(text, start, other)
  }

  lemma NoLongerRun(text: string, start: nat, end: nat, stop: nat, other: nat)
    requires start <= end <= stop <= |text| && end < other
    requires forall i | end <= i < stop :: !IsDigit(text[i])
    requires stop < |text| ==> !PhoneChar(text[stop])
    ensures !PhoneRun(text, start, other)
  {
    if other <= stop {
      assert !IsDigit(text[other - 1]);
    } else if other <= |text| {
      assert !PhoneChar(text[stop]);
    }
  }

  lemma OneMoreDigit(text: string, start: nat, end: nat, index: nat)
    requires start <= end <= index < |text| && IsDigit(text[index])
    requires forall i | end <= i < index :: !IsDigit(text[i])
    ensures |DigitsIn(text[start..index + 1])| == |DigitsIn(text[start..end])| + 1
  {
    assert |DigitsIn([text[index]])| == 1;
    NoDigits(text[end..index]);
    hide DigitsIn;
    assert text[start..index + 1] == text[start..index] + [text[index]];
    DigitsOfConcat(text[start..index], [text[index]]);
    assert text[start..index] == text[start..end] + text[end..index];
    DigitsOfConcat(text[start..end], text[end..index]);
  }

  /** Counts the digits of the longest phone run from `start`. */
  method PhoneEnd(text: string, start: nat) returns (run: Option<(nat, nat)>)
    requires start <= |text|
    ensures run.None? ==> forall end: nat :: !PhoneRun(text, start, end)
    ensures run.Some? ==> IsPhoneEnd(text, start, run.value.1) && run.value.0 == |DigitsIn(text[start..run.value.1])|
  {
    hide DigitsIn;
    assert text[start..start] == "" && |DigitsIn("")| == 0;
    var digits := 0;
    var end := start;
    var index := start;
    var scanning := true;
    while scanning && index < |text|
      invariant start <= end <= index <= |text|
      invariant forall i | start <= i < index :: PhoneChar(text[i])
      invariant forall i | end <= i < index :: !IsDigit(text[i])
      invariant digits == |DigitsIn(text[start..end])|
      invariant end > start ==> IsDigit(text[end - 1])
      invariant digits > 0 <==> end > start
      invariant !scanning ==> index < |text| && !PhoneChar(text[index])
      decreases |text| - index, scanning
    {
      if IsDigit(text[index]) {
        OneMoreDigit(text, start, end, index);
        digits := digits + 1;
        end := index + 1;
        index := index + 1;
      } else if PhoneChar(text[index]) {
        index := index + 1;
      } else {
        scanning := false;
      }
    }
    forall other: nat | end < other ensures !PhoneRun(text, start, other) {
      NoLongerRun(text, start, end, index, other);
    }
    run := if digits > 0 then Some((digits, end)) else None;
  }

  lemma {:induction false} NoDigits(text: string)
    requires forall i | 0 <= i < |text| :: !IsDigit(text[i])
    ensures DigitsIn(text) == ""
  {
    if text != "" {
      NoDigits(text[1..]);
    }
  }

  predicate PhoneAt(text: string, start: nat, end: nat, alphanumeric: char -> bool) {
    && start + 1 < |text|
    && text[start] == '+'
    && DetachedBefore(text, start, alphanumeric)
    && IsDigit(text[start + 1])
    && IsPhoneEnd(text, start + 1, end)
    && MIN_PHONE_DIGITS <= |DigitsIn(text[start + 1..end])| <= MAX_PHONE_DIGITS
    && DetachedAfter(text, end, alphanumeric)
  }

  predicate ContainsPhone(text: string, alphanumeric: char -> bool) {
    exists start: nat, end: nat | start < |text| && end <= |text| :: PhoneAt(text, start, end, alphanumeric)
  }

  /** Digits and what may stand between them. */
  predicate InPhone(text: string, start: nat, end: nat)
    requires end <= |text|
  {
    forall i | start <= i < end :: '0' <= text[i] <= '9' || text[i] in {' ', '-', '.', '(', ')'}
  }

  /** The text from `first` to `end` is as long as it can be, with digits and what may stand between them, and ends
      with a digit. */
  ghost predicate LongestFrom(text: string, first: nat, end: nat)
    requires first < end <= |text|
  {
    && '0' <= text[end - 1] <= '9' && InPhone(text, first, end)
    && forall more: nat | end < more <= |text| :: !('0' <= text[more - 1] <= '9' && InPhone(text, first, more))
  }

  /** From the plus sign at `start` to `end` stands a phone number: the longest text of digits, spaces, dashes, dots and
      parentheses behind it that begins and ends with a digit, next to nothing alphanumeric, of 10 to 15 digits. */
  ghost predicate IsPhone(text: string, start: nat, end: nat, alphanumeric: char -> bool) {
    && start + 1 < end <= |text| && text[start] == '+'
    && '0' <= text[start + 1] <= '9' && LongestFrom(text, start + 1, end)
    && (start > 0 ==> !alphanumeric(text[start - 1])) && (end < |text| ==> !alphanumeric(text[end]))
    && 10 <= |DigitsIn(text[start + 1..end])| <= 15
  }

  ghost predicate HoldsPhone(text: string, alphanumeric: char -> bool) {
    exists start: nat, end: nat :: IsPhone(text, start, end, alphanumeric)
  }

  lemma PhoneAtIff(text: string, start: nat, end: nat, alphanumeric: char -> bool)
    ensures PhoneAt(text, start, end, alphanumeric) <==> IsPhone(text, start, end, alphanumeric)
  {
    hide DigitsIn;
    if start + 1 < end <= |text| {
      PhoneEndIff(text, start + 1, end);
      hide IsPhoneEnd, LongestFrom;
      assert PhoneAt(text, start, end, alphanumeric) <==> IsPhone(text, start, end, alphanumeric);
    }
  }

  lemma PhoneEndIff(text: string, first: nat, end: nat)
    requires first < end <= |text|
    ensures IsPhoneEnd(text, first, end) <==> LongestFrom(text, first, end)
  {
    forall more: nat
      ensures PhoneRun(text, first, more)
        <==> first < more <= |text| && '0' <= text[more - 1] <= '9' && InPhone(text, first, more)
    {
      PhoneRunIff(text, first, more);
    }
    hide PhoneRun, InPhone;
    assert IsPhoneEnd(text, first, end) <==> LongestFrom(text, first, end);
  }

  lemma PhoneRunIff(text: string, start: nat, end: nat)
    ensures PhoneRun(text, start, end)
      <==> start < end <= |text| && '0' <= text[end - 1] <= '9' && InPhone(text, start, end)
  {
  }

  lemma ContainsPhoneIff(text: string, alphanumeric: char -> bool)
    ensures ContainsPhone(text, alphanumeric) <==> HoldsPhone(text, alphanumeric)
  {
    hide PhoneAt, IsPhone;
    if ContainsPhone(text, alphanumeric) {
      var start: nat, end: nat :| start < |text| && end <= |text| && PhoneAt(text, start, end, alphanumeric);
      PhoneAtIff(text, start, end, alphanumeric);
    }
    if start: nat, end: nat :| IsPhone(text, start, end, alphanumeric) {
      PhoneAtIff(text, start, end, alphanumeric);
      PhoneIsInside(text, start, end, alphanumeric);
    }
  }

  lemma PhoneIsInside(text: string, start: nat, end: nat, alphanumeric: char -> bool)
    requires IsPhone(text, start, end, alphanumeric)
    ensures start < |text| && end <= |text|
  {
  }

  /** The search of `contains_phone`: a scan behind every detached plus sign that a digit follows. */
  method FindsPhone(text: string, alphanumeric: char -> bool) returns (found: bool)
    ensures found <==> HoldsPhone(text, alphanumeric)
    ensures found <==> ContainsPhone(text, alphanumeric)
  {
    ContainsPhoneIff(text, alphanumeric);
    hide HoldsPhone;
    found := false;
    for start := 0 to |text|
      invariant !found
      invariant forall before: nat, end: nat | before < start :: !PhoneAt(text, before, end, alphanumeric)
    {
      if text[start] == '+' && DetachedBefore(text, start, alphanumeric) && start + 1 < |text|
        && IsDigit(text[start + 1]) {
        var run := PhoneEnd(text, start + 1);
        if run.Some? {
          var (digits, end) := run.value;
          PhoneEndIsUnique(text, start + 1, end);
          if MIN_PHONE_DIGITS <= digits <= MAX_PHONE_DIGITS && DetachedAfter(text, end, alphanumeric) {
            assert PhoneAt(text, start, end, alphanumeric);
            return true;
          }
        }
      }
    }
  }

  lemma PhoneEndIsUnique(text: string, start: nat, end: nat)
    requires IsPhoneEnd(text, start, end)
    ensures forall other: nat | IsPhoneEnd(text, start, other) :: other == end
  {
  }

  lemma MovedPhoneRun(text: string, i: nat, separator: char, start: nat, end: nat)
    requires BetweenDigits(text, i) && PhoneChar(separator) && !IsDigit(separator)
    requires start < end <= |text| && start != i && end != i
    ensures PhoneRun(WithSeparator(text, i, separator), Moved(start, i), Moved(end, i)) == PhoneRun(text, start, end)
  {
    var longer := WithSeparator(text, i, separator);
    assert longer[Moved(end, i) - 1] == text[end - 1];
    if PhoneRun(text, start, end) {
      forall k | Moved(start, i) <= k < Moved(end, i) ensures PhoneChar(longer[k]) {
        assert k != i ==> longer[k] == text[if k < i then k else k - 1];
      }
    }
    if PhoneRun(longer, Moved(start, i), Moved(end, i)) {
      forall k | start <= k < end ensures PhoneChar(text[k]) {
        assert text[k] == longer[Moved(k, i)];
      }
    }
  }

  /** In the longer text a run from before the separator that stops on either side of it is a run of the text, or
      none. */
  lemma RunsAtSeparator(text: string, i: nat, separator: char, start: nat)
    requires BetweenDigits(text, i) && PhoneChar(separator) && !IsDigit(separator)
    requires start < i
    ensures PhoneRun(WithSeparator(text, i, separator), start, i) == PhoneRun(text, start, i)
    ensures !PhoneRun(WithSeparator(text, i, separator), start, i + 1)
  {
    var longer := WithSeparator(text, i, separator);
    assert longer[..i] == text[..i];
    assert forall k | 0 <= k < i :: longer[k] == text[k];
  }

  lemma PhoneEndMoves(text: string, i: nat, separator: char, start: nat, end: nat)
    requires BetweenDigits(text, i) && PhoneChar(separator) && !IsDigit(separator)
    requires start < end <= |text| && start != i && end != i
    ensures IsPhoneEnd(WithSeparator(text, i, separator), Moved(start, i), Moved(end, i))
      == IsPhoneEnd(text, start, end)
  {
    var longer := WithSeparator(text, i, separator);
    assert |longer| == |text| + 1;
    hide PhoneRun, WithSeparator;
    MovedPhoneRun(text, i, separator, start, end);
    if start < i {
      RunsAtSeparator(text, i, separator, start);
    }
    if IsPhoneEnd(text, start, end) {
      forall other | Moved(end, i) < other <= |longer| ensures !PhoneRun(longer, Moved(start, i), other) {
        if other < i || other > i + 1 {
          MovedPhoneRun(text, i, separator, start, if other < i then other else other - 1);
        }
      }
    }
    if IsPhoneEnd(longer, Moved(start, i), Moved(end, i)) {
      forall other | end < other <= |text| ensures !PhoneRun(text, start, other) {
        if other != i {
          MovedPhoneRun(text, i, separator, start, other);
        }
      }
    }
  }

  /** The longest run never stops between two digits, nor around a separator between them. */
  lemma NoEndBetween(text: string, i: nat, separator: char, start: nat)
    requires BetweenDigits(text, i) && PhoneChar(separator) && !IsDigit(separator)
    ensures !IsPhoneEnd(text, start, i)
    ensures !IsPhoneEnd(WithSeparator(text, i, separator), start, i)
    ensures !IsPhoneEnd(WithSeparator(text, i, separator), start, i + 1)
  {
    var longer := WithSeparator(text, i, separator);
    assert PhoneRun(text, start, i) ==> PhoneRun(text, start, i + 1);
    assert PhoneRun(longer, start, i) ==> PhoneRun(longer, start, i + 2);
    assert longer[i] == separator;
  }

  lemma MovedPhone(text: string, i: nat, separator: char, start: nat, end: nat, alphanumeric: char -> bool)
    requires BetweenDigits(text, i) && PhoneChar(separator) && !IsDigit(separator)
    requires start != i && end != i && start < |text| && end <= |text|
    ensures PhoneAt(WithSeparator(text, i, separator), Moved(start, i), Moved(end, i), alphanumeric)
         == PhoneAt(text, start, end, alphanumeric)
  {
    hide DigitsIn, IsPhoneEnd, WithSeparator, DetachedBefore, DetachedAfter, PhoneChar;
    var longer := WithSeparator(text, i, separator);
    CharMoves(text, i, separator, start);
    if text[start] == '+' && start + 1 < |text| {
      assert start + 1 != i;
      CharMoves(text, i, separator, start + 1);
      DetachedMoves(text, i, separator, start, alphanumeric);
      DetachedMoves(text, i, separator, end, alphanumeric);
      if start + 1 < end {
        PhoneEndMoves(text, i, separator, start + 1, end);
        MovedDigits(text, i, separator, start + 1, end);
      } else {
        NoEarlyEnd(text, start + 1, end);
        NoEarlyEnd(longer, Moved(start, i) + 1, Moved(end, i));
      }
    }
  }

  lemma NoEarlyEnd(text: string, start: nat, end: nat)
    requires end <= start
    ensures !IsPhoneEnd(text, start, end)
  {
  }

  lemma NoPhoneAtSeparator(text: string, i: nat, separator: char, start: nat, end: nat, alphanumeric: char -> bool)
    requires BetweenDigits(text, i) && PhoneChar(separator) && !IsDigit(separator)
    ensures PhoneAt(text, start, end, alphanumeric) ==> start != i && end != i
    ensures PhoneAt(WithSeparator(text, i, separator), start, end, alphanumeric) ==>
              start != i && start != i + 1 && end != i && end != i + 1
  {
    hide IsPhoneEnd;
    var longer := WithSeparator(text, i, separator);
    NoEndBetween(text, i, separator, start + 1);
    assert longer[i] == separator && longer[i + 1] == text[i];
  }

  /** A separator between two adjacent digits changes nothing about phone numbers. */
  lemma SeparatorKeepsPhones(text: string, i: nat, separator: char, alphanumeric: char -> bool)
    requires BetweenDigits(text, i) && PhoneChar(separator) && !IsDigit(separator)
    ensures ContainsPhone(WithSeparator(text, i, separator), alphanumeric) <==> ContainsPhone(text, alphanumeric)
  {
    if ContainsPhone(text, alphanumeric) {
      PhoneStays(text, i, separator, alphanumeric);
    }
    if ContainsPhone(WithSeparator(text, i, separator), alphanumeric) {
      PhoneWasThere(text, i, separator, alphanumeric);
    }
  }

  lemma PhoneStays(text: string, i: nat, separator: char, alphanumeric: char -> bool)
    requires BetweenDigits(text, i) && PhoneChar(separator) && !IsDigit(separator) && ContainsPhone(text, alphanumeric)
    ensures ContainsPhone(WithSeparator(text, i, separator), alphanumeric)
  {
    assert |WithSeparator(text, i, separator)| == |text| + 1;
    hide PhoneAt, WithSeparator;
    var start: nat, end: nat :| start < |text| && end <= |text| && PhoneAt(text, start, end, alphanumeric);
    NoPhoneAtSeparator(text, i, separator, start, end, alphanumeric);
    MovedPhone(text, i, separator, start, end, alphanumeric);
  }

  lemma PhoneWasThere(text: string, i: nat, separator: char, alphanumeric: char -> bool)
    requires BetweenDigits(text, i) && PhoneChar(separator) && !IsDigit(separator)
    requires ContainsPhone(WithSeparator(text, i, separator), alphanumeric)
    ensures ContainsPhone(text, alphanumeric)
  {
    var longer := WithSeparator(text, i, separator);
    assert |longer| == |text| + 1;
    hide PhoneAt, WithSeparator;
    var start: nat, end: nat :| start < |longer| && end <= |longer| && PhoneAt(longer, start, end, alphanumeric);
    NoPhoneAtSeparator(text, i, separator, start, end, alphanumeric);
    var from, to := if start < i then start else start - 1, if end < i then end else end - 1;
    assert Moved(from, i) == start && Moved(to, i) == end && from < |text| && to <= |text|;
    hide Moved, BetweenDigits, PhoneChar, IsDigit;
    MovedPhone(text, i, separator, from, to, alphanumeric);
  }

  // --- Filtering ----------------------------------------------------------------------------------------

  /** What the host chose and what this model leaves open. */
  datatype Rules = Rules(fragments: seq<string>, lower: string -> string, email: string -> bool,
                         alphanumeric: char -> bool)

  /** The part after the last dot. */
  function LastPart(key: string): string {
    if '.' !in key then key else LastPart(key[F.FirstDot(key) + 1..])
  }

  predicate Holds(text: string, fragment: string) {
    exists i | 0 <= i <= |text| :: fragment <= text[i..]
  }

  predicate FilteredKey(rules: Rules, key: string) {
    exists i | 0 <= i < |rules.fragments| :: Holds(rules.lower(LastPart(key)), rules.fragments[i])
  }

  predicate SensitiveText(rules: Rules, text: string) {
    rules.email(text) || ContainsCard(text, rules.alphanumeric) || ContainsPhone(text, rules.alphanumeric)
  }

  predicate Sensitive(rules: Rules, key: string, value: F.Json) {
    FilteredKey(rules, key) || (value.Text? && SensitiveText(rules, value.text))
  }

  function Cleaned(rules: Rules, flat: F.Flat): F.Flat {
    map key | key in flat :: if Sensitive(rules, key, flat[key]) then F.Text(FILTERED) else flat[key]
  }

  /** Overwrites the sensitive values in place, key by key. */
  method Sanitize(rules: Rules, flat: F.Flat) returns (clean: F.Flat)
    ensures clean == Cleaned(rules, flat)
  {
    clean := flat;
    var left := flat.Keys;
    while left != {}
      invariant left <= flat.Keys == clean.Keys
      invariant forall key | key in left :: clean[key] == flat[key]
      invariant forall key | key in flat && key !in left :: clean[key] == Cleaned(rules, flat)[key]
      decreases left
    {
      var key :| key in left;
      if Sensitive(rules, key, clean[key]) {
        clean := clean[key := F.Text(FILTERED)];
      }
      left := left - {key};
    }
  }

  /** The last part of a key has no dot and is all of it, or what follows one of its dots. */
  lemma {:induction false} LastPartFollowsTheDots(key: string)
    ensures '.' !in LastPart(key)
    ensures LastPart(key) == key || exists i | 0 <= i < |key| :: key[i] == '.' && LastPart(key) == key[i + 1..]
    decreases |key|
  {
    if '.' in key {
      var dot := F.FirstDot(key);
      FirstDotIsDot(key);
      var rest := key[dot + 1..];
      LastPartFollowsTheDots(rest);
      if LastPart(rest) != rest {
        var i :| 0 <= i < |rest| && rest[i] == '.' && LastPart(rest) == rest[i + 1..];
        assert key[dot + 1 + i] == '.' && key[dot + 1 + i + 1..] == rest[i + 1..];
      }
    }
  }

  lemma {:induction false} FirstDotIsDot(key: string)
    requires '.' in key
    ensures F.FirstDot(key) < |key| && key[F.FirstDot(key)] == '.'
  {
    if key[0] != '.' {
      FirstDotIsDot(key[1..]);
    }
  }

  ghost predicate Contains(text: string, part: string) {
    exists i, j | 0 <= i <= j <= |text| :: text[i..j] == part
  }

  lemma HoldsIff(text: string, fragment: string)
    ensures Holds(text, fragment) <==> Contains(text, fragment)
  {
    if i :| 0 <= i <= |text| && fragment <= text[i..] {
      assert text[i..i + |fragment|] == fragment;
    }
    if i, j :| 0 <= i <= j <= |text| && text[i..j] == fragment {
      assert fragment <= text[i..];
    }
  }

  /** The values under a key whose last part, in lower case, contains a fragment, and the texts with an email address, a
      card or a phone number, are replaced; every other value stays. */
  lemma CleanedIsExact(rules: Rules, flat: F.Flat, key: string)
    requires key in flat
    ensures
      var value := flat[key];
      var sensitive :=
        || (exists i | 0 <= i < |rules.fragments| :: Contains(rules.lower(LastPart(key)), rules.fragments[i]))
        || (value.Text? && (rules.email(value.text) || HoldsCard(value.text, rules.alphanumeric)
                            || HoldsPhone(value.text, rules.alphanumeric)));
      Cleaned(rules, flat)[key] == if sensitive then F.Text("[FILTERED]") else value
  {
    hide Holds, Contains, HoldsCard, HoldsPhone, ContainsCard, ContainsPhone, LastPart;
    forall i | 0 <= i < |rules.fragments|
      ensures Holds(rules.lower(LastPart(key)), rules.fragments[i])
        <==> Contains(rules.lower(LastPart(key)), rules.fragments[i])
    {
      HoldsIff(rules.lower(LastPart(key)), rules.fragments[i]);
    }
    if flat[key].Text? {
      ContainsCardIff(flat[key].text, rules.alphanumeric);
      ContainsPhoneIff(flat[key].text, rules.alphanumeric);
    }
  }

  lemma FilteredIsHarmless(rules: Rules)
    requires forall text | rules.email(text) :: '@' in text
    ensures !SensitiveText(rules, FILTERED)
  {
    assert forall i | 0 <= i < |FILTERED| :: !IsDigit(FILTERED[i]) && FILTERED[i] != '@' && FILTERED[i] != '+';
  }

  /** No value that stays holds an email address, a card or a phone number, no filtered key keeps its value, and
      filtering again changes nothing. */
  lemma CleanedIsClean(rules: Rules, flat: F.Flat)
    requires forall text | rules.email(text) :: '@' in text
    ensures Cleaned(rules, flat).Keys == flat.Keys
    ensures forall key | key in flat ::
      Cleaned(rules, flat)[key] == F.Text(FILTERED) || !Sensitive(rules, key, Cleaned(rules, flat)[key])
    ensures forall key | key in flat && Cleaned(rules, flat)[key].Text? ::
      !SensitiveText(rules, Cleaned(rules, flat)[key].text)
    ensures Cleaned(rules, Cleaned(rules, flat)) == Cleaned(rules, flat)
  {
    FilteredIsHarmless(rules);
  }
}
