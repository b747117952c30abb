/** The wait after failed sends, with the saturating arithmetic of the client. */
module Backoff {
  import opened Digits
  import opened Wrappers

  type Milliseconds = nat

  const FIRST_DELAY: Milliseconds := 5_000
  const MAX_DELAY: Milliseconds := 600_000
  const MAX_U32 := 0xFFFF_FFFF
  const MAX_U64 := 0xFFFF_FFFF_FFFF_FFFF

  function Min(one: nat, other: nat): nat {
    if one <= other then one else other
  }

  function Max(one: nat, other: nat): nat {
    if one <= other then other else one
  }

  function Pow2(exponent: nat): nat {
    if exponent == 0 then 1 else 2 * Pow2(exponent - 1)
  }

  /** `2u32.saturating_pow(exponent)`. */
  function SaturatingPow2(exponent: nat): nat {
    Min(Pow2(exponent), MAX_U32)
  }

  function Doubled(failures: nat): Milliseconds {
    Min(FIRST_DELAY * SaturatingPow2(if failures == 0 then 0 else failures - 1), MAX_DELAY)
  }

  /** A number in [0, 1). */
  type Random = r: real | 0.0 <= r < 1.0 witness 0.0

  function Jittered(failures: nat, random: Random): Milliseconds {
    var scaled := Doubled(failures) as real * (0.8 + 0.4 * random);
    assert scaled >= 0.0;
    scaled.Floor
  }

  function Delay(failures: nat, retryAfter: Option<Milliseconds>, random: Random): Milliseconds {
    match retryAfter
    case None => Jittered(failures, random)
    case Some(advice) => Max(advice, Jittered(failures, random))
  }

  lemma {:induction false} Pow2Grows(smaller: nat, larger: nat)
    requires smaller <= larger
    ensures Pow2(smaller) <= Pow2(larger)
  {
    if smaller < larger {
      Pow2Grows(smaller, larger - 1);
    }
  }

  /** The saturation never shows: 5 s doubled per failure up to 600 s, for every count of failures. */
  lemma DoubledIsCappedDoubling(failures: nat)
    requires failures >= 1
    ensures Doubled(failures) == if 5_000 * Pow2(failures - 1) < 600_000 then 5_000 * Pow2(failures - 1) else 600_000
  {
    assert Pow2(7) == 128;
    if failures - 1 >= 7 {
      Pow2Grows(7, failures - 1);
    }
  }

  /** The wait is within a fifth of the doubled delay, or is the longer Retry-After. */
  lemma DelayIsBounded(failures: nat, retryAfter: Option<Milliseconds>, random: Random)
    requires failures >= 1
    ensures
      var doubled := if 5_000 * Pow2(failures - 1) < 600_000 then 5_000 * Pow2(failures - 1) else 600_000;
      var delay := Delay(failures, retryAfter, random);
      && 4 * doubled <= 5 * delay
      && (5 * delay <= 6 * doubled || retryAfter == Some(delay))
      && (retryAfter.Some? ==> retryAfter.value <= delay)
  {
    DoubledIsCappedDoubling(failures);
    JitterIsBounded(failures, random);
  }

  /** Without advice the wait is the whole part of the doubled delay times 0.8 to 1.2, as the random number says; with
      advice it is the longer of the two. */
  lemma DelayIsExact(failures: nat, retryAfter: Option<Milliseconds>, random: Random)
    requires failures >= 1
    ensures
      var doubled := if 5_000 * Pow2(failures - 1) < 600_000 then 5_000 * Pow2(failures - 1) else 600_000;
      var own := Delay(failures, None, random);
      && (10 * own) as real <= doubled as real * (8.0 + 4.0 * random) < (10 * own + 10) as real
      && Delay(failures, retryAfter, random) in {own} + (if retryAfter.Some? then {retryAfter.value} else {})
      && own <= Delay(failures, retryAfter, random)
      && (retryAfter.Some? ==> retryAfter.value <= Delay(failures, retryAfter, random))
  {
    DoubledIsCappedDoubling(failures);
    hide Doubled, Pow2;
    var doubled, factor := Doubled(failures) as real, 0.8 + 0.4 * random;
    assert 8.0 + 4.0 * random == 10.0 * factor;
    TenTimes(doubled, factor);
  }

  lemma TenTimes(x: real, factor: real)
    ensures x * (10.0 * factor) == 10.0 * (x * factor)
  {
  }

  lemma JitterIsBounded(failures: nat, random: Random)
    ensures 4 * Doubled(failures) <= 5 * Jittered(failures, random) <= 6 * Doubled(failures)
  {
    hide Doubled;
    DoubledIsWhole(failures);
    var fifths := Doubled(failures) / 5;
    assert Doubled(failures) == 5 * fifths;
    var factor := 0.8 + 0.4 * random;
    var scaled := (5 * fifths) as real * factor;
    assert Jittered(failures, random) == scaled.Floor;
    ScaledFifths(fifths, factor);
    assert 4 * fifths <= scaled.Floor <= 6 * fifths;
  }

  /** Between four and six fifths of a number of whole fifths, rounded down. */
  lemma ScaledFifths(fifths: nat, factor: real)
    requires 0.8 <= factor <= 1.2
    ensures 4 * fifths <= ((5 * fifths) as real * factor).Floor <= 6 * fifths
  {
    var low, x, high := (4 * fifths) as real, (5 * fifths) as real, (6 * fifths) as real;
    assert low == 0.8 * x && high == 1.2 * x;
    Scaled(x, factor, low, high);
    FloorBetween(4 * fifths, 6 * fifths, x * factor);
  }

  lemma Scaled(x: real, factor: real, low: real, high: real)
    requires x >= 0.0 && 0.8 <= factor <= 1.2 && low == 0.8 * x && high == 1.2 * x
    ensures low <= x * factor <= high
  {
    assert x * (factor - 0.8) >= 0.0 && x * (1.2 - factor) >= 0.0;
  }

  lemma FloorBetween(low: int, high: int, y: real)
    requires low as real <= y <= high as real
    ensures low <= y.Floor <= high
  {
  }

  /** Every doubled delay is a multiple of 5 ms, so four fifths of it are whole. */
  lemma DoubledIsWhole(failures: nat)
    ensures Doubled(failures) % 5 == 0
  {
    hide SaturatingPow2;
    var power := SaturatingPow2(if failures == 0 then 0 else failures - 1);
    FiveTimes(1_000 * power);
    assert FIRST_DELAY * power == 5 * (1_000 * power);
  }

  lemma FiveTimes(n: nat)
    ensures (5 * n) % 5 == 0
  {
  }

  // --- Retry-After --------------------------------------------------------------------

  /** Unicode White_Space, which `trim` removes at both ends. */
  predicate IsSpace(c: char) {
    || '\U{0009}' <= c <= '\U{000D}' || c == ' ' || c == '\U{0085}' || c == '\U{00A0}' || c == '\U{1680}'
    || '\U{2000}' <= c <= '\U{200A}' || c == '\U{2028}' || c == '\U{2029}' || c == '\U{202F}' || c == '\U{205F}'
      || c == '\U{3000}'
  }

  function Stripped(text: string): string {
    if text != "" && IsSpace(text[0]) then Stripped(text[1..])
    else if text != "" && IsSpace(text[|text| - 1]) then Stripped(text[..|text| - 1])
    else text
  }

  /** The fold: times ten plus the digit, both saturating at `u64::MAX`. */
  function SaturatingFold(digits: string): nat
    requires AllDigits(digits)
  {
    if digits == "" then 0
    else
      var tens := Min(SaturatingFold(digits[..|digits| - 1]) * 10, MAX_U64);
      Min(tens + ValueOf(digits[|digits| - 1]), MAX_U64)
  }

  /** In seconds; None for no advice. */
  function RetryAfter(header: Option<string>): Option<nat> {
    match header
    case None => None
    case Some(text) =>
      var digits := Stripped(text);
      if digits == "" || !AllDigits(digits) then None else Some(SaturatingFold(digits))
  }

  /** Saturating at every digit is saturating once at the end. */
  lemma {:induction false} FoldSaturatesOnce(digits: string)
    requires AllDigits(digits)
    ensures SaturatingFold(digits) == Min(Decimal(digits), MAX_U64)
  {
    if digits != "" {
      FoldSaturatesOnce(digits[..|digits| - 1]);
    }
  }

  /** Nothing but the code points with the Unicode property White_Space. */
  ghost predicate Blank(text: string) {
    forall i | 0 <= i < |text| ::
      var code := text[i] as int;
      || 9 <= code <= 13 || 0x2000 <= code <= 0x200A
      || code in {0x20, 0x85, 0xA0, 0x1680, 0x2028, 0x2029, 0x202F, 0x205F, 0x3000}
  }

  /** The text is these digits, one at least, with nothing but white space around them. */
  ghost predicate Advises(text: string, from: nat, to: nat) {
    && from < to <= |text| && Blank(text[..from]) && Blank(text[to..])
    && forall i | from <= i < to :: '0' <= text[i] <= '9'
  }

  lemma BlankIff(text: string)
    ensures Blank(text) <==> forall i | 0 <= i < |text| :: IsSpace(text[i])
  {
  }

  /** Where the stripped text stands: between white space, neither beginning nor ending with it. */
  lemma {:induction false} StrippedStands(text: string) returns (from: nat, to: nat)
    ensures from <= to <= |text| && Stripped(text) == text[from..to]
    ensures forall i | 0 <= i < from || to <= i < |text| :: IsSpace(text[i])
    ensures from < to ==> !IsSpace(text[from]) && !IsSpace(text[to - 1])
  {
    hide IsSpace;
    if text != "" && IsSpace(text[0]) {
      from, to := StrippedStands(text[1..]);
      from, to := from + 1, to + 1;
      assert text[1..][from - 1..to - 1] == text[from..to];
      assert forall i | 0 < i < |text| :: text[i] == text[1..][i - 1];
    } else if text != "" && IsSpace(text[|text| - 1]) {
      from, to := StrippedStands(text[..|text| - 1]);
      assert text[..|text| - 1][from..to] == text[from..to];
    } else {
      from, to := 0, |text|;
      assert text[0..|text|] == text;
    }
  }

  /** A text that advises advises its stripped text. */
  lemma AdviceIsStripped(text: string, from: nat, to: nat)
    requires Advises(text, from, to)
    ensures Stripped(text) == text[from..to]
  {
    BlankIff(text[..from]);
    BlankIff(text[to..]);
    assert forall i | 0 <= i < from :: text[i] == text[..from][i];
    assert forall i | to <= i < |text| :: text[i] == text[to..][i - to];
    assert forall i | from <= i < to :: !IsSpace(text[i]);
    hide IsSpace, Blank;
    var start, end := StrippedStands(text);
    assert !IsSpace(text[from]) && !IsSpace(text[to - 1]);
    assert start == from && to == end;
  }

  /** A header is advice exactly when it is digits but for white space around them, and then of their decimal value, up
      to the largest number of 64 bits. */
  lemma RetryAfterIsDecimal(header: Option<string>)
    ensures RetryAfter(header).Some? <==> header.Some? && exists from: nat, to: nat :: Advises(header.value, from, to)
    ensures header.Some? ==> forall from: nat, to: nat | Advises(header.value, from, to) ::
      AllDigits(header.value[from..to])
        && RetryAfter(header) == Some(Min(Decimal(header.value[from..to]), 0xFFFF_FFFF_FFFF_FFFF))
  {
    hide IsSpace, Blank;
    if header.Some? {
      var text := header.value;
      forall from: nat, to: nat | Advises(text, from, to)
        ensures AllDigits(text[from..to]) && RetryAfter(header) == Some(Min(Decimal(text[from..to]), MAX_U64))
      {
        AdviceIsStripped(text, from, to);
        FoldSaturatesOnce(text[from..to]);
      }
      if RetryAfter(header).Some? {
        StrippedAdvises(text);
      }
    }
  }

  lemma StrippedAdvises(text: string)
    requires Stripped(text) != "" && AllDigits(Stripped(text))
    ensures exists from: nat, to: nat :: Advises(text, from, to)
  {
    hide IsSpace;
    var from, to := StrippedStands(text);
    BlankIff(text[..from]);
    BlankIff(text[to..]);
    assert forall i | from <= i < to :: text[i] == text[from..to][i - from];
    hide Blank;
    assert Advises(text, from, to);
  }
}
