/** The activity days of an actor and a year: 366 characters `0` or `1`, here
    booleans, read and written through binary numbers as SQLite stores them. */
module BitStrings {
  import opened Wrappers

  type Bits = seq<bool>

  const YEAR_BITS := 366

  function Digit(bit: bool): nat {
    if bit then 1 else 0
  }

  /** `to_i(2)`. */
  function Number(bits: Bits): nat {
    if bits == [] then 0 else 2 * Number(bits[..|bits| - 1]) + Digit(bits[|bits| - 1])
  }

  /** `to_s(2)`. */
  function Digits(number: nat): (bits: Bits)
    ensures bits != []
  {
    if number < 2 then [number == 1] else Digits(number / 2) + [number % 2 == 1]
  }

  /** `rjust(width, '0')`. */
  function Justified(bits: Bits, width: nat): Bits {
    if |bits| < width then seq(width - |bits|, _ => false) + bits else bits
  }

  function Or(left: nat, right: nat): nat {
    if left == 0 && right == 0 then 0
    else 2 * Or(left / 2, right / 2) + Digit(left % 2 == 1 || right % 2 == 1)
  }

  function And(left: nat, right: nat): nat {
    if left == 0 || right == 0 then 0
    else 2 * And(left / 2, right / 2) + Digit(left % 2 == 1 && right % 2 == 1)
  }

  function BitsOf(number: nat): Bits {
    Justified(Digits(number), YEAR_BITS)
  }

  function Either(left: Bits, right: Bits): Bits
    requires |left| == |right|
  {
    seq(|left|, i requires 0 <= i < |left| => left[i] || right[i])
  }

  function Both(left: Bits, right: Bits): Bits
    requires |left| == |right|
  {
    seq(|left|, i requires 0 <= i < |left| => left[i] && right[i])
  }

  lemma {:induction false} ReadBack(bits: Bits)
    requires bits != []
    ensures Justified(Digits(Number(bits)), |bits|) == bits
    ensures |Digits(Number(bits))| <= |bits|
  {
    var most, last := bits[..|bits| - 1], bits[|bits| - 1];
    assert bits == most + [last];
    if most == [] {
      assert Number(most) == 0;
    } else {
      ReadBack(most);
      assert Number(bits) / 2 == Number(most) && (Number(bits) % 2 == 1) == last;
    }
  }

  lemma OneMoreBit(left: nat, right: nat, one: bool, other: bool)
    ensures Or(2 * left + Digit(one), 2 * right + Digit(other)) == 2 * Or(left, right) + Digit(one || other)
    ensures And(2 * left + Digit(one), 2 * right + Digit(other)) == 2 * And(left, right) + Digit(one && other)
  {
    var first, second := 2 * left + Digit(one), 2 * right + Digit(other);
    assert first / 2 == left && second / 2 == right;
    assert (first % 2 == 1) == one && (second % 2 == 1) == other;
  }

  lemma NothingSet()
    ensures Or(0, 0) == 0 && And(0, 0) == 0
  {
  }

  lemma LastBit(bits: Bits)
    requires bits != []
    ensures Number(bits) == 2 * Number(bits[..|bits| - 1]) + Digit(bits[|bits| - 1])
  {
  }

  lemma NoBits()
    ensures Number([]) == 0
  {
  }

  lemma LastOfEach(left: Bits, right: Bits)
    requires |left| == |right| > 0
    ensures
      var n := |left| - 1;
      && Either(left, right)[..n] == Either(left[..n], right[..n])
      && Either(left, right)[n] == (left[n] || right[n])
      && Both(left, right)[..n] == Both(left[..n], right[..n])
      && Both(left, right)[n] == (left[n] && right[n])
  {
  }

  lemma {:induction false} NumberOr(left: Bits, right: Bits)
    requires |left| == |right|
    ensures Or(Number(left), Number(right)) == Number(Either(left, right))
  {
    hide Or, Digit, Number;
    if left == [] {
      NoBits();
      NothingSet();
    } else {
      var n := |left| - 1;
      NumberOr(left[..n], right[..n]);
      LastOfEach(left, right);
      LastBit(left);
      LastBit(right);
      LastBit(Either(left, right));
      OneMoreBit(Number(left[..n]), Number(right[..n]), left[n], right[n]);
    }
  }

  lemma {:induction false} NumberAnd(left: Bits, right: Bits)
    requires |left| == |right|
    ensures And(Number(left), Number(right)) == Number(Both(left, right))
  {
    hide And, Digit, Number;
    if left == [] {
      NoBits();
      NothingSet();
    } else {
      var n := |left| - 1;
      NumberAnd(left[..n], right[..n]);
      LastOfEach(left, right);
      LastBit(left);
      LastBit(right);
      LastBit(Both(left, right));
      OneMoreBit(Number(left[..n]), Number(right[..n]), left[n], right[n]);
    }
  }

  /** Merging two years of days through their numbers sets exactly the days set in either. */
  lemma MergeIsUnion(stored: Bits, days: Bits)
    requires |stored| == |days| == YEAR_BITS
    ensures BitsOf(Or(Number(stored), Number(days))) == Either(stored, days)
  {
    NumberOr(stored, days);
    ReadBack(Either(stored, days));
  }

  /** Ones from `keptFrom` on, zeros before. */
  function Mask(keptFrom: nat): Bits
    requires keptFrom <= YEAR_BITS
  {
    seq(keptFrom, _ => false) + seq(YEAR_BITS - keptFrom, _ => true)
  }

  function Suffix(days: Bits, keptFrom: nat): Bits {
    seq(|days|, i requires 0 <= i < |days| => days[i] && keptFrom <= i)
  }

  /** Masking through the numbers keeps exactly the days from `keptFrom` on; zero means none is left. */
  lemma MaskIsSuffix(days: Bits, keptFrom: nat)
    requires |days| == YEAR_BITS && keptFrom <= YEAR_BITS
    ensures And(Number(days), Number(Mask(keptFrom))) == 0 <==> true !in Suffix(days, keptFrom)
    ensures BitsOf(And(Number(days), Number(Mask(keptFrom)))) == Suffix(days, keptFrom)
  {
    BothMask(days, keptFrom);
    assert |Mask(keptFrom)| == YEAR_BITS && |Suffix(days, keptFrom)| == YEAR_BITS;
    hide Both, Mask, Suffix, And, Number, Digits, Justified;
    NumberAnd(days, Mask(keptFrom));
    ReadBack(Suffix(days, keptFrom));
    ZeroHasNoOnes(Suffix(days, keptFrom));
  }

  lemma BothMask(days: Bits, keptFrom: nat)
    requires |days| == YEAR_BITS && keptFrom <= YEAR_BITS
    ensures Both(days, Mask(keptFrom)) == Suffix(days, keptFrom)
  {
  }

  lemma {:induction false} ZeroHasNoOnes(bits: Bits)
    ensures Number(bits) == 0 <==> true !in bits
  {
    if bits != [] {
      ZeroHasNoOnes(bits[..|bits| - 1]);
      assert bits == bits[..|bits| - 1] + [bits[|bits| - 1]];
    }
  }

  // --- Set bits ---------------------------------------------------------------

  /** The indexes of the ones among the first `n` bits, ascending. */
  function Ones(bits: Bits, n: nat): seq<nat>
    requires n <= |bits|
  {
    if n == 0 then [] else Ones(bits, n - 1) + (if bits[n - 1] then [n - 1] else [])
  }

  lemma {:induction false} OnesAreTheSetBits(bits: Bits, n: nat)
    requires n <= |bits|
    ensures forall i :: i in Ones(bits, n) <==> 0 <= i < n && bits[i]
    ensures forall i, j :: 0 <= i < j < |Ones(bits, n)| ==> Ones(bits, n)[i] < Ones(bits, n)[j]
  {
    if n > 0 {
      OnesAreTheSetBits(bits, n - 1);
      var before := Ones(bits, n - 1);
      forall i | 0 <= i < |before| ensures before[i] < n - 1 {
        assert before[i] in before;
      }
    }
  }

  lemma {:induction false} NoOnes(bits: Bits, from: nat, to: nat)
    requires from <= to <= |bits|
    requires forall i | from <= i < to :: !bits[i]
    ensures Ones(bits, to) == Ones(bits, from)
  {
    if from < to {
      NoOnes(bits, from, to - 1);
    }
  }

  /** `bits.index('1', from)`. */
  method IndexOfOne(bits: Bits, from: nat) returns (found: Option<nat>)
    requires from <= |bits|
    ensures match found
      case Some(index) => from <= index < |bits| && bits[index] && Ones(bits, index) == Ones(bits, from)
      case None => Ones(bits, |bits|) == Ones(bits, from)
  {
    for index := from to |bits|
      invariant forall i | from <= i < index :: !bits[i]
    {
      if bits[index] {
        NoOnes(bits, from, index);
        return Some(index);
      }
    }
    NoOnes(bits, from, |bits|);
    return None;
  }

  method SetBits(bits: Bits) returns (indexes: seq<nat>)
    ensures indexes == Ones(bits, |bits|)
  {
    indexes := [];
    var index := IndexOfOne(bits, 0);
    while index.Some?
      invariant match index
        case Some(i) => i < |bits| && bits[i] && indexes == Ones(bits, i)
        case None => indexes == Ones(bits, |bits|)
      decreases match index case Some(i) => |bits| - i case None => 0
    {
      indexes := indexes + [index.value];
      index := IndexOfOne(bits, index.value + 1);
    }
  }
}
