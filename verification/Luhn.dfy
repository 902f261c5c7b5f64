/** The Luhn checksum that gates credit-card redaction (annex B of ISO/IEC 7812-1).

    A number is the sequence of its digits, most significant first, after separators are dropped. */
module Luhn {
  newtype digit = d: int | 0 <= d < 10

  type Number = seq<digit>

  /** What a digit adds to the checksum at a distance of `index` from the right end. */
  function Weight(index: nat, d: digit): int {
    if index % 2 == 1 then Doubled(d) else d as int
  }

  function Doubled(d: digit): int {
    var doubled := 2 * (d as int);
    if doubled > 9 then doubled - 9 else doubled
  }

  /** The checksum as a sum over the positions from `from` on. */
  function SumFrom(n: Number, from: nat): int
    requires from <= |n|
    decreases |n| - from
  {
    if from == |n| then 0 else Weight(|n| - 1 - from, n[from]) + SumFrom(n, from + 1)
  }

  predicate Valid(n: Number) {
    13 <= |n| <= 19 && SumFrom(n, 0) % 10 == 0
  }

  /** The loop over the reversed digits. */
  method IsValidCreditCard(digits: Number) returns (valid: bool)
    ensures valid <==> Valid(digits)
    ensures valid ==> 13 <= |digits| <= 19
  {
    if |digits| < 13 || |digits| > 19 {
      return false;
    }
    var checksum := 0;
    for index := 0 to |digits|
      invariant checksum == SumFrom(digits, |digits| - index)
    {
      var d := digits[|digits| - 1 - index] as int;
      if index % 2 == 1 {
        d := d * 2;
        if d > 9 {
          d := d - 9;
        }
      }
      checksum := checksum + d;
    }
    valid := checksum % 10 == 0;
  }

  // ----- What the checksum detects ------------------------------------------------------------------

  /** Changing one digit changes the sum by the difference of its two weights. */
  lemma {:induction false} SumAfterChange(n: Number, i: nat, d: digit, from: nat)
    requires i < |n| && from <= |n|
    ensures SumFrom(n[i := d], from)
         == SumFrom(n, from) + if from <= i then Weight(|n| - 1 - i, d) - Weight(|n| - 1 - i, n[i]) else 0
    decreases |n| - from
  {
    if from < |n| {
      SumAfterChange(n, i, d, from + 1);
    }
  }

  /** No two digits weigh the same at the same place, not even modulo ten. */
  lemma WeightsDiffer(index: nat, a: digit, b: digit)
    ensures Weight(index, a) % 10 == Weight(index, b) % 10 ==> a == b
    ensures 0 <= Weight(index, a) <= 9
  {
  }

  /** A sum that is a multiple of ten stays one exactly when what is added and what is taken away
      agree modulo ten. */
  lemma StaysMultiple(sum: int, added: int, taken: int)
    requires sum % 10 == 0
    ensures (sum + added - taken) % 10 == 0 <==> added % 10 == taken % 10
  {
    assert (sum + added - taken) % 10 == (added - taken) % 10;
  }

  /** Every change of a single digit of a valid number is rejected. */
  lemma SingleChangeIsRejected(n: Number, i: nat, d: digit)
    requires Valid(n) && i < |n| && d != n[i]
    ensures !Valid(n[i := d])
  {
    hide Weight, SumFrom;
    var index := |n| - 1 - i;
    SumAfterChange(n, i, d, 0);
    WeightsDiffer(index, d, n[i]);
    StaysMultiple(SumFrom(n, 0), Weight(index, d), Weight(index, n[i]));
  }

  /** Two neighbouring digits weigh the same in either order, modulo ten, only when they are equal
      or 0 and 9. */
  lemma SwappedWeights(index: nat, a: digit, b: digit)
    ensures (Weight(index + 1, b) + Weight(index, a)) % 10 == (Weight(index + 1, a) + Weight(index, b)) % 10
            <==> SwapIsInvisible(a, b)
  {
    hide Doubled, SwapIsInvisible;
    DoubledSwap(a, b);
    assert (index + 1) % 2 == 1 <==> index % 2 == 0;
  }

  /** Doubling shifts each digit by a different amount, save that 0 and 9 are both left alone. */
  lemma DoubledSwap(a: digit, b: digit)
    ensures (Doubled(b) + a as int) % 10 == (Doubled(a) + b as int) % 10 <==> SwapIsInvisible(a, b)
  {
    var gap := (Doubled(b) - b as int) - (Doubled(a) - a as int);
    assert -8 <= gap <= 8;
    assert Doubled(b) + a as int == Doubled(a) + b as int + gap;
  }

  predicate SwapIsInvisible(a: digit, b: digit) {
    a == b || (a == 0 && b == 9) || (a == 9 && b == 0)
  }

  function Swap(n: Number, i: nat): Number
    requires i + 1 < |n|
  {
    n[i := n[i + 1]][i + 1 := n[i]]
  }

  lemma SumAfterSwap(n: Number, i: nat)
    requires i + 1 < |n|
    ensures var index := |n| - 2 - i;
            SumFrom(Swap(n, i), 0) == SumFrom(n, 0) + (Weight(index + 1, n[i + 1]) + Weight(index, n[i]))
                                      - (Weight(index + 1, n[i]) + Weight(index, n[i + 1]))
  {
    hide Weight, SumFrom;
    var once := n[i := n[i + 1]];
    SumAfterChange(n, i, n[i + 1], 0);
    SumAfterChange(once, i + 1, n[i], 0);
    assert |once| - 1 - (i + 1) == |n| - 2 - i && |n| - 1 - i == |n| - 2 - i + 1;
  }

  /** Swapping two adjacent digits of a valid number goes unnoticed exactly when they are equal or
      0 and 9. */
  lemma SwapIsRejectedIff(n: Number, i: nat)
    requires Valid(n) && i + 1 < |n|
    ensures Valid(Swap(n, i)) <==> SwapIsInvisible(n[i], n[i + 1])
  {
    hide Weight, SumFrom, SwapIsInvisible;
    var index, a, b := |n| - 2 - i, n[i], n[i + 1];
    SumAfterSwap(n, i);
    SwappedWeights(index, a, b);
    StaysMultiple(SumFrom(n, 0), Weight(index + 1, b) + Weight(index, a), Weight(index + 1, a) + Weight(index, b));
  }

  /** The digit that completes a prefix. */
  function CheckDigit(prefix: Number): digit {
    var rest := SumFrom(prefix + [0], 0) % 10;
    ((10 - rest) % 10) as digit
  }

  /** Every prefix of legal length has exactly one valid check digit. */
  lemma UniqueCheckDigit(prefix: Number, d: digit)
    requires 12 <= |prefix| <= 18
    ensures Valid(prefix + [d]) <==> d == CheckDigit(prefix)
  {
    var zero := prefix + [0 as digit];
    assert zero[|prefix| := d] == prefix + [d];
    SumAfterChange(zero, |prefix|, d, 0);
  }

  // ----- Which digits are doubled ----------------------------------------------------------------------

  /** Two more digits on the right leave the parity of all others alone.  Of the two, the right one counts
      as it is; the left one counts twice, and nine less where that takes two digits. */
  lemma {:induction false} PairOnTheRight(n: Number, a: digit, b: digit, from: nat)
    requires from <= |n|
    ensures SumFrom(n + [a, b], from)
         == SumFrom(n, from) + (if a < 5 then 2 * (a as int) else 2 * (a as int) - 9) + b as int
    decreases |n| - from
  {
    var longer := n + [a, b];
    if from == |n| {
      assert longer[from] == a && longer[from + 1] == b;
      assert SumFrom(longer, from) == Weight(1, a) + (Weight(0, b) + SumFrom(longer, from + 2));
    } else {
      PairOnTheRight(n, a, b, from + 1);
      assert (|longer| - 1 - from) % 2 == (|n| - 1 - from) % 2;
    }
  }

  /** With the sums of one digit and of none, that fixes the checksum of every number. */
  lemma ShortSums(d: digit)
    ensures SumFrom([], 0) == 0 && SumFrom([d], 0) == d as int
  {
    assert SumFrom([d], 1) == 0;
  }
}
