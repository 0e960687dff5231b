/** Decimal numerals, as strconv.Itoa and the %d verb write them. */
module Decimals {

  function Decimal(n: nat): (digits: string)
    ensures digits != []
  {
    (if n < 10 then [] else Decimal(n / 10)) + ['0' + (n % 10) as char]
  }

  function Value(digits: string): int {
    if digits == [] then 0 else 10 * Value(digits[..|digits| - 1]) + (digits[|digits| - 1] as int - '0' as int)
  }

  lemma {:induction false} ValueOfDecimal(n: nat)
    ensures Value(Decimal(n)) == n
  {
    var digits := Decimal(n);
    var last := '0' + (n % 10) as char;
    assert digits[|digits| - 1] == last;
    if n < 10 {
      assert digits[..|digits| - 1] == [];
    } else {
      assert digits[..|digits| - 1] == Decimal(n / 10);
      ValueOfDecimal(n / 10);
    }
  }

  lemma {:induction false} DecimalDigits(n: nat)
    ensures forall i :: 0 <= i < |Decimal(n)| ==> '0' <= Decimal(n)[i] <= '9'
  {
    if n >= 10 {
      DecimalDigits(n / 10);
    }
  }
}
