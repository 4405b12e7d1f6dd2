// Decimal notation of natural numbers, without leading zeros.
module Decimal {
  import opened CodeUnits

  predicate AllDigits(t: Text) {
    forall c | c in t :: IsDigit(c)
  }

  // The number a digit string denotes.
  function Value(t: Text): nat
    requires AllDigits(t)
  {
    if t == [] then 0 else assert IsDigit(t[|t| - 1]); Value(t[..|t| - 1]) * 10 + t[|t| - 1] as nat - 48
  }

  // How a template literal prints a natural number.
  function Digits(n: nat): (t: Text)
    ensures t != [] && AllDigits(t) && Value(t) == n
    ensures t[0] == DIGIT_0 ==> n == 0
  {
    if n < 10 then
      var t := [DIGIT_0 + n as CodeUnit];
      assert t[..0] == [];
      t
    else
      var front := Digits(n / 10);
      var t := front + [DIGIT_0 + (n % 10) as CodeUnit];
      assert t[..|t| - 1] == front;
      t
  }
}
