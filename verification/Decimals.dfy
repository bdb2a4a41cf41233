/** Decimal notation. */
module Decimals {

  function Decimal(n: nat): string {
    if n < 10 then ['0' + n as char] else Decimal(n / 10) + ['0' + (n % 10) as char]
  }

  function Value(digits: string): nat {
    if digits == [] then 0
    else
      var last := digits[|digits| - 1];
      Value(digits[..|digits| - 1]) * 10 + if '0' <= last <= '9' then (last - '0') as nat else 0
  }

  lemma ValueSnoc(digits: string, d: nat)
    requires d < 10
    ensures Value(digits + ['0' + d as char]) == Value(digits) * 10 + d
  {
    assert (digits + ['0' + d as char])[..|digits|] == digits;
  }

  lemma {:induction false} DecimalValue(n: nat)
    ensures Value(Decimal(n)) == n
  {
    if n < 10 {
      ValueSnoc([], n);
      assert [] + ['0' + n as char] == Decimal(n);
    } else {
      DecimalValue(n / 10);
      ValueSnoc(Decimal(n / 10), n % 10);
    }
  }

  lemma {:induction false} DecimalDigits(n: nat)
    ensures Decimal(n) != [] && forall i :: 0 <= i < |Decimal(n)| ==> '0' <= Decimal(n)[i] <= '9'
  {
    if n >= 10 {
      DecimalDigits(n / 10);
    }
  }
}
