/** Decimal rendering of naturals (`strconv.Itoa`), and reading it back. */
module Decimal {
  import opened Wrappers
  import opened GoStrings

  predicate IsDigit(c: Byte) {
    '0' <= c <= '9'
  }

  predicate AllDigits(s: Bytes) {
    forall i :: 0 <= i < |s| ==> IsDigit(s[i])
  }

  function Itoa(n: nat): (s: Bytes)
    ensures s != [] && AllDigits(s)
  {
    var last: Byte := (n % 10 + '0' as int) as char;
    if n < 10 then [last] else Itoa(n / 10) + [last]
  }

  /** The number a non-empty run of digits denotes. */
  function Value(s: Bytes): nat
    requires AllDigits(s)
  {
    if s == [] then 0 else 10 * Value(s[..|s| - 1]) + (s[|s| - 1] as int - '0' as int)
  }

  function Atoi(s: Bytes): Option<nat> {
    if s != [] && AllDigits(s) then Some(Value(s)) else None
  }

  lemma {:induction false} AtoiInvertsItoa(n: nat)
    ensures Atoi(Itoa(n)) == Some(n)
  {
    var s := Itoa(n);
    assert s[|s| - 1] as int - '0' as int == n % 10;
    if n < 10 {
      assert Value(s[..0]) == 0;
    } else {
      AtoiInvertsItoa(n / 10);
      assert s[..|s| - 1] == Itoa(n / 10);
    }
  }

  lemma ItoaInjective(m: nat, n: nat)
    requires Itoa(m) == Itoa(n)
    ensures m == n
  {
    AtoiInvertsItoa(m);
    AtoiInvertsItoa(n);
  }
}
