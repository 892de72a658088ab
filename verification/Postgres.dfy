/** What a UTF-8 Postgres database takes into the columns the gateway writes to. */
module Postgres {
  import opened GoStrings
  import Utf8

  const NUL: Byte := '\0'

  /** The range of an `integer` column. */
  const MAX_INT32: nat := 0x7FFF_FFFF

  /** A `text` value is well-formed UTF-8 and has no zero byte. */
  predicate TextFits(s: Bytes) {
    Utf8.Valid(s) && NUL !in s
  }

  predicate IntegerFits(n: int) {
    -(MAX_INT32 as int) - 1 <= n <= MAX_INT32
  }

  predicate IsAscii(s: Bytes) {
    forall i :: 0 <= i < |s| ==> 0 < s[i] as int < 0x80
  }

  lemma {:induction false} AsciiFits(s: Bytes)
    requires IsAscii(s)
    ensures TextFits(s)
    decreases |s|
  {
    if s != [] {
      AsciiFits(s[1..]);
    }
  }

  /** Dropping what belongs to no well-formed rune drops no zero byte. */
  lemma {:induction false} RepairKeepsZeroBytes(s: Bytes)
    ensures NUL in Utf8.ToValid(s) <==> NUL in s
    decreases |s|
  {
    if s != [] {
      var w := Utf8.RuneWidth(s);
      var n := if w == 0 then 1 else w;
      RepairKeepsZeroBytes(s[n..]);
      assert s == s[..n] + s[n..];
      assert w == 0 ==> s[0] != NUL;
    }
  }
}
