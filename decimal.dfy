/** `usize::to_string` for the Content-Length value, and the parser a client
    applies to read it back. */
module Decimal {
  import opened Wrappers

  predicate IsDigit(c: char) {
    '0' <= c <= '9'
  }

  predicate AllDigits(s: string) {
    forall i :: 0 <= i < |s| ==> IsDigit(s[i])
  }

  /** The text `to_string` produces: at least one digit, and no leading zero
      unless the number is zero. */
  predicate Canonical(s: string) {
    s != [] && AllDigits(s) && (s[0] == '0' ==> s == "0")
  }

  function DigitChar(d: nat): (c: char)
    requires d < 10
    ensures IsDigit(c) && (c as int) - ('0' as int) == d
  {
    ('0' as int + d) as char
  }

  function DigitValue(c: char): (d: nat)
    requires IsDigit(c)
    ensures d < 10 && DigitChar(d) == c
  {
    (c as int) - ('0' as int)
  }

  /** Decimal text of `n`, most significant digit first. */
  function ToDecimal(n: nat): (s: string)
    ensures Canonical(s)
  {
    if n < 10 then [DigitChar(n)] else ToDecimal(n / 10) + [DigitChar(n % 10)]
  }

  /** The number a string of digits denotes. */
  function Value(s: string): nat
    requires AllDigits(s)
  {
    if s == [] then 0 else Value(s[..|s| - 1]) * 10 + DigitValue(s[|s| - 1])
  }

  /** Reads a decimal number; `None` for empty text or a non-digit. */
  function ParseDecimal(s: string): Option<nat> {
    if s != [] && AllDigits(s) then Some(Value(s)) else None
  }

  /** Round trip: the Content-Length text reads back as the number written. */
  lemma {:induction false} ParseToDecimal(n: nat)
    ensures ParseDecimal(ToDecimal(n)) == Some(n)
  {
    var s := ToDecimal(n);
    if n < 10 {
      assert s[..|s| - 1] == [];
      assert Value([]) == 0;
      assert DigitValue(s[0]) == n;
      assert Value(s) == n;
    } else {
      ParseToDecimal(n / 10);
      assert s[..|s| - 1] == ToDecimal(n / 10);
      assert DigitValue(s[|s| - 1]) == n % 10;
    }
  }

  /** A digit string with a nonzero leading digit denotes a positive number. */
  lemma {:induction false} ValuePositive(s: string)
    requires s != [] && AllDigits(s) && s[0] != '0'
    ensures Value(s) > 0
  {
    if |s| > 1 {
      ValuePositive(s[..|s| - 1]);
    }
  }

  /** The other direction: canonical text is what `to_string` gives for its value. */
  lemma {:induction false} ToDecimalOfValue(s: string)
    requires Canonical(s)
    ensures ToDecimal(Value(s)) == s
  {
    if |s| > 1 {
      var p := s[..|s| - 1];
      ValuePositive(p);
      assert Canonical(p);
      ToDecimalOfValue(p);
      assert s == p + [s[|s| - 1]];
    }
  }
}
