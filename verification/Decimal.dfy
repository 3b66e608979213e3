// The registration epoch is stored as text.  `Parse` is the store's parser and
// `Text` the formatter that writes the column.
module Decimal {
  import opened Prelude

  function Digit(d: nat): char
    requires d < 10
  {
    ('0' as int + d) as char
  }

  function DigitValue(c: char): nat
    requires IsDigit(c)
  {
    c as int - '0' as int
  }

  predicate AllDigits(s: string) {
    forall i :: 0 <= i < |s| ==> IsDigit(s[i])
  }

  /** `u64::to_string`. */
  function Text(n: nat): string {
    if n < 10 then [Digit(n)] else Text(n / 10) + [Digit(n % 10)]
  }

  function Value(s: string): nat
    requires AllDigits(s)
  {
    if s == "" then 0
    else 10 * Value(s[..|s| - 1]) + DigitValue(s[|s| - 1])
  }

  function Parse(s: string): Option<U64> {
    if s == "" || !AllDigits(s) || (|s| > 1 && s[0] == '0') then None
    else if Value(s) > MAX_U64 then None
    else Some(Value(s))
  }

  lemma {:induction false} TextIsCanonical(n: nat)
    ensures Text(n) != "" && AllDigits(Text(n))
    ensures Text(n)[0] == '0' <==> n == 0
    ensures |Text(n)| > 1 ==> Text(n)[0] != '0'
    ensures Value(Text(n)) == n
  {
    if n < 10 {
      assert Text(n)[..0] == "";
    } else {
      TextIsCanonical(n / 10);
      assert Text(n)[..|Text(n)| - 1] == Text(n / 10);
    }
  }

  lemma {:induction false} CanonicalIsText(s: string)
    requires s != "" && AllDigits(s)
    requires |s| > 1 ==> s[0] != '0'
    ensures Text(Value(s)) == s
    ensures |s| > 1 ==> Value(s) >= 10
  {
    var init, last := s[..|s| - 1], s[|s| - 1];
    assert s == init + [last];
    if |s| == 1 {
      assert init == "" && Value(s) == DigitValue(last);
    } else {
      CanonicalIsText(init);
      assert Value(init) >= 1 by {
        if |init| == 1 { assert init[..0] == ""; }
      }
      assert Value(s) == 10 * Value(init) + DigitValue(last);
    }
  }

  /** The parser accepts exactly the canonical decimal of each u64, and nothing else. */
  lemma ParseAcceptsExactlyCanonical(s: string, n: U64)
    ensures Parse(s) == Some(n) <==> s == Text(n)
  {
    TextIsCanonical(n);
    if Parse(s) == Some(n) {
      CanonicalIsText(s);
    }
  }
}
