/** Decimal numerals and runs of digits. */
module Decimals {
  predicate IsDigit(c: char) {
    '0' <= c <= '9'
  }

  predicate AllDigits(s: string) {
    forall i :: 0 <= i < |s| ==> IsDigit(s[i])
  }

  function Digit(d: nat): (c: char)
    requires d < 10
    ensures IsDigit(c) && c as int - '0' as int == d
  {
    ('0' as int + d) as char
  }

  /** The numeral printed for `n`. */
  function Dec(n: nat): (s: string)
    ensures s != [] && AllDigits(s)
  {
    if n < 10 then [Digit(n)] else Dec(n / 10) + [Digit(n % 10)]
  }

  /** The number a run of digits denotes. */
  function Value(s: string): nat
    requires AllDigits(s)
  {
    if s == [] then 0 else 10 * Value(s[..|s| - 1]) + (s[|s| - 1] as int - '0' as int)
  }

  /** Written without superfluous zeros. */
  predicate Canonical(s: string) {
    s != [] && AllDigits(s) && s[0] != '0'
  }

  lemma {:induction false} ValueOfDec(n: nat)
    ensures Value(Dec(n)) == n
    ensures n > 0 ==> Canonical(Dec(n))
  {
    if n >= 10 {
      ValueOfDec(n / 10);
      assert Dec(n)[..|Dec(n)| - 1] == Dec(n / 10);
      assert Dec(n)[0] == Dec(n / 10)[0];
    }
  }

  lemma {:induction false} DecOfValue(s: string)
    requires Canonical(s)
    ensures Value(s) > 0 && Dec(Value(s)) == s
  {
    var front, last := s[..|s| - 1], s[|s| - 1] as int - '0' as int;
    assert s == front + [s[|s| - 1]];
    assert Digit(last) == s[|s| - 1];
    if front == [] {
      assert Value(front) == 0;
    } else {
      DecOfValue(front);
      assert Value(s) / 10 == Value(front) && Value(s) % 10 == last;
    }
  }

  lemma {:induction false} PrefixValue(p: string, s: string)
    requires Canonical(s) && p <= s && p != []
    ensures AllDigits(p) && (if p == s then Value(p) == Value(s) else Value(p) < Value(s))
    decreases |s|
  {
    assert forall i :: 0 <= i < |p| ==> p[i] == s[i];
    if p != s {
      var front := s[..|s| - 1];
      assert p <= front && Canonical(front);
      PrefixValue(p, front);
      DecOfValue(front);
    }
  }

  /** The digits a text begins with. */
  function Run(s: string): (r: string)
    ensures r <= s && AllDigits(r)
    ensures |r| < |s| ==> !IsDigit(s[|r|])
  {
    if s == [] || !IsDigit(s[0]) then []
    else
      var r := Run(s[1..]);
      assert s == [s[0]] + s[1..];
      [s[0]] + r
  }

  lemma DigitsWithinRun(d: string, s: string)
    requires AllDigits(d)
    ensures d <= s <==> d <= Run(s)
  {
    if d <= s {
      assert forall i :: 0 <= i < |d| ==> d[i] == s[i] && IsDigit(s[i]);
    }
  }
}
