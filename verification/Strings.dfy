/** Text helpers shared by the other modules: decimal numbers as Go prints and
    parses them, and the separator lemmas that make composed keys injective. */
module Strings {

  datatype Option<+T> = None | Some(value: T)

  predicate IsDigit(c: char) {
    '0' <= c <= '9'
  }

  function Digit(d: nat): (c: char)
    requires d < 10
    ensures IsDigit(c)
  {
    '0' + d as char
  }

  function DigitValue(c: char): (d: nat)
    requires IsDigit(c)
    ensures d < 10
  {
    (c - '0') as int
  }

  /** The decimal text of n, as fmt.Sprintf("%d", n) prints it. */
  function Itoa(n: nat): (s: string)
    ensures |s| > 0
    ensures forall i :: 0 <= i < |s| ==> IsDigit(s[i])
  {
    if n < 10 then [Digit(n)] else Itoa(n / 10) + [Digit(n % 10)]
  }

  /** The value of a text made of digits only. */
  function DigitsValue(s: string): nat
    requires forall i :: 0 <= i < |s| ==> IsDigit(s[i])
  {
    if s == [] then 0 else 10 * DigitsValue(s[..|s| - 1]) + DigitValue(s[|s| - 1])
  }

  lemma {:induction false} DigitsValueOfItoa(n: nat)
    ensures DigitsValue(Itoa(n)) == n
  {
    if n >= 10 {
      DigitsValueOfItoa(n / 10);
      assert Itoa(n)[..|Itoa(n)| - 1] == Itoa(n / 10);
    }
  }

  /** No leading zero, so the text is the only one of its kind for its value. */
  lemma {:induction false} ItoaIsPlain(n: nat)
    requires n > 0
    ensures Itoa(n)[0] != '0'
  {
    if n >= 10 {
      ItoaIsPlain(n / 10);
    }
  }

  lemma ItoaInjective(a: nat, b: nat)
    requires Itoa(a) == Itoa(b)
    ensures a == b
  {
    DigitsValueOfItoa(a);
    DigitsValueOfItoa(b);
  }

  predicate AllDigits(s: string) {
    s != [] && forall i :: 0 <= i < |s| ==> IsDigit(s[i])
  }

  const INT64_MAX := 0x7FFF_FFFF_FFFF_FFFF

  /** strconv.Atoi: an optional sign, at least one digit, nothing else, and a
      value that fits a 64-bit int. */
  function Atoi(s: string): Option<int> {
    var negative := |s| > 0 && s[0] == '-';
    var digits := if |s| > 0 && (s[0] == '-' || s[0] == '+') then s[1..] else s;
    if !AllDigits(digits) then None
    else
      var n := DigitsValue(digits);
      var v := (if negative then -1 else 1) * n;
      if -INT64_MAX - 1 <= v <= INT64_MAX then Some(v) else None
  }

  /** Reading back what was printed, with any sign in front; an integer that does not fit is refused. */
  lemma AtoiOfItoa(n: nat)
    ensures Atoi(Itoa(n)) == Atoi("+" + Itoa(n)) == if n <= INT64_MAX then Some(n) else None
    ensures Atoi("-" + Itoa(n)) == if n <= INT64_MAX + 1 then Some(0 - n as int) else None
  {
    DigitsValueOfItoa(n);
    assert ("+" + Itoa(n))[1..] == ("-" + Itoa(n))[1..] == Itoa(n);
    assert IsDigit(Itoa(n)[0]);
  }

  /** Only digits after at most one sign are a number. */
  lemma AtoiReadsDigits(s: string)
    requires Atoi(s).Some?
    ensures AllDigits(s) || (s != [] && (s[0] == '-' || s[0] == '+') && AllDigits(s[1..]))
  {
  }

  /** One more digit is ten times the number and the digit. */
  lemma AtoiOneMore(s: string, d: nat)
    requires AllDigits(s) && d < 10 && Atoi(s).Some?
    ensures Atoi(s + [Digit(d)])
         == if 10 * Atoi(s).value + d <= INT64_MAX then Some(10 * Atoi(s).value + d) else None
  {
    var t := s + [Digit(d)];
    assert t[..|t| - 1] == s && DigitValue(Digit(d)) == d;
    assert IsDigit(s[0]) && t[0] == s[0];
  }

  /** A text cut at the first occurrence of a separator has one reading. */
  lemma SplitFirst(c: char, a: string, x: string, b: string, y: string)
    requires c !in a && c !in b
    requires a + [c] + x == b + [c] + y
    ensures a == b && x == y
  {
    var s, t := a + [c] + x, b + [c] + y;
    assert forall i :: 0 <= i < |a| ==> s[i] == a[i];
    assert forall i :: 0 <= i < |b| ==> t[i] == b[i];
    assert s[|a|] == c && t[|b|] == c;
    assert |a| == |b|;
    assert a == s[..|a|] && b == t[..|b|];
    assert x == s[|a| + 1..] && y == t[|b| + 1..];
  }

  /** A text cut at the last occurrence of a separator has one reading. */
  lemma SplitLast(c: char, a: string, x: string, b: string, y: string)
    requires c !in x && c !in y
    requires a + [c] + x == b + [c] + y
    ensures a == b && x == y
  {
    var s, t := a + [c] + x, b + [c] + y;
    assert forall i :: |a| < i < |s| ==> s[i] == x[i - |a| - 1];
    assert forall i :: |b| < i < |t| ==> t[i] == y[i - |b| - 1];
    assert s[|a|] == c && t[|b|] == c;
    assert |a| == |b|;
    assert a == s[..|a|] && b == t[..|b|];
    assert x == s[|a| + 1..] && y == t[|b| + 1..];
  }
}
