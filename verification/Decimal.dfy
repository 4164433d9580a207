/** `std::to_string`, and reading a decimal number back. */
module Decimal {

  predicate IsDigit(c: char) { '0' <= c <= '9' }

  function Digit(d: nat): (c: char)
    requires d < 10
    ensures IsDigit(c) && c as int - '0' as int == d
  {
    ('0' as int + d) as char
  }

  function Digits(n: nat): (s: string)
    ensures s != "" && forall i :: 0 <= i < |s| ==> IsDigit(s[i])
  {
    if n < 10 then [Digit(n)] else Digits(n / 10) + [Digit(n % 10)]
  }

  function ToString(n: int): string {
    if n < 0 then "-" + Digits(-n) else Digits(n)
  }

  /** The number that a string of digits reads as. */
  function Value(s: string): nat
    requires forall i :: 0 <= i < |s| ==> IsDigit(s[i])
  {
    if s == "" then 0
    else
      assert IsDigit(s[|s| - 1]);
      10 * Value(s[..|s| - 1]) + (s[|s| - 1] as int - '0' as int)
  }

  lemma {:induction false} ValueOfDigits(n: nat)
    ensures Value(Digits(n)) == n
  {
    if n >= 10 {
      ValueOfDigits(n / 10);
      var s := Digits(n);
      assert s[..|s| - 1] == Digits(n / 10);
    } else {
      assert [Digit(n)][..0] == "";
    }
  }

  /** A printed number followed by a dash can be read back, sign included. */
  lemma PrefixFree(a: int, b: int, x: string, y: string)
    requires ToString(a) + "-" + x == ToString(b) + "-" + y
    ensures a == b && x == y
  {
    hide Digits;
    SignsAgree(a, b, x, y);
    var n, m := if a < 0 then -a else a, if b < 0 then -b else b;
    if a < 0 {
      DropSign(Digits(n), x);
      DropSign(Digits(m), y);
    }
    NoDash(n);
    NoDash(m);
    SplitAt(Digits(n), Digits(m), '-', x, y);
    ValueOfDigits(n);
    ValueOfDigits(m);
  }

  lemma NoDash(n: nat)
    ensures '-' !in Digits(n)
  {
    hide Digits;
  }

  lemma SignsAgree(a: int, b: int, x: string, y: string)
    requires ToString(a) + "-" + x == ToString(b) + "-" + y
    ensures a < 0 <==> b < 0
  {
    hide Digits;
    var s, t := ToString(a) + "-" + x, ToString(b) + "-" + y;
    assert s[0] == ToString(a)[0] && t[0] == ToString(b)[0];
  }

  lemma DropSign(d: string, x: string)
    ensures (("-" + d) + "-" + x)[1..] == d + "-" + x
  {}

  /** The part before the first separator is determined. */
  lemma SplitAt(a: string, b: string, sep: char, x: string, y: string)
    requires a + [sep] + x == b + [sep] + y
    requires sep !in a && sep !in b
    ensures a == b && x == y
  {
    var s, t := a + [sep] + x, b + [sep] + y;
    assert s[|a|] == sep && t[|b|] == sep;
    assert forall i :: 0 <= i < |a| ==> s[i] == a[i] && s[i] in a;
    assert forall i :: 0 <= i < |b| ==> t[i] == b[i] && t[i] in b;
    assert |a| == |b|;
    assert a == s[..|a|] && b == t[..|b|];
    assert x == s[|a| + 1..] && y == t[|b| + 1..];
  }
}
