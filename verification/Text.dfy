/** Decimal numerals and the byte order of text keys. */
module Text {

  function Digit(d: nat): (c: char)
    requires d < 10
    ensures IsDigit(c) && (c as int) - ('0' as int) == d
  {
    ('0' as int + d) as char
  }

  predicate IsDigit(c: char) {
    '0' <= c <= '9'
  }

  /** The numeral `std::to_string` prints for a number that is not negative. */
  function Decimal(n: nat): (s: string)
    ensures |s| > 0
    ensures forall i :: 0 <= i < |s| ==> IsDigit(s[i])
  {
    if n < 10 then [Digit(n)] else Decimal(n / 10) + [Digit(n % 10)]
  }

  lemma {:induction false} DecimalIsInjective(a: nat, b: nat)
    requires Decimal(a) == Decimal(b)
    ensures a == b
  {
    var s := Decimal(a);
    assert s[|s| - 1] == Digit(a % 10) && s[|s| - 1] == Digit(b % 10);
    if |s| > 1 {
      assert s[..|s| - 1] == Decimal(a / 10) && s[..|s| - 1] == Decimal(b / 10);
      DecimalIsInjective(a / 10, b / 10);
    }
  }

  /** A numeral before a mark that is no digit can be read off the front. */
  lemma NumeralPrefix(a: nat, b: nat, mark: char, x: string, y: string)
    requires !IsDigit(mark)
    requires Decimal(a) + [mark] + x == Decimal(b) + [mark] + y
    ensures a == b && x == y
  {
    var s := Decimal(a) + [mark] + x;
    var t := Decimal(b) + [mark] + y;
    var m, n := |Decimal(a)|, |Decimal(b)|;
    assert s[m] == mark && t[n] == mark;
    assert forall i :: 0 <= i < m ==> s[i] == Decimal(a)[i];
    assert forall i :: 0 <= i < n ==> t[i] == Decimal(b)[i];
    assert m == n;
    assert Decimal(a) == s[..m] && Decimal(b) == t[..n];
    DecimalIsInjective(a, b);
    assert x == s[m + 1..] && y == t[n + 1..];
  }

  /** A numeral after such a mark can be read off the back. */
  lemma NumeralSuffix(a: nat, b: nat, mark: char, x: string, y: string)
    requires !IsDigit(mark)
    requires x + [mark] + Decimal(a) == y + [mark] + Decimal(b)
    ensures a == b && x == y
  {
    var s := x + [mark] + Decimal(a);
    var t := y + [mark] + Decimal(b);
    assert s[|x|] == mark && t[|y|] == mark;
    assert forall i :: |x| < i < |s| ==> s[i] == Decimal(a)[i - |x| - 1];
    assert forall i :: |y| < i < |t| ==> t[i] == Decimal(b)[i - |y| - 1];
    assert |x| == |y|;
    assert Decimal(a) == s[|x| + 1..] && Decimal(b) == t[|y| + 1..];
    DecimalIsInjective(a, b);
    assert x == s[..|x|] && y == t[..|y|];
  }

  /** The binary collation in which the database orders text. */
  predicate Before(a: string, b: string) {
    b != "" && (a == "" || a[0] < b[0] || (a[0] == b[0] && Before(a[1..], b[1..])))
  }

  lemma {:induction false} BeforeIsTotal(a: string, b: string)
    ensures Before(a, b) || Before(b, a) || a == b
    ensures !(Before(a, b) && Before(b, a))
    ensures !Before(a, a)
  {
    if a != "" && b != "" && a[0] == b[0] {
      BeforeIsTotal(a[1..], b[1..]);
      assert a == [a[0]] + a[1..] && b == [b[0]] + b[1..];
    }
    if a != "" { BeforeIsTotal(a[1..], a[1..]); }
  }

  lemma {:induction false} BeforeIsTransitive(a: string, b: string, c: string)
    requires Before(a, b) && Before(b, c)
    ensures Before(a, c)
  {
    if a != "" && a[0] == b[0] == c[0] {
      BeforeIsTransitive(a[1..], b[1..], c[1..]);
    }
  }
}
