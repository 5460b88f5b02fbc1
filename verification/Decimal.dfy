/** Decimal text: the digits of a number, and the number a digit string stands for. */
module Decimal {

  predicate IsDigit(c: char) { '0' <= c <= '9' }

  predicate AllDigits(s: string) {
    forall i | 0 <= i < |s| :: IsDigit(s[i])
  }

  function Digit(c: char): nat { if IsDigit(c) then c as int - '0' as int else 0 }

  function Power10(n: nat): nat { if n == 0 then 1 else 10 * Power10(n - 1) }

  /** The number a digit string stands for, by place value. */
  function Number(s: string): nat {
    if s == [] then 0 else Digit(s[0]) * Power10(|s| - 1) + Number(s[1..])
  }

  function Text(n: nat): (s: string)
    ensures s != [] && AllDigits(s)
  {
    if n < 10 then ['0' + n as char] else Text(n / 10) + ['0' + (n % 10) as char]
  }

  lemma Shift(d: nat, p: nat, m: nat, c: nat)
    ensures (d * p + m) * 10 + c == d * (10 * p) + (m * 10 + c)
  {
  }

  lemma {:induction false} NumberAppend(s: string, c: char)
    ensures Number(s + [c]) == Number(s) * 10 + Digit(c)
  {
    if s == [] {
      assert [] + [c] == [c] && [c][1..] == [];
    } else {
      assert (s + [c])[1..] == s[1..] + [c];
      NumberAppend(s[1..], c);
      Shift(Digit(s[0]), Power10(|s| - 1), Number(s[1..]), Digit(c));
    }
  }

  /** A number's text reads back as the number. */
  lemma {:induction false} TextReads(n: nat)
    ensures Number(Text(n)) == n
    decreases n
  {
    if n < 10 {
      NumberAppend([], '0' + n as char);
      assert [] + ['0' + n as char] == ['0' + n as char];
    } else {
      TextReads(n / 10);
      NumberAppend(Text(n / 10), '0' + (n % 10) as char);
    }
  }

  /** The leading digit decides, and then the rest. */
  lemma PlaceValue(x: nat, y: nat, p: nat, m: nat, n: nat)
    requires m < p && n < p
    ensures x * p + m < y * p + n <==> x < y || (x == y && m < n)
    ensures x * p + m == y * p + n <==> x == y && m == n
  {
    if x < y { Below(x, y, p); }
    if y < x { Below(y, x, p); }
  }

  lemma Below(x: nat, y: nat, p: nat)
    requires x < y
    ensures x * p + p <= y * p
  {
    var gap := y - x - 1;
    assert y * p == (x + 1 + gap) * p == x * p + p + gap * p;
  }

  lemma {:induction false} NoLeadingZero(n: nat)
    ensures Text(n) == "0" || Text(n)[0] != '0'
    ensures Text(n) == "0" ==> n == 0
    decreases n
  {
    if n >= 10 { NoLeadingZero(n / 10); }
  }

  /** Digits without a leading zero are the text of their number. */
  lemma {:induction false} TextOfNumber(s: string)
    requires s != [] && AllDigits(s) && (s == "0" || s[0] != '0')
    ensures Text(Number(s)) == s && (s != "0" ==> Number(s) > 0)
    decreases |s|
  {
    var n := |s| - 1;
    var front, c := s[..n], s[n];
    assert s == front + [c];
    NumberAppend(front, c);
    if n > 0 {
      TextOfNumber(front);
      TextGrows(Number(front), c);
    } else {
      assert front == [] && s == [c];
    }
  }

  lemma TextGrows(n: nat, c: char)
    requires n > 0 && IsDigit(c)
    ensures Text(n * 10 + Digit(c)) == Text(n) + [c]
  {
    assert (n * 10 + Digit(c)) / 10 == n;
  }

  lemma AtMostNine(d: nat, p: nat)
    requires d <= 9
    ensures d * p <= 9 * p
  {
  }

  lemma {:induction false} NumberBound(s: string)
    ensures Number(s) < Power10(|s|)
  {
    if s != [] {
      NumberBound(s[1..]);
      AtMostNine(Digit(s[0]), Power10(|s| - 1));
    }
  }
}
