/** String helpers shared by the URL builder and the navbar. */
module Strings {

  /** `parts.join(sep)` for a one-character separator. */
  function Join(parts: seq<string>, sep: char): string
    decreases |parts|
  {
    if parts == [] then []
    else if |parts| == 1 then parts[0]
    else parts[0] + [sep] + Join(parts[1..], sep)
  }

  /** `s.split(sep)` for a one-character separator: never empty, no piece holds
      the separator, and joining the pieces back gives `s`. */
  function Split(s: string, sep: char): (parts: seq<string>)
    ensures |parts| >= 1
    ensures forall i :: 0 <= i < |parts| ==> sep !in parts[i]
    ensures Join(parts, sep) == s
    decreases |s|
  {
    if s == [] then [[]]
    else
      var rest := Split(s[1..], sep);
      if s[0] == sep then
        assert [sep] + Join(rest, sep) == s;
        [[]] + rest
      else
        var parts := [[s[0]] + rest[0]] + rest[1..];
        assert parts[1..] == rest[1..];
        assert Join(parts, sep) == s by {
          if |rest| > 1 {
            assert Join(rest, sep) == rest[0] + [sep] + Join(rest[1..], sep);
          }
        }
        parts
  }

  lemma {:induction false} SplitNoSeparator(s: string, sep: char)
    requires sep !in s
    ensures Split(s, sep) == [s]
    decreases |s|
  {
    if s != [] {
      SplitNoSeparator(s[1..], sep);
    }
  }

  lemma {:induction false} SplitAtSeparator(a: string, b: string, sep: char)
    requires sep !in a
    ensures Split(a + [sep] + b, sep) == [a] + Split(b, sep)
    decreases |a|
  {
    if a != [] {
      var s := a + [sep] + b;
      assert s[0] == a[0] && s[1..] == a[1..] + [sep] + b;
      SplitAtSeparator(a[1..], b, sep);
      var rest := Split(s[1..], sep);
      assert rest[0] == a[1..] && rest[1..] == Split(b, sep);
      assert [s[0]] + rest[0] == a;
    } else {
      assert a + [sep] + b == [sep] + b;
      assert ([sep] + b)[1..] == b;
    }
  }

  /** Splitting undoes joining when no piece holds the separator. */
  lemma {:induction false} SplitJoin(parts: seq<string>, sep: char)
    requires |parts| >= 1
    requires forall i :: 0 <= i < |parts| ==> sep !in parts[i]
    ensures Split(Join(parts, sep), sep) == parts
    decreases |parts|
  {
    if |parts| == 1 {
      SplitNoSeparator(parts[0], sep);
    } else {
      SplitJoin(parts[1..], sep);
      SplitAtSeparator(parts[0], Join(parts[1..], sep), sep);
      assert [parts[0]] + parts[1..] == parts;
    }
  }

  /** `toUpperCase` on ASCII letters; every other character is kept. */
  function UpperChar(c: char): char {
    if 'a' <= c <= 'z' then (c as int - 32) as char else c
  }

  /** Upper-casing leaves no lower-case ASCII letter: each one becomes the same
      letter in upper case, and every other character is kept. */
  function Upper(s: string): (r: string)
    ensures |r| == |s|
    ensures forall i :: 0 <= i < |r| ==> !('a' <= r[i] <= 'z')
    ensures forall i :: 0 <= i < |s| && 'a' <= s[i] <= 'z' ==>
      'A' <= r[i] <= 'Z' && r[i] as int - 'A' as int == s[i] as int - 'a' as int
    ensures forall i :: 0 <= i < |s| && !('a' <= s[i] <= 'z') ==> r[i] == s[i]
  {
    seq(|s|, i requires 0 <= i < |s| => UpperChar(s[i]))
  }

  /** Upper-casing twice is upper-casing once. */
  lemma UpperIdempotent(s: string)
    ensures Upper(Upper(s)) == Upper(s)
  {
  }

  predicate IsDigit(c: char) {
    '0' <= c <= '9'
  }

  function Digit(d: nat): (c: char)
    requires d < 10
    ensures IsDigit(c)
  {
    ('0' as int + d) as char
  }

  function DigitValue(c: char): int {
    c as int - '0' as int
  }

  /** Decimal notation of a natural number, without leading zeros. */
  function NatText(n: nat): string
  {
    if n < 10 then [Digit(n)] else NatText(n / 10) + [Digit(n % 10)]
  }

  /** The number a string of decimal digits denotes. */
  function DigitsValue(s: string): int
  {
    if s == [] then 0 else DigitsValue(s[..|s| - 1]) * 10 + DigitValue(s[|s| - 1])
  }

  /** The notation of `n` is a non-empty string of digits denoting `n`. */
  lemma {:induction false} NatTextDigits(n: nat)
    ensures |NatText(n)| >= 1
    ensures forall i :: 0 <= i < |NatText(n)| ==> IsDigit(NatText(n)[i])
    ensures DigitsValue(NatText(n)) == n
  {
    if n >= 10 {
      NatTextDigits(n / 10);
      var t := NatText(n);
      assert t[..|t| - 1] == NatText(n / 10);
    }
  }

  /** `Number.prototype.toString` of `cents / 100` for an amount held in integer
      cents: trailing zeros of the fraction are dropped, as JavaScript does. */
  function AmountText(cents: int): string
  {
    if cents < 0 then "-" + UnsignedText(-cents) else UnsignedText(cents)
  }

  /** The amount without its sign: whole units, then the fraction part. */
  function UnsignedText(a: nat): string {
    NatText(a / 100) + FractionText(a % 100)
  }

  /** The fraction part: nothing for whole amounts, else the point and one or
      two digits. */
  function FractionText(frac: nat): string
    requires frac < 100
  {
    if frac == 0 then ""
    else if frac % 10 == 0 then "." + [Digit(frac / 10)]
    else "." + [Digit(frac / 10), Digit(frac % 10)]
  }

  /** How a reader of the text gets the amount back: an optional minus sign,
      then the unsigned amount. */
  function AmountValue(s: string): int
  {
    if |s| > 0 && s[0] == '-' then -UnsignedValue(s[1..]) else UnsignedValue(s)
  }

  /** The whole units before the point and a fraction of one digit (tenths)
      or two (hundredths) after it, in cents. */
  function UnsignedValue(s: string): int
  {
    var parts := Split(s, '.');
    var frac := if |parts| == 1 then 0
                else if |parts[1]| == 1 then DigitsValue(parts[1]) * 10
                else DigitsValue(parts[1]);
    DigitsValue(parts[0]) * 100 + frac
  }

  /** Splitting at the point separates the whole units from the fraction
      digits. */
  lemma FractionSplit(t: string, frac: nat)
    requires frac < 100 && '.' !in t
    ensures frac == 0 ==> Split(t + FractionText(frac), '.') == [t]
    ensures frac != 0 ==> Split(t + FractionText(frac), '.') == [t, FractionText(frac)[1..]]
  {
    if frac == 0 {
      assert t + FractionText(frac) == t;
      SplitNoSeparator(t, '.');
    } else {
      var tail := FractionText(frac)[1..];
      assert t + FractionText(frac) == t + ['.'] + tail;
      SplitAtSeparator(t, tail, '.');
      SplitNoSeparator(tail, '.');
    }
  }

  /** The fraction digits give back the cents: one digit counts tenths. */
  lemma FractionDigitsValue(frac: nat)
    requires 0 < frac < 100
    ensures var tail := FractionText(frac)[1..];
      (if |tail| == 1 then DigitsValue(tail) * 10 else DigitsValue(tail)) == frac
  {
    var tail := FractionText(frac)[1..];
    assert DigitsValue([Digit(frac / 10)]) == frac / 10;
    if frac % 10 == 0 {
      assert tail == [Digit(frac / 10)];
    } else {
      assert tail == [Digit(frac / 10), Digit(frac % 10)];
      assert tail[..1] == [Digit(frac / 10)];
      assert DigitsValue(tail) == DigitsValue([Digit(frac / 10)]) * 10 + DigitValue(Digit(frac % 10));
    }
  }

  /** The unsigned text starts with a digit and reads back as the amount. */
  lemma UnsignedRoundTrip(a: nat)
    ensures |UnsignedText(a)| > 0 && IsDigit(UnsignedText(a)[0])
    ensures UnsignedValue(UnsignedText(a)) == a
  {
    var t := NatText(a / 100);
    NatTextDigits(a / 100);
    assert UnsignedText(a)[0] == t[0];
    FractionSplit(t, a % 100);
    if a % 100 != 0 {
      FractionDigitsValue(a % 100);
    }
  }

  /** A leading minus sign negates; a leading digit is no sign. */
  lemma AmountValueSign(u: string)
    requires |u| > 0 && IsDigit(u[0])
    ensures AmountValue(u) == UnsignedValue(u)
    ensures AmountValue("-" + u) == -UnsignedValue(u)
  {
    assert ("-" + u)[1..] == u;
  }

  /** The amount text reads back as the amount it renders. */
  lemma AmountTextRoundTrip(cents: int)
    ensures AmountValue(AmountText(cents)) == cents
  {
    var a: nat := if cents < 0 then -cents else cents;
    UnsignedRoundTrip(a);
    AmountValueSign(UnsignedText(a));
  }

  /** Different amounts are rendered as different texts. */
  lemma AmountTextInjective(a: int, b: int)
    requires AmountText(a) == AmountText(b)
    ensures a == b
  {
    AmountTextRoundTrip(a);
    AmountTextRoundTrip(b);
  }
}
