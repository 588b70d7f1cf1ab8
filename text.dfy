/** The string built-ins the list and the form rely on: lower-casing,
    substring search, the `<` order on strings, number-to-string conversion of
    integers and `parseInt` with radix 10. A character is a Unicode scalar
    value, where JavaScript works on UTF-16 code units; only ASCII letters are
    case-folded. */
module Text {
  import opened Wrappers

  function LowerChar(c: char): char
  {
    if 'A' <= c <= 'Z' then (c as int + 32) as char else c
  }

  /** `toLowerCase`, on ASCII letters. */
  function Lower(s: string): (r: string)
    ensures |r| == |s|
    ensures forall i :: 0 <= i < |s| ==> r[i] == LowerChar(s[i])
  {
    seq(|s|, i requires 0 <= i < |s| => LowerChar(s[i]))
  }

  /** Lower-casing twice is lower-casing once. */
  lemma LowerIdempotent(s: string)
    ensures Lower(Lower(s)) == Lower(s)
  {
  }

  /** `t` occurs in `s` starting at position `i`. */
  predicate OccursAt(s: string, t: string, i: int)
  {
    0 <= i && i + |t| <= |s| && s[i..i + |t|] == t
  }

  /** `s.includes(t)`: scan for a position where `t` starts. */
  function Includes(s: string, t: string): bool
    decreases |s|
  {
    (|t| <= |s| && s[..|t|] == t) || (|s| > 0 && Includes(s[1..], t))
  }

  /** An occurrence past the first position is an occurrence in the tail. */
  lemma OccursShift(s: string, t: string, i: int)
    requires |s| > 0 && i > 0
    ensures OccursAt(s, t, i) == OccursAt(s[1..], t, i - 1)
  {
    if i + |t| <= |s| {
      assert s[1..][i - 1..i - 1 + |t|] == s[i..i + |t|];
    }
  }

  /** `Includes` holds exactly when `t` occurs at some position of `s`; the
      empty string occurs in every string. */
  lemma {:induction false} IncludesIffOccurs(s: string, t: string)
    ensures Includes(s, t) <==> exists i :: OccursAt(s, t, i)
    decreases |s|
  {
    if |t| <= |s| && s[..|t|] == t {
      assert OccursAt(s, t, 0);
    } else if |s| > 0 {
      IncludesIffOccurs(s[1..], t);
      if Includes(s[1..], t) {
        var i :| OccursAt(s[1..], t, i);
        OccursShift(s, t, i + 1);
      } else {
        forall i ensures !OccursAt(s, t, i) {
          if i > 0 {
            OccursShift(s, t, i);
          }
        }
      }
    } else {
      forall i ensures !OccursAt(s, t, i) {
      }
    }
  }

  /** A string none of whose characters starts `t` does not include `t`. */
  lemma MissingFirstChar(s: string, t: string)
    requires |t| > 0 && forall k :: 0 <= k < |s| ==> s[k] != t[0]
    ensures !Includes(s, t)
  {
    IncludesIffOccurs(s, t);
    forall i | 0 <= i && i + |t| <= |s| ensures !OccursAt(s, t, i) {
      assert s[i..i + |t|][0] == s[i];
    }
  }

  /** `a < b` on strings: lexicographic on characters, a proper prefix first. */
  function StrLess(a: string, b: string): bool
    decreases |a|
  {
    if |a| == 0 then |b| > 0
    else if |b| == 0 then false
    else if a[0] != b[0] then a[0] < b[0]
    else StrLess(a[1..], b[1..])
  }

  lemma {:induction false} StrLessIrreflexive(a: string)
    ensures !StrLess(a, a)
    decreases |a|
  {
    if |a| > 0 {
      StrLessIrreflexive(a[1..]);
    }
  }

  lemma {:induction false} StrLessTransitive(a: string, b: string, c: string)
    requires StrLess(a, b) && StrLess(b, c)
    ensures StrLess(a, c)
    decreases |a|
  {
    if |a| > 0 && a[0] == b[0] && b[0] == c[0] {
      StrLessTransitive(a[1..], b[1..], c[1..]);
    }
  }

  /** Two different strings are always ordered one way or the other. */
  lemma {:induction false} StrLessTotal(a: string, b: string)
    requires a != b
    ensures StrLess(a, b) || StrLess(b, a)
    decreases |a|
  {
    if |a| > 0 && |b| > 0 && a[0] == b[0] {
      assert a == [a[0]] + a[1..] && b == [b[0]] + b[1..];
      StrLessTotal(a[1..], b[1..]);
    }
  }

  predicate IsDigit(c: char)
  {
    '0' <= c <= '9'
  }

  function DigitChar(d: nat): char
    requires d < 10
  {
    ('0' as int + d) as char
  }

  function DigitValue(c: char): nat
    requires IsDigit(c)
  {
    c as int - '0' as int
  }

  predicate AllDigits(s: string)
  {
    forall i :: 0 <= i < |s| ==> IsDigit(s[i])
  }

  /** The decimal digits of a natural number, most significant first. */
  function NatToString(n: nat): (r: string)
    ensures |r| > 0 && AllDigits(r)
    decreases n
  {
    if n < 10 then [DigitChar(n)] else NatToString(n / 10) + [DigitChar(n % 10)]
  }

  /** The number a string of decimal digits denotes. */
  function DigitsValue(s: string): nat
    requires AllDigits(s)
    decreases |s|
  {
    if |s| == 0 then 0 else DigitsValue(s[..|s| - 1]) * 10 + DigitValue(s[|s| - 1])
  }

  /** How an integer-valued number is written: an optional '-' and its digits. */
  function IntToString(n: int): (r: string)
    ensures |r| > 0
  {
    if n < 0 then "-" + NatToString(-n) else NatToString(n)
  }

  /** White space and line terminators skipped by `parseInt`: tab, vertical
      tab, form feed, the byte order mark, every space separator (category
      Zs) and the four line terminators. */
  predicate IsSpace(c: char)
  {
    || c == '\t' || c == '\U{000B}' || c == '\U{000C}' || c == '\U{FEFF}'
    || c == ' ' || c == '\U{00A0}' || c == '\U{1680}' || '\U{2000}' <= c <= '\U{200A}'
    || c == '\U{202F}' || c == '\U{205F}' || c == '\U{3000}'
    || c == '\n' || c == '\r' || c == '\U{2028}' || c == '\U{2029}'
  }

  /** Drops the leading white space: what remains is a suffix of `s` that
      does not start with white space, and everything dropped is white space. */
  function TrimStart(s: string): (r: string)
    ensures |r| <= |s| && r == s[|s| - |r|..]
    ensures forall i :: 0 <= i < |s| - |r| ==> IsSpace(s[i])
    ensures |r| > 0 ==> !IsSpace(r[0])
    decreases |s|
  {
    if |s| > 0 && IsSpace(s[0]) then
      var r := TrimStart(s[1..]);
      assert s[1..][|s| - 1 - |r|..] == s[|s| - |r|..];
      r
    else s
  }

  /** Length of the longest prefix of decimal digits. */
  function DigitPrefix(s: string): (k: nat)
    ensures k <= |s| && AllDigits(s[..k])
    ensures k < |s| ==> !IsDigit(s[k])
    decreases |s|
  {
    if |s| > 0 && IsDigit(s[0]) then
      var k := 1 + DigitPrefix(s[1..]);
      assert s[..k] == [s[0]] + s[1..][..k - 1];
      k
    else 0
  }

  /** `parseInt(s, 10)`: skip leading space, then read a signed number;
      `None` stands for NaN. */
  function ParseInt(s: string): (r: Option<int>)
  {
    ParseSigned(TrimStart(s))
  }

  /** An optional sign and the longest run of digits after it; no digit at
      all gives `None`. */
  function ParseSigned(t: string): (r: Option<int>)
  {
    var negative := |t| > 0 && t[0] == '-';
    var body := if |t| > 0 && (t[0] == '-' || t[0] == '+') then t[1..] else t;
    var k := DigitPrefix(body);
    if k == 0 then None
    else
      var magnitude: int := DigitsValue(body[..k]);
      Some(if negative then -magnitude else magnitude)
  }

  /** Text that starts with a digit or a minus sign has no space to skip. */
  lemma NothingToTrim(s: string)
    requires |s| > 0 && (IsDigit(s[0]) || s[0] == '-')
    ensures ParseInt(s) == ParseSigned(s)
  {
    assert !IsSpace(s[0]);
  }

  lemma {:induction false} DigitsOfNat(n: nat)
    ensures DigitsValue(NatToString(n)) == n
    decreases n
  {
    var s := NatToString(n);
    if n >= 10 {
      DigitsOfNat(n / 10);
      assert s[..|s| - 1] == NatToString(n / 10);
    }
  }

  lemma AllDigitsPrefix(s: string)
    requires AllDigits(s)
    ensures DigitPrefix(s) == |s|
  {
  }

  /** The digit prefix stops where the digits do. */
  lemma {:induction false} DigitPrefixStops(d: string, rest: string)
    requires AllDigits(d) && (|rest| == 0 || !IsDigit(rest[0]))
    ensures DigitPrefix(d + rest) == |d|
    decreases |d|
  {
    if |d| > 0 {
      assert (d + rest)[0] == d[0];
      assert (d + rest)[1..] == d[1..] + rest;
      DigitPrefixStops(d[1..], rest);
    } else {
      assert d + rest == rest;
    }
  }

  /** The sign-and-digits reader reads a written integer back when the text
      after it does not start with a digit. */
  lemma SignedReadsLeadingNumber(n: int, rest: string)
    requires |rest| == 0 || !IsDigit(rest[0])
    ensures ParseSigned(IntToString(n) + rest) == Some(n)
  {
    var m: nat := if n < 0 then -n else n;
    var digits := NatToString(m);
    var s := IntToString(n) + rest;
    DigitPrefixStops(digits, rest);
    DigitsOfNat(m);
    if n < 0 {
      assert s[1..] == digits + rest;
    } else {
      assert s == digits + rest;
    }
    assert (digits + rest)[..|digits|] == digits;
  }

  /** `parseInt` reads a written integer back even when other text follows,
      as long as that text does not start with a digit ("12 eps" gives 12). */
  lemma ParseIntReadsLeadingNumber(n: int, rest: string)
    requires |rest| == 0 || !IsDigit(rest[0])
    ensures ParseInt(IntToString(n) + rest) == Some(n)
  {
    NothingToTrim(IntToString(n) + rest);
    SignedReadsLeadingNumber(n, rest);
  }

  /** Reading back what `IntToString` writes gives the same integer. */
  lemma IntToStringRoundTrip(n: int)
    ensures ParseInt(IntToString(n)) == Some(n)
  {
    ParseIntReadsLeadingNumber(n, "");
    assert IntToString(n) + "" == IntToString(n);
  }
}
