/**
 * String operations the source uses: String.prototype.trim (and the
 * truthiness of its result), padStart, decimal rendering of numbers, and
 * the lexicographic comparison a database applies to text columns.
 */
module Text {

  /** WhiteSpace and LineTerminator code points of ECMAScript, the set trim() removes. */
  predicate IsJsSpace(c: char)
  {
    || c == '\t' || c == '\n' || c == '\U{000B}' || c == '\U{000C}' || c == '\r' || c == ' '
    || c == '\U{00A0}' || c == '\U{1680}' || ('\U{2000}' <= c <= '\U{200A}')
    || c == '\U{2028}' || c == '\U{2029}' || c == '\U{202F}' || c == '\U{205F}'
    || c == '\U{3000}' || c == '\U{FEFF}'
  }

  function TrimStart(s: string): (r: string)
    ensures |r| <= |s|
  {
    if s != [] && IsJsSpace(s[0]) then TrimStart(s[1..]) else s
  }

  function TrimEnd(s: string): (r: string)
    ensures |r| <= |s|
  {
    if s != [] && IsJsSpace(s[|s| - 1]) then TrimEnd(s[..|s| - 1]) else s
  }

  /** String.prototype.trim. */
  function Trim(s: string): string
  {
    TrimEnd(TrimStart(s))
  }

  /** Every character is white space: trim() gives the empty (falsy) string. */
  predicate IsBlank(s: string)
  {
    forall i :: 0 <= i < |s| ==> IsJsSpace(s[i])
  }

  lemma {:induction false} TrimStartEmpty(s: string)
    ensures TrimStart(s) == [] <==> IsBlank(s)
  {
    if s != [] && IsJsSpace(s[0]) {
      TrimStartEmpty(s[1..]);
      assert IsBlank(s) <==> IsBlank(s[1..]) by {
        if IsBlank(s[1..]) {
          forall i | 0 <= i < |s| ensures IsJsSpace(s[i]) {
            if i > 0 { assert s[i] == s[1..][i - 1]; }
          }
        }
      }
    }
  }

  lemma {:induction false} TrimStartKeepsNonSpaceFront(s: string)
    requires TrimStart(s) != []
    ensures !IsJsSpace(TrimStart(s)[0])
  {
    if s != [] && IsJsSpace(s[0]) {
      TrimStartKeepsNonSpaceFront(s[1..]);
    }
  }

  lemma {:induction false} TrimEndKeepsNonSpaceFront(s: string)
    requires s != [] && !IsJsSpace(s[0])
    ensures TrimEnd(s) != [] && TrimEnd(s)[0] == s[0]
    decreases |s|
  {
    if IsJsSpace(s[|s| - 1]) {
      assert |s| > 1;
      TrimEndKeepsNonSpaceFront(s[..|s| - 1]);
    }
  }

  /** trim() yields the empty string exactly when the input is all white space. */
  lemma TrimEmptyIffBlank(s: string)
    ensures Trim(s) == [] <==> IsBlank(s)
  {
    TrimStartEmpty(s);
    if TrimStart(s) != [] {
      TrimStartKeepsNonSpaceFront(s);
      TrimEndKeepsNonSpaceFront(TrimStart(s));
    }
  }

  /** String.prototype.padStart(width, pad) with a one-character pad. */
  function PadStart(s: string, width: nat, pad: char): (r: string)
    ensures |r| == if |s| >= width then |s| else width
    ensures |s| >= width ==> r == s
    ensures |s| < width ==> r == seq(width - |s|, _ => pad) + s
    decreases width - |s|
  {
    if |s| >= width then s
    else
      var k := width - |s| - 1;
      assert seq(k, _ => pad) + ([pad] + s) == seq(k + 1, _ => pad) + s;
      PadStart([pad] + s, width, pad)
  }

  function DigitChar(d: nat): char
    requires d < 10
  {
    ('0' as int + d) as char
  }

  predicate IsDigit(c: char)
  {
    '0' <= c <= '9'
  }

  function DigitValue(c: char): (d: nat)
    requires IsDigit(c)
    ensures d < 10 && DigitChar(d) == c
  {
    c as int - '0' as int
  }

  /** The decimal rendering of a natural number, as String(n) and template literals give it. */
  function Decimal(n: nat): (r: string)
    ensures |r| >= 1
  {
    if n < 10 then [DigitChar(n)] else Decimal(n / 10) + [DigitChar(n % 10)]
  }

  function Pow10(w: nat): (p: nat)
    ensures p >= 1
  {
    if w == 0 then 1 else 10 * Pow10(w - 1)
  }

  /** The lowest `w` decimal digits of `n`, zero-filled on the left. */
  function FixedDigits(n: nat, w: nat): (r: string)
    ensures |r| == w
  {
    if w == 0 then [] else FixedDigits(n / 10, w - 1) + [DigitChar(n % 10)]
  }

  predicate AllDigits(s: string)
  {
    forall i :: 0 <= i < |s| ==> IsDigit(s[i])
  }

  /** The number a string of decimal digits denotes. */
  function DigitsValue(s: string): nat
    requires AllDigits(s)
  {
    if s == [] then 0 else 10 * DigitsValue(s[..|s| - 1]) + DigitValue(s[|s| - 1])
  }

  lemma {:induction false} FixedDigitsAreDigits(n: nat, w: nat)
    ensures AllDigits(FixedDigits(n, w))
  {
    if w > 0 {
      FixedDigitsAreDigits(n / 10, w - 1);
    }
  }

  /** Reading back w fixed digits recovers any number below 10^w. */
  lemma {:induction false} FixedDigitsRoundTrip(n: nat, w: nat)
    requires n < Pow10(w)
    ensures AllDigits(FixedDigits(n, w)) && DigitsValue(FixedDigits(n, w)) == n
  {
    FixedDigitsAreDigits(n, w);
    if w > 0 {
      FixedDigitsRoundTrip(n / 10, w - 1);
      var s := FixedDigits(n, w);
      assert s[..|s| - 1] == FixedDigits(n / 10, w - 1);
      assert DigitValue(s[|s| - 1]) == n % 10;
    }
  }

  /** Any w digits are the fixed rendering of the value they denote. */
  lemma {:induction false} DigitsValueRoundTrip(s: string)
    requires AllDigits(s)
    ensures DigitsValue(s) < Pow10(|s|)
    ensures FixedDigits(DigitsValue(s), |s|) == s
  {
    if s != [] {
      var init := s[..|s| - 1];
      DigitsValueRoundTrip(init);
      var v := DigitsValue(s);
      var d := DigitValue(s[|s| - 1]);
      assert v == 10 * DigitsValue(init) + d;
      assert v / 10 == DigitsValue(init) && v % 10 == d;
      assert s == init + [s[|s| - 1]];
    }
  }

  /** For a number of exactly w digits, its decimal rendering is its fixed rendering. */
  lemma {:induction false} DecimalIsFixed(n: nat, w: nat)
    requires 1 <= w && (Pow10(w - 1) <= n || w == 1) && n < Pow10(w)
    ensures Decimal(n) == FixedDigits(n, w)
  {
    if n < 10 {
      assert w == 1;
      assert FixedDigits(n / 10, w - 1) == [];
    } else {
      assert w > 1;
      DecimalIsFixed(n / 10, w - 1);
    }
  }

  /** padStart(2, '0') on a one- or two-digit number is its two fixed digits. */
  lemma PadTwoIsFixed(n: nat)
    requires n < 100
    ensures PadStart(Decimal(n), 2, '0') == FixedDigits(n, 2)
  {
    if n < 10 {
      assert FixedDigits(n, 2) == FixedDigits(0, 1) + [DigitChar(n)];
    } else {
      DecimalIsFixed(n, 2);
    }
  }

  /** Lexicographic order on code points, the order of text keys. */
  predicate StrLess(a: string, b: string)
  {
    if a == [] then b != []
    else if b == [] then false
    else if a[0] != b[0] then a[0] < b[0]
    else StrLess(a[1..], b[1..])
  }

  lemma {:induction false} StrLessIrreflexive(a: string)
    ensures !StrLess(a, a)
  {
    if a != [] { StrLessIrreflexive(a[1..]); }
  }

  lemma {:induction false} StrLessAsymmetric(a: string, b: string)
    ensures !(StrLess(a, b) && StrLess(b, a))
  {
    if a != [] && b != [] && a[0] == b[0] { StrLessAsymmetric(a[1..], b[1..]); }
  }

  lemma {:induction false} StrLessTransitive(a: string, b: string, c: string)
    requires StrLess(a, b) && StrLess(b, c)
    ensures StrLess(a, c)
  {
    if a != [] && a[0] == b[0] && b[0] == c[0] {
      StrLessTransitive(a[1..], b[1..], c[1..]);
    }
  }

  /** Any two different strings are ordered one way or the other. */
  lemma {:induction false} StrLessTrichotomy(a: string, b: string)
    ensures a == b || StrLess(a, b) || StrLess(b, a)
  {
    if a != [] && b != [] && a[0] == b[0] {
      StrLessTrichotomy(a[1..], b[1..]);
      if a[1..] == b[1..] {
        assert a == [a[0]] + a[1..] && b == [b[0]] + b[1..];
      }
    }
  }

  /** Comparing two concatenations whose first parts have equal length. */
  lemma {:induction false} StrLessConcat(a1: string, a2: string, b1: string, b2: string)
    requires |a1| == |b1|
    ensures StrLess(a1 + a2, b1 + b2) <==> StrLess(a1, b1) || (a1 == b1 && StrLess(a2, b2))
  {
    if a1 == [] {
      assert a1 + a2 == a2 && b1 + b2 == b2;
    } else {
      assert (a1 + a2)[0] == a1[0] && (b1 + b2)[0] == b1[0];
      assert (a1 + a2)[1..] == a1[1..] + a2 && (b1 + b2)[1..] == b1[1..] + b2;
      StrLessConcat(a1[1..], a2, b1[1..], b2);
      if a1[0] == b1[0] && a1[1..] == b1[1..] {
        assert a1 == [a1[0]] + a1[1..] && b1 == [b1[0]] + b1[1..];
      }
      if a1 == b1 {
        StrLessIrreflexive(a1[1..]);
      }
    }
  }

  /** Equal-width digit strings compare as the numbers they denote. */
  lemma {:induction false} FixedDigitsOrder(n: nat, m: nat, w: nat)
    requires n < Pow10(w) && m < Pow10(w)
    ensures StrLess(FixedDigits(n, w), FixedDigits(m, w)) <==> n < m
    ensures FixedDigits(n, w) == FixedDigits(m, w) <==> n == m
  {
    if w == 0 {
    } else {
      FixedDigitsOrder(n / 10, m / 10, w - 1);
      StrLessConcat(FixedDigits(n / 10, w - 1), [DigitChar(n % 10)], FixedDigits(m / 10, w - 1), [DigitChar(m % 10)]);
      assert n == 10 * (n / 10) + n % 10 && m == 10 * (m / 10) + m % 10;
      if FixedDigits(n, w) == FixedDigits(m, w) {
        FixedDigitsRoundTrip(n, w);
        FixedDigitsRoundTrip(m, w);
      }
    }
  }
}
