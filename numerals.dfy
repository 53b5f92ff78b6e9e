/**
 * Python's `int(s)` and `float(s)` restricted to plain ASCII decimal text:
 * `int` accepts a non-empty string of digits with nothing around it, `float` a
 * decimal literal with at most one point once the six ASCII whitespace
 * characters are stripped from both ends. Anything else is the ValueError
 * Python raises, here `None`.
 */
module Numerals {
  import opened Wrappers
  import PyStr

  predicate IsDigit(c: char) { '0' <= c <= '9' }

  predicate AllDigits(s: string) { forall i :: 0 <= i < |s| ==> IsDigit(s[i]) }

  function DigitValue(c: char): (d: nat)
    requires IsDigit(c)
    ensures d < 10
  {
    c as int - '0' as int
  }

  function DigitChar(d: nat): (c: char)
    requires d < 10
    ensures IsDigit(c) && DigitValue(c) == d
  {
    ('0' as int + d) as char
  }

  /** Positional value of a digit string, most significant digit first. */
  function ValueOf(s: string): nat
    requires AllDigits(s)
    decreases |s|
  {
    if s == [] then 0 else ValueOf(s[..|s| - 1]) * 10 + DigitValue(s[|s| - 1])
  }

  /** `int(s)` on a string of ASCII digits; `None` for every other string. */
  function ParseNat(s: string): (r: Option<nat>)
    ensures r.Some? <==> |s| > 0 && AllDigits(s)
    ensures r.Some? ==> r.value < Pow10(|s|)
  {
    if |s| > 0 && AllDigits(s) then ValueOfBound(s); Some(ValueOf(s)) else None
  }

  /** `str(n)`: the canonical decimal form of `n`. */
  function ShowNat(n: nat): (s: string)
    ensures |s| >= 1 && AllDigits(s)
    ensures s[0] != '0' || s == "0"
    decreases n
  {
    if n < 10 then [DigitChar(n)] else ShowNat(n / 10) + [DigitChar(n % 10)]
  }

  function Pow10(k: nat): (p: nat)
    ensures p >= 1
  {
    if k == 0 then 1 else 10 * Pow10(k - 1)
  }

  /** A value parsed from `k` digits is below `10^k`. */
  lemma {:induction false} ValueOfBound(s: string)
    requires AllDigits(s)
    ensures ValueOf(s) < Pow10(|s|)
    decreases |s|
  {
    if s != [] {
      ValueOfBound(s[..|s| - 1]);
    }
  }

  /** Appending a digit shifts the value one place and adds the digit. */
  lemma ValueOfAppend(s: string, c: char)
    requires AllDigits(s) && IsDigit(c)
    ensures AllDigits(s + [c]) && ValueOf(s + [c]) == ValueOf(s) * 10 + DigitValue(c)
  {
    assert (s + [c])[..|s|] == s;
  }

  /** Digits written after `a` shift its value by as many places. */
  lemma {:induction false} ValueOfConcat(a: string, b: string)
    requires AllDigits(a) && AllDigits(b)
    ensures AllDigits(a + b) && ValueOf(a + b) == ValueOf(a) * Pow10(|b|) + ValueOf(b)
    decreases |b|
  {
    if b == [] {
      assert a + b == a;
    } else {
      var p := b[..|b| - 1];
      var c := b[|b| - 1];
      ValueOfConcat(a, p);
      assert a + b == (a + p) + [c];
      ValueOfAppend(a + p, c);
      ValueOfAppend(p, c);
      assert p + [c] == b;
      assert Pow10(|b|) == Pow10(|p|) * 10;
      Shift(ValueOf(a), Pow10(|p|), ValueOf(p), DigitValue(c));
    }
  }

  /** Two digit strings parsed as one: the first shifted by the width of the second. */
  lemma ParseConcat(a: string, b: string)
    requires |a| > 0 && AllDigits(a) && AllDigits(b)
    ensures ParseNat(a + b) == Some(ValueOf(a) * Pow10(|b|) + ValueOf(b))
  {
    ValueOfConcat(a, b);
    var ab := a + b;
    assert |ab| > 0;
    assert ParseNat(ab) == Some(ValueOf(ab));
  }

  lemma Shift(x: nat, p: nat, y: nat, d: nat)
    ensures (x * p + y) * 10 + d == x * (p * 10) + (y * 10 + d)
  {
  }

  /** Leading zeros do not change the value. */
  lemma {:induction false} ValueOfLeadingZero(s: string)
    requires AllDigits(s)
    ensures AllDigits("0" + s) && ValueOf("0" + s) == ValueOf(s)
    decreases |s|
  {
    if s != [] {
      var p := s[..|s| - 1];
      ValueOfLeadingZero(p);
      assert ("0" + s)[..|s|] == "0" + p;
    }
  }

  /** Printing and then parsing gives the number back. */
  lemma {:induction false} ParseShow(n: nat)
    ensures ParseNat(ShowNat(n)) == Some(n)
    decreases n
  {
    if n >= 10 {
      ParseShow(n / 10);
      ValueOfAppend(ShowNat(n / 10), DigitChar(n % 10));
      assert ShowNat(n) == ShowNat(n / 10) + [DigitChar(n % 10)];
      assert ValueOf(ShowNat(n)) == (n / 10) * 10 + n % 10;
    } else {
      assert ShowNat(n)[..0] == [];
    }
  }

  /** A digit string that starts with a non-zero digit has a positive value. */
  lemma {:induction false} ValueOfPositive(s: string)
    requires |s| > 0 && AllDigits(s) && s[0] != '0'
    ensures ValueOf(s) > 0
    decreases |s|
  {
    if |s| > 1 {
      ValueOfPositive(s[..|s| - 1]);
    }
  }

  /** Parsing and then printing gives the text back when it has no leading zero. */
  lemma {:induction false} ShowParse(s: string)
    requires |s| > 0 && AllDigits(s) && (s[0] != '0' || s == "0")
    ensures ParseNat(s).Some? && ShowNat(ParseNat(s).value) == s
    decreases |s|
  {
    var c := s[|s| - 1];
    if |s| == 1 {
      assert ValueOf(s) == DigitValue(s[0]);
      assert DigitChar(DigitValue(s[0])) == s[0];
    } else {
      var p := s[..|s| - 1];
      ValueOfPositive(p);
      ShowParse(p);
      var v := ValueOf(s);
      assert v == ValueOf(p) * 10 + DigitValue(c);
      assert v / 10 == ValueOf(p) && v % 10 == DigitValue(c);
      assert DigitChar(DigitValue(c)) == c;
      assert ShowNat(v) == ShowNat(ValueOf(p)) + [c];
      assert p + [c] == s;
    }
  }

  predicate IsSpace(c: char) { c == ' ' || c == '\t' || c == '\n' || c == '\r' || c == '\U{b}' || c == '\U{c}' }

  /** `s.lstrip()` over ASCII whitespace. */
  function StripLeft(s: string): (r: string)
    ensures |r| <= |s|
    ensures r == s[|s| - |r|..]
    ensures forall k :: 0 <= k < |s| - |r| ==> IsSpace(s[k])
    ensures r == [] || !IsSpace(r[0])
    decreases |s|
  {
    if s != [] && IsSpace(s[0]) then StripLeft(s[1..]) else s
  }

  /** `s.rstrip()` over ASCII whitespace. */
  function StripRight(s: string): (r: string)
    ensures |r| <= |s|
    ensures r == s[..|r|]
    ensures forall k :: |r| <= k < |s| ==> IsSpace(s[k])
    ensures r == [] || !IsSpace(r[|r| - 1])
    decreases |s|
  {
    if s != [] && IsSpace(s[|s| - 1]) then StripRight(s[..|s| - 1]) else s
  }

  /** `s.strip()` over ASCII whitespace: `s` with the whitespace at both ends
      removed and nothing else. */
  function Strip(s: string): (r: string)
    ensures exists i :: TrimmedAt(s, i, r)
    ensures r == [] || (!IsSpace(r[0]) && !IsSpace(r[|r| - 1]))
  {
    StripTrimmed(s);
    StripRight(StripLeft(s))
  }

  lemma StripTrimmed(s: string)
    ensures TrimmedAt(s, |s| - |StripLeft(s)|, StripRight(StripLeft(s)))
  {
    TrimmedOf(s, StripLeft(s), StripRight(StripLeft(s)));
  }

  /** Trimming a suffix `l` of `s` down to a prefix `r` of it, whitespace only
      being cut, leaves `r` trimmed out of `s`. */
  lemma TrimmedOf(s: string, l: string, r: string)
    requires |l| <= |s| && l == s[|s| - |l|..] && forall k :: 0 <= k < |s| - |l| ==> IsSpace(s[k])
    requires |r| <= |l| && r == l[..|r|] && forall k :: |r| <= k < |l| ==> IsSpace(l[k])
    ensures TrimmedAt(s, |s| - |l|, r)
  {
    var i := |s| - |l|;
    assert s[i..][..|r|] == s[i..i + |r|];
    forall k | i + |r| <= k < |s| ensures IsSpace(s[k]) {
      assert s[k] == l[k - i];
    }
  }

  /** Text with no whitespace at either end is left as it is. */
  lemma NoPadding(s: string)
    requires s != [] && !IsSpace(s[0]) && !IsSpace(s[|s| - 1])
    ensures StripLeft(s) == s && StripRight(s) == s && Strip(s) == s
  {
  }

  /** Leading whitespace is stripped away. */
  lemma StripLeading(c: char, s: string)
    requires IsSpace(c)
    ensures StripLeft([c] + s) == StripLeft(s) && Strip([c] + s) == Strip(s)
  {
    assert ([c] + s)[1..] == s;
  }

  /** `r` is `s` without its first `i` characters and the characters after
      `r`, all of them whitespace. */
  predicate TrimmedAt(s: string, i: int, r: string)
  {
    && 0 <= i <= |s| - |r|
    && r == s[i..i + |r|]
    && (forall k :: 0 <= k < i ==> IsSpace(s[k]))
    && (forall k :: i + |r| <= k < |s| ==> IsSpace(s[k]))
  }

  /** A decimal literal `float` accepts: digits, at most one point, at least one digit. */
  predicate IsDecimal(s: string)
  {
    var parts := PyStr.Split(s, '.');
    (|parts| == 1 && |parts[0]| > 0 && AllDigits(parts[0]))
    || (|parts| == 2 && AllDigits(parts[0]) && AllDigits(parts[1]) && |parts[0]| + |parts[1]| > 0)
  }

  /** Whether `float(s)` succeeds, for the decimal forms modelled here: the
      stripped text has only digits and points, and at least one digit. */
  predicate FloatParses(s: string)
  {
    IsDecimal(Strip(s))
  }

  /** What `float` accepts is, once stripped, digits and points with a digit
      among them and at most one point; and every such text is accepted. */
  lemma FloatChars(s: string)
    ensures FloatParses(s) <==>
      && (forall i :: 0 <= i < |Strip(s)| ==> IsDigit(Strip(s)[i]) || Strip(s)[i] == '.')
      && (exists i :: 0 <= i < |Strip(s)| && IsDigit(Strip(s)[i]))
      && (forall i, j :: 0 <= i < j < |Strip(s)| && Strip(s)[i] == '.' ==> Strip(s)[j] != '.')
  {
    var t := Strip(s);
    if IsDecimal(t) {
      DecimalChars(t);
    } else if (forall i :: 0 <= i < |t| ==> IsDigit(t[i]) || t[i] == '.')
      && (exists i :: 0 <= i < |t| && IsDigit(t[i]))
      && (forall i, j :: 0 <= i < j < |t| && t[i] == '.' ==> t[j] != '.')
    {
      DecimalOfChars(t);
    }
  }

  /** Every text of digits and points with a digit and at most one point is a decimal. */
  lemma DecimalOfChars(s: string)
    requires forall i :: 0 <= i < |s| ==> IsDigit(s[i]) || s[i] == '.'
    requires exists i :: 0 <= i < |s| && IsDigit(s[i])
    requires forall i, j :: 0 <= i < j < |s| && s[i] == '.' ==> s[j] != '.'
    ensures IsDecimal(s)
  {
    if '.' !in s {
      PyStr.SplitWithoutSep(s, '.');
      assert |s| > 0;
    } else {
      var k :| 0 <= k < |s| && s[k] == '.';
      var a, b := s[..k], s[k + 1..];
      assert s == a + ['.'] + b;
      assert '.' !in a by {
        forall i | 0 <= i < |a| ensures a[i] != '.' { assert s[i] == a[i]; }
      }
      assert '.' !in b by {
        forall i | 0 <= i < |b| ensures b[i] != '.' { assert s[k + 1 + i] == b[i]; }
      }
      PyStr.SplitAfterHead(a, '.', b);
      PyStr.SplitWithoutSep(b, '.');
      assert PyStr.Split(s, '.') == [a, b];
      assert AllDigits(a) by {
        forall i | 0 <= i < |a| ensures IsDigit(a[i]) { assert s[i] == a[i]; }
      }
      assert AllDigits(b) by {
        forall i | 0 <= i < |b| ensures IsDigit(b[i]) { assert s[k + 1 + i] == b[i]; }
      }
      var d :| 0 <= d < |s| && IsDigit(s[d]);
      assert d != k;
    }
  }

  /** A decimal is made of digits and points, with at least one digit and at most one point. */
  lemma DecimalChars(s: string)
    requires IsDecimal(s)
    ensures forall i :: 0 <= i < |s| ==> IsDigit(s[i]) || s[i] == '.'
    ensures exists i :: 0 <= i < |s| && IsDigit(s[i])
    ensures forall i, j :: 0 <= i < j < |s| && s[i] == '.' ==> s[j] != '.'
  {
    var parts := PyStr.Split(s, '.');
    PyStr.JoinSplit(s, '.');
    PyStr.SplitPiecesLackSep(s, '.');
    if |parts| == 1 {
      assert s == parts[0];
      assert IsDigit(s[0]);
    } else {
      var a, b := parts[0], parts[1];
      assert PyStr.Join(parts[1..], '.') == b;
      assert s == a + ['.'] + b;
      if |a| > 0 {
        assert IsDigit(s[0]);
      } else {
        assert IsDigit(s[1]);
      }
      assert forall k :: 0 <= k < |a| ==> s[k] == a[k];
      assert forall k :: |a| < k < |s| ==> s[k] == b[k - |a| - 1];
    }
  }

  /** Every printed number followed by a point and a digit string is a decimal. */
  lemma DecimalOfShow(n: nat, frac: string)
    requires AllDigits(frac)
    ensures IsDecimal(ShowNat(n) + "." + frac)
  {
    var w := ShowNat(n);
    assert forall i :: 0 <= i < |w| ==> w[i] != '.';
    assert forall i :: 0 <= i < |frac| ==> frac[i] != '.';
    PyStr.SplitAfterHead(w, '.', frac);
    PyStr.SplitWithoutSep(frac, '.');
    assert w + "." + frac == w + ['.'] + frac;
  }
}
