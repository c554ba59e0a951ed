/**
  String operations of JavaScript that the core relies on: `trim`, `split` (on one character
  and on runs of a character class), `String(n)` for integers and `padStart`.
 */
module Strings {

  /** The characters JavaScript's `trim` removes and the regular-expression class `\s` matches. */
  predicate IsWhitespace(c: char)
  {
    || c == ' ' || c == '\t' || c == '\n' || c == '\r' || c == '\U{000B}' || c == '\U{000C}'
    || c == '\U{00A0}' || c == '\U{1680}' || ('\U{2000}' <= c <= '\U{200A}')
    || c == '\U{2028}' || c == '\U{2029}' || c == '\U{202F}' || c == '\U{205F}'
    || c == '\U{3000}' || c == '\U{FEFF}'
  }

  predicate IsDigit(c: char)
  {
    '0' <= c <= '9'
  }

  predicate AllDigits(s: string)
  {
    forall i :: 0 <= i < |s| ==> IsDigit(s[i])
  }

  predicate StartsWith(s: string, prefix: string)
  {
    |prefix| <= |s| && s[..|prefix|] == prefix
  }

  /** JavaScript's `s.trimStart()`: a suffix of s that does not begin with whitespace. */
  function TrimStart(s: string): (r: string)
    ensures |r| <= |s| && r == s[|s| - |r|..]
    ensures r == [] || !IsWhitespace(r[0])
  {
    if s != [] && IsWhitespace(s[0]) then TrimStart(s[1..]) else s
  }

  /** Everything `trimStart` drops is whitespace. */
  lemma {:induction false} TrimStartDropsWhitespace(s: string)
    ensures forall i :: 0 <= i < |s| - |TrimStart(s)| ==> IsWhitespace(s[i])
  {
    if s != [] && IsWhitespace(s[0]) {
      TrimStartDropsWhitespace(s[1..]);
      forall i | 1 <= i < |s| - |TrimStart(s)| ensures IsWhitespace(s[i]) {
        assert s[i] == s[1..][i - 1];
      }
    }
  }

  /** JavaScript's `s.trimEnd()`: a prefix of s that does not end with whitespace. */
  function TrimEnd(s: string): (r: string)
    ensures |r| <= |s| && r == s[..|r|]
    ensures r == [] || !IsWhitespace(r[|r| - 1])
  {
    if s != [] && IsWhitespace(s[|s| - 1]) then TrimEnd(s[..|s| - 1]) else s
  }

  /** Everything `trimEnd` drops is whitespace. */
  lemma {:induction false} TrimEndDropsWhitespace(s: string)
    ensures forall i :: |TrimEnd(s)| <= i < |s| ==> IsWhitespace(s[i])
  {
    if s != [] && IsWhitespace(s[|s| - 1]) {
      TrimEndDropsWhitespace(s[..|s| - 1]);
      forall i | |TrimEnd(s)| <= i < |s| - 1 ensures IsWhitespace(s[i]) {
        assert s[i] == s[..|s| - 1][i];
      }
    }
  }

  /** JavaScript's `s.trim()`. */
  function Trim(s: string): string
  {
    TrimEnd(TrimStart(s))
  }

  lemma TrimOfUnpadded(s: string)
    requires s == [] || (!IsWhitespace(s[0]) && !IsWhitespace(s[|s| - 1]))
    ensures Trim(s) == s
  {
  }

  predicate AllWhitespace(s: string)
  {
    forall i :: 0 <= i < |s| ==> IsWhitespace(s[i])
  }

  /** Text that neither begins nor ends with whitespace. */
  predicate Unpadded(s: string)
  {
    |s| > 0 && !IsWhitespace(s[0]) && !IsWhitespace(s[|s| - 1])
  }

  /** `trimStart` removes exactly the whitespace put before x. */
  lemma {:induction false} TrimStartOfPadded(pre: string, x: string)
    requires AllWhitespace(pre) && (x == [] || !IsWhitespace(x[0]))
    ensures TrimStart(pre + x) == x
  {
    if pre == [] {
      assert pre + x == x;
    } else {
      assert (pre + x)[0] == pre[0];
      assert (pre + x)[1..] == pre[1..] + x;
      TrimStartOfPadded(pre[1..], x);
    }
  }

  /** `trimEnd` removes exactly the whitespace put after x. */
  lemma {:induction false} TrimEndOfPadded(x: string, post: string)
    requires AllWhitespace(post) && (x == [] || !IsWhitespace(x[|x| - 1]))
    ensures TrimEnd(x + post) == x
  {
    if post == [] {
      assert x + post == x;
    } else {
      var n := |post| - 1;
      assert (x + post)[|x + post| - 1] == post[n];
      assert (x + post)[..|x + post| - 1] == x + post[..n];
      TrimEndOfPadded(x, post[..n]);
    }
  }

  /** `trim` gives back text that was padded with whitespace on either side. */
  lemma TrimPadded(pre: string, x: string, post: string)
    requires AllWhitespace(pre) && AllWhitespace(post) && Unpadded(x)
    ensures Trim(pre + x + post) == x
  {
    assert pre + x + post == pre + (x + post);
    assert (x + post)[0] == x[0];
    TrimStartOfPadded(pre, x + post);
    TrimEndOfPadded(x, post);
  }

  /** JavaScript's `s.split(sep)` for a one-character separator: `"".split(sep)` is `[""]`. */
  function Split(s: string, sep: char): (parts: seq<string>)
    ensures |parts| >= 1
  {
    if s == [] then [""]
    else
      var rest := Split(s[1..], sep);
      if s[0] == sep then [""] + rest else [[s[0]] + rest[0]] + rest[1..]
  }

  lemma {:induction false} SplitWithoutSeparator(a: string, sep: char)
    requires sep !in a
    ensures Split(a, sep) == [a]
  {
    if a != [] {
      SplitWithoutSeparator(a[1..], sep);
      assert [a[0]] + a[1..] == a;
    }
  }

  lemma {:induction false} SplitAfterField(a: string, sep: char, rest: string)
    requires sep !in a
    ensures Split(a + [sep] + rest, sep) == [a] + Split(rest, sep)
  {
    if a == [] {
      assert a + [sep] + rest == [sep] + rest;
      assert ([sep] + rest)[1..] == rest;
    } else {
      SplitAfterField(a[1..], sep, rest);
      assert (a + [sep] + rest)[1..] == a[1..] + [sep] + rest;
      assert [a[0]] + a[1..] == a;
    }
  }

  /** The separator class of the regular expression `/[\s:]+/`. */
  predicate IsFieldSeparator(c: char)
  {
    IsWhitespace(c) || c == ':'
  }

  predicate NoFieldSeparator(s: string)
  {
    forall i :: 0 <= i < |s| ==> !IsFieldSeparator(s[i])
  }

  lemma DigitIsNoSeparator(c: char)
    requires IsDigit(c)
    ensures !IsFieldSeparator(c)
  {
  }

  /** A run of digits holds no field separator. */
  lemma DigitsHaveNoSeparator(s: string)
    requires AllDigits(s)
    ensures NoFieldSeparator(s)
  {
    forall i | 0 <= i < |s| ensures !IsFieldSeparator(s[i]) {
      DigitIsNoSeparator(s[i]);
    }
  }

  /**
    JavaScript's `s.split(/[\s:]+/)`: the pieces between maximal runs of separators; a run at
    either end leaves an empty piece there, and the empty string gives `[""]`.
   */
  function SplitFields(s: string): (parts: seq<string>)
    ensures |parts| >= 1
  {
    if s == [] then [""]
    else
      var rest := SplitFields(s[1..]);
      if IsFieldSeparator(s[0]) then
        (if |s| > 1 && IsFieldSeparator(s[1]) then rest else [""] + rest)
      else [[s[0]] + rest[0]] + rest[1..]
  }

  lemma {:induction false} SplitFieldsWithoutSeparator(a: string)
    requires NoFieldSeparator(a)
    ensures SplitFields(a) == [a]
  {
    if a != [] {
      SplitFieldsWithoutSeparator(a[1..]);
      assert [a[0]] + a[1..] == a;
    }
  }

  /** A non-empty run of separator characters, such as " : " or "\t". */
  predicate IsSeparatorRun(sep: string)
  {
    |sep| > 0 && forall i :: 0 <= i < |sep| ==> IsFieldSeparator(sep[i])
  }

  /** A separator run before text that starts with a field ends one empty piece. */
  lemma {:induction false} SplitFieldsOfRun(sep: string, rest: string)
    requires IsSeparatorRun(sep)
    requires rest == [] || !IsFieldSeparator(rest[0])
    ensures SplitFields(sep + rest) == [""] + SplitFields(rest)
  {
    var s := sep + rest;
    assert s[0] == sep[0];
    if |sep| == 1 {
      assert s[1..] == rest;
      assert |s| > 1 ==> s[1] == rest[0];
    } else {
      assert s[1] == sep[1];
      assert s[1..] == sep[1..] + rest;
      assert IsSeparatorRun(sep[1..]) by {
        assert forall i :: 0 <= i < |sep| - 1 ==> sep[1..][i] == sep[i + 1];
      }
      SplitFieldsOfRun(sep[1..], rest);
    }
  }

  /** A field followed by a separator run, however long, is split off as one piece. */
  lemma {:induction false} SplitFieldsAfterRun(a: string, sep: string, rest: string)
    requires NoFieldSeparator(a) && IsSeparatorRun(sep)
    requires rest == [] || !IsFieldSeparator(rest[0])
    ensures SplitFields(a + sep + rest) == [a] + SplitFields(rest)
  {
    if a == [] {
      assert a + sep + rest == sep + rest;
      SplitFieldsOfRun(sep, rest);
    } else {
      SplitFieldsAfterRun(a[1..], sep, rest);
      assert (a + sep + rest)[0] == a[0];
      assert (a + sep + rest)[1..] == a[1..] + sep + rest;
      assert [a[0]] + a[1..] == a;
    }
  }

  /** s and t agree except where both hold a separator character. */
  predicate SameBesideSeparators(s: string, t: string)
  {
    |s| == |t| && forall i :: 0 <= i < |s| ==> s[i] == t[i] || (IsFieldSeparator(s[i]) && IsFieldSeparator(t[i]))
  }

  lemma SameBesideSeparatorsTails(s: string, t: string)
    requires SameBesideSeparators(s, t) && |s| > 0
    ensures SameBesideSeparators(s[1..], t[1..])
  {
    assert forall i :: 0 <= i < |s| - 1 ==> s[1..][i] == s[i + 1] && t[1..][i] == t[i + 1];
  }

  /** Any separator character may stand for any other: only the positions of the runs matter. */
  lemma {:induction false} SeparatorsInterchangeable(s: string, t: string)
    requires SameBesideSeparators(s, t)
    ensures SplitFields(s) == SplitFields(t)
  {
    if s != [] {
      SameBesideSeparatorsTails(s, t);
      SeparatorsInterchangeable(s[1..], t[1..]);
      if IsFieldSeparator(s[0]) {
        assert IsFieldSeparator(t[0]);
        if |s| > 1 { assert IsFieldSeparator(s[1]) <==> IsFieldSeparator(t[1]); }
      } else {
        assert s[0] == t[0];
      }
    }
  }

  function DigitValue(c: char): (d: nat)
    requires IsDigit(c)
    ensures d < 10
  {
    c as int - '0' as int
  }

  function DigitChar(d: nat): (c: char)
    requires d < 10
    ensures IsDigit(c) && DigitValue(c) == d
  {
    ('0' as int + d) as char
  }

  /** The number a run of decimal digits denotes (most significant first); 0 for no digits. */
  function DigitsValue(s: string): nat
    requires AllDigits(s)
  {
    if s == [] then 0 else 10 * DigitsValue(s[..|s| - 1]) + DigitValue(s[|s| - 1])
  }

  /** `String(n)` for a non-negative integer: its shortest decimal representation. */
  function NatToString(n: nat): (s: string)
    ensures |s| >= 1 && AllDigits(s)
    ensures DigitsValue(s) == n
    ensures |s| > 1 ==> s[0] != '0'
  {
    if n < 10 then [DigitChar(n)]
    else
      var s := NatToString(n / 10) + [DigitChar(n % 10)];
      assert s[..|s| - 1] == NatToString(n / 10);
      s
  }

  /** `String(i)` for an integer: a minus sign before the digits of a negative one. */
  function IntToString(i: int): (s: string)
    ensures i >= 0 ==> s == NatToString(i)
    ensures i < 0 ==> s == "-" + NatToString(-i)
  {
    if i < 0 then "-" + NatToString(-i) else NatToString(i)
  }

  function Repeat(c: char, n: nat): (s: string)
    ensures |s| == n && forall i :: 0 <= i < n ==> s[i] == c
  {
    if n == 0 then "" else [c] + Repeat(c, n - 1)
  }

  /** JavaScript's `s.padStart(width, fill)` for a one-character fill. */
  function PadStart(s: string, width: nat, fill: char): (r: string)
    ensures |r| == if |s| >= width then |s| else width
    ensures r == Repeat(fill, |r| - |s|) + s
  {
    if |s| >= width then (assert Repeat(fill, 0) + s == s; s) else Repeat(fill, width - |s|) + s
  }

  lemma {:induction false} ZerosValue(n: nat)
    ensures AllDigits(Repeat('0', n)) && DigitsValue(Repeat('0', n)) == 0
  {
    if n > 0 {
      ZerosValue(n - 1);
      var z := Repeat('0', n);
      assert z[..n - 1] == Repeat('0', n - 1);
    }
  }

  /** Leading zeros do not change the value of a digit run. */
  lemma {:induction false} LeadingZerosValue(k: nat, s: string)
    requires AllDigits(s)
    ensures AllDigits(Repeat('0', k) + s)
    ensures DigitsValue(Repeat('0', k) + s) == DigitsValue(s)
  {
    var z := Repeat('0', k);
    if s == [] {
      assert z + s == z;
      ZerosValue(k);
    } else {
      var s' := s[..|s| - 1];
      LeadingZerosValue(k, s');
      assert (z + s)[..|z + s| - 1] == z + s';
    }
  }

  /** `String(n).padStart(w, '0')` is a digit run that still denotes n. */
  lemma ZeroPaddedValue(n: nat, w: nat)
    ensures AllDigits(PadStart(NatToString(n), w, '0'))
    ensures DigitsValue(PadStart(NatToString(n), w, '0')) == n
  {
    var s := NatToString(n);
    LeadingZerosValue(|PadStart(s, w, '0')| - |s|, s);
  }
}
