/**
  `raDecToDegrees` of src/utils/convertRaDec.js: sexagesimal right ascension ("hh mm ss.s",
  hours) and declination ("±dd mm ss.s", degrees) strings to decimal degrees. Fields are
  separated by runs of whitespace and/or colons and converted with JavaScript's `Number`.
 */
module ConvertRaDec {
  import opened Common
  import opened Strings

  /** A JavaScript number as these conversions can produce it: a finite value or NaN. */
  datatype Num = Num(value: real) | NaN

  /** The length of the longest run of digits at the front of s. */
  function LeadingDigits(s: string): (n: nat)
    ensures n <= |s| && AllDigits(s[..n])
    ensures n == |s| || !IsDigit(s[n])
  {
    if s != [] && IsDigit(s[0]) then
      var n := 1 + LeadingDigits(s[1..]);
      assert s[..n] == [s[0]] + s[1..][..n - 1];
      n
    else 0
  }

  /** The value of the digits after a decimal point: "25" is 0.25. */
  function FractionValue(f: string): real
    requires AllDigits(f)
  {
    if f == [] then 0.0 else (DigitValue(f[0]) as real + FractionValue(f[1..])) / 10.0
  }

  /** A decimal numeral without sign: digits, optionally a point and more digits, at least one digit. */
  function ParseUnsigned(s: string): Num
  {
    var i := LeadingDigits(s);
    var whole := DigitsValue(s[..i]);
    if i == |s| then (if i > 0 then Num(whole as real) else NaN)
    else if s[i] == '.' && AllDigits(s[i + 1..]) && (i > 0 || i + 1 < |s|) then
      Num(whole as real + FractionValue(s[i + 1..]))
    else NaN
  }

  /**
    JavaScript's `Number(piece)` on a piece that holds no whitespace: the empty string is 0,
    a decimal numeral with an optional sign is its value, anything else is NaN.
   */
  function ParseNumber(s: string): Num
  {
    if s == [] then Num(0.0)
    else if s[0] == '-' then (match ParseUnsigned(s[1..]) case Num(v) => Num(-v) case NaN => NaN)
    else if s[0] == '+' then ParseUnsigned(s[1..])
    else ParseUnsigned(s)
  }

  /** The i-th destructured field after `.map(Number)`: a missing one is `undefined`, which makes the sum NaN. */
  function Field(parts: seq<string>, i: nat): Num
  {
    if i < |parts| then ParseNumber(parts[i]) else NaN
  }

  /** a + b / 60 + c / 3600 with NaN propagating. */
  function Sexagesimal(parts: seq<string>): Num
  {
    match (Field(parts, 0), Field(parts, 1), Field(parts, 2))
    case (Num(a), Num(b), Num(c)) => Num(a + b / 60.0 + c / 3600.0)
    case _ => NaN
  }

  /** Degrees (or hours), minutes and seconds as one value: the sum `Sexagesimal` takes. */
  function SexagesimalSum(x: real, y: real, z: real): real
  {
    x + y / 60.0 + z / 3600.0
  }

  function Scale(k: real, x: Num): Num
  {
    match x
    case Num(v) => Num(k * v)
    case NaN => NaN
  }

  predicate IsSignChar(c: char)
  {
    c == '+' || c == '-'
  }

  predicate NoSignChar(s: string)
  {
    forall i :: 0 <= i < |s| ==> !IsSignChar(s[i])
  }

  /** `s.replace(/[+-]/, '')`: the expression is not global, so only the first sign character goes. */
  function RemoveFirstSign(s: string): (r: string)
    ensures NoSignChar(s) ==> r == s
    ensures !NoSignChar(s) ==> |r| == |s| - 1
  {
    if s == [] then []
    else if IsSignChar(s[0]) then s[1..]
    else
      var r := [s[0]] + RemoveFirstSign(s[1..]);
      assert !NoSignChar(s) ==> !NoSignChar(s[1..]) by {
        if !NoSignChar(s) {
          var i :| 0 <= i < |s| && IsSignChar(s[i]);
          assert i > 0 && s[1..][i - 1] == s[i];
        }
      }
      assert NoSignChar(s) ==> NoSignChar(s[1..]) by {
        if NoSignChar(s) {
          forall i | 0 <= i < |s| - 1 ensures !IsSignChar(s[1..][i]) {
            assert s[1..][i] == s[i + 1];
          }
        }
      }
      r
  }

  /** Exactly the first sign character is dropped; everything before and after it stays. */
  lemma {:induction false} RemoveFirstSignAt(s: string, i: nat)
    requires i < |s| && IsSignChar(s[i]) && NoSignChar(s[..i])
    ensures RemoveFirstSign(s) == s[..i] + s[i + 1..]
  {
    if i > 0 {
      assert s[0] == s[..i][0];
      assert s[1..][..i - 1] == s[..i][1..];
      RemoveFirstSignAt(s[1..], i - 1);
      assert s[..i] == [s[0]] + s[1..][..i - 1];
      assert s[i + 1..] == s[1..][i..];
    }
  }

  /** A second sign survives: "--5" becomes "-5", which `Number` reads as -5. */
  lemma SecondSignSurvives()
    ensures RemoveFirstSign("--5") == "-5"
  {
    assert "--5"[1..] == "-5";
  }

  /** A sign inside the text is dropped too: "12+30-00" becomes "1230-00". */
  lemma InnerSignRemoved()
    ensures RemoveFirstSign("12+30-00") == "1230-00"
  {
    var s := "12+30-00";
    assert s[..2] == "12";
    RemoveFirstSignAt(s, 2);
    assert s[..2] + s[3..] == "1230-00";
  }

  /** The declination's sign: -1 when the trimmed text starts with a minus, else 1. */
  function DecSign(dec: string): real
  {
    if StartsWith(Trim(dec), "-") then -1.0 else 1.0
  }

  datatype Degrees = Degrees(ra: Num, dec: Num)

  /** The right ascension in degrees: hours, minutes and seconds of time, times 15. */
  function RaDegrees(ra: string): Num
  {
    Scale(15.0, Sexagesimal(SplitFields(Trim(ra))))
  }

  /** The declination in degrees: the sign is taken off the text and applied to the sum. */
  function DecDegrees(dec: string): Num
  {
    Scale(DecSign(dec), Sexagesimal(SplitFields(Trim(RemoveFirstSign(dec)))))
  }

  /** `raDecToDegrees(ra, dec)`: each coordinate is converted from its own string only. */
  function RaDecToDegrees(ra: string, dec: string): Degrees
  {
    Degrees(RaDegrees(ra), DecDegrees(dec))
  }

  // ---------------------------------------------------------------------------
  // Round trip with sexagesimal text
  // ---------------------------------------------------------------------------

  lemma {:induction false} LeadingDigitsOfDigits(s: string, rest: string)
    requires AllDigits(s) && (rest == [] || !IsDigit(rest[0]))
    ensures LeadingDigits(s + rest) == |s|
  {
    if s != [] {
      assert (s + rest)[1..] == s[1..] + rest;
      LeadingDigitsOfDigits(s[1..], rest);
    }
  }

  /** A non-empty digit run is read as the integer it spells. */
  lemma ParseDigits(w: string)
    requires AllDigits(w) && |w| > 0
    ensures ParseNumber(w) == Num(DigitsValue(w) as real)
  {
    LeadingDigitsOfDigits(w, "");
    assert w + "" == w;
  }

  /** A sign before a digit run: a minus negates the value, a plus leaves it, and "" is 0. */
  lemma SignedDigits(w: string)
    requires AllDigits(w) && |w| > 0
    ensures ParseNumber("-" + w) == Num(-(DigitsValue(w) as real))
    ensures ParseNumber("+" + w) == Num(DigitsValue(w) as real)
    ensures ParseNumber("") == Num(0.0)
  {
    ParseDigits(w);
    assert IsDigit(w[0]);
    assert ParseUnsigned(w) == Num(DigitsValue(w) as real);
    assert ("-" + w)[0] == '-' && ("-" + w)[1..] == w;
    assert ("+" + w)[0] == '+' && ("+" + w)[1..] == w;
  }

  lemma ParseUnsignedPointDigits(w: string, f: string)
    requires AllDigits(w) && |w| > 0 && AllDigits(f)
    ensures ParseUnsigned(w + ("." + f)) == Num(DigitsValue(w) as real + FractionValue(f))
  {
    var t := w + ("." + f);
    assert LeadingDigits(t) == |w| by {
      LeadingDigitsOfDigits(w, "." + f);
    }
    assert t[..|w|] == w && t[|w|] == '.' && t[|w| + 1..] == f;
    ParseUnsignedAtPoint(t, |w|, w, f);
  }

  lemma ParseUnsignedAtPoint(t: string, i: nat, w: string, f: string)
    requires AllDigits(w) && |w| > 0 && AllDigits(f)
    requires LeadingDigits(t) == i && i < |t| && t[..i] == w && t[i] == '.' && t[i + 1..] == f
    ensures ParseUnsigned(t) == Num(DigitsValue(w) as real + FractionValue(f))
  {
  }

  /** Digits, a point and digits are read as the decimal value they spell. */
  lemma ParseDigitsPointDigits(w: string, f: string)
    requires AllDigits(w) && |w| > 0 && AllDigits(f)
    ensures ParseNumber(w + "." + f) == Num(DigitsValue(w) as real + FractionValue(f))
  {
    assert w + "." + f == w + ("." + f);
    ParseUnsignedPointDigits(w, f);
    assert (w + ("." + f))[0] == w[0];
  }

  /** `String(n).padStart(2, '0')`. */
  function Pad2(n: nat): (s: string)
    ensures |s| >= 2 && AllDigits(s) && DigitsValue(s) == n
  {
    ZeroPaddedValue(n, 2);
    PadStart(NatToString(n), 2, '0')
  }

  /** Seconds such as "44.330": two digits, then a point and the digits f when there are any. */
  function DecimalText(whole: nat, f: string): string
  {
    if f == [] then Pad2(whole) else Pad2(whole) + "." + f
  }

  /** Digits and points only. */
  predicate NumeralChars(s: string)
  {
    forall i :: 0 <= i < |s| ==> IsDigit(s[i]) || s[i] == '.'
  }

  lemma NumeralCharIsPlain(c: char)
    requires IsDigit(c) || c == '.'
    ensures !IsFieldSeparator(c) && !IsSignChar(c)
  {
  }

  lemma NumeralCharsArePlain(s: string)
    requires NumeralChars(s)
    ensures NoFieldSeparator(s) && NoSignChar(s)
  {
    forall i | 0 <= i < |s| ensures !IsFieldSeparator(s[i]) && !IsSignChar(s[i]) {
      NumeralCharIsPlain(s[i]);
    }
  }

  /** A field that begins and ends with a digit and holds no separator and no sign. */
  predicate UnsignedField(t: string)
  {
    |t| > 0 && IsDigit(t[0]) && IsDigit(t[|t| - 1]) && NoFieldSeparator(t) && NoSignChar(t)
  }

  lemma Pad2Field(n: nat)
    ensures UnsignedField(Pad2(n)) && ParseNumber(Pad2(n)) == Num(n as real)
  {
    DigitsHaveNoSeparator(Pad2(n));
    ParseDigits(Pad2(n));
  }

  lemma PointJoinShape(w: string, f: string)
    requires AllDigits(w) && |w| > 0 && AllDigits(f) && |f| > 0
    ensures UnsignedField(w + "." + f)
  {
    var t := w + "." + f;
    forall i | 0 <= i < |t| ensures IsDigit(t[i]) || t[i] == '.' {
      if i < |w| { assert t[i] == w[i]; }
      else if i > |w| { assert t[i] == f[i - |w| - 1]; }
    }
    NumeralCharsArePlain(t);
    assert t[0] == w[0];
    assert t[|t| - 1] == f[|f| - 1];
  }

  lemma DecimalTextShape(whole: nat, f: string)
    requires AllDigits(f)
    ensures UnsignedField(DecimalText(whole, f))
  {
    Pad2Field(whole);
    if f != [] {
      PointJoinShape(Pad2(whole), f);
    }
  }

  /** Decimal text is read back as the value it was written from. */
  lemma DecimalTextValue(whole: nat, f: string)
    requires AllDigits(f)
    ensures ParseNumber(DecimalText(whole, f)) == Num(whole as real + FractionValue(f))
  {
    var w := Pad2(whole);
    if f == [] {
      ParseDigits(w);
    } else {
      ParseDigitsPointDigits(w, f);
    }
  }

  /** Decimal seconds text can stand as the seconds field of a coordinate. */
  lemma DecimalField(whole: nat, f: string)
    requires AllDigits(f)
    ensures UnsignedField(DecimalText(whole, f))
    ensures ParseNumber(DecimalText(whole, f)) == Num(whole as real + FractionValue(f))
  {
    DecimalTextShape(whole, f);
    DecimalTextValue(whole, f);
  }

  lemma {:induction false} ThreeFields(a: string, b: string, c: string, sep1: string, sep2: string)
    requires NoFieldSeparator(a) && NoFieldSeparator(b) && NoFieldSeparator(c)
    requires |b| > 0 && |c| > 0 && !IsFieldSeparator(b[0]) && !IsFieldSeparator(c[0])
    requires IsSeparatorRun(sep1) && IsSeparatorRun(sep2)
    ensures SplitFields(a + sep1 + b + sep2 + c) == [a, b, c]
  {
    assert a + sep1 + b + sep2 + c == a + sep1 + (b + sep2 + c);
    assert (b + sep2 + c)[0] == b[0];
    SplitFieldsAfterRun(a, sep1, b + sep2 + c);
    SplitFieldsAfterRun(b, sep2, c);
    SplitFieldsWithoutSeparator(c);
  }

  lemma {:induction false} NoSignConcat(x: string, y: string)
    requires NoSignChar(x) && NoSignChar(y)
    ensures NoSignChar(x + y)
  {
    forall i | 0 <= i < |x + y| ensures !IsSignChar((x + y)[i]) {
      if i < |x| { assert (x + y)[i] == x[i]; } else { assert (x + y)[i] == y[i - |x|]; }
    }
  }

  lemma {:induction false} SeparatorsHaveNoSign(sep: string)
    requires forall i :: 0 <= i < |sep| ==> IsFieldSeparator(sep[i])
    ensures NoSignChar(sep)
  {
    forall i | 0 <= i < |sep| ensures !IsSignChar(sep[i]) {
      assert IsFieldSeparator(sep[i]);
    }
  }

  lemma {:induction false} WhitespaceHasNoSign(w: string)
    requires AllWhitespace(w)
    ensures NoSignChar(w)
  {
    forall i | 0 <= i < |w| ensures !IsSignChar(w[i]) {
      assert IsWhitespace(w[i]);
    }
  }

  lemma {:induction false} NoSignInFields(a: string, b: string, c: string, sep1: string, sep2: string)
    requires NoSignChar(a) && NoSignChar(b) && NoSignChar(c)
    requires IsSeparatorRun(sep1) && IsSeparatorRun(sep2)
    ensures NoSignChar(a + sep1 + b + sep2 + c)
  {
    SeparatorsHaveNoSign(sep1);
    SeparatorsHaveNoSign(sep2);
    NoSignConcat(a, sep1);
    NoSignConcat(a + sep1, b);
    NoSignConcat(a + sep1 + b, sep2);
    NoSignConcat(a + sep1 + b + sep2, c);
  }

  /** Three fields a, b, c joined by separator runs read as a + b / 60 + c / 3600. */
  lemma {:induction false} SexagesimalOfFields(a: string, b: string, c: string, sep1: string, sep2: string, x: real, y: real, z: real)
    requires UnsignedField(a) && UnsignedField(b) && UnsignedField(c)
    requires IsSeparatorRun(sep1) && IsSeparatorRun(sep2)
    requires ParseNumber(a) == Num(x) && ParseNumber(b) == Num(y) && ParseNumber(c) == Num(z)
    ensures Unpadded(a + sep1 + b + sep2 + c) && NoSignChar(a + sep1 + b + sep2 + c)
    ensures Sexagesimal(SplitFields(a + sep1 + b + sep2 + c)) == Num(x + y / 60.0 + z / 3600.0)
  {
    ThreeFields(a, b, c, sep1, sep2);
    NoSignInFields(a, b, c, sep1, sep2);
    var text := a + sep1 + b + sep2 + c;
    assert text[0] == a[0];
    assert text[|text| - 1] == c[|c| - 1];
  }

  /** The text `hh<sep1>mm<sep2>seconds`, each separator a run of blanks and colons. */
  function SexagesimalText(h: nat, m: nat, seconds: string, sep1: string, sep2: string): string
  {
    Pad2(h) + sep1 + Pad2(m) + sep2 + seconds
  }

  /**
    Three numerals with any runs of blanks and colons between them and any whitespace around
    them, such as " 00 : 42:44.330 ", are read back as 15 (x + y / 60 + z / 3600) degrees,
    x, y and z being the values `Number` reads the numerals as.
   */
  lemma {:induction false} RaRoundTrip(pre: string, a: string, b: string, c: string, sep1: string, sep2: string,
                                       post: string, x: real, y: real, z: real)
    requires AllWhitespace(pre) && AllWhitespace(post)
    requires IsSeparatorRun(sep1) && IsSeparatorRun(sep2)
    requires UnsignedField(a) && UnsignedField(b) && UnsignedField(c)
    requires ParseNumber(a) == Num(x) && ParseNumber(b) == Num(y) && ParseNumber(c) == Num(z)
    ensures RaDegrees(pre + (a + sep1 + b + sep2 + c) + post) == Num(15.0 * SexagesimalSum(x, y, z))
  {
    RaFieldsValue(pre, a, b, c, sep1, sep2, post, x, y, z, SexagesimalSum(x, y, z));
  }

  /** RaRoundTrip for the sum v written out, which the string reasoning below needs. */
  lemma {:induction false} RaFieldsValue(pre: string, a: string, b: string, c: string, sep1: string, sep2: string,
                                         post: string, x: real, y: real, z: real, v: real)
    requires AllWhitespace(pre) && AllWhitespace(post)
    requires IsSeparatorRun(sep1) && IsSeparatorRun(sep2)
    requires UnsignedField(a) && UnsignedField(b) && UnsignedField(c)
    requires ParseNumber(a) == Num(x) && ParseNumber(b) == Num(y) && ParseNumber(c) == Num(z)
    requires v == x + y / 60.0 + z / 3600.0
    ensures RaDegrees(pre + (a + sep1 + b + sep2 + c) + post) == Num(15.0 * v)
  {
    SexagesimalOfFields(a, b, c, sep1, sep2, x, y, z);
    RaOfPaddedText(pre, a + sep1 + b + sep2 + c, post, v);
  }

  lemma {:induction false} RaOfPaddedText(pre: string, text: string, post: string, v: real)
    requires AllWhitespace(pre) && AllWhitespace(post) && Unpadded(text)
    requires Sexagesimal(SplitFields(text)) == Num(v)
    ensures RaDegrees(pre + text + post) == Num(15.0 * v)
  {
    TrimPadded(pre, text, post);
    RaDegreesOf(pre + text + post, text, v);
  }

  lemma {:induction false} RaDegreesOf(ra: string, text: string, v: real)
    requires Trim(ra) == text && Sexagesimal(SplitFields(text)) == Num(v)
    ensures RaDegrees(ra) == Num(15.0 * v)
  {
  }

  /** Text without a sign is left as it is and counts as positive. */
  lemma {:induction false} NoLeadingSign(text: string)
    requires Unpadded(text) && NoSignChar(text)
    ensures RemoveFirstSign(text) == text && DecSign(text) == 1.0
  {
    TrimOfUnpadded(text);
    assert !IsSignChar(text[0]);
  }

  /** A leading sign before text that holds none is removed and decides the factor. */
  lemma {:induction false} LeadingSign(sign: char, text: string)
    requires IsSignChar(sign)
    requires |text| > 0 && !IsWhitespace(text[|text| - 1]) && NoSignChar(text)
    ensures RemoveFirstSign([sign] + text) == text
    ensures DecSign([sign] + text) == if sign == '-' then -1.0 else 1.0
  {
    var dec := [sign] + text;
    assert dec[1..] == text;
    assert dec[|dec| - 1] == text[|text| - 1];
    SignOfUnpadded(dec);
  }

  /** Text that does not begin with whitespace is negative exactly when it begins with a minus. */
  lemma {:induction false} SignOfUnpadded(dec: string)
    requires Unpadded(dec)
    ensures DecSign(dec) == if dec[0] == '-' then -1.0 else 1.0
  {
    TrimOfUnpadded(dec);
    assert StartsWith(dec, "-") <==> dec[..1] == "-";
    assert dec[..1] == [dec[0]];
  }

  /** `dec.trim()` of a padded declination: the sign, the blanks after it and the fields. */
  lemma {:induction false} TrimSignedText(pre: string, sign: char, gap: string, text: string, post: string)
    requires AllWhitespace(pre) && AllWhitespace(gap) && AllWhitespace(post)
    requires IsSignChar(sign) && Unpadded(text)
    ensures Trim(pre + [sign] + gap + text + post) == [sign] + gap + text
  {
    var core := [sign] + gap + text;
    assert core[0] == sign;
    assert core[|core| - 1] == text[|text| - 1];
    assert pre + [sign] + gap + text + post == pre + core + post;
    TrimPadded(pre, core, post);
  }

  /** With a sign, `dec.trim()` starts with it. */
  lemma {:induction false} SignedDecSign(pre: string, sign: char, gap: string, text: string, post: string)
    requires AllWhitespace(pre) && AllWhitespace(gap) && AllWhitespace(post)
    requires IsSignChar(sign) && Unpadded(text)
    ensures DecSign(pre + [sign] + gap + text + post) == if sign == '-' then -1.0 else 1.0
  {
    TrimSignedText(pre, sign, gap, text, post);
    var core := [sign] + gap + text;
    assert core[..1] == [sign];
  }

  /** The replace removes the sign after the leading whitespace, and nothing else. */
  lemma {:induction false} SignedDecRemove(pre: string, sign: char, rest: string)
    requires AllWhitespace(pre) && IsSignChar(sign)
    ensures RemoveFirstSign(pre + [sign] + rest) == pre + rest
  {
    var dec := pre + [sign] + rest;
    WhitespaceHasNoSign(pre);
    assert dec[..|pre|] == pre && dec[|pre|] == sign;
    assert dec[|pre| + 1..] == rest;
    RemoveFirstSignAt(dec, |pre|);
  }

  /** Without a sign: the text is positive and the replace changes nothing. */
  lemma {:induction false} UnsignedDecText(pre: string, text: string, post: string)
    requires AllWhitespace(pre) && AllWhitespace(post)
    requires Unpadded(text) && NoSignChar(text)
    ensures DecSign(pre + text + post) == 1.0
    ensures RemoveFirstSign(pre + text + post) == pre + text + post
  {
    UnsignedDecSign(pre, text, post);
    UnsignedDecKept(pre, text, post);
  }

  lemma {:induction false} UnsignedDecSign(pre: string, text: string, post: string)
    requires AllWhitespace(pre) && AllWhitespace(post)
    requires Unpadded(text) && NoSignChar(text)
    ensures DecSign(pre + text + post) == 1.0
  {
    TrimPadded(pre, text, post);
    assert !IsSignChar(text[0]);
    assert text[..1] == [text[0]];
  }

  lemma {:induction false} UnsignedDecKept(pre: string, text: string, post: string)
    requires AllWhitespace(pre) && AllWhitespace(post) && NoSignChar(text)
    ensures RemoveFirstSign(pre + text + post) == pre + text + post
  {
    WhitespaceHasNoSign(pre);
    WhitespaceHasNoSign(post);
    NoSignConcat(pre, text);
    NoSignConcat(pre + text, post);
  }

  lemma {:induction false} WhitespaceConcat(x: string, y: string)
    requires AllWhitespace(x) && AllWhitespace(y)
    ensures AllWhitespace(x + y)
  {
    forall i | 0 <= i < |x + y| ensures IsWhitespace((x + y)[i]) {
      if i < |x| { assert (x + y)[i] == x[i]; } else { assert (x + y)[i] == y[i - |x|]; }
    }
  }

  /** The sign of a declination written as whitespace, an optional sign, blanks, the text and whitespace. */
  lemma {:induction false} DecTextSign(pre: string, signText: string, gap: string, text: string, post: string)
    requires signText == "" || signText == "+" || signText == "-"
    requires AllWhitespace(pre) && AllWhitespace(gap) && AllWhitespace(post)
    requires Unpadded(text) && NoSignChar(text)
    ensures DecSign(pre + signText + gap + text + post) == if signText == "-" then -1.0 else 1.0
  {
    if signText == "" {
      WhitespaceConcat(pre, gap);
      assert pre + signText + gap + text + post == (pre + gap) + text + post;
      UnsignedDecText(pre + gap, text, post);
    } else {
      assert pre + signText + gap + text + post == pre + [signText[0]] + gap + text + post;
      SignedDecSign(pre, signText[0], gap, text, post);
    }
  }

  /** What the replace and the trim leave of such a declination: exactly the unsigned text. */
  lemma {:induction false} DecTextRemoved(pre: string, signText: string, gap: string, text: string, post: string)
    requires signText == "" || signText == "+" || signText == "-"
    requires AllWhitespace(pre) && AllWhitespace(gap) && AllWhitespace(post)
    requires Unpadded(text) && NoSignChar(text)
    ensures Trim(RemoveFirstSign(pre + signText + gap + text + post)) == text
  {
    WhitespaceConcat(pre, gap);
    TrimPadded(pre + gap, text, post);
    if signText == "" {
      assert pre + signText == pre;
      UnsignedDecText(pre + gap, text, post);
    } else {
      var lead := pre + signText;
      assert signText == [signText[0]];
      ConcatAssociative(lead, gap, text);
      ConcatAssociative(lead, gap + text, post);
      SignedDecRemove(pre, signText[0], gap + text + post);
      ConcatAssociative(pre, gap, text);
      ConcatAssociative(pre, gap + text, post);
    }
  }

  lemma {:induction false} DecDegreesOf(dec: string, text: string, minus: bool, v: real)
    requires Trim(RemoveFirstSign(dec)) == text && DecSign(dec) == if minus then -1.0 else 1.0
    requires Sexagesimal(SplitFields(text)) == Num(v)
    ensures DecDegrees(dec) == Num(if minus then -v else v)
  {
    assert DecDegrees(dec) == Scale(DecSign(dec), Num(v));
    ScaleBySign(minus, v);
  }

  lemma ScaleBySign(minus: bool, v: real)
    ensures Scale(if minus then -1.0 else 1.0, Num(v)) == Num(if minus then -v else v)
  {
  }

  /** A sign, then three fields: the sum a + b / 60 + c / 3600, negated exactly for a minus. */
  lemma {:induction false} DecFieldsRoundTrip(pre: string, signText: string, gap: string, a: string, b: string, c: string,
                           sep1: string, sep2: string, post: string, x: real, y: real, z: real)
    requires signText == "" || signText == "+" || signText == "-"
    requires AllWhitespace(pre) && AllWhitespace(gap) && AllWhitespace(post)
    requires UnsignedField(a) && UnsignedField(b) && UnsignedField(c)
    requires IsSeparatorRun(sep1) && IsSeparatorRun(sep2)
    requires ParseNumber(a) == Num(x) && ParseNumber(b) == Num(y) && ParseNumber(c) == Num(z)
    ensures DecDegrees(pre + signText + gap + (a + sep1 + b + sep2 + c) + post)
            == Num(if signText == "-" then -SexagesimalSum(x, y, z) else SexagesimalSum(x, y, z))
  {
    DecFieldsValue(pre, signText, gap, a, b, c, sep1, sep2, post, x, y, z, SexagesimalSum(x, y, z));
  }

  /** DecFieldsRoundTrip for the sum v written out, which the string reasoning below needs. */
  lemma {:induction false} DecFieldsValue(pre: string, signText: string, gap: string, a: string, b: string, c: string,
                                          sep1: string, sep2: string, post: string, x: real, y: real, z: real, v: real)
    requires signText == "" || signText == "+" || signText == "-"
    requires AllWhitespace(pre) && AllWhitespace(gap) && AllWhitespace(post)
    requires UnsignedField(a) && UnsignedField(b) && UnsignedField(c)
    requires IsSeparatorRun(sep1) && IsSeparatorRun(sep2)
    requires ParseNumber(a) == Num(x) && ParseNumber(b) == Num(y) && ParseNumber(c) == Num(z)
    requires v == x + y / 60.0 + z / 3600.0
    ensures DecDegrees(pre + signText + gap + (a + sep1 + b + sep2 + c) + post) == Num(if signText == "-" then -v else v)
  {
    SexagesimalOfFields(a, b, c, sep1, sep2, x, y, z);
    DecSignedRoundTrip(pre, signText, gap, a + sep1 + b + sep2 + c, post, v);
  }

  /** Unsigned text worth v, written with an optional sign and padding, is worth ±v as a declination. */
  lemma {:induction false} DecSignedRoundTrip(pre: string, signText: string, gap: string, text: string, post: string, v: real)
    requires signText == "" || signText == "+" || signText == "-"
    requires AllWhitespace(pre) && AllWhitespace(gap) && AllWhitespace(post)
    requires Unpadded(text) && NoSignChar(text) && Sexagesimal(SplitFields(text)) == Num(v)
    ensures DecDegrees(pre + signText + gap + text + post) == Num(if signText == "-" then -v else v)
  {
    DecTextSign(pre, signText, gap, text, post);
    DecTextRemoved(pre, signText, gap, text, post);
    DecDegreesOf(pre + signText + gap + text + post, text, signText == "-", v);
  }

  /**
    Text `[sign][blanks]dd<sep1>mm<sep2>ss.sss`, padded with whitespace and with any runs of
    blanks and colons between the fields, is read back as sign (d + m / 60 + s / 3600) degrees,
    the sign being -1 exactly for a leading minus, also when d is 0.
   */
  lemma {:induction false} DecRoundTrip(pre: string, signText: string, gap: string, d: nat, m: nat, seconds: string, s: real,
                     sep1: string, sep2: string, post: string)
    requires signText == "" || signText == "+" || signText == "-"
    requires AllWhitespace(pre) && AllWhitespace(gap) && AllWhitespace(post)
    requires IsSeparatorRun(sep1) && IsSeparatorRun(sep2)
    requires UnsignedField(seconds) && ParseNumber(seconds) == Num(s)
    ensures DecDegrees(pre + signText + gap + SexagesimalText(d, m, seconds, sep1, sep2) + post)
            == Num(if signText == "-" then -SexagesimalSum(d as real, m as real, s) else SexagesimalSum(d as real, m as real, s))
  {
    Pad2Field(d);
    Pad2Field(m);
    DecFieldsRoundTrip(pre, signText, gap, Pad2(d), Pad2(m), seconds, sep1, sep2, post, d as real, m as real, s);
  }

  /**
    Both coordinates at once: `raDecToDegrees` of a right ascension and a declination written
    as fields reads each from its own text.
   */
  lemma {:induction false} RaDecRoundTrip(h: string, m: string, s: string, signText: string, d: string, m2: string,
                                          s2: string, x: real, y: real, z: real, x2: real, y2: real, z2: real)
    requires signText == "" || signText == "+" || signText == "-"
    requires UnsignedField(h) && UnsignedField(m) && UnsignedField(s)
    requires UnsignedField(d) && UnsignedField(m2) && UnsignedField(s2)
    requires ParseNumber(h) == Num(x) && ParseNumber(m) == Num(y) && ParseNumber(s) == Num(z)
    requires ParseNumber(d) == Num(x2) && ParseNumber(m2) == Num(y2) && ParseNumber(s2) == Num(z2)
    ensures RaDecToDegrees(h + ":" + m + ":" + s, signText + (d + ":" + m2 + ":" + s2))
            == Degrees(Num(15.0 * SexagesimalSum(x, y, z)),
                       Num(if signText == "-" then -SexagesimalSum(x2, y2, z2) else SexagesimalSum(x2, y2, z2)))
  {
    ColonLayout();
    RaRoundTrip("", h, m, s, ":", ":", "", x, y, z);
    EmptyAround(h + ":" + m + ":" + s);
    DecFieldsRoundTrip("", signText, "", d, m2, s2, ":", ":", "", x2, y2, z2);
    EmptyAround(signText);
    EmptyAround(signText + (d + ":" + m2 + ":" + s2));
  }

  /**
    The round trip for seconds written with decimals, such as "00:42:44.330": the seconds are
    worth their whole part plus the value of the fraction digits.
   */
  lemma {:induction false} RaDecimalRoundTrip(h: nat, m: nat, sWhole: nat, f: string, s: real)
    requires AllDigits(f) && s == sWhole as real + FractionValue(f)
    ensures RaDegrees(SexagesimalText(h, m, DecimalText(sWhole, f), ":", ":"))
            == Num(15.0 * SexagesimalSum(h as real, m as real, s))
  {
    DecimalField(sWhole, f);
    RaColonText(h, m, DecimalText(sWhole, f), s);
  }

  /** `hh:mm:<seconds>` for any seconds numeral worth s. */
  lemma {:induction false} RaColonText(h: nat, m: nat, seconds: string, s: real)
    requires UnsignedField(seconds) && ParseNumber(seconds) == Num(s)
    ensures RaDegrees(SexagesimalText(h, m, seconds, ":", ":")) == Num(15.0 * SexagesimalSum(h as real, m as real, s))
  {
    Pad2Field(h);
    Pad2Field(m);
    ColonLayout();
    RaRoundTrip("", Pad2(h), Pad2(m), seconds, ":", ":", "", h as real, m as real, s);
    ColonText(h, m, seconds);
  }

  lemma ColonText(h: nat, m: nat, seconds: string)
    ensures SexagesimalText(h, m, seconds, ":", ":") == "" + (Pad2(h) + ":" + Pad2(m) + ":" + seconds) + ""
  {
    EmptyAround(Pad2(h) + ":" + Pad2(m) + ":" + seconds);
  }

  /** The layout `raDecToDegrees` is mostly given: no padding, single colons. */
  lemma ColonLayout()
    ensures AllWhitespace("") && IsSeparatorRun(":")
  {
    assert ":"[0] == ':';
  }

  /**
    Colons and blanks are interchangeable in a right ascension: "00:42:44.330" and
    "00 42 44.330" give the same value. The texts must not begin or end with whitespace, since
    `trim` removes a blank there but not a colon: ":1:2:3" and " 1:2:3" differ.
   */
  lemma {:induction false} RaSeparatorsInterchangeable(s: string, t: string)
    requires Unpadded(s) && Unpadded(t) && SameBesideSeparators(s, t)
    ensures RaDegrees(s) == RaDegrees(t)
  {
    TrimOfUnpadded(s);
    TrimOfUnpadded(t);
    SeparatorsInterchangeable(s, t);
  }

  /** The replace of the first sign keeps two texts alike beside their separators. */
  lemma {:induction false} RemoveFirstSignAlike(s: string, t: string)
    requires SameBesideSeparators(s, t)
    ensures SameBesideSeparators(RemoveFirstSign(s), RemoveFirstSign(t))
  {
    if s != [] {
      SameBesideSeparatorsTails(s, t);
      RemoveFirstSignAlike(s[1..], t[1..]);
      if IsSignChar(s[0]) {
        assert t[0] == s[0];
      } else {
        assert !IsSignChar(t[0]);
        var r, u := RemoveFirstSign(s), RemoveFirstSign(t);
        assert r == [s[0]] + RemoveFirstSign(s[1..]) && u == [t[0]] + RemoveFirstSign(t[1..]);
        forall i | 0 <= i < |r| ensures r[i] == u[i] || (IsFieldSeparator(r[i]) && IsFieldSeparator(u[i])) {
          if i > 0 {
            assert r[i] == RemoveFirstSign(s[1..])[i - 1] && u[i] == RemoveFirstSign(t[1..])[i - 1];
          }
        }
      }
    }
  }

  /**
    Colons and blanks are interchangeable in a declination too. Besides the ends of the text,
    the ends of what is left once the sign is removed must not be whitespace: "- 1:2:3" and
    "-:1:2:3" differ only in a separator, but the second keeps an empty first field.
   */
  lemma {:induction false} DecSeparatorsInterchangeable(s: string, t: string)
    requires Unpadded(s) && Unpadded(t) && SameBesideSeparators(s, t)
    requires Unpadded(RemoveFirstSign(s)) && Unpadded(RemoveFirstSign(t))
    ensures DecDegrees(s) == DecDegrees(t)
  {
    TrimOfUnpadded(s);
    TrimOfUnpadded(t);
    assert StartsWith(s, "-") <==> s[..1] == "-";
    assert StartsWith(t, "-") <==> t[..1] == "-";
    assert s[..1] == [s[0]] && t[..1] == [t[0]];
    assert DecSign(s) == DecSign(t);
    RemoveFirstSignAlike(s, t);
    TrimOfUnpadded(RemoveFirstSign(s));
    TrimOfUnpadded(RemoveFirstSign(t));
    SeparatorsInterchangeable(RemoveFirstSign(s), RemoveFirstSign(t));
  }

  /** Fewer than three fields leave a field `undefined`, and the result is NaN. */
  lemma {:induction false} MissingFieldIsNaN(ra: string)
    requires |SplitFields(Trim(ra))| < 3
    ensures RaDegrees(ra) == NaN
  {
  }
}
