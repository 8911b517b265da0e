/**
 * String helpers the modelled Python code relies on: single-character
 * `str.replace`, `str.join` / `str.split` on one separator character,
 * `str.strip()`, `str(int)` and base-10 `int(str)`.
 */
module Text {
  import opened Common

  /** `s.replace(from, to)` where both are single characters. */
  function ReplaceChar(s: string, from: char, to: char): string
  {
    if |s| == 0 then ""
    else [if s[0] == from then to else s[0]] + ReplaceChar(s[1..], from, to)
  }

  /**
   * Replacing one character changes exactly the positions holding it, so
   * afterwards the replaced character no longer occurs.
   */
  lemma {:induction false} ReplaceCharSpec(s: string, from: char, to: char)
    ensures |ReplaceChar(s, from, to)| == |s|
    ensures forall i :: 0 <= i < |s| ==>
              ReplaceChar(s, from, to)[i] == if s[i] == from then to else s[i]
    ensures from != to ==> from !in ReplaceChar(s, from, to)
  {
    if |s| > 0 {
      ReplaceCharSpec(s[1..], from, to);
      var r := ReplaceChar(s, from, to);
      assert forall i :: 1 <= i < |s| ==> r[i] == ReplaceChar(s[1..], from, to)[i - 1];
    }
  }

  /** `sep.join(parts)`. */
  function Join(parts: seq<string>, sep: char): string
  {
    if |parts| == 0 then ""
    else if |parts| == 1 then parts[0]
    else parts[0] + [sep] + Join(parts[1..], sep)
  }

  /** `s.split(sep)`: never empty, one more field than there are separators. */
  function Split(s: string, sep: char): (r: seq<string>)
    ensures |r| >= 1
    ensures forall k :: 0 <= k < |r| ==> sep !in r[k]
  {
    if |s| == 0 then [""]
    else if s[0] == sep then [""] + Split(s[1..], sep)
    else
      var rest := Split(s[1..], sep);
      [[s[0]] + rest[0]] + rest[1..]
  }

  /** A field without the separator splits to itself. */
  lemma {:induction false} SplitNoSep(p: string, sep: char)
    requires sep !in p
    ensures Split(p, sep) == [p]
  {
    if |p| > 0 {
      SplitNoSep(p[1..], sep);
      assert [p[0]] + p[1..] == p;
    }
  }

  /** A separator-free prefix followed by the separator splits off as one field. */
  lemma {:induction false} SplitAfterField(p: string, sep: char, t: string)
    requires sep !in p
    ensures Split(p + [sep] + t, sep) == [p] + Split(t, sep)
  {
    if |p| == 0 {
      assert p + [sep] + t == [sep] + t;
      assert ([sep] + t)[1..] == t;
    } else {
      var s := p + [sep] + t;
      assert s[0] == p[0];
      assert s[1..] == p[1..] + [sep] + t;
      SplitAfterField(p[1..], sep, t);
      assert [p[0]] + p[1..] == p;
    }
  }

  /** `s.split(sep)` undoes `sep.join(parts)` when no part holds the separator. */
  lemma {:induction false} SplitJoin(parts: seq<string>, sep: char)
    requires |parts| >= 1
    requires forall k :: 0 <= k < |parts| ==> sep !in parts[k]
    ensures Split(Join(parts, sep), sep) == parts
  {
    if |parts| == 1 {
      SplitNoSep(parts[0], sep);
    } else {
      SplitAfterField(parts[0], sep, Join(parts[1..], sep));
      SplitJoin(parts[1..], sep);
      assert [parts[0]] + parts[1..] == parts;
    }
  }

  predicate IsDigit(c: char) {
    '0' <= c <= '9'
  }

  predicate AllDigits(s: string) {
    forall i :: 0 <= i < |s| ==> IsDigit(s[i])
  }

  function DigitChar(d: nat): (c: char)
    requires d < 10
    ensures IsDigit(c)
    ensures c as int - '0' as int == d
  {
    (d + '0' as int) as char
  }

  /** `str(n)` for a non-negative integer: decimal, no leading zeros. */
  function NatToString(n: nat): (r: string)
    ensures |r| >= 1
    ensures AllDigits(r)
  {
    if n < 10 then [DigitChar(n)] else NatToString(n / 10) + [DigitChar(n % 10)]
  }

  /** `str(i)`. */
  function IntToString(i: int): (r: string)
    ensures |r| >= 1
    ensures i >= 0 ==> AllDigits(r)
    ensures i < 0 ==> r[0] == '-' && AllDigits(r[1..])
  {
    if i < 0 then "-" + NatToString(-i) else NatToString(i)
  }

  /** The value of a string of decimal digits. */
  function DigitsValue(s: string): nat
    requires AllDigits(s)
  {
    if |s| == 0 then 0
    else DigitsValue(s[..|s| - 1]) * 10 + (s[|s| - 1] as int - '0' as int)
  }

  /** The ASCII characters `int()` and `str.strip()` skip as white space. */
  predicate IsSpace(c: char)
  {
    c == ' ' || 9 <= c as int <= 13 || 28 <= c as int <= 31
  }

  /** `s` without its leading white space. */
  function TrimStart(s: string): (r: string)
    ensures |r| <= |s| && r == s[|s| - |r|..]
    ensures |r| > 0 ==> !IsSpace(r[0])
    ensures forall i :: 0 <= i < |s| - |r| ==> IsSpace(s[i])
    decreases |s|
  {
    if |s| > 0 && IsSpace(s[0]) then TrimStart(s[1..]) else s
  }

  /** `s` without its trailing white space. */
  function TrimEnd(s: string): (r: string)
    ensures |r| <= |s| && r == s[..|r|]
    ensures |r| > 0 ==> !IsSpace(r[|r| - 1])
    ensures forall i :: |r| <= i < |s| ==> IsSpace(s[i])
    decreases |s|
  {
    if |s| > 0 && IsSpace(s[|s| - 1]) then TrimEnd(s[..|s| - 1]) else s
  }

  /** `s.strip()`. */
  function Strip(s: string): string
  {
    TrimEnd(TrimStart(s))
  }

  /**
   * Decimal digits with single underscores between them, the form `int()`
   * accepts after the sign: no leading, trailing or doubled underscore.
   */
  predicate Grouped(s: string)
  {
    |s| >= 1 && IsDigit(s[0]) && IsDigit(s[|s| - 1]) && DigitsOrUnderscores(s) && SingleUnderscores(s)
  }

  /** No two underscores of `s` are adjacent. */
  predicate SingleUnderscores(s: string)
    decreases |s|
  {
    |s| < 2 || (!(s[0] == '_' && s[1] == '_') && SingleUnderscores(s[1..]))
  }

  /** Every character of `s` is a digit or an underscore. */
  predicate DigitsOrUnderscores(s: string)
  {
    forall i :: 0 <= i < |s| ==> IsDigit(s[i]) || s[i] == '_'
  }

  /** The digits of `s`, the underscores dropped. */
  function DropUnderscores(s: string): (r: string)
    requires DigitsOrUnderscores(s)
    ensures AllDigits(r)
    ensures AllDigits(s) ==> r == s
    decreases |s|
  {
    if |s| == 0 then []
    else (if s[0] == '_' then [] else [s[0]]) + DropUnderscores(s[1..])
  }

  /**
   * `int(s)` in base 10: white space around the number is skipped, then an
   * optional sign and digits grouped by single underscores; every other
   * string (including "" and blank ones) makes `int` raise, here `None`.
   */
  function ParseInt(s: string): (r: Option<int>)
    ensures Strip(s) == "" ==> r.None?
    ensures r.Some? && Strip(s)[0] != '-' ==> r.value >= 0
  {
    ParseSigned(Strip(s))
  }

  /** The number an optional sign and grouped digits spell; `None` for any other string. */
  function ParseSigned(t: string): (r: Option<int>)
    ensures t == "" ==> r.None?
    ensures r.Some? && t[0] != '-' ==> r.value >= 0
    ensures AllDigits(t) && t != "" ==> r == Some(DigitsValue(t))
    ensures |t| >= 2 && t[0] == '-' && AllDigits(t[1..]) ==> var v: int := DigitsValue(t[1..]); r == Some(-v)
  {
    DigitsAreGrouped(t);
    DigitsAreGrouped(if |t| >= 1 then t[1..] else t);
    if |t| >= 2 && (t[0] == '-' || t[0] == '+') && Grouped(t[1..]) then
      var v: int := DigitsValue(DropUnderscores(t[1..]));
      Some(if t[0] == '-' then -v else v)
    else if Grouped(t) then Some(DigitsValue(DropUnderscores(t)))
    else None
  }

  /** Leading white space before a string that starts with anything else is skipped. */
  lemma {:induction false} TrimStartPadded(pre: string, x: string)
    requires forall i :: 0 <= i < |pre| ==> IsSpace(pre[i])
    requires |x| > 0 ==> !IsSpace(x[0])
    ensures TrimStart(pre + x) == x
    decreases |pre|
  {
    if |pre| == 0 {
      assert pre + x == x;
    } else {
      assert (pre + x)[1..] == pre[1..] + x;
      TrimStartPadded(pre[1..], x);
    }
  }

  /** Trailing white space after a string that ends with anything else is skipped. */
  lemma {:induction false} TrimEndPadded(x: string, post: string)
    requires forall i :: 0 <= i < |post| ==> IsSpace(post[i])
    requires |x| > 0 ==> !IsSpace(x[|x| - 1])
    ensures TrimEnd(x + post) == x
    decreases |post|
  {
    if |post| == 0 {
      assert x + post == x;
    } else {
      var p := post[..|post| - 1];
      assert (x + post)[..|x + post| - 1] == x + p;
      TrimEndPadded(x, p);
    }
  }

  /** `(pre + x + post).strip() == x` when `x` neither starts nor ends with white space. */
  lemma StripPadded(pre: string, x: string, post: string)
    requires forall i :: 0 <= i < |pre| ==> IsSpace(pre[i])
    requires forall i :: 0 <= i < |post| ==> IsSpace(post[i])
    requires |x| > 0 && !IsSpace(x[0]) && !IsSpace(x[|x| - 1])
    ensures Strip(pre + x + post) == x
  {
    assert pre + x + post == pre + (x + post);
    TrimStartPadded(pre, x + post);
    TrimEndPadded(x, post);
  }

  /** A string of digits is grouped, with nothing to drop. */
  lemma {:induction false} DigitsAreGrouped(s: string)
    ensures |s| >= 1 && AllDigits(s) ==> Grouped(s) && DropUnderscores(s) == s
    decreases |s|
  {
    if |s| >= 2 && AllDigits(s) {
      DigitsAreGrouped(s[1..]);
    }
  }

  /** A string that neither starts nor ends with white space is parsed as it stands. */
  lemma ParseUnpadded(s: string)
    requires |s| > 0 && !IsSpace(s[0]) && !IsSpace(s[|s| - 1])
    ensures ParseInt(s) == ParseSigned(s)
  {
    StripPadded("", s, "");
    assert "" + s + "" == s;
  }

  /** `int(" 30")` and `int("30\n")` are 30: white space around the digits is skipped. */
  lemma ParsePaddedExamples()
    ensures ParseInt(" 30") == Some(30) && ParseInt("30\n") == Some(30)
  {
    StripPadded(" ", "30", "");
    StripPadded("", "30", "\n");
    assert " " + "30" + "" == " 30";
    assert "" + "30" + "\n" == "30\n";
    assert "30"[..1] == "3";
    assert DigitsValue("30") == 30;
  }

  /** `int("1_0") == 10`: a single underscore between digits is dropped. */
  lemma ParseGroupedExample()
    ensures ParseInt("1_0") == Some(10)
  {
    ParseUnpadded("1_0");
    TenGrouped();
    TenUngrouped();
  }

  /** "1_0" is a grouped digit string. */
  lemma TenGrouped()
    ensures Grouped("1_0")
  {
    assert "1_0"[1..] == "_0" && "_0"[1..] == "0";
  }

  /** "1_0" without its underscore is the number 10. */
  lemma TenUngrouped()
    ensures DigitsValue(DropUnderscores("1_0")) == 10
  {
    assert "1_0"[1..] == "_0" && "_0"[1..] == "0";
    assert DropUnderscores("1_0") == "10";
    assert "10"[..1] == "1";
  }


  /** `int("1__0")` raises: underscores may not be doubled. */
  lemma ParseRejectsDoubledUnderscore()
    ensures ParseInt("1__0").None?
  {
    ParseUnpadded("1__0");
    assert !SingleUnderscores("1__0") by { assert "1__0"[1..] == "__0"; }
  }

  /** `int("_1")` and `int("1_")` raise: an underscore must sit between digits. */
  lemma ParseRejectsOuterUnderscore()
    ensures ParseInt("_1").None? && ParseInt("1_").None?
  {
    ParseUnpadded("_1");
    ParseUnpadded("1_");
    assert ParseSigned("_1").None?;
    assert ParseSigned("1_").None?;
  }

  lemma {:induction false} DigitsValueOfNatToString(n: nat)
    ensures DigitsValue(NatToString(n)) == n
  {
    if n >= 10 {
      var r := NatToString(n);
      DigitsValueOfNatToString(n / 10);
      assert r[..|r| - 1] == NatToString(n / 10);
    }
  }

  /** A minus sign before plain digits negates their value. */
  lemma SignedDigits(t: string)
    requires |t| >= 2 && t[0] == '-' && AllDigits(t[1..])
    ensures var v: int := DigitsValue(t[1..]); ParseSigned(t) == Some(-v)
  {
  }

  /** Equal digit strings have equal values. */
  lemma SameDigitsValue(a: string, b: string)
    requires AllDigits(a) && a == b
    ensures DigitsValue(a) == DigitsValue(b)
  {
  }

  /** `int(str(i)) == i`. */
  lemma ParseIntOfIntToString(i: int)
    ensures ParseInt(IntToString(i)) == Some(i)
  {
    var r := IntToString(i);
    StripPadded("", r, "");
    assert "" + r + "" == r;
    ParseSignedOfIntToString(i);
  }

  /** `str(i)` of a negative `i` is a minus sign and the digits of `-i`. */
  lemma NegativeIntToString(i: int)
    requires i < 0
    ensures var r := IntToString(i); |r| >= 2 && r[0] == '-' && AllDigits(r[1..]) && DigitsValue(r[1..]) == -i
  {
    var r := IntToString(i);
    var digits := NatToString(-i);
    DigitsValueOfNatToString(-i);
    assert r[1..] == digits;
    SameDigitsValue(r[1..], digits);
  }

  /** `str(i)` is read back as `i` once it is stripped. */
  lemma ParseSignedOfIntToString(i: int)
    ensures var r := IntToString(i); ParseSigned(r) == Some(i) && !IsSpace(r[0]) && !IsSpace(r[|r| - 1])
  {
    var r := IntToString(i);
    if i < 0 {
      NegativeIntToString(i);
      SignedDigits(r);
      assert r[|r| - 1] == r[1..][|r| - 2];
    } else {
      DigitsValueOfNatToString(i);
    }
  }

  /** White space around a number's rendering is ignored: `int(" 42\n") == 42`. */
  lemma ParsePaddedInt(pre: string, i: int, post: string)
    requires forall k :: 0 <= k < |pre| ==> IsSpace(pre[k])
    requires forall k :: 0 <= k < |post| ==> IsSpace(post[k])
    ensures ParseInt(pre + IntToString(i) + post) == Some(i)
  {
    ParseSignedOfIntToString(i);
    StripPadded(pre, IntToString(i), post);
  }
}
