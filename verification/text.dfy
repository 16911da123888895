/**
  Characters, decimal numerals and the few Python string conversions the
  recognizer and the API parsers rely on: `str()` of an integer, `int()` of a
  string, zero-padded `{:02d}` formatting, `str.strip()` and `str.split(sep)[0]`.
  Python's `\d`, `\s` and `int()` accept every Unicode digit and space; this
  model accepts the ASCII ones.
*/
module Text {
  import opened Results

  predicate IsDigit(c: char) {
    '0' <= c <= '9'
  }

  /** ASCII whitespace: space, tab, line feed, carriage return, vertical tab, form feed. */
  predicate IsSpace(c: char) {
    c == ' ' || c == '\t' || c == '\n' || c == '\r' || c == '\U{B}' || c == '\U{C}'
  }

  predicate AllDigits(s: string) {
    forall i :: 0 <= i < |s| ==> IsDigit(s[i])
  }

  function DigitChar(d: nat): (c: char)
    requires d < 10
    ensures IsDigit(c) && c as int - '0' as int == d
  {
    ('0' as int + d) as char
  }

  function DigitValue(c: char): (d: nat)
    requires IsDigit(c)
    ensures d < 10 && DigitChar(d) == c
  {
    c as int - '0' as int
  }

  /** The value of a string of decimal digits, most significant first. */
  function DigitsValue(s: string): nat
    requires AllDigits(s)
  {
    if s == [] then 0 else 10 * DigitsValue(s[..|s| - 1]) + DigitValue(s[|s| - 1])
  }

  /** Python's `str(n)` for a non-negative integer. */
  function NatToString(n: nat): (s: string)
    ensures |s| > 0 && AllDigits(s)
    ensures |s| > 1 ==> s[0] != '0'
  {
    if n < 10 then [DigitChar(n)] else NatToString(n / 10) + [DigitChar(n % 10)]
  }

  lemma {:induction false} NatToStringValue(n: nat)
    ensures DigitsValue(NatToString(n)) == n
  {
    if n >= 10 {
      var s := NatToString(n);
      assert s[..|s| - 1] == NatToString(n / 10);
      NatToStringValue(n / 10);
    }
  }

  lemma NatToStringInjective(a: nat, b: nat)
    ensures NatToString(a) == NatToString(b) ==> a == b
  {
    NatToStringValue(a);
    NatToStringValue(b);
  }

  lemma NatToStringLength(n: nat)
    ensures n < 10 ==> |NatToString(n)| == 1
    ensures 10 <= n < 100 ==> |NatToString(n)| == 2
    ensures 1000 <= n < 10000 ==> |NatToString(n)| == 4
  {
    if n >= 10 {
      NatToStringLength(n / 10);
    }
  }

  /** Python's `f"{n:02d}"`: at least two digits, zero-padded on the left. */
  function Pad2(n: nat): (s: string)
    ensures AllDigits(s) && |s| >= 2
    ensures n < 100 ==> |s| == 2
  {
    if n < 100 then [DigitChar(n / 10), DigitChar(n % 10)] else NatToStringLength(n); NatToString(n)
  }

  lemma Pad2Value(n: nat)
    ensures DigitsValue(Pad2(n)) == n
  {
    var s := Pad2(n);
    NatToStringValue(n);
    if n < 10 {
      assert s[..|s| - 1] == "0";
    }
  }

  /** Python's `str(i)` for any integer. */
  function IntToString(i: int): (s: string)
    ensures |s| > 0
  {
    if i < 0 then "-" + NatToString(-i) else NatToString(i)
  }

  /** The first position at or after `i` that does not hold whitespace (or `|t|`). */
  function SkipSpaces(t: string, i: nat): (j: nat)
    requires i <= |t|
    ensures i <= j <= |t|
    ensures forall k :: i <= k < j ==> IsSpace(t[k])
    ensures j < |t| ==> !IsSpace(t[j])
    decreases |t| - i
  {
    if i < |t| && IsSpace(t[i]) then SkipSpaces(t, i + 1) else i
  }

  /** The end of `t[lo..j]` once its trailing whitespace is dropped. */
  function TrimEnd(t: string, lo: nat, j: nat): (e: nat)
    requires lo <= j <= |t|
    ensures lo <= e <= j
    ensures forall k :: e <= k < j ==> IsSpace(t[k])
    ensures e > lo ==> !IsSpace(t[e - 1])
    decreases j
  {
    if j > lo && IsSpace(t[j - 1]) then TrimEnd(t, lo, j - 1) else j
  }

  /**
    Python's `str.strip()` (ASCII whitespace): the slice of `s` that is left
    once only whitespace is removed from both ends; it neither starts nor
    ends with whitespace.
  */
  function Strip(s: string): (r: string)
    ensures |r| > 0 ==> !IsSpace(r[0]) && !IsSpace(r[|r| - 1])
    ensures (|s| == 0 || (!IsSpace(s[0]) && !IsSpace(s[|s| - 1]))) ==> r == s
    ensures var a := SkipSpaces(s, 0);
            && a + |r| <= |s| && r == s[a..a + |r|]
            && (forall k :: 0 <= k < a ==> IsSpace(s[k]))
            && (forall k :: a + |r| <= k < |s| ==> IsSpace(s[k]))
  {
    var a := SkipSpaces(s, 0);
    s[a..TrimEnd(s, a, |s|)]
  }

  /** The part of `s` before the first `sep`: Python's `s.split(sep)[0]`. */
  function Before(s: string, sep: char): (r: string)
    ensures |r| <= |s| && r == s[..|r|]
    ensures sep !in r
    ensures |r| < |s| ==> s[|r|] == sep
  {
    if s == [] || s[0] == sep then [] else [s[0]] + Before(s[1..], sep)
  }

  /** Python's `sep.join(parts)` for a one-character separator. */
  function Join(parts: seq<string>, sep: char): string {
    if |parts| == 0 then []
    else if |parts| == 1 then parts[0]
    else parts[0] + [sep] + Join(parts[1..], sep)
  }

  /** Python's `s.split(sep)` for a one-character separator: the `sep`-free pieces that `sep` joins back into `s`. */
  function SplitOn(s: string, sep: char): (parts: seq<string>)
    ensures |parts| >= 1
    ensures forall k :: 0 <= k < |parts| ==> sep !in parts[k]
    ensures Join(parts, sep) == s
    decreases |s|
  {
    var head := Before(s, sep);
    if |head| == |s| then [s]
    else
      var rest := s[|head| + 1..];
      assert s == head + [sep] + rest;
      [head] + SplitOn(rest, sep)
  }

  /** Splitting `a:b` on `:` gives `[a, b]` when neither part holds the separator. */
  lemma SplitOnTwo(a: string, b: string, sep: char)
    requires sep !in a && sep !in b
    ensures SplitOn(a + [sep] + b, sep) == [a, b]
  {
    var s := a + [sep] + b;
    BeforeSeparator(a, [sep] + b, sep);
    assert s == a + ([sep] + b);
    assert s[|a| + 1..] == b;
    BeforeSeparator(b, [], sep);
    assert b + [] == b;
  }

  /** The part before the first separator of `a + rest` is `a` when `rest` is empty or starts with it. */
  lemma {:induction false} BeforeSeparator(a: string, rest: string, sep: char)
    requires sep !in a && (rest == [] || rest[0] == sep)
    ensures Before(a + rest, sep) == a
  {
    if a != [] {
      assert (a + rest)[1..] == a[1..] + rest;
      BeforeSeparator(a[1..], rest, sep);
    }
  }

  /** Two parts come back exactly from a string holding the separator once. */
  lemma SplitOnTwoParts(s: string, sep: char)
    requires |SplitOn(s, sep)| == 2
    ensures s == SplitOn(s, sep)[0] + [sep] + SplitOn(s, sep)[1]
  {
    var head := Before(s, sep);
    var rest := s[|head| + 1..];
    assert SplitOn(rest, sep) == [rest];
    assert s == head + [sep] + rest;
  }
}

/** Python's `int()` on strings, and `str()` of the JSON scalars the API sends. */
module PyInt {
  import opened Results
  import opened Text

  /** A Python integer literal body: digits, with single underscores between digits. */
  predicate IsNumeral(s: string) {
    |s| > 0 && IsDigit(s[0]) && NumeralTail(s[1..])
  }

  /** What may follow a digit of a numeral: digits, each perhaps preceded by one underscore. */
  predicate NumeralTail(s: string)
    decreases |s|
  {
    || s == []
    || (IsDigit(s[0]) && NumeralTail(s[1..]))
    || (|s| > 1 && s[0] == '_' && IsDigit(s[1]) && NumeralTail(s[2..]))
  }

  /** The digits of `s`, underscores dropped. */
  function DigitsOnly(s: string): (r: string)
    ensures AllDigits(r) && |r| <= |s|
  {
    if s == [] then []
    else if IsDigit(s[0]) then [s[0]] + DigitsOnly(s[1..])
    else DigitsOnly(s[1..])
  }

  function NumeralValue(s: string): nat {
    DigitsValue(DigitsOnly(s))
  }

  lemma {:induction false} DigitsOnlyOfDigits(s: string)
    requires AllDigits(s)
    ensures DigitsOnly(s) == s
  {
    if s != [] {
      DigitsOnlyOfDigits(s[1..]);
    }
  }

  lemma {:induction false} DigitsAreNumeralTail(s: string)
    requires AllDigits(s)
    ensures NumeralTail(s)
  {
    if s != [] {
      DigitsAreNumeralTail(s[1..]);
    }
  }

  /** A numeral ends in a digit. */
  lemma {:induction false} NumeralTailEnds(s: string)
    requires NumeralTail(s) && |s| > 0
    ensures IsDigit(s[|s| - 1])
    decreases |s|
  {
    if IsDigit(s[0]) && NumeralTail(s[1..]) {
      if |s| > 1 {
        NumeralTailEnds(s[1..]);
      }
    } else if |s| > 2 {
      NumeralTailEnds(s[2..]);
    }
  }

  lemma NumeralEnds(s: string)
    requires IsNumeral(s)
    ensures IsDigit(s[|s| - 1])
  {
    if |s| > 1 {
      NumeralTailEnds(s[1..]);
    }
  }

  /** A non-empty string of digits is a numeral with its decimal value. */
  lemma NumeralOfDigits(s: string)
    requires |s| > 0 && AllDigits(s)
    ensures IsNumeral(s) && NumeralValue(s) == DigitsValue(s)
  {
    DigitsAreNumeralTail(s[1..]);
    DigitsOnlyOfDigits(s);
  }

  /** Python's `int(s)`: surrounding whitespace, an optional sign and a numeral; `None` where Python raises `ValueError`. */
  function ParseInt(s: string): Option<int> {
    var t := Strip(s);
    if |t| > 0 && (t[0] == '+' || t[0] == '-') then
      if IsNumeral(t[1..]) then
        var v := NumeralValue(t[1..]) as int;
        Some(if t[0] == '-' then -v else v)
      else None
    else if IsNumeral(t) then Some(NumeralValue(t) as int)
    else None
  }

  lemma NatToStringNumeral(n: nat)
    ensures IsNumeral(NatToString(n)) && NumeralValue(NatToString(n)) == n
  {
    NatToStringValue(n);
    NumeralOfDigits(NatToString(n));
  }

  lemma ParseIntOfNumeral(t: string)
    requires IsNumeral(t)
    ensures ParseInt(t) == Some(NumeralValue(t) as int)
  {
    NumeralEnds(t);
    StripUnspaced(t);
  }

  /** A plain string of digits parses to its decimal value. */
  lemma ParseIntOfDigits(s: string)
    requires |s| > 0 && AllDigits(s)
    ensures ParseInt(s) == Some(DigitsValue(s) as int)
  {
    NumeralOfDigits(s);
    ParseIntOfNumeral(s);
  }

  lemma ParseIntOfNegative(t: string, v: nat)
    requires IsNumeral(t) && NumeralValue(t) == v
    ensures ParseInt("-" + t) == Some(-(v as int))
  {
    var m := "-" + t;
    NumeralEnds(t);
    assert m[1..] == t;
    assert m[0] == '-' && m[|m| - 1] == t[|t| - 1];
    StripUnspaced(m);
  }

  lemma StripUnspaced(m: string)
    requires |m| > 0 && !IsSpace(m[0]) && !IsSpace(m[|m| - 1])
    ensures Strip(m) == m
  {
  }

  lemma {:induction false} ParseIntOfNatString(n: nat)
    ensures ParseInt(IntToString(n)) == Some(n)
  {
    NatToStringNumeral(n);
    ParseIntOfNumeral(NatToString(n));
  }

  lemma {:induction false} ParseIntOfNegativeString(i: int)
    requires i < 0
    ensures ParseInt(IntToString(i)) == Some(i)
  {
    MinusNatString(-i, NatToString(-i));
    assert IntToString(i) == "-" + NatToString(-i);
  }

  lemma {:induction false} MinusNatString(n: nat, d: string)
    requires d == NatToString(n)
    ensures ParseInt("-" + d) == Some(-(n as int))
  {
    NatToStringNumeral(n);
    ParseIntOfNegative(d, n);
  }

  /** `int(str(i)) == i`. */
  lemma {:induction false} ParseIntOfString(i: int)
    ensures ParseInt(IntToString(i)) == Some(i)
  {
    if i < 0 {
      ParseIntOfNegativeString(i);
    } else {
      ParseIntOfNatString(i);
    }
  }

  lemma IntToStringInjective(a: int, b: int)
    ensures IntToString(a) == IntToString(b) ==> a == b
  {
    ParseIntOfString(a);
    ParseIntOfString(b);
  }

  /** A scalar of a decoded JSON document, as Python's `str()` renders it. */
  datatype JsonValue =
    | Int(n: int)      // a JSON integer
    | Str(s: string)   // a JSON string
    | Other(text: string)  // any other value, by the text `str()` gives it

  function PyStr(v: JsonValue): string {
    match v
    case Int(n) => IntToString(n)
    case Str(s) => s
    case Other(text) => text
  }

  /** `str(v) == t` for a short decimal code `t`: an integer and a string of that code compare alike. */
  lemma PyStrIsCode(v: JsonValue, n: nat)
    ensures PyStr(v) == NatToString(n) <==> v in {Int(n), Str(NatToString(n)), Other(NatToString(n))}
  {
    if v.Int? && PyStr(v) == NatToString(n) {
      IntToStringInjective(v.n, n);
    }
  }
}
