/**
 * The JavaScript string operations the calendar relies on, stated over
 * `seq<char>`: `Number.prototype.toString()` for integers, `padStart`,
 * `split` on one character, `parseInt(_, 10)` and `trim`.
 */
module Strings {
  import opened Options

  predicate IsDigit(c: char) {
    '0' <= c <= '9'
  }

  predicate AllDigits(s: string) {
    forall i :: 0 <= i < |s| ==> IsDigit(s[i])
  }

  /** WhiteSpace and LineTerminator code points of ECMAScript (what `trim` and `parseInt` skip). */
  predicate IsJsSpace(c: char) {
    || c == '\t' || c == '\n' || c == '\U{000B}' || c == '\U{000C}' || c == '\r'
    || c == ' ' || c == '\U{00A0}' || c == '\U{1680}'
    || ('\U{2000}' <= c <= '\U{200A}')
    || c == '\U{2028}' || c == '\U{2029}' || c == '\U{202F}' || c == '\U{205F}'
    || c == '\U{3000}' || c == '\U{FEFF}'
  }

  function DigitChar(d: nat): (c: char)
    requires d < 10
    ensures IsDigit(c) && c as int - '0' as int == d
  {
    (d + '0' as int) as char
  }

  /** The decimal rendering of a non-negative integer: no sign, no leading zero. */
  function NatToString(n: nat): (s: string)
    ensures AllDigits(s)
    ensures 1 <= |s| && (|s| == 1 <==> n < 10)
    ensures |s| > 1 ==> s[0] != '0'
    decreases n
  {
    if n < 10 then [DigitChar(n)] else NatToString(n / 10) + [DigitChar(n % 10)]
  }

  /** `String(i)` for an integer `i`. */
  function IntToString(i: int): (s: string)
    ensures 1 <= |s|
    ensures i < 0 ==> s[0] == '-' && 2 <= |s|
    ensures ':' !in s
  {
    if i < 0 then "-" + NatToString(-i) else NatToString(i)
  }

  /** The value of a string of decimal digits, read left to right. */
  function DigitsValue(s: string): nat
    requires AllDigits(s)
  {
    if s == [] then 0 else DigitsValue(s[..|s| - 1]) * 10 + DigitValue(s[|s| - 1])
  }

  function DigitValue(c: char): (d: nat)
    requires IsDigit(c)
  {
    c as int - '0' as int
  }

  /** `s.padStart(n, [c])`: `c` repeated in front of `s` up to length `n`. */
  function PadStart(s: string, n: nat, c: char): (r: string)
    ensures |r| == if |s| < n then n else |s|
    ensures forall i :: 0 <= i < |r| - |s| ==> r[i] == c
  {
    if |s| >= n then s else Repeat(c, n - |s|) + s
  }

  /** `k` copies of `c`. */
  function Repeat(c: char, k: nat): (r: string)
    ensures |r| == k && forall i :: 0 <= i < k ==> r[i] == c
  {
    if k == 0 then [] else [c] + Repeat(c, k - 1)
  }

  /** Index of the first `c` in `s`, or -1 (`indexOf`). */
  function IndexOf(s: string, c: char): (i: int)
    ensures -1 <= i < |s|
    ensures 0 <= i ==> s[i] == c && c !in s[..i]
    ensures i == -1 <==> c !in s
  {
    if s == [] then -1
    else if s[0] == c then 0
    else
      var j := IndexOf(s[1..], c);
      if j < 0 then -1 else j + 1
  }

  /** `s.split(sep)`: the pieces between occurrences of `sep`, always at least one. */
  function Split(s: string, sep: char): (parts: seq<string>)
    ensures 1 <= |parts|
    decreases |s|
  {
    var i := IndexOf(s, sep);
    if i < 0 then [s] else [s[..i]] + Split(s[i + 1..], sep)
  }

  /** Leading white space removed (`trimStart`): what is left starts at the first other character. */
  function TrimStart(s: string): (r: string)
    ensures |r| <= |s|
    ensures forall i :: 0 <= i < |s| - |r| ==> IsJsSpace(s[i])
    ensures r == [] || (!IsJsSpace(r[0]) && r[0] == s[|s| - |r|])
  {
    if s != [] && IsJsSpace(s[0]) then TrimStart(s[1..]) else s
  }

  /** Trailing white space removed (`trimEnd`): what is left ends at the last other character. */
  function TrimEnd(s: string): (r: string)
    ensures |r| <= |s|
    ensures forall i :: |r| <= i < |s| ==> IsJsSpace(s[i])
    ensures r == [] || (!IsJsSpace(r[|r| - 1]) && r[0] == s[0])
  {
    if s != [] && IsJsSpace(s[|s| - 1]) then TrimEnd(s[..|s| - 1]) else s
  }

  /** `s.trim()`: no white space at either end; empty exactly when `s` is blank. */
  function Trim(s: string): (r: string)
    ensures r == [] || (!IsJsSpace(r[0]) && !IsJsSpace(r[|r| - 1]))
    ensures r == [] <==> forall i :: 0 <= i < |s| ==> IsJsSpace(s[i])
  {
    TrimEnd(TrimStart(s))
  }

  /** Length of the longest prefix of decimal digits. */
  function DigitPrefixLength(s: string): (k: nat)
    ensures k <= |s| && AllDigits(s[..k])
    ensures k < |s| ==> !IsDigit(s[k])
  {
    if s != [] && IsDigit(s[0]) then
      var k := 1 + DigitPrefixLength(s[1..]);
      assert s[..k] == [s[0]] + s[1..][..k - 1];
      k
    else 0
  }

  /**
   * `parseInt(s, 10)`: skip leading white space, read an optional sign and the
   * longest run of digits after it; `None` stands for `NaN` (no digit there).
   */
  function ParseInt(s: string): Option<int> {
    var t := TrimStart(s);
    var negative := t != [] && t[0] == '-';
    var u := if t != [] && (t[0] == '-' || t[0] == '+') then t[1..] else t;
    var k := DigitPrefixLength(u);
    if k == 0 then None
    else
      var magnitude: int := DigitsValue(u[..k]);
      Some(if negative then -magnitude else magnitude)
  }

  // ---------------------------------------------------------------------------
  // Round trips between rendering and parsing
  // ---------------------------------------------------------------------------

  lemma {:induction false} DigitsValueOfNatToString(n: nat)
    ensures DigitsValue(NatToString(n)) == n
  {
    if n >= 10 {
      var s := NatToString(n);
      assert s[..|s| - 1] == NatToString(n / 10);
      DigitsValueOfNatToString(n / 10);
    }
  }

  /** A leading zero does not change the value of a digit string. */
  lemma {:induction false} LeadingZero(s: string)
    requires AllDigits(s)
    ensures AllDigits("0" + s) && DigitsValue("0" + s) == DigitsValue(s)
  {
    if s != [] {
      var t := "0" + s;
      assert t[..|t| - 1] == "0" + s[..|s| - 1];
      LeadingZero(s[..|s| - 1]);
    }
  }

  lemma {:induction false} DigitPrefixOfDigits(s: string)
    requires AllDigits(s)
    ensures DigitPrefixLength(s) == |s|
  {
    if s != [] {
      DigitPrefixOfDigits(s[1..]);
    }
  }

  /** `parseInt` reads back what `String(i).padStart(n, '0')` writes (a negative number is never padded past its sign here). */
  lemma {:induction false} ParseIntOfPadded(i: int, n: nat)
    requires 0 <= i || n <= 2
    ensures ParseInt(PadStart(IntToString(i), n, '0')) == Some(i)
  {
    if i < 0 {
      ParseIntOfNegative(i, n);
    } else {
      var d := NatToString(i);
      var p := PadStart(d, n, '0');
      assert p == Repeat('0', |p| - |d|) + d;
      PaddedValue(d, |p| - |d|);
      DigitsValueOfNatToString(i);
      ParseIntOfDigits(p);
    }
  }

  lemma {:induction false} ParseIntOfNegative(i: int, n: nat)
    requires i < 0 && n <= 2
    ensures ParseInt(PadStart(IntToString(i), n, '0')) == Some(i)
  {
    PadStartOfLong(IntToString(i), n, '0');
    ParseIntOfNegativeText(i);
  }

  lemma {:induction false} PadStartOfLong(s: string, n: nat, c: char)
    requires n <= |s|
    ensures PadStart(s, n, c) == s
  {
  }

  /** `parseInt(String(i))` is `i` for a negative `i`. */
  lemma {:induction false} ParseIntOfNegativeText(i: int)
    requires i < 0
    ensures ParseInt(IntToString(i)) == Some(i)
  {
    assert IntToString(i) == "-" + NatToString(-i);
    ParseIntOfMinusNat(-i);
  }

  lemma {:induction false} ParseIntOfMinusNat(m: nat)
    ensures ParseInt("-" + NatToString(m)) == Some(-(m as int))
  {
    ParseIntOfMinus(NatToString(m));
    DigitsValueOfNatToString(m);
  }

  /** `parseInt(String(i))` is `i` for every integer. */
  lemma {:induction false} ParseIntOfIntToString(i: int)
    ensures ParseInt(IntToString(i)) == Some(i)
  {
    if i < 0 {
      ParseIntOfNegativeText(i);
    } else {
      ParseIntOfDigits(NatToString(i));
      DigitsValueOfNatToString(i);
    }
  }

  /** A minus sign followed by digits reads as the negated value of the digits. */
  lemma {:induction false} ParseIntOfMinus(d: string)
    requires d != [] && AllDigits(d)
    ensures ParseInt("-" + d) == Some(-(DigitsValue(d) as int))
  {
    var p := "-" + d;
    assert TrimStart(p) == p;
    assert p[1..] == d;
    DigitPrefixOfDigits(d);
    assert d[..|d|] == d;
  }

  lemma {:induction false} ParseIntOfDigits(p: string)
    requires p != [] && AllDigits(p)
    ensures ParseInt(p) == Some(DigitsValue(p))
  {
    assert !IsJsSpace(p[0]);
    assert TrimStart(p) == p;
    DigitPrefixOfDigits(p);
    assert p[..|p|] == p;
  }

  lemma {:induction false} PaddedValue(d: string, zeros: nat)
    requires AllDigits(d)
    ensures AllDigits(Repeat('0', zeros) + d)
    ensures DigitsValue(Repeat('0', zeros) + d) == DigitsValue(d)
  {
    if zeros == 0 {
      assert Repeat('0', zeros) + d == d;
    } else {
      PaddedValue(d, zeros - 1);
      var rest := Repeat('0', zeros - 1) + d;
      assert Repeat('0', zeros) + d == "0" + rest;
      LeadingZero(rest);
    }
  }

  lemma {:induction false} PaddedHasNoColon(i: int, n: nat)
    ensures ':' !in PadStart(IntToString(i), n, '0')
  {
    var s := IntToString(i);
    var p := PadStart(s, n, '0');
    forall j | 0 <= j < |p|
      ensures p[j] != ':'
    {
      if j >= |p| - |s| {
        assert p[j] == s[j - (|p| - |s|)];
      }
    }
  }

  /** Splitting `a:b` on `:` gives `[a, b]` when neither half holds a `:`. */
  lemma {:induction false} SplitTwo(a: string, b: string, sep: char)
    requires sep !in a && sep !in b
    ensures Split(a + [sep] + b, sep) == [a, b]
  {
    var s := a + [sep] + b;
    assert s[..|a|] == a;
    assert s[|a| + 1..] == b;
    assert sep in s by { assert s[|a|] == sep; }
    assert IndexOf(s, sep) == |a|;
  }
}
