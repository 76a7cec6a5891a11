/**
 * The few JavaScript string and number built-ins the scheduling rules lean on:
 * `String.prototype.split` with a one-character separator, `parseInt` on a
 * string that starts with decimal digits, and the decimal rendering of a
 * non-negative integer inside a template literal.
 */
module JsText {

  predicate IsDigit(c: char) {
    '0' <= c <= '9'
  }

  predicate AllDigits(s: string) {
    forall i :: 0 <= i < |s| ==> IsDigit(s[i])
  }

  function DigitChar(d: nat): (c: char)
    requires d < 10
    ensures IsDigit(c)
  {
    (('0' as int) + d) as char
  }

  function DigitValue(c: char): (d: nat)
    requires IsDigit(c)
    ensures d < 10 && DigitChar(d) == c
  {
    (c as int) - ('0' as int)
  }

  /** `${n}` for a non-negative integer: its decimal digits, without leading zeros. */
  function NatToString(n: nat): (s: string)
    ensures |s| >= 1 && AllDigits(s)
    ensures s[0] == '0' ==> n == 0
    ensures n < 10 <==> |s| == 1
    decreases n
  {
    if n < 10 then [DigitChar(n)] else NatToString(n / 10) + [DigitChar(n % 10)]
  }

  /** The number a string of decimal digits denotes. */
  function DigitsValue(s: string): nat
    requires AllDigits(s)
  {
    if s == [] then 0 else DigitsValue(s[..|s| - 1]) * 10 + DigitValue(s[|s| - 1])
  }

  lemma {:induction false} DigitsValueOfNatToString(n: nat)
    ensures DigitsValue(NatToString(n)) == n
    decreases n
  {
    if n >= 10 {
      var s := NatToString(n);
      assert s[..|s| - 1] == NatToString(n / 10);
      DigitsValueOfNatToString(n / 10);
    }
  }

  lemma {:induction false} NatToStringInjective(m: nat, n: nat)
    requires NatToString(m) == NatToString(n)
    ensures m == n
  {
    DigitsValueOfNatToString(m);
    DigitsValueOfNatToString(n);
  }

  /** The longest prefix of `s` made of decimal digits: the part `parseInt` reads. */
  function LeadingDigits(s: string): (d: string)
    ensures AllDigits(d) && d <= s
    ensures |d| < |s| ==> !IsDigit(s[|d|])
  {
    if s == [] || !IsDigit(s[0]) then [] else [s[0]] + LeadingDigits(s[1..])
  }

  lemma {:induction false} LeadingDigitsOfDigitsThen(d: string, rest: string)
    requires AllDigits(d)
    requires rest == [] || !IsDigit(rest[0])
    ensures LeadingDigits(d + rest) == d
  {
    if d != [] {
      assert (d + rest)[1..] == d[1..] + rest;
      LeadingDigitsOfDigitsThen(d[1..], rest);
    }
  }

  /** A value that may be `undefined`. */
  datatype Option<T> = None | Some(value: T)

  /** A split gives one field exactly when the separator does not occur. */
  lemma {:induction false} SingleFieldIffNoSeparator(s: string, sep: char)
    ensures |Split(s, sep)| == 1 <==> sep !in s
  {
    if s != [] {
      SingleFieldIffNoSeparator(s[1..], sep);
      assert sep in s <==> s[0] == sep || sep in s[1..];
    }
  }

  /** The first field of a split is the part of the string before the first separator. */
  lemma {:induction false} FirstFieldPrefix(s: string, sep: char)
    ensures Split(s, sep)[0] <= s
    ensures |Split(s, sep)[0]| < |s| ==> s[|Split(s, sep)[0]|] == sep
  {
    if s != [] && s[0] != sep {
      FirstFieldPrefix(s[1..], sep);
      assert s == [s[0]] + s[1..];
    }
  }

  /** A prefix that ends at a non-digit, or at the end, has the same leading digits as the whole. */
  lemma {:induction false} LeadingDigitsOfPrefix(p: string, s: string)
    requires p <= s && (|p| < |s| ==> !IsDigit(s[|p|]))
    ensures LeadingDigits(p) == LeadingDigits(s)
  {
    if p != [] && IsDigit(p[0]) {
      assert p[1..] <= s[1..];
      LeadingDigitsOfPrefix(p[1..], s[1..]);
    } else if p == [] && s != [] {
      assert !IsDigit(s[0]);
    }
  }

  /** `parseInt` stops at the first separator that is not a digit: the first field reads as the whole. */
  lemma ParseIntOfFirstField(s: string, sep: char)
    requires !IsDigit(sep)
    ensures ParseInt(Split(s, sep)[0]) == ParseInt(s)
  {
    FirstFieldPrefix(s, sep);
    LeadingDigitsOfPrefix(Split(s, sep)[0], s);
  }

  /** A JavaScript number as `parseInt` can produce it: an integer or NaN. */
  datatype Num = Int(value: int) | NaN

  /** `parseInt(s)` for strings that start with digits or with no digit at all. */
  function ParseInt(s: string): (n: Num)
    ensures n.NaN? <==> s == [] || !IsDigit(s[0])
    ensures n.Int? ==> n.value >= 0
  {
    var d := LeadingDigits(s);
    if d == [] then NaN else Int(DigitsValue(d))
  }

  lemma ParseIntOfNatToString(n: nat, rest: string)
    requires rest == [] || !IsDigit(rest[0])
    ensures ParseInt(NatToString(n) + rest) == Int(n)
  {
    LeadingDigitsOfDigitsThen(NatToString(n), rest);
    DigitsValueOfNatToString(n);
  }

  /** `x >= y` on numbers, false whenever either side is NaN. */
  predicate AtLeast(x: int, y: Num) {
    y.Int? && x >= y.value
  }

  /** `x < y` on numbers, false whenever either side is NaN. */
  predicate Below(x: int, y: Num) {
    y.Int? && x < y.value
  }

  /** `s.split(sep)` for a one-character separator. */
  function Split(s: string, sep: char): (parts: seq<string>)
    ensures |parts| >= 1
    ensures forall i :: 0 <= i < |parts| ==> sep !in parts[i]
  {
    if s == [] then [""]
    else if s[0] == sep then [""] + Split(s[1..], sep)
    else
      var rest := Split(s[1..], sep);
      [[s[0]] + rest[0]] + rest[1..]
  }

  /** `parts.join(sep)`: the inverse of `Split`. */
  function Join(parts: seq<string>, sep: char): string
    requires |parts| >= 1
  {
    if |parts| == 1 then parts[0] else parts[0] + [sep] + Join(parts[1..], sep)
  }

  lemma {:induction false} JoinSplit(s: string, sep: char)
    ensures Join(Split(s, sep), sep) == s
  {
    if s != [] {
      JoinSplit(s[1..], sep);
      if s[0] != sep {
        var rest := Split(s[1..], sep);
        if |rest| > 1 {
          assert Split(s, sep)[1..] == rest[1..];
        }
      }
    }
  }

  lemma {:induction false} SplitJoin(parts: seq<string>, sep: char)
    requires |parts| >= 1
    requires forall i :: 0 <= i < |parts| ==> sep !in parts[i]
    ensures Split(Join(parts, sep), sep) == parts
    decreases |parts|, |parts[0]|
  {
    var p := parts[0];
    if p == [] {
      if |parts| > 1 {
        SplitJoin(parts[1..], sep);
        assert Join(parts, sep) == [sep] + Join(parts[1..], sep);
      }
    } else {
      var tail := [p[1..]] + parts[1..];
      assert tail[1..] == parts[1..];
      SplitJoin(tail, sep);
      assert p[0] != sep;
      if |parts| == 1 {
        assert Join(parts, sep) == p;
        assert Join(parts, sep)[1..] == Join(tail, sep);
      } else {
        assert Join(parts, sep) == [p[0]] + Join(tail, sep);
        assert Join(parts, sep)[1..] == Join(tail, sep);
      }
      assert [p[0]] + p[1..] == p;
      assert [p] + parts[1..] == parts;
    }
  }

  /** The fields of a string built as `a + [sep] + b` when neither side holds `sep`. */
  lemma SplitPair(a: string, b: string, sep: char)
    requires sep !in a && sep !in b
    ensures Split(a + [sep] + b, sep) == [a, b]
  {
    var parts := [a, b];
    assert Join(parts, sep) == a + [sep] + b;
    SplitJoin(parts, sep);
  }
}
