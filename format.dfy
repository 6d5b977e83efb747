/**
 * The small part of Go's fmt and strings packages that the logger relies on:
 * `%d` and `%0Nd` for integers, and `strings.TrimRight(s, "\n")`.
 */
module Format {

  import opened Wrappers

  predicate IsDigit(c: char)
  {
    '0' <= c <= '9'
  }

  predicate IsDigits(s: string)
  {
    forall i :: 0 <= i < |s| ==> IsDigit(s[i])
  }

  function DigitChar(d: nat): (c: char)
    requires d < 10
    ensures IsDigit(c)
  {
    ('0' as int + d) as char
  }

  function DigitValue(c: char): nat
    requires IsDigit(c)
  {
    c as int - '0' as int
  }

  /** The decimal digits of n, most significant first, as `%d` writes them. */
  function Digits(n: nat): (s: string)
    ensures |s| >= 1 && IsDigits(s)
    decreases n
  {
    if n < 10 then [DigitChar(n)] else Digits(n / 10) + [DigitChar(n % 10)]
  }

  /** The number a string of decimal digits denotes (the reading direction of `%d`). */
  function Value(s: string): nat
    requires IsDigits(s)
    decreases |s|
  {
    if s == [] then 0 else Value(s[..|s| - 1]) * 10 + DigitValue(s[|s| - 1])
  }

  function Pow10(k: nat): (p: nat)
    ensures p >= 1
  {
    if k == 0 then 1 else 10 * Pow10(k - 1)
  }

  /** Reading back what `%d` wrote gives the number again. */
  lemma {:induction false} ValueOfDigits(n: nat)
    ensures Value(Digits(n)) == n
  {
    if n >= 10 {
      var s := Digits(n);
      assert s[..|s| - 1] == Digits(n / 10);
      ValueOfDigits(n / 10);
    }
  }

  /** So two numbers are written the same only when they are equal. */
  lemma DigitsInjective(n: nat, m: nat)
    requires Digits(n) == Digits(m)
    ensures n == m
  {
    ValueOfDigits(n);
    ValueOfDigits(m);
  }

  /** A number at least 10^k needs more than k digits. */
  lemma {:induction false} DigitsOutgrow(n: nat, k: nat)
    requires Pow10(k) <= n
    ensures k < |Digits(n)|
  {
    if k > 0 {
      assert Pow10(k - 1) <= n / 10;
      DigitsOutgrow(n / 10, k - 1);
    }
  }

  function Zeros(k: nat): (z: string)
    ensures |z| == k && forall i :: 0 <= i < k ==> z[i] == '0'
  {
    seq(k, _ => '0')
  }

  lemma {:induction false} ZerosValue(k: nat)
    ensures IsDigits(Zeros(k)) && Value(Zeros(k)) == 0
  {
    if k > 0 {
      assert Zeros(k)[..k - 1] == Zeros(k - 1);
      ZerosValue(k - 1);
    }
  }

  /** Leading zeros do not change the number a digit string denotes. */
  lemma {:induction false} LeadingZeros(k: nat, s: string)
    requires IsDigits(s)
    ensures IsDigits(Zeros(k) + s) && Value(Zeros(k) + s) == Value(s)
  {
    ZerosValue(k);
    if s != [] {
      var t := Zeros(k) + s;
      assert t[..|t| - 1] == Zeros(k) + s[..|s| - 1];
      assert t[|t| - 1] == s[|s| - 1];
      LeadingZeros(k, s[..|s| - 1]);
      assert IsDigits(t);
    } else {
      assert Zeros(k) + s == Zeros(k);
    }
  }

  /** Left-pads a digit string with zeros up to `width`. */
  function PadZeros(s: string, width: nat): (r: string)
    requires IsDigits(s)
    ensures |r| == (if |s| >= width then |s| else width)
    ensures IsDigits(r) && Value(r) == Value(s)
  {
    if |s| >= width then s
    else
      LeadingZeros(width - |s|, s);
      Zeros(width - |s|) + s
  }

  /**
   * Go's `%0<width>d` (and `%d` when width is 0): a minus sign for a negative
   * number, then the digits, zero-padded so that sign and digits fill `width`.
   */
  function FormatInt(n: int, width: nat): string
  {
    if n < 0 then
      "-" + PadZeros(Digits(-n), if width > 0 then width - 1 else 0)
    else
      PadZeros(Digits(n), width)
  }

  /**
   * What `FormatInt` writes: sign and digits padded to exactly `width`, or no
   * padding when they are already that long; digits after an optional '-',
   * reading back as n.
   */
  lemma FormatIntReadsBack(n: int, width: nat)
    ensures var r := FormatInt(n, width);
            var len := |Digits(if n < 0 then -n else n)| + (if n < 0 then 1 else 0);
            && |r| == (if len >= width then len else width)
            && (forall i :: 0 <= i < |r| ==> IsDigit(r[i]) || r[i] == '-')
            && (0 <= n ==> IsDigits(r) && Value(r) == n)
            && (n < 0 ==> |r| >= 2 && r[0] == '-' && IsDigits(r[1..]) && Value(r[1..]) == -n)
  {
    ValueOfDigits(if n < 0 then -n else n);
    if n < 0 {
      var body := PadZeros(Digits(-n), if width > 0 then width - 1 else 0);
      assert ("-" + body)[1..] == body;
    }
  }

  /** A number below 10^k (k >= 1) is written with at most k digits. */
  lemma {:induction false} DigitsFit(n: nat, k: nat)
    requires 1 <= k && n < Pow10(k)
    ensures |Digits(n)| <= k
  {
    if n >= 10 {
      assert n / 10 < Pow10(k - 1);
      DigitsFit(n / 10, k - 1);
    }
  }

  /** `%0<width>d` of a number that fits in `width` digits is exactly `width` long. */
  lemma FormatIntWidth(n: nat, width: nat)
    requires 1 <= width && n < Pow10(width)
    ensures |FormatInt(n, width)| == width
  {
    DigitsFit(n, width);
    FormatIntReadsBack(n, width);
  }

  /** A character that is neither a digit nor '-' never occurs in a formatted number. */
  lemma NotInNumber(n: int, width: nat, c: char)
    requires !IsDigit(c) && c != '-'
    ensures c !in FormatInt(n, width)
  {
    FormatIntReadsBack(n, width);
  }

  /** Reads an optionally negative decimal number, as `strconv.Atoi` would; None for anything else. */
  function ReadInt(t: string): Option<int>
  {
    if |t| >= 2 && t[0] == '-' && IsDigits(t[1..]) then Some(-(Value(t[1..]) as int))
    else if t != [] && IsDigits(t) then Some(Value(t) as int)
    else None
  }

  /** Reading back `%d` or `%0Nd` gives the number again, negative ones included. */
  lemma FormatIntParses(n: int, width: nat)
    ensures ReadInt(FormatInt(n, width)) == Some(n)
  {
    FormatIntReadsBack(n, width);
  }

  /** The text before the first `c` and the text after it; None when `c` does not occur. */
  function SplitFirst(t: string, c: char): Option<(string, string)>
    decreases |t|
  {
    if t == [] then None
    else if t[0] == c then Some(([], t[1..]))
    else match SplitFirst(t[1..], c)
      case None => None
      case Some(p) => Some(([t[0]] + p.0, p.1))
  }

  /** Splitting at the first `c` finds the boundary that was put there. */
  lemma {:induction false} SplitFirstAt(a: string, c: char, b: string)
    requires c !in a
    ensures SplitFirst(a + [c] + b, c) == Some((a, b))
    decreases |a|
  {
    if a == [] {
      assert a + [c] + b == [c] + b;
    } else {
      assert (a + [c] + b)[1..] == a[1..] + [c] + b;
      SplitFirstAt(a[1..], c, b);
      assert [a[0]] + a[1..] == a;
    }
  }

  /** `strings.TrimRight(s, "\n")`: every trailing newline removed, nothing else. */
  function TrimRightNewlines(s: string): (r: string)
    ensures |r| <= |s| && r == s[..|r|]
    ensures r == [] || r[|r| - 1] != '\n'
    ensures forall i :: |r| <= i < |s| ==> s[i] == '\n'
    decreases |s|
  {
    if s != [] && s[|s| - 1] == '\n' then TrimRightNewlines(s[..|s| - 1]) else s
  }

  /** The three properties above determine the trimmed string: it is the only such prefix. */
  lemma TrimRightNewlinesUnique(s: string, r': string)
    requires |r'| <= |s| && r' == s[..|r'|]
    requires r' == [] || r'[|r'| - 1] != '\n'
    requires forall i :: |r'| <= i < |s| ==> s[i] == '\n'
    ensures r' == TrimRightNewlines(s)
  {
    var r := TrimRightNewlines(s);
    assert |r| == |r'|;
  }

  /** Trimming text behind a prefix that does not end in a newline leaves the prefix alone. */
  lemma {:induction false} TrimRightAfterPrefix(p: string, s: string)
    requires p != [] && p[|p| - 1] != '\n'
    ensures TrimRightNewlines(p + s) == p + TrimRightNewlines(s)
    decreases |s|
  {
    if s != [] && s[|s| - 1] == '\n' {
      assert (p + s)[..|p + s| - 1] == p + s[..|s| - 1];
      TrimRightAfterPrefix(p, s[..|s| - 1]);
    } else if s == [] {
      assert p + s == p;
    }
  }
}
