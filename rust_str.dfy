/**
 * The pieces of Rust's string library that the schedule parser relies on:
 * `str::lines`, `str::split` on a single character, `char::is_digit(10)` and
 * the decimal reading that `str::parse::<u32>` performs on a string made of
 * digits only.  Strings are sequences of Unicode scalar values, as Rust's
 * `char` is.
 */
module RustStr {

  /** Index of the first occurrence of `c` in `s`, or `|s|` when there is none. */
  function IndexOf(s: string, c: char): (i: nat)
    ensures i <= |s|
    ensures i < |s| ==> s[i] == c
    ensures forall j :: 0 <= j < i ==> s[j] != c
  {
    if |s| == 0 then 0
    else if s[0] == c then 0
    else 1 + IndexOf(s[1..], c)
  }

  /** Number of occurrences of `c` in `s`. */
  function Count(s: string, c: char): nat
  {
    if |s| == 0 then 0
    else (if s[0] == c then 1 else 0) + Count(s[1..], c)
  }

  /** `s.split(sep).collect()`: the pieces between the separators, empty pieces included. */
  function Split(s: string, sep: char): seq<string>
    decreases |s|
  {
    var i := IndexOf(s, sep);
    if i == |s| then [s]
    else [s[..i]] + Split(s[i + 1..], sep)
  }

  /** The pieces put back together, one separator between neighbours. */
  function Join(parts: seq<string>, sep: char): string
  {
    if |parts| == 0 then ""
    else if |parts| == 1 then parts[0]
    else parts[0] + [sep] + Join(parts[1..], sep)
  }

  /** Drops one trailing carriage return, as `lines` does before a line feed. */
  function StripCr(s: string): string
  {
    if |s| > 0 && s[|s| - 1] == '\r' then s[..|s| - 1] else s
  }

  /**
   * `s.lines().collect()`: the text is cut after every line feed; each piece
   * loses its line feed and then one carriage return before it.  A final line
   * feed does not start an empty last line, and the empty text has no lines.
   */
  function Lines(s: string): seq<string>
    decreases |s|
  {
    if |s| == 0 then []
    else
      var i := IndexOf(s, '\n');
      if i == |s| then [s]
      else [StripCr(s[..i])] + Lines(s[i + 1..])
  }

  /** `c.is_digit(10)`: only the ASCII decimal digits. */
  predicate IsDigit(c: char)
  {
    '0' <= c <= '9'
  }

  predicate AllDigits(s: string)
  {
    forall i :: 0 <= i < |s| ==> IsDigit(s[i])
  }

  /** The digits of `s`, in order; every other character dropped. */
  function Digits(s: string): (ds: string)
    ensures AllDigits(ds) && |ds| <= |s|
  {
    if |s| == 0 then ""
    else if IsDigit(s[|s| - 1]) then Digits(s[..|s| - 1]) + [s[|s| - 1]]
    else Digits(s[..|s| - 1])
  }

  function DigitValue(c: char): nat
    requires IsDigit(c)
  {
    (c as int) - ('0' as int)
  }

  /** The number a string of decimal digits denotes, most significant digit first. */
  function DecimalValue(ds: string): nat
    requires AllDigits(ds)
  {
    if |ds| == 0 then 0
    else DecimalValue(ds[..|ds| - 1]) * 10 + DigitValue(ds[|ds| - 1])
  }

  function DigitChar(d: nat): (c: char)
    requires d < 10
    ensures IsDigit(c) && DigitValue(c) == d
  {
    ('0' as int + d) as char
  }

  /** The usual decimal rendering of `n`: no leading zero, and "0" for zero. */
  function ToDecimal(n: nat): (ds: string)
    ensures AllDigits(ds) && |ds| > 0
    ensures |ds| > 1 ==> ds[0] != '0'
  {
    if n < 10 then [DigitChar(n)]
    else ToDecimal(n / 10) + [DigitChar(n % 10)]
  }

  // ---------------------------------------------------------------- lemmas

  /** Split breaks the text only at separators: joining the pieces gives the text back. */
  lemma {:induction false} SplitJoin(s: string, sep: char)
    ensures Join(Split(s, sep), sep) == s
    decreases |s|
  {
    var i := IndexOf(s, sep);
    if i < |s| {
      var rest := s[i + 1..];
      var parts := Split(rest, sep);
      SplitJoin(rest, sep);
      var all := [s[..i]] + parts;
      assert Split(s, sep) == all;
      assert all[0] == s[..i] && all[1..] == parts;
      assert Join(all, sep) == s[..i] + [sep] + Join(parts, sep);
      assert s == s[..i] + [sep] + rest;
    }
  }

  /** No piece of Split contains the separator. */
  lemma {:induction false} SplitNoSeparator(s: string, sep: char)
    ensures forall k :: 0 <= k < |Split(s, sep)| ==> sep !in Split(s, sep)[k]
    decreases |s|
  {
    var i := IndexOf(s, sep);
    if i < |s| {
      SplitNoSeparator(s[i + 1..], sep);
      assert sep !in s[..i];
    }
  }

  /** There is one more piece than there are separators. */
  lemma {:induction false} SplitCount(s: string, sep: char)
    ensures |Split(s, sep)| == Count(s, sep) + 1
    decreases |s|
  {
    var i := IndexOf(s, sep);
    if i < |s| {
      CountSplitAt(s, sep, i);
      SplitCount(s[i + 1..], sep);
    } else {
      CountAbsent(s, sep);
    }
  }

  lemma {:induction false} CountAbsent(s: string, c: char)
    requires c !in s
    ensures Count(s, c) == 0
  {
    if |s| > 0 {
      assert c !in s[1..];
      CountAbsent(s[1..], c);
    }
  }

  lemma {:induction false} CountSplitAt(s: string, c: char, i: nat)
    requires i == IndexOf(s, c) && i < |s|
    ensures Count(s, c) == 1 + Count(s[i + 1..], c)
  {
    if s[0] != c {
      CountSplitAt(s[1..], c, i - 1);
      assert s[1..][i - 1 + 1..] == s[i + 1..];
    }
  }

  /** The first piece is the longest prefix free of the separator. */
  lemma SplitHead(s: string, sep: char)
    ensures Split(s, sep)[0] <= s
    ensures sep !in Split(s, sep)[0]
    ensures |Split(s, sep)| == 1 <==> Split(s, sep)[0] == s
    ensures |Split(s, sep)| > 1 ==> |Split(s, sep)[0]| < |s| && s[|Split(s, sep)[0]|] == sep
  {
  }

  /** No line contains a line feed. */
  lemma {:induction false} LinesHaveNoLineFeed(s: string)
    ensures forall k :: 0 <= k < |Lines(s)| ==> '\n' !in Lines(s)[k]
    decreases |s|
  {
    if |s| > 0 {
      var i := IndexOf(s, '\n');
      if i < |s| {
        LinesHaveNoLineFeed(s[i + 1..]);
        assert '\n' !in s[..i];
        assert '\n' !in StripCr(s[..i]);
      }
    }
  }

  /** A text without a line feed is one line, kept whole. */
  lemma SingleLine(s: string)
    requires |s| > 0 && '\n' !in s
    ensures Lines(s) == [s]
  {
  }

  /** A line feed ends one line, and the lines after it are those of the rest. */
  lemma LinesCons(line: string, rest: string)
    requires '\n' !in line
    ensures Lines(line + "\n" + rest) == [StripCr(line)] + Lines(rest)
  {
    var s := line + "\n" + rest;
    IndexOfAfter(line, '\n', rest);
    assert s[..|line|] == line;
    assert s[|line| + 1..] == rest;
  }

  lemma {:induction false} IndexOfAfter(a: string, c: char, b: string)
    requires c !in a
    ensures IndexOf(a + [c] + b, c) == |a|
  {
    if |a| > 0 {
      assert (a + [c] + b)[1..] == a[1..] + [c] + b;
      IndexOfAfter(a[1..], c, b);
    }
  }

  /** A final line feed adds no empty line. */
  lemma TrailingLineFeed(line: string)
    requires '\n' !in line
    ensures Lines(line + "\n") == [StripCr(line)]
  {
    LinesCons(line, "");
    assert line + "\n" + "" == line + "\n";
  }

  /** The digit filter distributes over concatenation. */
  lemma {:induction false} DigitsAppend(a: string, b: string)
    ensures Digits(a + b) == Digits(a) + Digits(b)
    decreases |b|
  {
    if |b| == 0 {
      assert a + b == a;
    } else {
      var ab := a + b;
      assert ab[..|ab| - 1] == a + b[..|b| - 1];
      assert ab[|ab| - 1] == b[|b| - 1];
      DigitsAppend(a, b[..|b| - 1]);
    }
  }

  /** A string of digits passes the filter whole. */
  lemma {:induction false} DigitsKeepDigitString(s: string)
    requires AllDigits(s)
    ensures Digits(s) == s
  {
    if |s| > 0 {
      DigitsKeepDigitString(s[..|s| - 1]);
      assert s[..|s| - 1] + [s[|s| - 1]] == s;
    }
  }

  /** The filter leaves nothing exactly when there is no digit. */
  lemma {:induction false} DigitsEmpty(s: string)
    ensures |Digits(s)| == 0 <==> forall i :: 0 <= i < |s| ==> !IsDigit(s[i])
  {
    if |s| > 0 {
      DigitsEmpty(s[..|s| - 1]);
      assert forall i :: 0 <= i < |s| - 1 ==> s[..|s| - 1][i] == s[i];
    }
  }

  /** Reading a rendered number gives the number back. */
  lemma {:induction false} DecimalRoundTrip(n: nat)
    ensures DecimalValue(ToDecimal(n)) == n
  {
    if n >= 10 {
      var ds := ToDecimal(n);
      DecimalRoundTrip(n / 10);
      assert ds[..|ds| - 1] == ToDecimal(n / 10);
    }
  }

  /** Leading zeros do not change the value. */
  lemma {:induction false} LeadingZero(ds: string)
    requires AllDigits(ds)
    ensures AllDigits("0" + ds) && DecimalValue("0" + ds) == DecimalValue(ds)
    decreases |ds|
  {
    var zs := "0" + ds;
    if |ds| > 0 {
      assert zs[..|zs| - 1] == "0" + ds[..|ds| - 1];
      LeadingZero(ds[..|ds| - 1]);
    }
  }

  /** A prefix of a digit string never denotes more than the whole string. */
  lemma {:induction false} DecimalPrefix(ds: string, j: nat)
    requires AllDigits(ds) && j <= |ds|
    ensures DecimalValue(ds[..j]) <= DecimalValue(ds)
  {
    if j < |ds| {
      var front := ds[..|ds| - 1];
      DecimalPrefix(front, j);
      assert front[..j] == ds[..j];
    } else {
      assert ds[..j] == ds;
    }
  }

  /** A string of `k` digits denotes a number below 10^k. */
  lemma {:induction false} DecimalBound(ds: string)
    requires AllDigits(ds)
    ensures DecimalValue(ds) < Pow10(|ds|)
  {
    if |ds| > 0 {
      DecimalBound(ds[..|ds| - 1]);
    }
  }

  function Pow10(k: nat): (p: nat)
    ensures p >= 1
  {
    if k == 0 then 1 else 10 * Pow10(k - 1)
  }
}
