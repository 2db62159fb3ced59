/** The string primitives the debug logger relies on, as PHP defines them:
    strpos with a one-character needle, the decimal text of a counter, a
    prefix test (strpos(...) === 0) and str_replace with one search string. */
module Strings {

  datatype Option<T> = None | Some(value: T)

  /** PHP strpos(s, c) for a one-character needle: the first position of c. */
  function Find(s: string, c: char): (r: Option<nat>)
    ensures r.None? <==> c !in s
    ensures r.Some? ==> r.value < |s| && s[r.value] == c && c !in s[..r.value]
  {
    if s == [] then None
    else if s[0] == c then Some(0)
    else
      match Find(s[1..], c)
      case None => None
      case Some(p) =>
        assert s[..p + 1] == [s[0]] + s[1..][..p];
        Some(p + 1)
  }

  /** Number of occurrences of the character c in s. */
  function Count(s: string, c: char): (n: nat)
    ensures n == 0 <==> c !in s
    ensures n <= |s|
  {
    if s == [] then 0
    else (if s[0] == c then 1 else 0) + Count(s[1..], c)
  }

  lemma {:induction false} CountConcat(a: string, b: string, c: char)
    ensures Count(a + b, c) == Count(a, c) + Count(b, c)
  {
    if a != [] {
      assert (a + b)[1..] == a[1..] + b;
      CountConcat(a[1..], b, c);
    } else {
      assert a + b == b;
    }
  }

  predicate IsDigit(ch: char) {
    '0' <= ch <= '9'
  }

  predicate AllDigits(s: string) {
    forall i :: 0 <= i < |s| ==> IsDigit(s[i])
  }

  function DigitChar(d: nat): (ch: char)
    requires d < 10
    ensures IsDigit(ch)
  {
    ('0' as int + d) as char
  }

  function DigitValue(ch: char): (d: nat)
    requires IsDigit(ch)
    ensures d < 10
  {
    ch as int - '0' as int
  }

  /** The text PHP produces when an integer counter n >= 0 is interpolated
      into a string: its decimal digits, without sign or leading zeros. */
  function DecimalString(n: nat): (s: string)
    ensures |s| > 0 && AllDigits(s)
    ensures |s| > 1 ==> s[0] != '0'
  {
    if n < 10 then [DigitChar(n)]
    else DecimalString(n / 10) + [DigitChar(n % 10)]
  }

  /** Reads a string of decimal digits back as a number. */
  function ParseDecimal(s: string): nat
    requires AllDigits(s)
  {
    if s == [] then 0
    else ParseDecimal(s[..|s| - 1]) * 10 + DigitValue(s[|s| - 1])
  }

  /** The decimal text of a counter reads back as the counter. */
  lemma {:induction false} ParseDecimalString(n: nat)
    ensures ParseDecimal(DecimalString(n)) == n
  {
    var s := DecimalString(n);
    if n >= 10 {
      ParseDecimalString(n / 10);
      assert s[..|s| - 1] == DecimalString(n / 10);
      assert DigitValue(s[|s| - 1]) == n % 10;
    }
  }

  /** Different counters give different decimal texts. */
  lemma DecimalStringInjective(a: nat, b: nat)
    ensures DecimalString(a) == DecimalString(b) ==> a == b
  {
    ParseDecimalString(a);
    ParseDecimalString(b);
  }

  /** p occurs somewhere in s as a contiguous substring. */
  predicate Contains(s: string, p: string)
    decreases |s|
  {
    p <= s || (s != [] && Contains(s[1..], p))
  }

  /** PHP str_replace(search, replace, s): scans s left to right and replaces
      every non-overlapping occurrence of search; an empty search string
      leaves s unchanged. */
  function ReplaceAll(s: string, search: string, replace: string): (r: string)
    ensures search == [] ==> r == s
    ensures |replace| == |search| ==> |r| == |s|
    decreases |s|
  {
    if search == [] || |s| < |search| then s
    else if search <= s then replace + ReplaceAll(s[|search|..], search, replace)
    else [s[0]] + ReplaceAll(s[1..], search, replace)
  }

  /** A string in which the search string does not occur comes back unchanged. */
  lemma {:induction false} ReplaceAllAbsent(s: string, search: string, replace: string)
    requires !Contains(s, search)
    ensures ReplaceAll(s, search, replace) == s
    decreases |s|
  {
    if search != [] && |s| >= |search| {
      ReplaceAllAbsent(s[1..], search, replace);
      assert [s[0]] + s[1..] == s;
    }
  }

  /** Text without the first character of the search string is copied
      through unchanged. */
  lemma {:induction false} ReplaceAllPlainPrefix(pre: string, rest: string, search: string, replace: string)
    requires search != [] && search[0] !in pre
    ensures ReplaceAll(pre + rest, search, replace) == pre + ReplaceAll(rest, search, replace)
    decreases |pre|
  {
    if pre != [] {
      var s := pre + rest;
      assert s[0] == pre[0] && s[1..] == pre[1..] + rest;
      ReplaceAllPlainPrefix(pre[1..], rest, search, replace);
      if |rest| < |search| && |s[1..]| < |search| {
        assert ReplaceAll(pre[1..] + rest, search, replace) == pre[1..] + rest;
      }
    } else {
      assert pre + rest == rest;
    }
  }

  /** Where the search string does not start, the first character is
      copied and the scan moves on by one. */
  lemma ReplaceAllNoMatchHere(s: string, search: string, replace: string)
    requires s != [] && search != [] && !(search <= s)
    ensures ReplaceAll(s, search, replace) == [s[0]] + ReplaceAll(s[1..], search, replace)
  {
    if |s| < |search| {
      assert [s[0]] + s[1..] == s;
    }
  }
}
