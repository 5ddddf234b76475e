/** Text helpers: substring search, decimal digits, joining. Strings are
    sequences of characters; nothing here depends on an encoding. */
module Strings {
  import opened Wrappers

  /** `pat` occurs in `s` starting at position `i`. */
  predicate MatchAt(s: string, pat: string, i: nat) {
    i + |pat| <= |s| && s[i..i + |pat|] == pat
  }

  /** Position of the first occurrence of `pat` in `s` at or after `from`. */
  function IndexOfFrom(s: string, pat: string, from: nat): (r: Option<nat>)
    ensures r.Some? ==> from <= r.value && r.value + |pat| <= |s| && MatchAt(s, pat, r.value)
    ensures r.Some? ==> forall j :: from <= j < r.value ==> !MatchAt(s, pat, j)
    ensures r.None? ==> forall j :: from <= j ==> !MatchAt(s, pat, j)
    decreases |s| + 1 - from
  {
    if from > |s| then None
    else if MatchAt(s, pat, from) then Some(from)
    else IndexOfFrom(s, pat, from + 1)
  }

  /** Position of the first occurrence of `pat` in `s`. */
  function IndexOf(s: string, pat: string): Option<nat> {
    IndexOfFrom(s, pat, 0)
  }

  /** JavaScript's `String.prototype.includes`. */
  predicate Contains(s: string, pat: string) {
    IndexOf(s, pat).Some?
  }

  /** A string containing `pat` somewhere, found by `Contains`. */
  lemma {:induction false} ContainsWhenMatched(s: string, pat: string, i: nat)
    requires MatchAt(s, pat, i)
    ensures Contains(s, pat)
  {
  }

  /** Every string that starts with `pat` contains it. */
  lemma {:induction false} ContainsPrefix(pat: string, rest: string)
    ensures Contains(pat + rest, pat)
  {
    assert (pat + rest)[0..|pat|] == pat;
    ContainsWhenMatched(pat + rest, pat, 0);
  }

  predicate IsDigit(c: char) {
    '0' <= c <= '9'
  }

  predicate AllDigits(s: string) {
    forall i :: 0 <= i < |s| ==> IsDigit(s[i])
  }

  function DigitValue(c: char): nat
    requires IsDigit(c)
  {
    (c as int) - ('0' as int)
  }

  function DigitChar(d: nat): (c: char)
    requires d < 10
    ensures IsDigit(c) && DigitValue(c) == d
  {
    (('0' as int) + d) as char
  }

  /** The decimal value of a digit string, leading zeros allowed
      (`parseInt(s, 10)` on unbounded integers). */
  function DigitsToNat(s: string): nat
    requires AllDigits(s)
    decreases |s|
  {
    if |s| == 0 then 0 else DigitsToNat(s[..|s| - 1]) * 10 + DigitValue(s[|s| - 1])
  }

  /** The canonical decimal rendering of `n` (`n.toString()`), inverse of
      `DigitsToNat`. */
  function NatToString(n: nat): (r: string)
    ensures |r| > 0 && AllDigits(r)
    ensures DigitsToNat(r) == n
    ensures n > 0 ==> r[0] != '0'
    decreases n
  {
    if n < 10 then [DigitChar(n)]
    else
      var r := NatToString(n / 10) + [DigitChar(n % 10)];
      assert r[..|r| - 1] == NatToString(n / 10);
      r
  }

  /** Length of the maximal run of digits starting at position `i`. */
  function DigitRun(s: string, i: nat): (n: nat)
    requires i <= |s|
    ensures i + n <= |s| && AllDigits(s[i..i + n])
    ensures i + n == |s| || !IsDigit(s[i + n])
    decreases |s| - i
  {
    if i < |s| && IsDigit(s[i]) then
      var n := 1 + DigitRun(s, i + 1);
      assert s[i..i + n] == [s[i]] + s[i + 1..i + n];
      n
    else 0
  }

  /** The run of digits at the start of `ds + rest` is exactly `ds` when
      `rest` does not start with a digit. */
  lemma {:induction false} DigitRunOfDigits(ds: string, rest: string, pre: string)
    requires AllDigits(ds)
    requires |rest| == 0 || !IsDigit(rest[0])
    ensures DigitRun(pre + ds + rest, |pre|) == |ds|
    decreases |ds|
  {
    var s := pre + ds + rest;
    if |ds| == 0 {
      assert s == pre + rest;
      if |rest| > 0 {
        assert s[|pre|] == rest[0];
      }
    } else {
      assert s[|pre|] == ds[0];
      assert s == (pre + [ds[0]]) + ds[1..] + rest;
      DigitRunOfDigits(ds[1..], rest, pre + [ds[0]]);
    }
  }

  /** JavaScript's `value || fallback` on strings: the empty string (and a
      missing value, read as empty) is falsy. */
  function OrElse(value: string, fallback: string): (r: string)
    ensures value != "" ==> r == value
    ensures value == "" ==> r == fallback
  {
    if value != "" then value else fallback
  }

  /** The elements of `xs` separated by `sep` (`Array.prototype.join`). */
  function Join(xs: seq<string>, sep: string): string
    decreases |xs|
  {
    if |xs| == 0 then ""
    else if |xs| == 1 then xs[0]
    else xs[0] + sep + Join(xs[1..], sep)
  }

  /** A backslash immediately followed by the letter n. */
  predicate EscapeAt(s: string, i: int) {
    0 <= i && i + 1 < |s| && s[i] == '\\' && s[i + 1] == 'n'
  }

  /** `s` holds no two-character escape sequence backslash-n. */
  predicate NoEscapes(s: string) {
    forall i | 0 <= i < |s| :: !EscapeAt(s, i)
  }

  /** Every two-character sequence backslash-n replaced by a newline, scanning
      left to right (`replace(/\\n/g, '\n')`). */
  function UnescapeNewlines(s: string): (r: string)
    ensures |r| <= |s|
    ensures |s| > 0 ==> |r| > 0 && (r[0] == '\n' || r[0] == s[0])
    ensures NoEscapes(r)
    decreases |s|
  {
    if |s| == 0 then ""
    else if EscapeAt(s, 0) then
      var rest := UnescapeNewlines(s[2..]);
      var r := "\n" + rest;
      assert forall i :: EscapeAt(r, i) ==> EscapeAt(rest, i - 1);
      r
    else
      var rest := UnescapeNewlines(s[1..]);
      var r := [s[0]] + rest;
      assert forall i :: EscapeAt(r, i) ==> i == 0 || EscapeAt(rest, i - 1);
      r
  }

  /** A string without escape sequences is left unchanged; in particular
      unescaping is idempotent. */
  lemma {:induction false} UnescapeIdentity(s: string)
    requires NoEscapes(s)
    ensures UnescapeNewlines(s) == s
    decreases |s|
  {
    if |s| > 0 {
      assert !EscapeAt(s, 0);
      assert NoEscapes(s[1..]) by {
        forall i | EscapeAt(s[1..], i) ensures false {
          assert EscapeAt(s, i + 1);
        }
      }
      UnescapeIdentity(s[1..]);
    }
  }

  /** Each backslash-n becomes one newline and the text on either side is
      unescaped on its own: the replacement maps every escape to a newline
      and keeps every other character. */
  lemma {:induction false} UnescapeSplit(a: string, b: string)
    ensures UnescapeNewlines(a + "\\n" + b) == UnescapeNewlines(a) + "\n" + UnescapeNewlines(b)
    decreases |a|
  {
    var s := a + "\\n" + b;
    if |a| == 0 {
      assert s == "\\n" + b;
      assert EscapeAt(s, 0);
      assert s[2..] == b;
    } else if |a| == 1 {
      assert !EscapeAt(s, 0) by { assert s[1] == '\\'; }
      assert s[1..] == "\\n" + b;
      assert UnescapeNewlines(a) == [a[0]];
      UnescapeSplit([], b);
      assert [] + "\\n" + b == "\\n" + b;
    } else if EscapeAt(a, 0) {
      assert EscapeAt(s, 0);
      assert s[2..] == a[2..] + "\\n" + b;
      UnescapeSplit(a[2..], b);
    } else {
      assert !EscapeAt(s, 0) by { assert s[1] == a[1]; }
      assert s[1..] == a[1..] + "\\n" + b;
      UnescapeSplit(a[1..], b);
    }
  }
}
