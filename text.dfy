/**
  The few Python string operations the quiz relies on: `str.strip()`,
  `str.lower()`, `sep.join(lines)`, `str(n)` for an integer and, to read
  texts back, `str.split(sep)` and the parsing of a decimal integer.
*/
module Text {
  import opened Wrappers

  /** The characters for which Python's `str.isspace()` holds, i.e. those `str.strip()` removes. */
  predicate IsSpace(c: char) {
    ('\t' <= c <= '\r') || ('\U{1c}' <= c <= ' ') || c == '\U{85}' || c == '\U{a0}'
    || c == '\U{1680}' || ('\U{2000}' <= c <= '\U{200a}') || c == '\U{2028}' || c == '\U{2029}'
    || c == '\U{202f}' || c == '\U{205f}' || c == '\U{3000}'
  }

  predicate AllSpace(s: string) {
    forall i :: 0 <= i < |s| ==> IsSpace(s[i])
  }

  /** The first position at or after `i` that does not hold whitespace (`|s|` when there is none). */
  function SkipSpaces(s: string, i: nat): (k: nat)
    requires i <= |s|
    ensures i <= k <= |s|
    ensures k == |s| || !IsSpace(s[k])
    decreases |s| - i
  {
    if i < |s| && IsSpace(s[i]) then SkipSpaces(s, i + 1) else i
  }

  /** The end of `s[lo..j]` once the whitespace at its end is dropped. */
  function SkipSpacesBack(s: string, lo: nat, j: nat): (k: nat)
    requires lo <= j <= |s|
    ensures lo <= k <= j
    ensures k == lo || !IsSpace(s[k - 1])
  {
    if lo < j && IsSpace(s[j - 1]) then SkipSpacesBack(s, lo, j - 1) else j
  }

  /** `s.strip()`: the middle of `s` with the whitespace at both ends dropped. */
  function Strip(s: string): (r: string)
    ensures |r| <= |s|
    ensures r == [] || (!IsSpace(r[0]) && !IsSpace(r[|r| - 1]))
  {
    var lo := SkipSpaces(s, 0);
    s[lo..SkipSpacesBack(s, lo, |s|)]
  }

  /** Only the whitespace run that starts at `i` is skipped. */
  lemma {:induction false} SkipSpacesAt(s: string, i: nat, n: nat)
    requires i <= n <= |s|
    requires forall j :: i <= j < n ==> IsSpace(s[j])
    requires n == |s| || !IsSpace(s[n])
    ensures SkipSpaces(s, i) == n
    decreases n - i
  {
    if i < n {
      SkipSpacesAt(s, i + 1, n);
    }
  }

  /** Only the whitespace run that ends at `j` is dropped. */
  lemma {:induction false} SkipSpacesBackAt(s: string, lo: nat, j: nat, n: nat)
    requires lo <= n <= j <= |s|
    requires forall m :: n <= m < j ==> IsSpace(s[m])
    requires n == lo || !IsSpace(s[n - 1])
    ensures SkipSpacesBack(s, lo, j) == n
  {
    if n < j {
      SkipSpacesBackAt(s, lo, j - 1, n);
    }
  }

  /**
    Strip removes exactly the surrounding whitespace: a text whose ends are
    not whitespace comes back unchanged from any amount of padding.
  */
  lemma StripPadded(pre: string, t: string, post: string)
    requires AllSpace(pre) && AllSpace(post)
    requires t == [] || (!IsSpace(t[0]) && !IsSpace(t[|t| - 1]))
    ensures Strip(pre + t + post) == t
  {
    var s := pre + t + post;
    if t == [] {
      forall j | 0 <= j < |s| ensures IsSpace(s[j]) {
        if j < |pre| { assert s[j] == pre[j]; } else { assert s[j] == post[j - |pre|]; }
      }
      SkipSpacesAt(s, 0, |s|);
    } else {
      var hi := |pre| + |t|;
      forall j | 0 <= j < |pre| ensures IsSpace(s[j]) {
        assert s[j] == pre[j];
      }
      assert s[|pre|] == t[0];
      SkipSpacesAt(s, 0, |pre|);
      forall m | hi <= m < |s| ensures IsSpace(s[m]) {
        assert s[m] == post[m - hi];
      }
      assert s[hi - 1] == t[|t| - 1];
      SkipSpacesBackAt(s, |pre|, |s|, hi);
      assert s[|pre|..hi] == t;
    }
  }

  /** The ASCII part of `str.lower()`: `A`..`Z` become `a`..`z`, other characters stay. */
  function LowerChar(c: char): char {
    if 'A' <= c <= 'Z' then (c as int + 32) as char else c
  }

  /** `s.lower()`, character by character. */
  function Lower(s: string): (r: string)
    ensures |r| == |s|
  {
    if s == [] then [] else Lower(s[..|s| - 1]) + [LowerChar(s[|s| - 1])]
  }

  /** `sep.join(lines)`. */
  function Join(lines: seq<string>, sep: string): string {
    if |lines| == 0 then ""
    else if |lines| == 1 then lines[0]
    else Join(lines[..|lines| - 1], sep) + sep + lines[|lines| - 1]
  }

  /** The position of the last `c` in `s`, if any. */
  function LastIndexOf(s: string, c: char): (r: Option<nat>)
    ensures r.None? ==> c !in s
    ensures r.Some? ==> r.value < |s| && s[r.value] == c && c !in s[r.value + 1..]
  {
    if s == [] then None
    else if s[|s| - 1] == c then Some(|s| - 1)
    else
      var r := LastIndexOf(s[..|s| - 1], c);
      assert s == s[..|s| - 1] + [s[|s| - 1]];
      r
  }

  /** `s.split(sep)` for a one-character separator: always at least one piece. */
  function Split(s: string, sep: char): (r: seq<string>)
    ensures |r| >= 1
    decreases |s|
  {
    match LastIndexOf(s, sep)
    case None => [s]
    case Some(i) => Split(s[..i], sep) + [s[i + 1..]]
  }

  /** Joining lines that hold no separator and splitting the result gives the lines back. */
  lemma {:induction false} SplitJoin(lines: seq<string>, sep: char)
    requires |lines| >= 1
    requires forall i :: 0 <= i < |lines| ==> sep !in lines[i]
    ensures Split(Join(lines, [sep]), sep) == lines
  {
    if |lines| == 1 {
      assert Join(lines, [sep]) == lines[0];
    } else {
      var init, last := lines[..|lines| - 1], lines[|lines| - 1];
      var u := Join(init, [sep]);
      var s := u + [sep] + last;
      assert Join(lines, [sep]) == s;
      var r := LastIndexOf(s, sep);
      assert s[|u|] == sep;
      assert r.Some?;
      if r.value != |u| {
        assert false;
      }
      assert s[..|u|] == u;
      assert s[|u| + 1..] == last;
      SplitJoin(init, sep);
    }
  }
  predicate IsDigit(c: char) {
    '0' <= c <= '9'
  }

  predicate AllDigits(s: string) {
    forall i :: 0 <= i < |s| ==> IsDigit(s[i])
  }

  /** The decimal digit for `d`. */
  function DigitChar(d: nat): (c: char)
    requires d < 10
    ensures IsDigit(c) && c as int - '0' as int == d
  {
    ('0' as int + d) as char
  }

  /** `str(n)` for `n >= 0`: its decimal digits, most significant first, without leading zeros. */
  function NatToString(n: nat): (s: string)
    ensures |s| >= 1 && AllDigits(s)
    ensures n >= 10 <==> |s| > 1
    decreases n
  {
    if n < 10 then [DigitChar(n)] else NatToString(n / 10) + [DigitChar(n % 10)]
  }

  /** `str(i)`: a minus sign before the digits of a negative number. */
  function IntToString(i: int): (s: string)
    ensures |s| >= 1 && (i < 0 <==> s[0] == '-')
  {
    if i < 0 then "-" + NatToString(-i) else NatToString(i)
  }

  /** The number a string of decimal digits spells. */
  function DigitsValue(s: string): nat
    requires AllDigits(s)
  {
    if s == [] then 0 else DigitsValue(s[..|s| - 1]) * 10 + (s[|s| - 1] as int - '0' as int)
  }

  /** A decimal integer: an optional minus sign and at least one digit; None for anything else. */
  function ParseInt(s: string): (r: Option<int>)
    ensures r.Some? <==> (|s| >= 1 && AllDigits(s)) || (|s| >= 2 && s[0] == '-' && AllDigits(s[1..]))
    ensures r.Some? && s[0] != '-' ==> r.value >= 0
  {
    if |s| >= 2 && s[0] == '-' && AllDigits(s[1..]) then Some(0 - DigitsValue(s[1..]) as int)
    else if |s| >= 1 && AllDigits(s) then Some(DigitsValue(s))
    else None
  }

  lemma {:induction false} DigitsValueOfNat(n: nat)
    ensures DigitsValue(NatToString(n)) == n
    decreases n
  {
    if n >= 10 {
      DigitsValueOfNat(n / 10);
      var s := NatToString(n);
      assert s[..|s| - 1] == NatToString(n / 10);
    }
  }

  /** Printing an integer and parsing it back gives the integer. */
  lemma IntRoundTrip(i: int)
    ensures ParseInt(IntToString(i)) == Some(i)
  {
    if i < 0 {
      var s := IntToString(i);
      assert s[1..] == NatToString(-i);
      DigitsValueOfNat(-i);
    } else {
      DigitsValueOfNat(i);
    }
  }
}
