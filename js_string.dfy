/** The JavaScript string operations the app relies on: `trim`, `split(c)[0]`,
    `replace(c, '')` with a one-character pattern, `includes`, and the decimal
    rendering of a non-negative integer in a template literal. */
module JsString {

  /** WhiteSpace and LineTerminator code points, which `trim` removes. */
  predicate IsWhitespace(c: char)
  {
    || c == '\t' || c == '\n' || c == '\U{000B}' || c == '\U{000C}' || c == '\r'
    || c == ' ' || c == '\U{00A0}' || c == '\U{1680}'
    || ('\U{2000}' <= c <= '\U{200A}')
    || c == '\U{2028}' || c == '\U{2029}' || c == '\U{202F}' || c == '\U{205F}'
    || c == '\U{3000}' || c == '\U{FEFF}'
  }

  /** Every character of `s` is white space (vacuously so for ""). */
  predicate IsBlank(s: string)
  {
    forall i :: 0 <= i < |s| ==> IsWhitespace(s[i])
  }

  /** `s` without its leading white space. */
  function TrimStart(s: string): string
  {
    if s != [] && IsWhitespace(s[0]) then TrimStart(s[1..]) else s
  }

  /** Trimming the start drops a blank prefix and stops at the first character
      that is not white space. */
  lemma {:induction false} TrimStartSpec(s: string)
    ensures var r := TrimStart(s);
            && |r| <= |s| && r == s[|s| - |r|..]
            && IsBlank(s[..|s| - |r|])
            && (r == [] || !IsWhitespace(r[0]))
  {
    if s != [] && IsWhitespace(s[0]) {
      TrimStartSpec(s[1..]);
      var r := TrimStart(s);
      assert s[..|s| - |r|] == [s[0]] + s[1..][..|s| - 1 - |r|];
    }
  }

  /** `s` without its trailing white space. */
  function TrimEnd(s: string): string
  {
    if s != [] && IsWhitespace(s[|s| - 1]) then TrimEnd(s[..|s| - 1]) else s
  }

  /** Trimming the end drops a blank suffix and stops at the last character
      that is not white space. */
  lemma {:induction false} TrimEndSpec(s: string)
    ensures var r := TrimEnd(s);
            && |r| <= |s| && r == s[..|r|]
            && IsBlank(s[|r|..])
            && (r == [] || !IsWhitespace(r[|r| - 1]))
  {
    if s != [] && IsWhitespace(s[|s| - 1]) {
      var p := s[..|s| - 1];
      TrimEndSpec(p);
      var r := TrimEnd(s);
      assert s[|r|..] == p[|r|..] + [s[|s| - 1]];
    }
  }

  /** `s.trim()`: never longer than `s`, and free of white space at both
      ends. */
  function Trim(s: string): (r: string)
    ensures |r| <= |s|
    ensures r == [] || (!IsWhitespace(r[0]) && !IsWhitespace(r[|r| - 1]))
  {
    TrimStartSpec(s);
    TrimEndSpec(TrimStart(s));
    TrimEnd(TrimStart(s))
  }

  /** `s.trim()` is `s` less a blank prefix and a blank suffix, and it neither
      starts nor ends with white space. */
  lemma TrimSpec(s: string)
    ensures exists i, j :: 0 <= i <= j <= |s| && Trim(s) == s[i..j] && IsBlank(s[..i]) && IsBlank(s[j..])
    ensures Trim(s) == [] || (!IsWhitespace(Trim(s)[0]) && !IsWhitespace(Trim(s)[|Trim(s)| - 1]))
  {
    var t := TrimStart(s);
    TrimStartSpec(s);
    TrimEndSpec(t);
    var i := |s| - |t|;
    var j := i + |TrimEnd(t)|;
    assert Trim(s) == s[i..j];
    assert s[j..] == t[|TrimEnd(t)|..];
  }

  /** `s.trim()` is empty exactly when `s` is all white space. */
  lemma TrimEmptyIffBlank(s: string)
    ensures Trim(s) == "" <==> IsBlank(s)
  {
    var t := TrimStart(s);
    TrimStartSpec(s);
    TrimEndSpec(t);
    assert s == s[..|s| - |t|] + t;
  }

  /** `s.split(c)[0]`: the text before the first `c`, or all of `s`. */
  function BeforeFirst(s: string, c: char): (r: string)
    ensures |r| <= |s| && c !in r
  {
    if s == [] || s[0] == c then [] else [s[0]] + BeforeFirst(s[1..], c)
  }

  /** The text before the first `c` is the longest prefix of `s` without a
      `c`: it is followed by `c` unless it is all of `s`. */
  lemma {:induction false} BeforeFirstSpec(s: string, c: char)
    ensures var r := BeforeFirst(s, c);
            && |r| <= |s| && r == s[..|r|]
            && c !in r
            && (|r| < |s| ==> s[|r|] == c)
  {
    if s != [] && s[0] != c {
      BeforeFirstSpec(s[1..], c);
    }
  }

  /** `s.replace(c, '')` for a one-character pattern: only the first `c` goes. */
  function RemoveFirst(s: string, c: char): (r: string)
    ensures |r| == if c in s then |s| - 1 else |s|
  {
    if s == [] then []
    else if s[0] == c then s[1..]
    else [s[0]] + RemoveFirst(s[1..], c)
  }

  /** Removing the first `c` cuts `s` at the first `c` and joins the two
      sides without it. */
  lemma {:induction false} RemoveFirstSpec(s: string, c: char)
    ensures var b := BeforeFirst(s, c);
            |b| <= |s| &&
            if |b| < |s| then RemoveFirst(s, c) == b + s[|b| + 1..] else RemoveFirst(s, c) == s
  {
    if s != [] && s[0] != c {
      var t := s[1..];
      RemoveFirstSpec(t, c);
      var b := BeforeFirst(t, c);
      assert BeforeFirst(s, c) == [s[0]] + b;
      assert RemoveFirst(s, c) == [s[0]] + RemoveFirst(t, c);
      if |b| < |t| {
        assert t[|b| + 1..] == s[|b| + 2..];
      }
    }
  }

  /** Removing the first `c` takes away exactly one character when `s` holds a
      `c`, leaves `s` as it is otherwise, and never touches a later `c`. */
  lemma {:induction false} RemoveFirstRemovesOne(s: string, c: char)
    ensures c !in s ==> RemoveFirst(s, c) == s
    ensures c in s ==> |RemoveFirst(s, c)| == |s| - 1
    ensures c in s ==> multiset(RemoveFirst(s, c)) == multiset(s) - multiset{c}
  {
    if s != [] {
      assert s == [s[0]] + s[1..];
      if s[0] != c {
        RemoveFirstRemovesOne(s[1..], c);
      }
    }
  }

  /** `s.includes(q)`: `q` occurs in `s` as a contiguous, case-sensitive
      substring. */
  predicate Includes(s: string, q: string)
    ensures Includes(s, q) ==> |q| <= |s|
  {
    exists i :: 0 <= i <= |s| - |q| && OccursAt(s, q, i)
  }

  /** `q` occurs in `s` starting at index `i`. */
  predicate OccursAt(s: string, q: string, i: int)
  {
    0 <= i <= |s| - |q| && s[i..i + |q|] == q
  }

  /** Every string includes the empty string. */
  lemma IncludesEmpty(s: string)
    ensures Includes(s, "")
  {
    assert OccursAt(s, "", 0);
  }

  /** The decimal digit for `d`. */
  function DigitChar(d: nat): (ch: char)
    requires d < 10
    ensures '0' <= ch <= '9' && ch as int - '0' as int == d
  {
    (d + '0' as int) as char
  }

  /** Each character of `s` is a decimal digit. */
  predicate IsDigits(s: string)
  {
    forall i :: 0 <= i < |s| ==> '0' <= s[i] <= '9'
  }

  /** `${n}` for a non-negative integer: its decimal form, no leading zero. */
  function NatToString(n: nat): (s: string)
    ensures |s| > 0 && IsDigits(s)
    ensures s[0] == '0' ==> n == 0
  {
    if n < 10 then [DigitChar(n)] else NatToString(n / 10) + [DigitChar(n % 10)]
  }

  /** The value of a string of decimal digits. */
  function DecimalValue(s: string): nat
    requires IsDigits(s)
  {
    if s == [] then 0
    else 10 * DecimalValue(s[..|s| - 1]) + (s[|s| - 1] as int - '0' as int)
  }

  /** Reading back the decimal form gives the number. */
  lemma {:induction false} DecimalRoundTrip(n: nat)
    ensures DecimalValue(NatToString(n)) == n
  {
    if n >= 10 {
      DecimalRoundTrip(n / 10);
      var s := NatToString(n);
      assert s[..|s| - 1] == NatToString(n / 10);
    }
  }
}
