/**
 * Character classes and string operations of the JavaScript runtime that the
 * launcher relies on: the `\s` and `\d` regular-expression classes, ASCII case
 * folding of case-insensitive patterns, `String.prototype.split` on a single
 * character, `trim`, decimal rendering of a number and `parseInt(_, 10)`.
 */
module Text {

  /** ECMAScript WhiteSpace and LineTerminator code points: the `\s` class and what `trim` removes. */
  predicate IsWhitespace(c: char) {
    c == ' ' || c == '\t' || c == '\n' || c == '\r' || c == '\U{000B}' || c == '\U{000C}'
    || c == '\U{00A0}' || c == '\U{1680}' || ('\U{2000}' <= c <= '\U{200A}')
    || c == '\U{2028}' || c == '\U{2029}' || c == '\U{202F}' || c == '\U{205F}'
    || c == '\U{3000}' || c == '\U{FEFF}'
  }

  /** The `\d` class: ASCII digits only. */
  predicate IsDigit(c: char) {
    '0' <= c <= '9'
  }

  function DigitValue(c: char): (d: nat)
    requires IsDigit(c)
    ensures d < 10
  {
    c as int - '0' as int
  }

  function DigitChar(d: nat): (c: char)
    requires d < 10
    ensures IsDigit(c) && DigitValue(c) == d
  {
    ('0' as int + d) as char
  }

  /** ASCII case folding, which is all that a non-Unicode `/i` pattern over ASCII letters distinguishes. */
  function Lower(c: char): (l: char)
    ensures !('A' <= l <= 'Z')
    ensures 'a' <= c <= 'z' ==> l == c
  {
    if 'A' <= c <= 'Z' then (c as int - 'A' as int + 'a' as int) as char else c
  }

  /** Characters that fold to the same one differ at most in the case of an ASCII letter. */
  lemma SameFold(c: char, d: char)
    requires Lower(c) == Lower(d)
    ensures IsWhitespace(c) == IsWhitespace(d)
    ensures IsDigit(c) ==> c == d
    ensures IsDigit(d) ==> c == d
    ensures c == '=' <==> d == '='
    ensures c == ':' <==> d == ':'
  {
  }

  predicate AllDigits(s: string) {
    forall i :: 0 <= i < |s| ==> IsDigit(s[i])
  }

  /** `parseInt(s, 10)` of a run of decimal digits, without the loss of precision of a double. */
  function DigitsValue(s: string): nat
    requires AllDigits(s)
  {
    if |s| == 0 then 0 else DigitsValue(s[..|s| - 1]) * 10 + DigitValue(s[|s| - 1])
  }

  /** Decimal rendering of a number, as a template literal `${n}` produces it. */
  function NatToString(n: nat): (s: string)
    ensures |s| > 0 && AllDigits(s)
  {
    if n < 10 then [DigitChar(n)] else NatToString(n / 10) + [DigitChar(n % 10)]
  }

  /** Reading back a rendered number gives the number. */
  lemma {:induction false} DigitsValueOfNatToString(n: nat)
    ensures DigitsValue(NatToString(n)) == n
  {
    var s := NatToString(n);
    if n >= 10 {
      DigitsValueOfNatToString(n / 10);
      assert s[..|s| - 1] == NatToString(n / 10);
    }
  }

  /** The run of digits that starts at `i`: what a greedy `\d+` takes. */
  function DigitPrefix(s: string, i: nat): (d: string)
    requires i <= |s|
    ensures AllDigits(d)
    ensures d == [] <==> i == |s| || !IsDigit(s[i])
    decreases |s| - i
  {
    if i == |s| || !IsDigit(s[i]) then [] else [s[i]] + DigitPrefix(s, i + 1)
  }

  /** When everything from `i` on is a digit, the run is the whole rest. */
  lemma {:induction false} DigitPrefixOfDigits(s: string, i: nat)
    requires i <= |s| && AllDigits(s[i..])
    ensures DigitPrefix(s, i) == s[i..]
    decreases |s| - i
  {
    if i < |s| {
      assert IsDigit(s[i..][0]);
      assert s[i + 1..] == s[i..][1..];
      DigitPrefixOfDigits(s, i + 1);
    }
  }

  /** The run of digits from `j` is a slice of `s`, ended by a non-digit or the end. */
  lemma {:induction false} DigitPrefixIsRun(s: string, j: nat)
    requires j <= |s|
    ensures j + |DigitPrefix(s, j)| <= |s| && DigitPrefix(s, j) == s[j..j + |DigitPrefix(s, j)|]
    ensures j + |DigitPrefix(s, j)| == |s| || !IsDigit(s[j + |DigitPrefix(s, j)|])
    decreases |s| - j
  {
    if j < |s| && IsDigit(s[j]) {
      DigitPrefixIsRun(s, j + 1);
    }
  }

  /** A maximal run of digits `s[j..k]` is what a greedy `\d+` at `j` takes. */
  lemma DigitPrefixIs(s: string, j: nat, k: nat)
    requires j <= k <= |s| && AllDigits(s[j..k]) && (k == |s| || !IsDigit(s[k]))
    ensures DigitPrefix(s, j) == s[j..k]
  {
    DigitPrefixIsRun(s, j);
    var d := DigitPrefix(s, j);
    assert forall m :: j <= m < k ==> IsDigit(s[m]) by {
      forall m | j <= m < k ensures IsDigit(s[m]) { assert s[m] == s[j..k][m - j]; }
    }
    assert forall m :: j <= m < j + |d| ==> IsDigit(s[m]) by {
      forall m | j <= m < j + |d| ensures IsDigit(s[m]) { assert s[m] == d[m - j]; }
    }
  }

  /** `s.split(sep)`: the pieces between occurrences of `sep`, empty pieces included. */
  function Split(s: string, sep: char): (parts: seq<string>)
    ensures |parts| > 0
    ensures forall k :: 0 <= k < |parts| ==> sep !in parts[k]
  {
    if |s| == 0 then [""]
    else if s[0] == sep then [""] + Split(s[1..], sep)
    else
      var rest := Split(s[1..], sep);
      [[s[0]] + rest[0]] + rest[1..]
  }

  /** `parts.join(sep)`. */
  function Join(parts: seq<string>, sep: char): string {
    if |parts| == 0 then ""
    else if |parts| == 1 then parts[0]
    else parts[0] + [sep] + Join(parts[1..], sep)
  }

  /** Joining the pieces of a split gives back the string. */
  lemma {:induction false} JoinSplit(s: string, sep: char)
    ensures Join(Split(s, sep), sep) == s
  {
    if |s| > 0 {
      var rest := Split(s[1..], sep);
      JoinSplit(s[1..], sep);
      if s[0] != sep {
        var parts := Split(s, sep);
        assert parts[1..] == rest[1..];
        if |rest| == 1 {
          assert Join(parts, sep) == [s[0]] + rest[0];
        } else {
          assert Join(parts, sep) == [s[0]] + rest[0] + [sep] + Join(rest[1..], sep);
          assert Join(rest, sep) == rest[0] + [sep] + Join(rest[1..], sep);
        }
      }
    }
  }

  /** Splitting a join of separator-free pieces gives back the pieces. */
  lemma {:induction false} SplitJoin(parts: seq<string>, sep: char)
    requires |parts| > 0
    requires forall k :: 0 <= k < |parts| ==> sep !in parts[k]
    ensures Split(Join(parts, sep), sep) == parts
  {
    if |parts| == 1 {
      SplitPiece(parts[0], sep);
    } else {
      SplitJoin(parts[1..], sep);
      SplitPrefix(parts[0], Join(parts[1..], sep), sep);
      assert Join(parts, sep) == parts[0] + ([sep] + Join(parts[1..], sep));
    }
  }

  /** A piece without separators splits into itself. */
  lemma {:induction false} SplitPiece(p: string, sep: char)
    requires sep !in p
    ensures Split(p, sep) == [p]
  {
    if |p| > 0 {
      SplitPiece(p[1..], sep);
      assert [p[0]] + p[1..] == p;
    }
  }

  /** A separator-free prefix followed by a separator becomes the first piece. */
  lemma {:induction false} SplitPrefix(p: string, rest: string, sep: char)
    requires sep !in p
    ensures Split(p + ([sep] + rest), sep) == [p] + Split(rest, sep)
  {
    var s := p + ([sep] + rest);
    if |p| == 0 {
      assert s == [sep] + rest;
      assert s[1..] == rest;
    } else {
      SplitPrefix(p[1..], rest, sep);
      assert s[1..] == p[1..] + ([sep] + rest);
      assert [p[0]] + p[1..] == p;
    }
  }

  function TrimStart(s: string): (t: string)
    ensures |t| <= |s| && t == s[|s| - |t|..]
    ensures t == [] || !IsWhitespace(t[0])
  {
    if |s| > 0 && IsWhitespace(s[0]) then TrimStart(s[1..]) else s
  }

  function TrimEnd(s: string): (t: string)
    ensures |t| <= |s| && t == s[..|t|]
    ensures t == [] || !IsWhitespace(t[|t| - 1])
  {
    if |s| > 0 && IsWhitespace(s[|s| - 1]) then TrimEnd(s[..|s| - 1]) else s
  }

  /** `s.trim()`. */
  function Trim(s: string): string {
    TrimEnd(TrimStart(s))
  }

  /** `trim` keeps one slice of the string, which neither starts nor ends with whitespace. */
  lemma TrimIsSlice(s: string)
    ensures var a := |s| - |TrimStart(s)|; a + |Trim(s)| <= |s| && Trim(s) == s[a..a + |Trim(s)|]
    ensures Trim(s) == [] || (!IsWhitespace(Trim(s)[0]) && !IsWhitespace(Trim(s)[|Trim(s)| - 1]))
  {
    var u := TrimStart(s);
    var t := TrimEnd(u);
    var a := |s| - |u|;
    assert u == s[a..] && t == u[..|t|];
    assert s[a..a + |t|] == u[..|t|];
    assert t != [] ==> t[0] == u[0];
  }

  /** What `trim` strips, before and after that slice, is whitespace. */
  lemma TrimStripsWhitespace(s: string)
    ensures forall k :: 0 <= k < |s| - |TrimStart(s)| ==> IsWhitespace(s[k])
    ensures forall k :: |s| - |TrimStart(s)| + |Trim(s)| <= k < |s| ==> IsWhitespace(s[k])
  {
    var u := TrimStart(s);
    var a := |s| - |u|;
    TrimStartStrips(s);
    TrimEndStrips(u);
    forall k | a + |Trim(s)| <= k < |s|
      ensures IsWhitespace(s[k])
    {
      assert s[k] == u[k - a];
    }
  }

  /** What `TrimStart` drops is whitespace. */
  lemma {:induction false} TrimStartStrips(s: string)
    ensures forall k :: 0 <= k < |s| - |TrimStart(s)| ==> IsWhitespace(s[k])
  {
    if |s| > 0 && IsWhitespace(s[0]) {
      TrimStartStrips(s[1..]);
      forall k | 1 <= k < |s| - |TrimStart(s)|
        ensures IsWhitespace(s[k])
      {
        assert s[k] == s[1..][k - 1];
      }
    }
  }

  /** What `TrimEnd` drops is whitespace. */
  lemma {:induction false} TrimEndStrips(s: string)
    ensures forall k :: |TrimEnd(s)| <= k < |s| ==> IsWhitespace(s[k])
  {
    if |s| > 0 && IsWhitespace(s[|s| - 1]) {
      TrimEndStrips(s[..|s| - 1]);
    }
  }

  /** A non-whitespace character survives trimming. */
  lemma TrimKeepsContent(s: string, i: nat)
    requires i < |s| && !IsWhitespace(s[i])
    ensures Trim(s) != []
  {
    TrimStartKeeps(s, i);
    TrimEndKeeps(TrimStart(s));
  }

  lemma {:induction false} TrimStartKeeps(s: string, i: nat)
    requires i < |s| && !IsWhitespace(s[i])
    ensures TrimStart(s) != []
  {
    if IsWhitespace(s[0]) {
      TrimStartKeeps(s[1..], i - 1);
    }
  }

  lemma {:induction false} TrimEndKeeps(t: string)
    requires t != [] && !IsWhitespace(t[0])
    ensures TrimEnd(t) != []
  {
    if |t| > 1 && IsWhitespace(t[|t| - 1]) {
      TrimEndKeeps(t[..|t| - 1]);
    }
  }

  /**
   * The last element of `s.trim().split(/\s+/)`: the trailing run of
   * non-whitespace characters of the trimmed text.
   */
  function LastToken(s: string): (tok: string)
    ensures forall k :: 0 <= k < |tok| ==> !IsWhitespace(tok[k])
    ensures Trim(s) != [] ==> tok != []
    ensures var t := Trim(s); |tok| <= |t| && tok == t[|t| - |tok|..] && (|tok| == |t| || IsWhitespace(t[|t| - |tok| - 1]))
  {
    TrailingToken(Trim(s))
  }

  function TrailingToken(t: string): (tok: string)
    ensures |tok| <= |t| && tok == t[|t| - |tok|..]
    ensures forall k :: 0 <= k < |tok| ==> !IsWhitespace(tok[k])
    ensures |tok| == |t| || IsWhitespace(t[|t| - |tok| - 1])
  {
    if |t| == 0 || IsWhitespace(t[|t| - 1]) then []
    else TrailingToken(t[..|t| - 1]) + [t[|t| - 1]]
  }
}
