/**
 * Port handling (src/checkers/port.ts): the port number a script mentions,
 * the conflict protocol of `checkPortAvailability`, and the process id that
 * the Windows branch of `killPortProcess` picks from `netstat -ano` output.
 */
module Port {
  import opened Wrappers
  import opened Text
  import opened Effects
  import Search

  // ---------------------------------------------------------------------------
  // extractPortFromScript
  // ---------------------------------------------------------------------------

  /**
   * One of the case-insensitive patterns `<keyword>[<alt>\s]+(\d+)`: the
   * keyword, one or more separators (whitespace or `alt`), then digits.
   */
  datatype Pattern = Pattern(keyword: string, alt: char)

  /** The patterns in the order they are tried. */
  const Patterns: seq<Pattern> :=
    [Pattern("--port", '='), Pattern("-p", '='), Pattern("PORT", '='), Pattern("port", ':')]

  /** The separator class of the pattern: `[=\s]` or `[:\s]`. */
  predicate IsSeparator(pat: Pattern, c: char) {
    IsWhitespace(c) || c == pat.alt
  }

  /** The keyword occurs at `i`, ignoring ASCII case. */
  predicate KeywordAt(s: string, i: nat, keyword: string) {
    i + |keyword| <= |s| && CaselessAt(s, i, keyword)
  }

  /** Each character of `w` equals the one of `s` at the same offset from `i`, up to ASCII case. */
  predicate CaselessAt(s: string, i: nat, w: string)
    requires i + |w| <= |s|
    decreases |w|
  {
    w == [] || (Lower(s[i]) == Lower(w[0]) && CaselessAt(s, i + 1, w[1..]))
  }

  /** A verbatim occurrence is a caseless one. */
  lemma {:induction false} VerbatimIsCaseless(s: string, i: nat, w: string)
    requires i + |w| <= |s| && s[i..i + |w|] == w
    ensures CaselessAt(s, i, w)
    decreases |w|
  {
    if w != [] {
      assert s[i] == w[0];
      assert s[i + 1..i + 1 + |w[1..]|] == w[1..];
      VerbatimIsCaseless(s, i + 1, w[1..]);
    }
  }

  /** The number captured by a match of `pat` that starts at `i`. */
  function MatchAt(s: string, i: nat, pat: Pattern): Option<nat>
    requires i <= |s|
  {
    if KeywordAt(s, i, pat.keyword) then NumberAfter(s, i + |pat.keyword|, pat, false) else None
  }

  /**
   * What follows the keyword, from `j` on: `[<alt>\s]+` then `(\d+)`.
   * Separators and digits are disjoint classes, so a match takes the whole
   * separator run; `separated` says whether one separator was already seen.
   */
  function NumberAfter(s: string, j: nat, pat: Pattern, separated: bool): Option<nat>
    requires j <= |s|
    decreases |s| - j
  {
    if j < |s| && IsSeparator(pat, s[j]) then NumberAfter(s, j + 1, pat, true)
    else if separated then ReadDigits(s, j)
    else None
  }

  /** The greedy `(\d+)` at `j`, read by `parseInt(_, 10)`; `None` when no digit is there. */
  function ReadDigits(s: string, j: nat): (r: Option<nat>)
    requires j <= |s|
    ensures r.None? <==> j == |s| || !IsDigit(s[j])
  {
    var digits := DigitPrefix(s, j);
    if digits == [] then None else Some(DigitsValue(digits))
  }

  /** Where the leftmost match of `pat` at or after position `i` starts. */
  function Leftmost(s: string, i: nat, pat: Pattern): (r: Option<nat>)
    requires i <= |s|
    ensures r.Some? ==> i <= r.value <= |s|
    decreases |s| - i
  {
    if MatchAt(s, i, pat).Some? then Some(i)
    else if i == |s| then None
    else Leftmost(s, i + 1, pat)
  }

  /** `Leftmost` finds a match and no match starts before it; it finds none only when there is none. */
  lemma {:induction false} LeftmostIsLeftmost(s: string, i: nat, pat: Pattern)
    requires i <= |s|
    ensures Leftmost(s, i, pat).Some? ==> MatchAt(s, Leftmost(s, i, pat).value, pat).Some?
    ensures Leftmost(s, i, pat).Some? ==> forall k :: i <= k < Leftmost(s, i, pat).value ==> MatchAt(s, k, pat).None?
    ensures Leftmost(s, i, pat).None? <==> forall j :: i <= j <= |s| ==> MatchAt(s, j, pat).None?
    decreases |s| - i
  {
    if MatchAt(s, i, pat).None? && i < |s| {
      LeftmostIsLeftmost(s, i + 1, pat);
    }
  }

  /** `script.match(pattern)`, its group parsed with `parseInt(_, 10)`. */
  function MatchPattern(script: string, pat: Pattern): Option<nat> {
    match Leftmost(script, 0, pat)
    case None => None
    case Some(j) => MatchAt(script, j, pat)
  }

  /**
   * A match of `pat` at `i`, in the regular expression's own terms: the
   * keyword, a non-empty run of separators `s[i + |keyword|..j]`, and the
   * greedy digit run `s[j..k]` that the group captures.
   */
  predicate Captures(s: string, i: nat, pat: Pattern, j: nat, k: nat) {
    KeywordAt(s, i, pat.keyword) && i + |pat.keyword| < j < k <= |s|
    && (forall m :: i + |pat.keyword| <= m < j ==> IsSeparator(pat, s[m]))
    && AllDigits(s[j..k]) && (k == |s| || !IsDigit(s[k]))
  }

  /** Where the run of the pattern's separators that starts at `j` ends. */
  function SeparatorEnd(s: string, j: nat, pat: Pattern): (e: nat)
    requires j <= |s|
    ensures j <= e <= |s|
    ensures forall m :: j <= m < e ==> IsSeparator(pat, s[m])
    ensures e == |s| || !IsSeparator(pat, s[e])
    decreases |s| - j
  {
    if j < |s| && IsSeparator(pat, s[j]) then SeparatorEnd(s, j + 1, pat) else j
  }

  /** No digit is a separator: `\s`, `=` and `:` hold no digit. */
  lemma DigitIsNoSeparator(pat: Pattern, c: char)
    requires SymbolAlt(pat) && IsDigit(c)
    ensures !IsSeparator(pat, c)
  {
  }

  /** After the keyword, the separators are skipped whole and the digits after them are read. */
  lemma {:induction false} NumberAfterSkipsSeparators(s: string, j: nat, pat: Pattern, separated: bool)
    requires j <= |s|
    ensures NumberAfter(s, j, pat, separated)
            == if separated || SeparatorEnd(s, j, pat) > j then ReadDigits(s, SeparatorEnd(s, j, pat)) else None
    decreases |s| - j
  {
    if j < |s| && IsSeparator(pat, s[j]) {
      NumberAfterSkipsSeparators(s, j + 1, pat, true);
    }
  }

  /** The match at `i` is exactly the number a capture at `i` holds, and there is one iff a capture exists. */
  lemma MatchAtShape(s: string, i: nat, pat: Pattern)
    requires i <= |s| && SymbolAlt(pat)
    ensures forall j: nat, k: nat :: Captures(s, i, pat, j, k) ==> MatchAt(s, i, pat) == Some(DigitsValue(s[j..k]))
    ensures MatchAt(s, i, pat).Some? ==>
              exists j: nat, k: nat :: Captures(s, i, pat, j, k) && MatchAt(s, i, pat) == Some(DigitsValue(s[j..k]))
  {
    if KeywordAt(s, i, pat.keyword) {
      var start := i + |pat.keyword|;
      var e := SeparatorEnd(s, start, pat);
      NumberAfterSkipsSeparators(s, start, pat, false);
      forall j: nat, k: nat | Captures(s, i, pat, j, k)
        ensures MatchAt(s, i, pat) == Some(DigitsValue(s[j..k]))
      {
        assert IsDigit(s[j..k][0]);
        DigitIsNoSeparator(pat, s[j]);
        assert e == j;
        DigitPrefixIs(s, j, k);
      }
      if MatchAt(s, i, pat).Some? {
        var d := DigitPrefix(s, e);
        DigitPrefixIsRun(s, e);
        assert Captures(s, i, pat, e, e + |d|);
      }
    }
  }

  /** `script.match(pat)` finds the leftmost position with a match and takes that match; none when there is none. */
  lemma MatchPatternIsLeftmostMatch(s: string, pat: Pattern)
    ensures MatchPattern(s, pat).None? <==> forall i :: 0 <= i <= |s| ==> MatchAt(s, i, pat).None?
    ensures forall i :: 0 <= i <= |s| && MatchAt(s, i, pat).Some? && (forall m :: 0 <= m < i ==> MatchAt(s, m, pat).None?)
                        ==> MatchPattern(s, pat) == MatchAt(s, i, pat)
  {
    LeftmostIsLeftmost(s, 0, pat);
  }

  /**
   * `extractPortFromScript`: the number of the first pattern, in list order,
   * that matches anywhere in the script; `None` is `null`.
   */
  function ExtractPortFromScript(script: string): (r: Option<nat>)
    ensures r.Some? ==> exists k :: 0 <= k < |Patterns| && MatchPattern(script, Patterns[k]) == r
                                  && forall j :: 0 <= j < k ==> MatchPattern(script, Patterns[j]).None?
    ensures r.None? <==> forall k :: 0 <= k < |Patterns| ==> MatchPattern(script, Patterns[k]).None?
  {
    Search.FirstSome(Patterns, pat => MatchPattern(script, pat))
  }

  /** No match starts where the keyword's first letter is not, up to case. */
  lemma NoMatchWithoutFirstLetter(s: string, i: nat, pat: Pattern)
    requires i <= |s| && pat.keyword != []
    requires i == |s| || Lower(s[i]) != Lower(pat.keyword[0])
    ensures MatchAt(s, i, pat).None?
  {
  }

  /** No match of a pattern whose keyword starts with a dash begins inside a dash-free prefix. */
  lemma NoMatchInDashFreePrefix(pre: string, rest: string, pat: Pattern)
    requires pat.keyword != [] && pat.keyword[0] == '-' && '-' !in pre
    ensures forall m :: 0 <= m < |pre| ==> MatchAt(pre + rest, m, pat).None?
  {
    forall m | 0 <= m < |pre|
      ensures MatchAt(pre + rest, m, pat).None?
    {
      assert (pre + rest)[m] == pre[m];
      NoMatchWithoutFirstLetter(pre + rest, m, pat);
    }
  }

  /** A pattern whose keyword starts with a dash never matches a script without one. */
  lemma DashPatternsNeedDash(s: string, pat: Pattern)
    requires pat.keyword != [] && pat.keyword[0] == '-' && '-' !in s
    ensures MatchPattern(s, pat).None?
  {
    NoMatchInDashFreePrefix(s, [], pat);
    assert s + [] == s;
    NoMatchWithoutFirstLetter(s, |s|, pat);
    MatchPatternIsLeftmostMatch(s, pat);
  }

  /** The keyword, one separator, and digits not followed by another digit: a match worth those digits. */
  lemma MatchWrittenOut(pre: string, pat: Pattern, sep: char, digits: string, post: string)
    requires SymbolAlt(pat) && IsSeparator(pat, sep)
    requires digits != [] && AllDigits(digits) && (post == [] || !IsDigit(post[0]))
    ensures MatchAt(pre + (pat.keyword + ([sep] + (digits + post))), |pre|, pat) == Some(DigitsValue(digits))
  {
    var s := pre + (pat.keyword + ([sep] + (digits + post)));
    var i := |pre|;
    var j := i + |pat.keyword| + 1;
    var k := j + |digits|;
    assert s[i..i + |pat.keyword|] == pat.keyword;
    VerbatimIsCaseless(s, i, pat.keyword);
    assert s[j..k] == digits;
    assert k < |s| ==> s[k] == post[0];
    assert Captures(s, i, pat, j, k);
    MatchAtShape(s, i, pat);
  }

  /** The first pattern, in list order, that matches decides the port. */
  lemma FirstMatchingPatternDecides(s: string, k: nat)
    requires k < |Patterns| && MatchPattern(s, Patterns[k]).Some?
    requires forall j :: 0 <= j < k ==> MatchPattern(s, Patterns[j]).None?
    ensures ExtractPortFromScript(s) == MatchPattern(s, Patterns[k])
  {
    var r := ExtractPortFromScript(s);
    var k' :| 0 <= k' < |Patterns| && MatchPattern(s, Patterns[k']) == r
              && forall j :: 0 <= j < k' ==> MatchPattern(s, Patterns[j]).None?;
    assert k' == k;
  }

  /** `node server.js --port 4000` runs on port 4000. */
  lemma PortOptionAfterCommand()
    ensures ExtractPortFromScript("node server.js --port 4000") == Some(4000)
  {
    var pre, digits := "node server.js ", "4000";
    var pat := Patterns[0];
    var s := pre + (pat.keyword + ([' '] + (digits + [])));
    assert s == "node server.js --port 4000";
    MatchWrittenOut(pre, pat, ' ', digits, []);
    assert DigitsValue(digits) == 4000 by {
      assert digits[..3] == "400" && "400"[..2] == "40" && "40"[..1] == "4" && "4"[..0] == "";
    }
    NoMatchInDashFreePrefix(pre, pat.keyword + ([' '] + (digits + [])), pat);
    MatchPatternIsLeftmostMatch(s, pat);
    assert MatchPattern(s, pat) == Some(4000);
  }

  /** `PORT=5000 node server.js` runs on port 5000: neither dash pattern matches. */
  lemma PortAssignmentBeforeCommand()
    ensures ExtractPortFromScript("PORT=5000 node server.js") == Some(5000)
  {
    var s := "PORT=5000 node server.js";
    assert '-' !in s;
    DashPatternsNeedDash(s, Patterns[0]);
    DashPatternsNeedDash(s, Patterns[1]);
    AssignmentMatches();
    assert forall j :: 0 <= j < 2 ==> MatchPattern(s, Patterns[j]).None? by {
      forall j | 0 <= j < 2 ensures MatchPattern(s, Patterns[j]).None? {
        assert j == 0 || j == 1;
      }
    }
    FirstMatchingPatternDecides(s, 2);
  }

  /** `PORT=5000` at the start of a script is a match of the `PORT` pattern. */
  lemma AssignmentMatches()
    ensures MatchPattern("PORT=5000 node server.js", Patterns[2]) == Some(5000)
  {
    var digits, post := "5000", " node server.js";
    var pat := Patterns[2];
    var s := [] + (pat.keyword + (['='] + (digits + post)));
    assert s == "PORT=5000 node server.js";
    MatchWrittenOut([], pat, '=', digits, post);
    assert DigitsValue(digits) == 5000 by {
      assert digits[..3] == "500" && "500"[..2] == "50" && "50"[..1] == "5" && "5"[..0] == "";
    }
    MatchPatternIsLeftmostMatch(s, pat);
  }

  /** `-p 4000 --port 3000` runs on port 3000: `--port` is tried before `-p`, wherever it occurs. */
  lemma LongOptionIsTriedFirst()
    ensures ExtractPortFromScript("-p 4000 --port 3000") == Some(3000)
  {
    var pre, digits := "-p 4000 ", "3000";
    var pat := Patterns[0];
    var s := pre + (pat.keyword + ([' '] + (digits + [])));
    assert s == "-p 4000 --port 3000";
    MatchWrittenOut(pre, pat, ' ', digits, []);
    assert DigitsValue(digits) == 3000 by {
      assert digits[..3] == "300" && "300"[..2] == "30" && "30"[..1] == "3" && "3"[..0] == "";
    }
    assert '-' !in pre[1..];
    forall m | 0 <= m < |pre|
      ensures MatchAt(s, m, pat).None?
    {
      if m == 0 {
        assert s[1] == 'p';
      } else {
        assert s[m] == pre[1..][m - 1];
        NoMatchWithoutFirstLetter(s, m, pat);
      }
    }
    MatchPatternIsLeftmostMatch(s, pat);
    assert MatchPattern(s, pat) == Some(3000);
  }

  /** A port written as `--port <n>` is read back as `n`. */
  lemma RenderedPortIsExtracted(n: nat)
    ensures ExtractPortFromScript("--port " + NatToString(n)) == Some(n)
  {
    var d := NatToString(n);
    var s := "--port " + d;
    var pat := Pattern("--port", '=');
    assert KeywordAt(s, 0, pat.keyword) by {
      assert s[0..6] == pat.keyword;
      VerbatimIsCaseless(s, 0, pat.keyword);
    }
    assert s[7..] == d;
    DigitsAfterBlank(s, d);
    assert MatchAt(s, 0, pat) == Some(DigitsValue(d));
    DigitsValueOfNatToString(n);
    assert MatchPattern(s, Patterns[0]) == Some(n);
  }

  /** A blank and then nothing but digits up to the end reads as those digits. */
  lemma DigitsAfterBlank(s: string, d: string)
    requires |s| == 7 + |d| && s[6] == ' ' && s[7..] == d && d != [] && AllDigits(d)
    ensures NumberAfter(s, 6, Pattern("--port", '='), false) == Some(DigitsValue(d))
  {
    var pat := Pattern("--port", '=');
    DigitPrefixOfDigits(s, 7);
    assert NumberAfter(s, 7, pat, true) == ReadDigits(s, 7);
  }

  /** The pattern's extra separator is a symbol, which has no other case. */
  predicate SymbolAlt(pat: Pattern) {
    pat.alt == '=' || pat.alt == ':'
  }

  /** Both strings are equal up to the case of ASCII letters. */
  predicate FoldEqual(s: string, t: string) {
    |s| == |t| && forall i :: 0 <= i < |s| ==> Lower(s[i]) == Lower(t[i])
  }

  /** The digit run is the same in strings equal up to case: digits have no case. */
  lemma {:induction false} DigitPrefixFoldEqual(s: string, t: string, i: nat)
    requires FoldEqual(s, t) && i <= |s|
    ensures DigitPrefix(s, i) == DigitPrefix(t, i)
    decreases |s| - i
  {
    if i < |s| {
      SameFold(s[i], t[i]);
      if IsDigit(s[i]) {
        DigitPrefixFoldEqual(s, t, i + 1);
      }
    }
  }

  lemma MatchAtFoldEqual(s: string, t: string, i: nat, pat: Pattern)
    requires FoldEqual(s, t) && i <= |s| && SymbolAlt(pat)
    ensures MatchAt(s, i, pat) == MatchAt(t, i, pat)
  {
    KeywordAtFoldEqual(s, t, i, pat.keyword);
    if KeywordAt(s, i, pat.keyword) {
      NumberAfterFoldEqual(s, t, i + |pat.keyword|, pat, false);
    }
  }

  lemma {:induction false} NumberAfterFoldEqual(s: string, t: string, j: nat, pat: Pattern, separated: bool)
    requires FoldEqual(s, t) && j <= |s| && SymbolAlt(pat)
    ensures NumberAfter(s, j, pat, separated) == NumberAfter(t, j, pat, separated)
    decreases |s| - j
  {
    if j < |s| {
      SameFold(s[j], t[j]);
    }
    if j < |s| && IsSeparator(pat, s[j]) {
      NumberAfterFoldEqual(s, t, j + 1, pat, true);
    } else if separated {
      DigitPrefixFoldEqual(s, t, j);
    }
  }

  lemma KeywordAtFoldEqual(s: string, t: string, i: nat, keyword: string)
    requires FoldEqual(s, t)
    ensures KeywordAt(s, i, keyword) == KeywordAt(t, i, keyword)
  {
    if i + |keyword| <= |s| {
      CaselessAtFoldEqual(s, t, i, keyword);
    }
  }

  lemma {:induction false} CaselessAtFoldEqual(s: string, t: string, i: nat, w: string)
    requires FoldEqual(s, t) && i + |w| <= |s|
    ensures CaselessAt(s, i, w) == CaselessAt(t, i, w)
    decreases |w|
  {
    if w != [] {
      CaselessAtFoldEqual(s, t, i + 1, w[1..]);
    }
  }

  /** Strings with the same matches at every position have the same leftmost match. */
  lemma {:induction false} LeftmostSame(s: string, t: string, i: nat, pat: Pattern)
    requires i <= |s| == |t|
    requires forall k :: i <= k <= |s| ==> MatchAt(s, k, pat) == MatchAt(t, k, pat)
    ensures Leftmost(s, i, pat) == Leftmost(t, i, pat)
    decreases |s| - i
  {
    if i < |s| && MatchAt(s, i, pat).None? {
      LeftmostSame(s, t, i + 1, pat);
    }
  }

  lemma MatchPatternFoldEqual(s: string, t: string, pat: Pattern)
    requires FoldEqual(s, t) && SymbolAlt(pat)
    ensures MatchPattern(s, pat) == MatchPattern(t, pat)
  {
    forall k | 0 <= k <= |s|
      ensures MatchAt(s, k, pat) == MatchAt(t, k, pat)
    {
      MatchAtFoldEqual(s, t, k, pat);
    }
    LeftmostSame(s, t, 0, pat);
  }

  /** Extraction ignores the case of letters: `PORT=5000` and `port=5000` give the same port. */
  lemma ExtractIsCaseInsensitive(s: string, t: string)
    requires FoldEqual(s, t)
    ensures ExtractPortFromScript(s) == ExtractPortFromScript(t)
  {
    forall k | 0 <= k < |Patterns|
      ensures MatchPattern(s, Patterns[k]) == MatchPattern(t, Patterns[k])
    {
      MatchPatternFoldEqual(s, t, Patterns[k]);
    }
    Search.FirstSomeCongruent(Patterns, pat => MatchPattern(s, pat), pat => MatchPattern(t, pat));
  }

  // ---------------------------------------------------------------------------
  // checkPortAvailability
  // ---------------------------------------------------------------------------

  /** What `detectPort(desired)` gave: the first free port from `desired` on, or an error. */
  datatype Probe = Detected(port: nat) | ProbeFailed

  /** The answer to the conflict prompt; `NoChoice` is a dismissed prompt, `PromptFailed` a thrown error. */
  datatype Choice = UseAlternative | KillProcess | ContinueAnyway | NoChoice | PromptFailed

  datatype PortCheck = PortCheck(port: nat, trace: seq<Effect>)

  /**
   * `checkPortAvailability(desired)` with its external results as inputs:
   * the first probe, the prompt answer and the probe after the kill attempt.
   * Errors from `killPortProcess` are swallowed inside it; any probe or
   * prompt error is caught and gives the desired port.
   */
  function CheckPortAvailability(desired: nat, first: Probe, choice: Choice, recheck: Probe): (r: PortCheck)
    ensures r.port == desired || (first.Detected? && r.port == first.port)
    ensures r.port != desired <==>
              first.Detected? && first.port != desired
              && (choice == UseAlternative || (choice == KillProcess && recheck.Detected? && recheck.port != desired))
    ensures |r.trace| > 0 && r.trace[0] == ProbePort(desired)
    ensures Prompts(r.trace) == 1 <==> first.Detected? && first.port != desired
    ensures Prompts(r.trace) <= 1 && Spawns(r.trace) == 0
    ensures FreePort(desired) in r.trace <==> first.Detected? && first.port != desired && choice == KillProcess
    ensures |r.trace| <= 4
    ensures r.trace == [ProbePort(desired)]
                       + (if first.Detected? && first.port != desired
                          then [ChoosePortAction(desired, first.port)]
                               + (if choice == KillProcess then [FreePort(desired), ProbePort(desired)] else [])
                          else [])
  {
    match first
    case ProbeFailed => PortCheck(desired, [ProbePort(desired)])
    case Detected(alternative) =>
      if alternative == desired then PortCheck(desired, [ProbePort(desired)])
      else
        var asked := [ProbePort(desired), ChoosePortAction(desired, alternative)];
        match choice
        case UseAlternative => PortCheck(alternative, asked)
        case KillProcess =>
          var trace := asked + [FreePort(desired), ProbePort(desired)];
          assert Prompts(trace) == 1 by {
            assert trace[1..][1..] == [FreePort(desired), ProbePort(desired)];
          }
          (match recheck
           case Detected(again) => PortCheck(if again == desired then desired else alternative, trace)
           case ProbeFailed => PortCheck(desired, trace))
        case ContinueAnyway => PortCheck(desired, asked)
        case NoChoice => PortCheck(desired, asked)
        case PromptFailed => PortCheck(desired, asked)
  }

  /** A free desired port is returned at once: one probe, no prompt, no kill. */
  lemma FreePortIsQuiet(desired: nat, choice: Choice, recheck: Probe)
    ensures CheckPortAvailability(desired, Detected(desired), choice, recheck) == PortCheck(desired, [ProbePort(desired)])
  {
  }

  // ---------------------------------------------------------------------------
  // killPortProcess, Windows branch
  // ---------------------------------------------------------------------------

  /** The line matches `:<port>\s`. */
  predicate MentionsPort(line: string, port: nat) {
    exists i :: 0 <= i < |line| && MentionAt(line, i, NatToString(port))
  }

  /** `:`, the port's digits, then a whitespace character, starting at `i`. */
  predicate MentionAt(line: string, i: nat, digits: string) {
    i + |digits| + 1 < |line| && line[i] == ':'
    && line[i + 1..i + 1 + |digits|] == digits && IsWhitespace(line[i + 1 + |digits|])
  }

  /** `pid && !isNaN(Number(pid))`, narrowed to a non-empty run of decimal digits. */
  predicate IsPid(token: string) {
    token != "" && AllDigits(token)
  }

  /**
   * The process id a netstat line offers for `port`: the line mentions the
   * port, and the last whitespace-separated token of the trimmed line is a
   * number.
   */
  function LinePid(port: nat, line: string): (r: Option<string>)
    ensures r.Some? <==> MentionsPort(line, port) && IsPid(LastToken(line))
    ensures r.Some? ==> IsPid(r.value)
    ensures r.Some? ==> r.value == LastToken(line)
  {
    if MentionsPort(line, port) && IsPid(LastToken(line)) then Some(LastToken(line)) else None
  }

  /** The pid of the first line of `netstat -ano` output that mentions the port and ends in a number. */
  function NetstatPid(stdout: string, port: nat): (r: Option<string>)
    ensures r.Some? ==> IsPid(r.value)
  {
    var lines := Split(stdout, '\n');
    PidOfLines(lines, port)
  }

  /** The loop over the lines: the first line that offers a pid decides; other lines are skipped. */
  function PidOfLines(lines: seq<string>, port: nat): (r: Option<string>)
    ensures r.Some? ==> IsPid(r.value)
  {
    match Search.FirstIn(lines, Offering(lines, port))
    case None => None
    case Some(k) => LinePid(port, lines[k])
  }

  /**
   * The pid found in a listing is that of its first line offering one, the
   * last line included; there is none iff no line offers one.
   */
  lemma NetstatPidIsFirstOffer(stdout: string, port: nat, lines: seq<string>)
    requires lines == Split(stdout, '\n')
    ensures NetstatPid(stdout, port).None? <==> forall k :: 0 <= k < |lines| ==> LinePid(port, lines[k]).None?
    ensures NetstatPid(stdout, port).Some? ==>
              exists k :: 0 <= k < |lines| && NetstatPid(stdout, port) == LinePid(port, lines[k])
                          && forall j :: 0 <= j < k ==> LinePid(port, lines[j]).None?
  {
    assert NetstatPid(stdout, port) == PidOfLines(lines, port);
    PidOfLinesIsFirstOffer(lines, port);
  }

  /** The loop stops at the first line that offers a pid, whichever line that is; it finds none iff no line offers one. */
  lemma PidOfLinesIsFirstOffer(lines: seq<string>, port: nat)
    ensures PidOfLines(lines, port).None? <==> forall k :: 0 <= k < |lines| ==> LinePid(port, lines[k]).None?
    ensures PidOfLines(lines, port).Some? ==>
              exists k :: 0 <= k < |lines| && PidOfLines(lines, port) == LinePid(port, lines[k])
                          && forall j :: 0 <= j < k ==> LinePid(port, lines[j]).None?
  {
    var offering := Offering(lines, port);
    var r := Search.FirstIn(lines, offering);
    if r.None? {
      assert PidOfLines(lines, port).None?;
      forall k | 0 <= k < |lines|
        ensures LinePid(port, lines[k]).None?
      {
        assert lines[k] !in offering;
      }
    } else {
      var k := r.value;
      assert lines[k] in offering;
      forall j | 0 <= j < k
        ensures LinePid(port, lines[j]).None?
      {
        assert lines[j] !in offering;
      }
    }
  }

  /** A listing of a single line, such as one whose final newline was stripped, offers that line's pid. */
  lemma SingleLineListing(line: string, port: nat)
    requires '\n' !in line
    ensures NetstatPid(line, port) == LinePid(port, line)
  {
    SplitPiece(line, '\n');
    assert NetstatPid(line, port) == PidOfLines([line], port);
  }

  /** The lines that offer a pid for `port`. */
  function Offering(lines: seq<string>, port: nat): (o: set<string>)
    ensures forall line :: line in o <==> line in lines && LinePid(port, line).Some?
  {
    set line | line in lines && LinePid(port, line).Some?
  }

  /**
   * The one `taskkill` the Windows branch issues, if any. `netstat` is the
   * listing, or `None` when running it failed (logged and swallowed).
   */
  function WindowsKill(port: nat, netstat: Option<string>): (r: Option<Invocation>)
    ensures r.Some? ==> r.value.program == "taskkill" && |r.value.args| == 3
                        && r.value.args[0] == "/F" && r.value.args[1] == "/PID" && IsPid(r.value.args[2])
    ensures r.Some? <==> netstat.Some? && NetstatPid(netstat.value, port).Some?
    ensures r.Some? ==> r.value.args == ["/F", "/PID", NetstatPid(netstat.value, port).value]
  {
    if netstat.None? then None else TaskKill(NetstatPid(netstat.value, port))
  }

  /** `taskkill /F /PID <pid>`. */
  function TaskKill(pid: Option<string>): (r: Option<Invocation>)
    requires pid.Some? ==> IsPid(pid.value)
    ensures r.Some? <==> pid.Some?
    ensures r.Some? ==> r.value.program == "taskkill" && r.value.args == ["/F", "/PID", pid.value]
  {
    match pid
    case None => None
    case Some(p) => Some(Invocation("taskkill", ["/F", "/PID", p], false))
  }

  /** A line that mentions the port always has a last token, so only the numeric test can reject it. */
  lemma MentionedLineHasToken(line: string, port: nat)
    requires MentionsPort(line, port)
    ensures LastToken(line) != ""
  {
    var i :| 0 <= i < |line| && MentionAt(line, i, NatToString(port));
    TrimKeepsContent(line, i);
  }

  /** A line whose last token is not a number is skipped: the search goes on with the next line. */
  lemma NonNumericLineIsSkipped(line: string, rest: string, port: nat)
    requires '\n' !in line
    requires !IsPid(LastToken(line))
    ensures NetstatPid(line + ("\n" + rest), port) == NetstatPid(rest, port)
  {
    SplitPrefix(line, rest, '\n');
    assert LinePid(port, line).None?;
    SkippedLine(line, Split(rest, '\n'), port);
  }

  /** A line that offers no pid leaves the search to the lines after it. */
  lemma SkippedLine(line: string, tail: seq<string>, port: nat)
    requires LinePid(port, line).None?
    ensures PidOfLines([line] + tail, port) == PidOfLines(tail, port)
  {
    var lines := [line] + tail;
    var offering := Offering(tail, port);
    assert Offering(lines, port) == offering by {
      forall x | x in Offering(lines, port) ensures x in offering {
        assert x != line;
      }
    }
    Search.FirstInSkips(line, tail, offering);
    match Search.FirstIn(tail, offering)
    case None =>
    case Some(k) =>
      assert lines[k + 1] == tail[k];
  }

  /** The first line that offers a pid decides; nothing after it is looked at, so at most one kill. */
  lemma FirstOfferingLineWins(line: string, rest: string, port: nat)
    requires '\n' !in line
    requires LinePid(port, line).Some?
    ensures NetstatPid(line + ("\n" + rest), port) == Some(LastToken(line))
  {
    SplitPrefix(line, rest, '\n');
  }
}
