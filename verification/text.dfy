/** The few Python string operations the proxy checker relies on:
    `str.lower`, `str.strip`, `str.splitlines` and `str(int)`.
    Whitespace and line boundaries follow Python's own character tables;
    lowercasing covers ASCII letters only. */
module Text {

  /** Python's `str.isspace`: general category Zs, or bidirectional class WS, B or S. */
  predicate IsSpace(c: char) {
    || '\t' <= c <= '\r'
    || '\U{1C}' <= c <= ' '
    || c == '\U{85}' || c == '\U{A0}' || c == '\U{1680}'
    || '\U{2000}' <= c <= '\U{200A}'
    || c == '\U{2028}' || c == '\U{2029}' || c == '\U{202F}' || c == '\U{205F}' || c == '\U{3000}'
  }

  /** The line boundaries `str.splitlines` splits at ("\r\n" is handled by `BreakWidth`). */
  predicate IsLineBreak(c: char) {
    || '\n' <= c <= '\r'
    || '\U{1C}' <= c <= '\U{1E}'
    || c == '\U{85}' || c == '\U{2028}' || c == '\U{2029}'
  }

  predicate AllSpace(s: string) {
    forall k :: 0 <= k < |s| ==> IsSpace(s[k])
  }

  predicate NoBreaks(s: string) {
    forall k :: 0 <= k < |s| ==> !IsLineBreak(s[k])
  }

  // ---------------------------------------------------------------- lower

  function LowerChar(c: char): char {
    if 'A' <= c <= 'Z' then (c as int + 32) as char else c
  }

  /** No ASCII capital letter occurs in `s`. */
  predicate NoCapitals(s: string) {
    forall k :: 0 <= k < |s| ==> !('A' <= s[k] <= 'Z')
  }

  /** `str.lower`, restricted to ASCII letters. */
  function Lower(s: string): (r: string)
    ensures |r| == |s|
    ensures forall k :: 0 <= k < |s| ==> r[k] == LowerChar(s[k])
    ensures NoCapitals(r) && EqualsIgnoringCase(r, s)
    ensures forall k :: 0 <= k < |s| && !('A' <= s[k] <= 'Z') ==> r[k] == s[k]
  {
    seq(|s|, k requires 0 <= k < |s| => LowerChar(s[k]))
  }

  /** Letter-by-letter comparison that ignores ASCII case. */
  predicate EqualsIgnoringCase(a: string, b: string) {
    |a| == |b| && forall k :: 0 <= k < |a| ==> LowerChar(a[k]) == LowerChar(b[k])
  }

  /** Comparing lowercased strings is exactly comparing ignoring case. */
  lemma LowerEqualIff(a: string, b: string)
    ensures Lower(a) == Lower(b) <==> EqualsIgnoringCase(a, b)
  {
  }

  // ---------------------------------------------------------------- strip

  /** Number of whitespace characters `s` starts with. */
  function LeadingSpaces(s: string): (n: nat)
    ensures n <= |s|
    ensures AllSpace(s[..n])
    ensures n < |s| ==> !IsSpace(s[n])
  {
    if s == [] || !IsSpace(s[0]) then 0
    else
      var n := 1 + LeadingSpaces(s[1..]);
      assert s[..n] == [s[0]] + s[1..][..n - 1];
      n
  }

  /** Number of whitespace characters `s` ends with. */
  function TrailingSpaces(s: string): (n: nat)
    ensures n <= |s|
    ensures AllSpace(s[|s| - n..])
    ensures n < |s| ==> !IsSpace(s[|s| - 1 - n])
  {
    if s == [] || !IsSpace(s[|s| - 1]) then 0
    else
      var front := s[..|s| - 1];
      var n := 1 + TrailingSpaces(front);
      assert s[|s| - n..] == front[|front| - (n - 1)..] + [s[|s| - 1]];
      n
  }

  /** `str.strip()` with no argument: the infix left once leading and trailing
      whitespace is removed. */
  function Strip(s: string): (r: string)
    ensures r == [] <==> AllSpace(s)
    ensures r != [] ==> !IsSpace(r[0]) && !IsSpace(r[|r| - 1])
    ensures exists i :: 0 <= i <= |s| - |r| && r == s[i..][..|r|] && AllSpace(s[..i]) && AllSpace(s[i..][|r|..])
  {
    var i := LeadingSpaces(s);
    var t := s[i..];
    var r := t[..|t| - TrailingSpaces(t)];
    StripParts(s, i, t, r);
    r
  }

  lemma StripParts(s: string, i: nat, t: string, r: string)
    requires i == LeadingSpaces(s) && t == s[i..] && r == t[..|t| - TrailingSpaces(t)]
    ensures r == [] <==> AllSpace(s)
    ensures r != [] ==> !IsSpace(r[0])
    ensures r == s[i..][..|r|]
  {
  }

  // ---------------------------------------------------------------- splitlines

  /** Index of the first line boundary in `s`, or `|s|` when there is none. */
  function FirstBreak(s: string): (i: nat)
    ensures i <= |s|
    ensures NoBreaks(s[..i])
    ensures i < |s| ==> IsLineBreak(s[i])
  {
    if s == [] || IsLineBreak(s[0]) then 0
    else
      var i := 1 + FirstBreak(s[1..]);
      assert s[..i] == [s[0]] + s[1..][..i - 1];
      i
  }

  /** Length of the boundary that starts at `s[i]`: "\r\n" is one boundary of two characters. */
  function BreakWidth(s: string, i: nat): (w: nat)
    requires i < |s| && IsLineBreak(s[i])
    ensures 1 <= w <= 2 && i + w <= |s|
    ensures w == 2 <==> s[i] == '\r' && i + 1 < |s| && s[i + 1] == '\n'
  {
    if s[i] == '\r' && i + 1 < |s| && s[i + 1] == '\n' then 2 else 1
  }

  /** `str.splitlines()` without `keepends`: the text between boundaries; a final
      boundary does not open an empty last line, and the empty string has no lines. */
  function SplitLines(s: string): (lines: seq<string>)
    ensures lines == [] <==> s == []
    ensures forall k :: 0 <= k < |lines| ==> NoBreaks(lines[k])
    decreases |s|
  {
    if s == [] then []
    else
      var i := FirstBreak(s);
      if i == |s| then [s]
      else [s[..i]] + SplitLines(s[i + BreakWidth(s, i)..])
  }

  /** Each line followed by "\n", as a text file writer lays them out. */
  function JoinTerminated(lines: seq<string>): (text: string)
    ensures text == [] <==> lines == []
    ensures text != [] ==> text[|text| - 1] == '\n'
    decreases |lines|
  {
    if lines == [] then [] else lines[0] + "\n" + JoinTerminated(lines[1..])
  }

  /** All characters of all lines, in order. */
  function Concat(lines: seq<string>): string {
    if lines == [] then [] else lines[0] + Concat(lines[1..])
  }

  /** `s` with every line-boundary character dropped. */
  function DropBreaks(s: string): string {
    if s == [] then []
    else (if IsLineBreak(s[0]) then [] else [s[0]]) + DropBreaks(s[1..])
  }

  lemma {:induction false} DropBreaksAppend(a: string, b: string)
    ensures DropBreaks(a + b) == DropBreaks(a) + DropBreaks(b)
    decreases |a|
  {
    if a != [] {
      assert (a + b)[0] == a[0];
      assert (a + b)[1..] == a[1..] + b;
      DropBreaksAppend(a[1..], b);
    } else {
      assert a + b == b;
    }
  }

  lemma {:induction false} DropBreaksOfPlain(s: string)
    requires NoBreaks(s)
    ensures DropBreaks(s) == s
    decreases |s|
  {
    if s != [] {
      DropBreaksOfPlain(s[1..]);
    }
  }

  lemma {:induction false} DropBreaksOfBreaks(s: string)
    requires forall k :: 0 <= k < |s| ==> IsLineBreak(s[k])
    ensures DropBreaks(s) == []
    decreases |s|
  {
    if s != [] {
      DropBreaksOfBreaks(s[1..]);
    }
  }

  /** Splitting loses nothing but the boundaries: the lines, put back together,
      are the input without its line-boundary characters. */
  lemma {:induction false} SplitLinesKeepsContent(s: string)
    ensures Concat(SplitLines(s)) == DropBreaks(s)
    decreases |s|
  {
    if s != [] {
      var i := FirstBreak(s);
      if i == |s| {
        assert s[..i] == s;
        DropBreaksOfPlain(s);
      } else {
        var w := BreakWidth(s, i);
        var rest := s[i + w..];
        assert s == s[..i] + s[i..i + w] + rest;
        DropBreaksAppend(s[..i] + s[i..i + w], rest);
        DropBreaksAppend(s[..i], s[i..i + w]);
        DropBreaksOfPlain(s[..i]);
        DropBreaksOfBreaks(s[i..i + w]);
        SplitLinesKeepsContent(rest);
        assert SplitLines(s) == [s[..i]] + SplitLines(rest);
      }
    }
  }

  /** A break-free line followed by "\n" is split off as one line, even when it is empty. */
  lemma SplitLinesStep(line: string, rest: string)
    requires NoBreaks(line)
    ensures SplitLines(line + "\n" + rest) == [line] + SplitLines(rest)
  {
    var s := line + "\n" + rest;
    assert s[..|line|] == line;
    assert s[|line|] == '\n';
    assert FirstBreak(s) == |line|;
    assert s[|line| + 1..] == rest;
  }

  /** A break-free line followed by any line boundary is split off as one
      line, and splitting resumes after the whole boundary: "\r\n" is one
      boundary, every other boundary character is one on its own. Together with
      `SplitLinesSingle` and `SplitLines([]) == []` this fixes every split. */
  lemma SplitLinesAt(line: string, rest: string)
    requires NoBreaks(line) && rest != [] && IsLineBreak(rest[0])
    ensures SplitLines(line + rest) == [line] + SplitLines(rest[BreakWidth(rest, 0)..])
  {
    var s := line + rest;
    FirstBreakAt(line, rest);
    assert s[..|line|] == line;
    var w := BreakWidth(rest, 0);
    assert BreakWidth(s, |line|) == w by {
      assert s[|line|] == rest[0];
      assert |line| + 1 < |s| ==> s[|line| + 1] == rest[1];
    }
    assert s[|line| + w..] == rest[w..];
  }

  /** The first boundary of a break-free line followed by a boundary is right after the line. */
  lemma {:induction false} FirstBreakAt(line: string, rest: string)
    requires NoBreaks(line) && rest != [] && IsLineBreak(rest[0])
    ensures FirstBreak(line + rest) == |line|
    decreases |line|
  {
    if line == [] {
      assert line + rest == rest;
    } else {
      var s := line + rest;
      assert s[0] == line[0] && !IsLineBreak(s[0]);
      assert s[1..] == line[1..] + rest;
      assert NoBreaks(line[1..]) by {
        assert forall k :: 0 <= k < |line| - 1 ==> line[1..][k] == line[k + 1];
      }
      FirstBreakAt(line[1..], rest);
    }
  }

  /** "\r\n" ends a line as a single boundary: no empty line appears between
      the carriage return and the line feed. */
  lemma SplitLinesCrLf(line: string, rest: string)
    requires NoBreaks(line)
    ensures SplitLines(line + "\r\n" + rest) == [line] + SplitLines(rest)
  {
    var tail := "\r\n" + rest;
    assert line + "\r\n" + rest == line + tail;
    SplitLinesAt(line, tail);
    assert BreakWidth(tail, 0) == 2;
    assert tail[2..] == rest;
  }

  /** A lone "\r" ends a line as well. */
  lemma SplitLinesCr(line: string, rest: string)
    requires NoBreaks(line) && (rest == [] || rest[0] != '\n')
    ensures SplitLines(line + "\r" + rest) == [line] + SplitLines(rest)
  {
    var tail := "\r" + rest;
    assert line + "\r" + rest == line + tail;
    SplitLinesAt(line, tail);
    assert BreakWidth(tail, 0) == 1;
    assert tail[1..] == rest;
  }

  /** A non-empty break-free string is a single line. */
  lemma SplitLinesSingle(line: string)
    requires line != [] && NoBreaks(line)
    ensures SplitLines(line) == [line]
  {
  }

  /** Lines written one per "\n"-terminated row split back into the same lines. */
  lemma {:induction false} SplitJoinTerminated(lines: seq<string>)
    requires forall k :: 0 <= k < |lines| ==> NoBreaks(lines[k])
    ensures SplitLines(JoinTerminated(lines)) == lines
    decreases |lines|
  {
    if lines != [] {
      SplitLinesStep(lines[0], JoinTerminated(lines[1..]));
      SplitJoinTerminated(lines[1..]);
    }
  }

  /** Each line followed by "\r\n", as a text-mode write lays them out where
      the platform line ending is "\r\n". */
  function JoinCrLfTerminated(lines: seq<string>): (text: string)
    ensures text == [] <==> lines == []
    ensures text != [] ==> |text| >= 2 && text[|text| - 2..] == "\r\n"
    decreases |lines|
  {
    if lines == [] then [] else lines[0] + "\r\n" + JoinCrLfTerminated(lines[1..])
  }

  /** Lines written one per "\r\n"-terminated row also split back into the same lines. */
  lemma {:induction false} SplitJoinCrLfTerminated(lines: seq<string>)
    requires forall k :: 0 <= k < |lines| ==> NoBreaks(lines[k])
    ensures SplitLines(JoinCrLfTerminated(lines)) == lines
    decreases |lines|
  {
    if lines != [] {
      SplitLinesCrLf(lines[0], JoinCrLfTerminated(lines[1..]));
      SplitJoinCrLfTerminated(lines[1..]);
    }
  }

  /** Text that neither starts nor ends with whitespace is left alone by `Strip`. */
  lemma StripTrimmed(s: string)
    requires s != [] && !IsSpace(s[0]) && !IsSpace(s[|s| - 1])
    ensures Strip(s) == s
  {
  }

  /** Stripping twice is stripping once. */
  lemma StripIdempotent(s: string)
    ensures Strip(Strip(s)) == Strip(s)
  {
  }

  // ---------------------------------------------------------------- str(int)

  predicate IsDigit(c: char) {
    '0' <= c <= '9'
  }

  predicate AllDigits(s: string) {
    forall k :: 0 <= k < |s| ==> IsDigit(s[k])
  }

  function DigitChar(d: nat): (c: char)
    requires d < 10
    ensures IsDigit(c)
  {
    ('0' as int + d) as char
  }

  /** `str(n)` for a non-negative integer: its decimal digits, no leading zero. */
  function ShowNat(n: nat): (s: string)
    ensures s != [] && AllDigits(s)
    ensures |s| > 1 ==> s[0] != '0'
    decreases n
  {
    if n < 10 then [DigitChar(n)] else ShowNat(n / 10) + [DigitChar(n % 10)]
  }

  /** The number a string of decimal digits denotes. */
  function DigitsValue(s: string): nat
    requires AllDigits(s)
    decreases |s|
  {
    if s == [] then 0
    else DigitsValue(s[..|s| - 1]) * 10 + (s[|s| - 1] as int - '0' as int)
  }

  /** Reading the decimal digits back gives the number that was shown. */
  lemma {:induction false} ShowNatRoundTrip(n: nat)
    ensures DigitsValue(ShowNat(n)) == n
    decreases n
  {
    if n >= 10 {
      var s := ShowNat(n);
      assert s[..|s| - 1] == ShowNat(n / 10);
      ShowNatRoundTrip(n / 10);
    }
  }

  /** A digit string with a non-zero first digit denotes a positive number. */
  lemma {:induction false} LeadingDigitPositive(s: string)
    requires s != [] && AllDigits(s) && s[0] != '0'
    ensures DigitsValue(s) >= 1
    decreases |s|
  {
    if |s| > 1 {
      LeadingDigitPositive(s[..|s| - 1]);
    }
  }

  /** Digits without a leading zero are exactly what `str` writes for their
      value, so `ShowNat` and `DigitsValue` are inverse on such strings. */
  lemma {:induction false} DigitsValueRoundTrip(s: string)
    requires s != [] && AllDigits(s) && (|s| == 1 || s[0] != '0')
    ensures ShowNat(DigitsValue(s)) == s
    decreases |s|
  {
    if |s| > 1 {
      var front := s[..|s| - 1];
      LeadingDigitPositive(front);
      DigitsValueRoundTrip(front);
      assert s == front + [s[|s| - 1]];
    }
  }
}
