/** One pass of the interactive main loop: menu choice, limit, loading,
    truncation, checking, and the text the results are presented as. */
module Driver {
  import opened Wrappers
  import Text
  import opened Categories
  import opened Checker
  import opened Loader

  // ---------------------------------------------------------------- truncation

  /** Python's `xs[:limit]`. A non-negative limit keeps the first `limit`
      elements (all of them when there are fewer); a negative limit drops the
      last `-limit` elements (all of them when there are fewer). */
  function Truncate<T>(xs: seq<T>, limit: int): (r: seq<T>)
    ensures |r| <= |xs| && r == xs[..|r|]
    ensures 0 <= limit ==> |r| == if limit < |xs| then limit else |xs|
    ensures limit < 0 ==> |xs| - |r| == if -limit < |xs| then -limit else |xs|
  {
    // the stop index as Python adjusts it: count from the end, then clamp
    var stop := if limit < 0 then limit + |xs| else limit;
    xs[..if stop < 0 then 0 else if stop > |xs| then |xs| else stop]
  }

  /** Truncation keeps a duplicate-free list duplicate-free and adds no element. */
  lemma TruncateSubList(xs: seq<string>, limit: int)
    requires NoDuplicates(xs)
    ensures NoDuplicates(Truncate(xs, limit))
    ensures forall x :: x in Truncate(xs, limit) ==> x in xs
  {
  }

  // ---------------------------------------------------------------- output lines

  /** One result as written to the file and the console: `address | <ms>ms`. */
  function FormatLine(proxy: string, ms: nat): (line: string)
    ensures |line| >= |proxy| + 6
    ensures line[..|proxy|] == proxy && line[|proxy|..|proxy| + 3] == " | " && line[|line| - 2..] == "ms"
    ensures Text.AllDigits(line[|proxy| + 3..|line| - 2])
    ensures Text.NoBreaks(proxy) ==> Text.NoBreaks(line)
  {
    proxy + " | " + Text.ShowNat(ms) + "ms"
  }

  /** Position of the last " | " in `s`. */
  function LastSeparator(s: string): (r: Option<nat>)
    ensures r.Some? ==> r.value + 3 <= |s| && s[r.value..r.value + 3] == " | "
    decreases |s|
  {
    if |s| < 3 then None
    else if s[|s| - 3..] == " | " then Some(|s| - 3)
    else LastSeparator(s[..|s| - 1])
  }

  /** Reads a result line back: the text before the last " | " is the address,
      the digits between it and the final "ms" the time, written without
      leading zeros as `str` writes a number. */
  function ParseLine(line: string): Option<(string, nat)> {
    if |line| < 2 || line[|line| - 2..] != "ms" then None
    else
      var body := line[..|line| - 2];
      match LastSeparator(body)
      case None => None
      case Some(i) =>
        var digits := body[i + 3..];
        if digits != [] && Text.AllDigits(digits) && (|digits| == 1 || digits[0] != '0') then Some((body[..i], Text.DigitsValue(digits)))
        else None
  }

  /** The separator written before the time is the last one on the line,
      whatever the address contains, since the time is all digits. */
  lemma {:induction false} LastSeparatorBeforeDigits(proxy: string, digits: string)
    requires Text.AllDigits(digits)
    ensures LastSeparator(proxy + " | " + digits) == Some(|proxy|)
    decreases |digits|
  {
    var s := proxy + " | " + digits;
    if digits == [] {
      assert s[|s| - 3..] == " | ";
    } else {
      assert s[|s| - 1] == digits[|digits| - 1];
      assert s[|s| - 3..][2] != ' ';
      var shorter := digits[..|digits| - 1];
      assert s[..|s| - 1] == proxy + " | " + shorter;
      LastSeparatorBeforeDigits(proxy, shorter);
    }
  }

  /** Every formatted line reads back as the address and time it was made from. */
  lemma FormatLineRoundTrip(proxy: string, ms: nat)
    ensures ParseLine(FormatLine(proxy, ms)) == Some((proxy, ms))
  {
    var digits := Text.ShowNat(ms);
    var line := FormatLine(proxy, ms);
    var body := proxy + " | " + digits;
    assert line == body + "ms";
    assert line[..|line| - 2] == body;
    assert line[|line| - 2..] == "ms";
    LastSeparatorBeforeDigits(proxy, digits);
    assert body[|proxy| + 3..] == digits;
    assert body[..|proxy|] == proxy;
    Text.ShowNatRoundTrip(ms);
  }

  /** A line `ParseLine` accepts is exactly the formatted line of what it
      reads: no other spelling of the address and time is accepted. */
  lemma ParseLineExact(line: string, proxy: string, ms: nat)
    requires ParseLine(line) == Some((proxy, ms))
    ensures line == FormatLine(proxy, ms)
  {
    var body := line[..|line| - 2];
    var i := LastSeparator(body).value;
    var digits := body[i + 3..];
    Text.DigitsValueRoundTrip(digits);
    assert body == proxy + " | " + digits;
    assert line == body + "ms";
  }

  function ResultLines(results: seq<(string, nat)>): (lines: seq<string>)
    ensures |lines| == |results|
    ensures forall k :: 0 <= k < |results| ==> lines[k] == FormatLine(results[k].0, results[k].1)
  {
    seq(|results|, k requires 0 <= k < |results| => FormatLine(results[k].0, results[k].1))
  }

  /** The file written for "save to file": one "\n"-terminated line per result. */
  function FileContents(results: seq<(string, nat)>): (text: string)
    ensures text == [] <==> results == []
    ensures text != [] ==> text[|text| - 1] == '\n'
  {
    Text.JoinTerminated(ResultLines(results))
  }

  /** Reads every line back; fails if any line does not parse. */
  function ParseAll(lines: seq<string>): Option<seq<(string, nat)>>
    decreases |lines|
  {
    if lines == [] then Some([])
    else
      var head := ParseLine(lines[0]);
      var tail := ParseAll(lines[1..]);
      if head.Some? && tail.Some? then Some([head.value] + tail.value) else None
  }

  lemma {:induction false} ParseAllResultLines(results: seq<(string, nat)>)
    ensures ParseAll(ResultLines(results)) == Some(results)
    decreases |results|
  {
    if results != [] {
      var lines := ResultLines(results);
      FormatLineRoundTrip(results[0].0, results[0].1);
      assert lines[1..] == ResultLines(results[1..]);
      ParseAllResultLines(results[1..]);
      assert results == [results[0]] + results[1..];
    }
  }

  /** Lines that all parse are exactly the formatted lines of what they read. */
  lemma {:induction false} ParseAllExact(lines: seq<string>, results: seq<(string, nat)>)
    requires ParseAll(lines) == Some(results)
    ensures lines == ResultLines(results)
    decreases |lines|
  {
    if lines != [] {
      var p := ParseLine(lines[0]).value;
      var ps := ParseAll(lines[1..]).value;
      ParseLineExact(lines[0], p.0, p.1);
      ParseAllExact(lines[1..], ps);
      assert ResultLines([p] + ps) == [FormatLine(p.0, p.1)] + ResultLines(ps);
    }
  }

  /** The result file reads back, line by line, as exactly the results that
      were written, in order, provided no address holds a line break (loaded
      addresses never do). */
  lemma FileReadsBack(results: seq<(string, nat)>)
    ensures (forall k :: 0 <= k < |results| ==> Text.NoBreaks(results[k].0)) ==>
      ParseAll(Text.SplitLines(FileContents(results))) == Some(results)
  {
    if forall k :: 0 <= k < |results| ==> Text.NoBreaks(results[k].0) {
      var lines := ResultLines(results);
      assert forall k :: 0 <= k < |lines| ==> Text.NoBreaks(lines[k]);
      Text.SplitJoinTerminated(lines);
      ParseAllResultLines(results);
    }
  }

  /** Where a text-mode write turns every "\n" into "\r\n", the file still
      reads back as exactly the results. */
  lemma FileReadsBackCrLf(results: seq<(string, nat)>)
    ensures (forall k :: 0 <= k < |results| ==> Text.NoBreaks(results[k].0)) ==>
      ParseAll(Text.SplitLines(Text.JoinCrLfTerminated(ResultLines(results)))) == Some(results)
  {
    if forall k :: 0 <= k < |results| ==> Text.NoBreaks(results[k].0) {
      var lines := ResultLines(results);
      assert forall k :: 0 <= k < |lines| ==> Text.NoBreaks(lines[k]);
      Text.SplitJoinCrLfTerminated(lines);
      ParseAllResultLines(results);
    }
  }

  /** The name of the result file: `working_<lowercased category>_proxies.txt`. */
  function FileName(proxyType: string): (name: string)
    ensures |name| == |proxyType| + 20
    ensures name[..8] == "working_" && name[|name| - 12..] == "_proxies.txt"
    ensures var middle := name[8..|name| - 12];
            Text.NoCapitals(middle) && Text.EqualsIgnoringCase(middle, proxyType)
  {
    "working_" + Text.Lower(proxyType) + "_proxies.txt"
  }

  /** Each category writes to its own file, named after its scheme. */
  lemma FileNamePerCategory(c: Category, d: Category)
    ensures FileName(Name(c)) == "working_" + Scheme(c) + "_proxies.txt"
    ensures FileName(Name(c)) == FileName(Name(d)) ==> c == d
  {
    LowerNameIsScheme(c);
    LowerNameIsScheme(d);
    if FileName(Name(c)) == FileName(Name(d)) {
      var n := |"working_"|;
      assert Scheme(c) == FileName(Name(c))[n..n + |Scheme(c)|];
      assert |Scheme(c)| == |Scheme(d)|;
      assert Scheme(c) == Scheme(d);
    }
  }

  /** What the chosen output mode produces. */
  datatype Output = SaveToFile(fileName: string, contents: string) | ShowOnConsole(lines: seq<string>) | BackToMenu

  /** Output option 1 saves to the category's file, 2 shows the lines on the
      console, anything else (a non-numeric answer counts as 3) goes back. */
  function Present(outputChoice: int, proxyType: string, results: seq<(string, nat)>): (o: Output)
    ensures o.SaveToFile? <==> outputChoice == 1
    ensures o.ShowOnConsole? <==> outputChoice == 2
    ensures o.SaveToFile? ==> o.fileName == FileName(proxyType) && o.contents == FileContents(results)
    ensures o.ShowOnConsole? ==> o.lines == ResultLines(results)
    ensures o.SaveToFile? && (forall k :: 0 <= k < |results| ==> Text.NoBreaks(results[k].0)) ==>
      ParseAll(Text.SplitLines(o.contents)) == Some(results)
    ensures o.ShowOnConsole? ==> ParseAll(o.lines) == Some(results)
  {
    if outputChoice == 1 then
      FileReadsBack(results);
      SaveToFile(FileName(proxyType), FileContents(results))
    else if outputChoice == 2 then
      ParseAllResultLines(results);
      ShowOnConsole(ResultLines(results))
    else BackToMenu
  }

  // ---------------------------------------------------------------- one round

  /** How one pass of the main loop ended. */
  datatype Round =
    | Exit
    | InvalidOption
    | InvalidNumber
    | NothingLoaded(proxyType: string)
    | Checked(proxyType: string, loaded: seq<string>, candidates: seq<string>, results: seq<(string, nat)>)

  /** One pass of the main loop, given the menu number, the limit (None when the
      answer was not a number), the source table, and the two network oracles.
      An empty load ends the pass before any check; otherwise the first `limit`
      loaded addresses (Python slice) are checked. */
  method RunRound(checker: ProxyChecker, choice: int, limit: Option<int>, table: SourceTable,
                  fetch: Url -> Response, probe: ProxyConfig -> Reply)
    returns (round: Round, checker': ProxyChecker)
    ensures round == Exit <==> choice == 0
    ensures round == InvalidOption <==> !(0 <= choice <= 4)
    ensures round == InvalidNumber <==> 1 <= choice <= 4 && limit.None?
    ensures round.NothingLoaded? || round.Checked? ==>
      limit.Some? && Menu(choice) == Pick(round.proxyType)
    ensures round.NothingLoaded? ==> Gathered(SourcesFor(table, round.proxyType), fetch) == []
    ensures round.Checked? ==>
      && Gathered(SourcesFor(table, round.proxyType), fetch) != []
      && NoDuplicates(round.loaded)
      && (forall x :: x in round.loaded <==> x in Gathered(SourcesFor(table, round.proxyType), fetch))
      && round.candidates == Truncate(round.loaded, limit.value)
      && multiset(round.results) == multiset(Working(round.candidates, round.proxyType, probe))
      && checker'.workingProxies == Firsts(round.results)
    ensures !round.Checked? ==> checker' == checker
  {
    checker' := checker;
    match Menu(choice)
    case Quit =>
      round := Exit;
    case Rejected =>
      round := InvalidOption;
    case Pick(proxyType) =>
      if limit.None? {
        round := InvalidNumber;
      } else {
        var proxies := LoadProxies(table, proxyType, fetch);
        if proxies == [] {
          round := NothingLoaded(proxyType);
        } else {
          var candidates := Truncate(proxies, limit.value);
          var results;
          checker', results := CheckProxiesMultithread(checker, candidates, proxyType, probe);
          round := Checked(proxyType, proxies, candidates, results);
        }
      }
  }
}
