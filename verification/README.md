# ProxySniffer core, modelled in Dafny

ProxySniffer downloads public lists of proxy addresses for one of four
categories (HTTP, HTTPS, SOCKS4, SOCKS5), keeps the distinct entries, sends one
test request through each proxy, and reports the proxies that answered with
status 200 together with their response time. This project models the data
handling of `ProxyChecker` and of the main loop in `src/main.py` as pure
functions and small methods, and proves what they promise:

- `text.dfy` (module `Text`): Python's `str.lower` (ASCII letters),
  `str.strip()`, `str.splitlines()` and `str(int)`, with the whitespace and
  line-boundary tables Python uses.
- `categories.dfy` (module `Categories`): the four categories, their names,
  their URL schemes, the case-sensitive key lookup of the source table, and the
  menu numbering `proxy_mapping`.
- `checker.dfy` (module `Checker`): `build_proxies`, `check_proxy` and
  `check_proxies_multithread`. The test request is an oracle
  `probe: ProxyConfig -> Reply` applied to the configuration `build_proxies`
  produced; a reply is an exception or a status code with the elapsed
  milliseconds. The order in which checks complete is left open: each loop
  step picks any pending candidate.
- `loader.dfy` (module `Loader`): `load_proxies`. The source table is a
  parameter `Category -> seq<Url>`, each download an oracle
  `fetch: Url -> Response` (an exception, or a status code and a body).
  `list(set(...))` returns the distinct entries in an order the model leaves
  open.
- `driver.dfy` (module `Driver`): one pass of the `main` loop: menu number,
  limit, loading, the early stop on an empty load, Python slice truncation,
  checking, the output line `"{proxy} | {ms}ms"`, the file name
  `working_{lower}_proxies.txt` and the two output modes.
- `wrappers.dfy` (module `Wrappers`): `Option`.

Three behaviours of the code worth noting:

- Blank lines inside a downloaded body are not dropped: `body.strip().splitlines()`
  keeps them as empty entries (`Loader.BlankLineKept`); only leading and
  trailing whitespace of the whole body is removed.
- The limit is a Python slice stop, not a plain minimum: a negative limit drops
  that many entries from the end (`Driver.Truncate`).
- Truncation happens after deduplication through a set, so which entries
  survive a limit depends on the set's order; a particular address is not
  guaranteed to be among the checked ones.

## Model

| member | source | states |
|---|---|---|
| Text.Strip | src/main.py:97 | `strip()` result is empty exactly when the body is all whitespace; otherwise it starts and ends with non-whitespace and is the infix of the body between an all-whitespace prefix and suffix |
| Text.SplitLines | src/main.py:97 | `splitlines()` gives no lines for empty text and otherwise at least one, and no line contains a line boundary; where each line ends is fixed by `Text.SplitLinesAt` |
| Text.SplitLinesKeepsContent | src/main.py:97 | the lines, concatenated, are the text with only its line-boundary characters removed: splitting loses no other character |
| Text.SplitLinesAt | src/main.py:97 | a break-free line followed by any of Python's line boundaries is split off as one line, and splitting resumes after the boundary, "\r\n" counting as one boundary and every other boundary character as one on its own |
| Text.SplitLinesStep | src/main.py:97 | a line followed by "\n" is split off as one line even when it is empty, so blank lines survive as empty strings |
| Text.SplitLinesCrLf | src/main.py:97 | "\r\n" ends one line: no empty line appears between the carriage return and the line feed |
| Text.SplitLinesCr | src/main.py:97 | a lone "\r" not followed by "\n" also ends a line |
| Text.SplitJoinTerminated | src/main.py:97 | break-free lines written one per "\n"-terminated row split back into exactly those lines |
| Text.SplitJoinCrLfTerminated | src/main.py:97 | break-free lines written one per "\r\n"-terminated row also split back into exactly those lines |
| Text.StripTrimmed | src/main.py:97 | text that neither starts nor ends with whitespace is unchanged by `strip()` |
| Text.StripIdempotent | src/main.py:97 | stripping an already stripped body changes nothing |
| Text.Lower | src/main.py:59 | `str.lower` on ASCII: same length, every capital A-Z becomes its small letter and every other character is kept, so the result has no ASCII capital and equals the input ignoring case |
| Text.LowerEqualIff | src/main.py:59 | comparing lowercased names is the same as comparing them ignoring ASCII case |
| Text.ShowNat | src/main.py:188 | `str(ms)` is a non-empty string of decimal digits without a leading zero |
| Text.DigitsValueRoundTrip | src/main.py:188 | decimal digits without a leading zero are exactly what `str` writes for the number they denote |
| Text.ShowNatRoundTrip | src/main.py:188 | the decimal digits of `str(ms)` denote `ms` again |
| Categories.FromName | src/main.py:78-85 | the source table lookup finds a category exactly when the name is spelled as one of the four keys, case-sensitively |
| Categories.Menu | src/main.py:140-148 | 0 quits, 1 to 4 select a category name that the source table knows, every other number is rejected |
| Categories.MenuOffersEachCategoryOnce | src/main.py:8 | 1, 2, 3, 4 select HTTP, HTTPS, SOCKS4, SOCKS5, and no two numbers select the same category |
| Checker.BuildProxies | src/main.py:58-75 | a non-empty configuration has exactly the keys "http" and "https", mapped to the same URL |
| Checker.BuildProxiesForCategory | src/main.py:59-74 | a name equal to a category ignoring case maps both keys to that category's scheme, "://" and the address: HTTPS gives `https://`, SOCKS4/5 give `socks4://`/`socks5://` on both keys |
| Checker.BuildProxiesUnknown | src/main.py:75 | a name matching no category ignoring case gives the empty configuration |
| Checker.BuildProxiesKeepsAddress | src/main.py:60-74 | a non-empty configuration only comes from a known category, and its URL ends with the unchanged address |
| Checker.CheckProxy | src/main.py:17-28 | a check passes exactly when the request returned status 200, with the reply's time; any other status or an exception gives (False, 0) |
| Checker.Working | src/main.py:47-52 | the reference filter: at most one pair per candidate, and every pair it keeps is an address whose check passed with exactly that time |
| Checker.WorkingMembers | src/main.py:47-52 | a (proxy, time) pair is kept exactly when the proxy is a candidate whose check passed with that time |
| Checker.WorkingCounts | src/main.py:35-52 | a passing address is kept as many times as it is submitted, a failing one never |
| Checker.CollectWorking | src/main.py:34-52 | the pool loop, taking completed checks in any order, ends with the passing pairs of the reference filter (as a multiset) and the list of their addresses in completion order |
| Checker.CheckProxiesMultithread | src/main.py:30-56 | whatever the completion order, the returned pairs are the passing candidates with their times (as a multiset), membership is exactly "candidate that passed with that time", and the checker's list is reset and then holds the pairs' addresses in the same order |
| Loader.Entries | src/main.py:97 | a body yields no entries exactly when it is all whitespace, and no entry holds a line boundary |
| Loader.BlankLineKept | src/main.py:97 | a blank line between two entries becomes an empty entry: blank lines are not filtered |
| Loader.Contribution | src/main.py:95-97 | a raised request or another status than 200 adds nothing; a 200 response adds entries exactly when its body is not all whitespace, and no entry holds a line boundary |
| Loader.SourcesFor | src/main.py:78-85 | a name that is not one of the four keys selects no source; a key selects exactly that category's source list |
| Loader.GatheredMembers | src/main.py:94-99 | an entry is collected exactly when some source answered with status 200 and its body holds the entry |
| Loader.FailedSourceSkipped | src/main.py:94-99 | a source that raised or answered with another status adds nothing, and every source after it still contributes in full |
| Loader.AllSourcesFailed | src/main.py:94-101 | when every source raised or answered with another status than 200, nothing is collected, so the load is empty |
| Loader.Collect | src/main.py:94-99 | the download loop collects the entries of the successful sources one source after the other, in source order, before deduplication |
| Loader.Dedupe | src/main.py:101 | `list(set(xs))` has no duplicates, the same elements as `xs`, and as many elements as `xs` has distinct ones |
| Loader.LoadProxies | src/main.py:77-101 | the loaded list has no duplicates, holds exactly the entries that some source of the selected category returned with status 200, is empty exactly when they yield nothing, and is empty for an unknown category name |
| Driver.Truncate | src/main.py:167 | `proxies[:limit]` is a prefix of `proxies`: the first min(limit, M) elements for limit >= 0, and all but the last -limit (or none) for limit < 0 |
| Driver.TruncateSubList | src/main.py:167 | truncating a duplicate-free list keeps it duplicate-free and adds no element |
| Driver.FormatLine | src/main.py:188 | an output line is the address, the bar separator, the decimal digits of the time and "ms", and it is a single line when the address has no line break |
| Driver.FormatLineRoundTrip | src/main.py:188 | an output line (address, the bar separator, the time, "ms") reads back as exactly that address and time, whatever characters the address holds |
| Driver.ParseLineExact | src/main.py:188 | a line that reads back as an address and a time is exactly the output line of that pair: no other spelling (a leading zero, a missing separator) is accepted |
| Driver.FileContents | src/main.py:186-188 | the file is empty exactly when there are no results, and otherwise ends with a line break |
| Driver.ParseAllExact | src/main.py:186-188 | lines that all read back are exactly the output lines of what they read, in order |
| Driver.FileReadsBack | src/main.py:186-188 | the saved file, split into lines, reads back as exactly the results in order when no address holds a line break |
| Driver.FileReadsBackCrLf | src/main.py:186-188 | where a text-mode write turns each "\n" into "\r\n", the file still splits and reads back as exactly the results when no address holds a line break |
| Driver.FileName | src/main.py:185 | the file name is "working_", the category name with every ASCII capital lowered (equal to it ignoring case) and "_proxies.txt" |
| Driver.FileNamePerCategory | src/main.py:185 | the file of a category is `working_<scheme>_proxies.txt`, and different categories write different files |
| Driver.Present | src/main.py:179-197 | option 1 saves the formatted lines of the results, one per "\n"-terminated row, to the category's file; option 2 shows the same lines; anything else goes back. Either output reads back as exactly the results (the file when no address holds a line break) |
| Driver.RunRound | src/main.py:136-171 | one loop pass: 0 exits, numbers outside 0..4 are rejected, a non-numeric limit is rejected, an empty load stops before any check, and otherwise the checked candidates are `loaded[:limit]` of the distinct successful entries and the results are exactly those that passed |

## Left out

- Network I/O: every download (`requests.get(link, timeout=10)`) and every test request (`requests.get(test_url, proxies=..., timeout=5)`) is an oracle parameter. The test URL, the timeouts, TLS verification and the proxy handshakes are inside that oracle.
- Concurrency: the thread pool, its 50-worker cap and `as_completed` are replaced by a sequential loop that takes pending checks in any order. The worker cap is not modelled.
- Timing: `time.time()` and `round(... * 1000)` are floating point; the elapsed time is an opaque natural number supplied by the oracle.
- Presentation: the banner, `os.system`, progress bars, prompts, `time.sleep`, the colour escape codes around console lines and the actual file write. Only the text of the lines and the file name are modelled. Parsing the typed numbers with `int(input())` is not modelled: the menu number arrives as an integer (-1 for a non-number, as `main_menu` returns), the limit as an optional integer.
- The repeated `while True` loop: one pass is modelled (`Driver.RunRound`); passes share nothing but the checker.
- The source URL lists in `src/links.py`: configuration data, passed as the `SourceTable` parameter.
- The order of `list(set(...))` and of the completion-ordered results: stated only as duplicate-freedom, element sets and multisets.
- File encoding: `Driver.FileContents` is the text handed to `f.write`, before text-mode newline translation and encoding; where the platform line ending is "\r\n" (Windows, which the program supports) the bytes on disk end each line with "\r\n" instead. `Driver.FileReadsBackCrLf` shows that this text reads back the same way; the encoding to bytes is not modelled.
- Repeated requests: `fetch` and `probe` are functions, so a source URL listed twice, or an address submitted twice, is assumed to get the same answer each time, while the program sends an independent request each time. `main` only submits duplicate-free candidate lists, so for checking this matters only when the caller passes duplicates (as `Checker.WorkingCounts` allows); for loading it matters only when a source list names one URL twice.
- The outer `try/except` around `future.result()` in `check_proxies_multithread`: `check_proxy` already catches every `Exception`, so that handler has nothing to catch in the model.
- Text.Lower: lowercases ASCII letters only. Python's `str.lower` also maps other letters, some of them onto ASCII (KELVIN SIGN becomes "k"), so a non-ASCII category name that Python would accept is rejected by the model. The names the program passes are the four ASCII menu names.
- Checker.CheckProxy: the response time is a natural number; a clock going backwards could make Python's value negative.
