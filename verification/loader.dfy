/** Downloading the candidate lists: each source of the chosen category is
    fetched once, the bodies of successful responses are split into entries,
    and the entries of all sources are merged without duplicates. */
module Loader {
  import opened Wrappers
  import Text
  import opened Categories

  type Url = string

  /** What downloading one source gave: an exception, or a status code and body text. */
  datatype Response = Failed | Fetched(status: int, body: string)

  /** The source lists of the four categories (configuration data). */
  type SourceTable = Category -> seq<Url>

  predicate NoDuplicates<T(==)>(s: seq<T>) {
    forall i, j :: 0 <= i < j < |s| ==> s[i] != s[j]
  }

  /** The entries one response body holds: the stripped body split into lines.
      Blank lines inside the body are kept; a body of whitespace holds none. */
  function Entries(body: string): (r: seq<string>)
    ensures r == [] <==> Text.AllSpace(body)
    ensures forall k :: 0 <= k < |r| ==> Text.NoBreaks(r[k])
  {
    Text.SplitLines(Text.Strip(body))
  }

  /** A blank line between two entries is kept as an empty entry: the loader
      does not filter blank lines inside a body. */
  lemma BlankLineKept(first: string, second: string)
    requires first != [] && Text.NoBreaks(first) && !Text.IsSpace(first[0])
    requires second != [] && Text.NoBreaks(second) && !Text.IsSpace(second[|second| - 1])
    ensures Entries(first + "\n\n" + second) == [first, "", second]
  {
    var body := first + "\n\n" + second;
    assert body[0] == first[0] && body[|body| - 1] == second[|second| - 1];
    Text.StripTrimmed(body);
    assert body == first + "\n" + ("" + "\n" + second);
    Text.SplitLinesStep(first, "" + "\n" + second);
    Text.SplitLinesStep("", second);
    Text.SplitLinesSingle(second);
  }

  /** A response adds its entries only when it came with status 200. */
  function Contribution(response: Response): (r: seq<string>)
    ensures !(response.Fetched? && response.status == 200) ==> r == []
    ensures r != [] <==> response.Fetched? && response.status == 200 && !Text.AllSpace(response.body)
    ensures forall k :: 0 <= k < |r| ==> Text.NoBreaks(r[k])
  {
    if response.Fetched? && response.status == 200 then Entries(response.body) else []
  }

  /** The sources the loader visits for a category name: the name is looked up
      case-sensitively, and a name that is not a key selects no source. */
  function SourcesFor(table: SourceTable, proxyType: string): (sources: seq<Url>)
    ensures (forall c :: Name(c) != proxyType) ==> sources == []
    ensures forall c :: Name(c) == proxyType ==> sources == table(c)
  {
    match FromName(proxyType)
    case Some(c) => table(c)
    case None => []
  }

  /** The lists of a sequence of lists, one after the other. */
  function Flatten<T>(parts: seq<seq<T>>): seq<T>
    decreases |parts|
  {
    if parts == [] then [] else Flatten(parts[..|parts| - 1]) + parts[|parts| - 1]
  }

  lemma {:induction false} FlattenMembers<T>(parts: seq<seq<T>>, x: T)
    ensures x in Flatten(parts) <==> exists k :: 0 <= k < |parts| && x in parts[k]
    decreases |parts|
  {
    if parts != [] {
      var front := parts[..|parts| - 1];
      FlattenMembers(front, x);
      assert forall k :: 0 <= k < |front| ==> front[k] == parts[k];
    }
  }

  lemma {:induction false} FlattenAppend<T>(a: seq<seq<T>>, b: seq<seq<T>>)
    ensures Flatten(a + b) == Flatten(a) + Flatten(b)
    decreases |b|
  {
    if b == [] {
      assert a + b == a;
    } else {
      var front := b[..|b| - 1];
      assert (a + b)[..|a + b| - 1] == a + front;
      assert (a + b)[|a + b| - 1] == b[|b| - 1];
      FlattenAppend(a, front);
    }
  }

  /** What each source adds, in source order. */
  function Contributions(sources: seq<Url>, fetch: Url -> Response): (parts: seq<seq<string>>)
    ensures |parts| == |sources|
    ensures forall k :: 0 <= k < |sources| ==> parts[k] == Contribution(fetch(sources[k]))
  {
    seq(|sources|, k requires 0 <= k < |sources| => Contribution(fetch(sources[k])))
  }

  /** Reference definition of the merged list before deduplication: the
      contributions of the sources, in source order. */
  function Gathered(sources: seq<Url>, fetch: Url -> Response): seq<string> {
    Flatten(Contributions(sources, fetch))
  }

  /** An entry is in the merged list exactly when some source contributed it. */
  lemma GatheredMembers(sources: seq<Url>, fetch: Url -> Response, x: string)
    ensures x in Gathered(sources, fetch) <==>
      exists k :: 0 <= k < |sources| && x in Contribution(fetch(sources[k]))
  {
    FlattenMembers(Contributions(sources, fetch), x);
  }

  lemma ContributionsSplit(sources: seq<Url>, i: nat, fetch: Url -> Response)
    requires i < |sources|
    ensures Contributions(sources, fetch)
         == Contributions(sources[..i], fetch) + [Contribution(fetch(sources[i]))] + Contributions(sources[i + 1..], fetch)
  {
  }

  lemma FlattenSkipEmpty<T>(before: seq<seq<T>>, after: seq<seq<T>>)
    ensures Flatten(before + [[]] + after) == Flatten(before) + Flatten(after)
  {
    var empty: seq<seq<T>> := [[]];
    FlattenAppend(before + empty, after);
    FlattenAppend(before, empty);
    assert Flatten(empty) == [] by {
      assert empty[..0] == [];
    }
  }

  /** A source that raised or answered with another status than 200 adds
      nothing, and the sources after it still contribute in full. */
  lemma FailedSourceSkipped(sources: seq<Url>, i: nat, fetch: Url -> Response)
    requires i < |sources|
    requires fetch(sources[i]).Failed? || fetch(sources[i]).status != 200
    ensures Gathered(sources, fetch) == Gathered(sources[..i], fetch) + Gathered(sources[i + 1..], fetch)
  {
    ContributionsSplit(sources, i, fetch);
    FlattenSkipEmpty(Contributions(sources[..i], fetch), Contributions(sources[i + 1..], fetch));
  }

  /** When no source answers with status 200, nothing is gathered. */
  lemma {:induction false} AllSourcesFailed(sources: seq<Url>, fetch: Url -> Response)
    requires forall k :: 0 <= k < |sources| ==> fetch(sources[k]).Failed? || fetch(sources[k]).status != 200
    ensures Gathered(sources, fetch) == []
    decreases |sources|
  {
    if sources != [] {
      var front := sources[..|sources| - 1];
      AllSourcesFailed(front, fetch);
      assert Contributions(sources, fetch) == Contributions(front, fetch) + [[]];
    }
  }

  /** `list(set(xs))`: every distinct entry once, in an order the model leaves open. */
  method Dedupe(xs: seq<string>) returns (r: seq<string>)
    ensures NoDuplicates(r)
    ensures forall x :: x in r <==> x in xs
    ensures |r| == |set x | x in xs|
  {
    var remaining := set x | x in xs;
    r := [];
    while remaining != {}
      invariant NoDuplicates(r)
      invariant forall x :: x in r ==> x in xs && x !in remaining
      invariant forall x :: x in xs ==> x in r || x in remaining
      invariant forall x :: x in remaining ==> x in xs
      invariant |r| + |remaining| == |set x | x in xs|
      decreases remaining
    {
      var x :| x in remaining;
      r := r + [x];
      remaining := remaining - {x};
    }
  }

  lemma FlattenSnoc<T>(parts: seq<seq<T>>, last: seq<T>)
    ensures Flatten(parts + [last]) == Flatten(parts) + last
  {
    assert (parts + [last])[..|parts|] == parts;
  }

  /** Visiting one more source appends its contribution. */
  lemma GatheredStep(sources: seq<Url>, k: nat, fetch: Url -> Response)
    requires k < |sources|
    ensures Gathered(sources[..k + 1], fetch) == Gathered(sources[..k], fetch) + Contribution(fetch(sources[k]))
  {
    var parts := Contributions(sources[..k], fetch);
    var part := Contribution(fetch(sources[k]));
    assert Contributions(sources[..k + 1], fetch) == parts + [part];
    FlattenSnoc(parts, part);
  }

  /** The loop of `load_proxies`: the entries of every source, one source after
      the other, before deduplication. */
  method Collect(sources: seq<Url>, fetch: Url -> Response) returns (collected: seq<string>)
    ensures collected == Gathered(sources, fetch)
  {
    collected := [];
    var k := 0;
    while k < |sources|
      invariant k <= |sources|
      invariant collected == Gathered(sources[..k], fetch)
    {
      var part := Contribution(fetch(sources[k]));
      GatheredStep(sources, k, fetch);
      collected := collected + part;
      k := k + 1;
    }
    assert sources[..k] == sources;
  }

  /** The duplicate-free list of entries of every source of the category that
      answered with status 200; an unknown category name selects no source and
      loads nothing. */
  method LoadProxies(table: SourceTable, proxyType: string, fetch: Url -> Response)
    returns (proxies: seq<string>)
    ensures NoDuplicates(proxies)
    ensures forall x :: x in proxies <==> x in Gathered(SourcesFor(table, proxyType), fetch)
    ensures var sources := SourcesFor(table, proxyType);
            forall x :: x in proxies <==> exists k :: 0 <= k < |sources| && x in Contribution(fetch(sources[k]))
    ensures proxies == [] <==> Gathered(SourcesFor(table, proxyType), fetch) == []
    ensures (forall c :: Name(c) != proxyType) ==> proxies == []
  {
    var sources := SourcesFor(table, proxyType);
    var collected := Collect(sources, fetch);
    assert |Contributions([], fetch)| == 0;
    proxies := Dedupe(collected);
    if collected != [] {
      assert collected[0] in (set x | x in collected);
    }
    forall x {
      GatheredMembers(sources, fetch, x);
    }
  }
}
