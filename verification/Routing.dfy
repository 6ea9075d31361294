/** The search for the handler of a request path: the path itself, then shorter and shorter prefixes. */
module Routing {
  import opened Basics

  /** The path with the '/' that the search appends to it. */
  function Closed(path: string): string {
    if path != "" && path[|path| - 1] != '/' then path + "/" else path
  }

  /** The prefix that is looked up when the search cuts at position k: "" stands for the root. */
  function Cut(path: string, k: nat): string
    requires k < |Closed(path)|
  {
    if k == 0 then "/" else Closed(path)[..k]
  }

  /** The strings the search may look up: the path, and its prefixes that end before a '/'. */
  predicate Candidate(path: string, c: string) {
    c == path || exists k :: 0 <= k < |Closed(path)| && Closed(path)[k] == '/' && c == Cut(path, k)
  }

  /** Position of the last '/' in url, or None. */
  function LastSlash(url: string): (r: Option<nat>)
    ensures r.Some? ==> r.value < |url| && url[r.value] == '/' && '/' !in url[r.value + 1..]
    ensures r.None? ==> '/' !in url
  {
    if url == "" then None
    else if url[|url| - 1] == '/' then Some(|url| - 1)
    else LastSlash(url[..|url| - 1])
  }

  /** The first registered string when the path is cut at its slashes below n, from the right. */
  function SearchBelow(keys: set<string>, path: string, n: nat): Option<string>
    requires n <= |Closed(path)|
  {
    if n == 0 then None
    else if Closed(path)[n - 1] == '/' && Cut(path, n - 1) in keys then Some(Cut(path, n - 1))
    else SearchBelow(keys, path, n - 1)
  }

  function Search(keys: set<string>, path: string): Option<string> {
    if path in keys then Some(path) else SearchBelow(keys, path, |Closed(path)|)
  }

  /** The search loop: it ends, and calls no handler or the one found. */
  method Route<H>(handlers: map<string, H>, path: string) returns (key: Option<string>, calls: seq<H>)
    ensures key == Search(handlers.Keys, path)
    ensures key.None? ==> calls == []
    ensures key.Some? ==> key.value in handlers && calls == [handlers[key.value]]
  {
    calls, key := [], None;
    var url := path;
    if url in handlers {
      return Some(url), [handlers[url]];
    }
    if url != "" && url[|url| - 1] != '/' {
      url := url + "/";
    }
    assert url == Closed(path)[..|url|];
    var pos := LastSlash(url);
    while pos.Some?
      invariant |url| <= |Closed(path)| && url == Closed(path)[..|url|] && pos == LastSlash(url)
      invariant SearchBelow(handlers.Keys, path, |url|) == SearchBelow(handlers.Keys, path, |Closed(path)|)
      decreases |url|
    {
      CutStep(handlers.Keys, path, url, pos.value);
      url := url[..pos.value];
      var prefix := if url == "" then "/" else url;
      if prefix in handlers {
        return Some(prefix), [handlers[prefix]];
      }
      pos := LastSlash(url);
    }
    SkipPlain(handlers.Keys, path, 0, |url|, url);
  }

  /** One round of the loop: the prefix before the last slash is looked up, then the search goes on in it. */
  lemma CutStep(keys: set<string>, path: string, url: string, pos: nat)
    requires |url| <= |Closed(path)| && url == Closed(path)[..|url|] && LastSlash(url) == Some(pos)
    ensures url[..pos] == Closed(path)[..pos]
    ensures (if url[..pos] == "" then "/" else url[..pos]) == Cut(path, pos)
    ensures SearchBelow(keys, path, |url|) ==
            if Cut(path, pos) in keys then Some(Cut(path, pos)) else SearchBelow(keys, path, pos)
  {
    SkipPlain(keys, path, pos + 1, |url|, url);
    assert url[pos] == Closed(path)[pos];
  }

  /** Positions without a slash do not matter to the search. */
  lemma {:induction false} SkipPlain(keys: set<string>, path: string, m: nat, n: nat, url: string)
    requires m <= n == |url| <= |Closed(path)| && url == Closed(path)[..n] && '/' !in url[m..]
    ensures SearchBelow(keys, path, n) == SearchBelow(keys, path, m)
  {
    if m < n {
      assert url[m..][n - 1 - m] == url[n - 1] == Closed(path)[n - 1];
      var shorter := url[..n - 1];
      forall i | 0 <= i < |shorter[m..]| ensures shorter[m..][i] != '/' {
        assert shorter[m..][i] == url[m..][i];
      }
      SkipPlain(keys, path, m, n - 1, shorter);
    }
  }

  // ---------------------------------------------------------------- what the search finds

  lemma {:induction false} SearchBelowFinds(keys: set<string>, path: string, n: nat)
    requires n <= |Closed(path)|
    ensures var r := SearchBelow(keys, path, n);
            (r.Some? ==> r.value in keys && Candidate(path, r.value)) &&
            forall k :: 0 <= k < n && Closed(path)[k] == '/' && Cut(path, k) in keys ==>
                          r.Some? && (Rooted(path) ==> LongerOrSame(r.value, Cut(path, k)))
  {
    if n > 0 {
      SearchBelowFinds(keys, path, n - 1);
      if Rooted(path) {
        forall k | 0 <= k < n ensures LongerOrSame(Cut(path, n - 1), Cut(path, k)) {
          CutsGrow(path, k, n - 1);
        }
      }
    }
  }

  predicate Rooted(path: string) {
    path != "" && path[0] == '/'
  }

  predicate LongerOrSame(a: string, b: string) {
    a == b || |a| > |b|
  }

  lemma CutsGrow(path: string, j: nat, k: nat)
    requires Rooted(path) && j <= k < |Closed(path)|
    ensures LongerOrSame(Cut(path, k), Cut(path, j))
  {
    assert Closed(path)[..1] == "/";
  }

  lemma CutAtMostPath(path: string, k: nat)
    requires Rooted(path) && k < |Closed(path)|
    ensures LongerOrSame(path, Cut(path, k))
  {
    assert |path| == 1 ==> path == "/";
    assert Closed(path)[..|path|] == path;
  }

  /**
    A handler is found exactly when some candidate is registered; for a path that starts with '/'
    it is the one of the longest registered candidate.
  */
  lemma SearchFindsLongest(keys: set<string>, path: string)
    ensures Search(keys, path).Some? <==> exists c :: c in keys && Candidate(path, c)
    ensures Search(keys, path).Some? ==> Search(keys, path).value in keys && Candidate(path, Search(keys, path).value)
    ensures Search(keys, path).Some? && Rooted(path) ==>
              forall c :: c in keys && Candidate(path, c) ==> LongerOrSame(Search(keys, path).value, c)
  {
    SearchBelowFinds(keys, path, |Closed(path)|);
    var r := Search(keys, path);
    forall c | c in keys && Candidate(path, c) ensures r.Some? && (Rooted(path) ==> LongerOrSame(r.value, c)) {
      if c != path {
        var k :| 0 <= k < |Closed(path)| && Closed(path)[k] == '/' && c == Cut(path, k);
        if Rooted(path) {
          CutAtMostPath(path, k);
        }
      }
    }
    if r.Some? {
      assert r.value in keys && Candidate(path, r.value);
    }
  }
}
