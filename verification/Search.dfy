/** Filename search: the daemon's depth-first walk over granted roots, and the
    breadth-first fallback a peer runs through plain listings. */
module Search {
  import opened Options
  import opened Paths
  import opened ShareTree
  import opened Text

  const SEARCH_VISIT_BUDGET: nat := 20_000
  const FALLBACK_VISIT_BUDGET: nat := 1500
  const SEARCH_MAX_RESULTS: nat := 200

  /** Case-insensitive "name contains the query", already applied to a query. */
  type Matcher = string -> bool

  /** How a walk spends its budget: which end it takes work from, and whether
      hits beyond the result limit are dropped at once. */
  datatype Policy = Policy(budget: nat, capped: bool, breadthFirst: bool)

  const SCOPED := Policy(SEARCH_VISIT_BUDGET, true, false)
  const FALLBACK := Policy(FALLBACK_VISIT_BUDGET, false, true)

  datatype Progress = Progress(todo: seq<string>, out: seq<Entry>, visited: nat, truncated: bool)

  // ---- What the loops compute ----

  /** Going through one listing. */
  function Scanned(c: Policy, es: seq<Entry>, matches: Matcher, s: Progress): (r: Progress)
    ensures es == [] ==> r == s
    ensures es != [] ==> r.visited > s.visited
    ensures r.visited <= s.visited + |es|
    ensures s.visited <= c.budget ==> r.visited <= c.budget + 1
    ensures s.truncated ==> r.truncated
    ensures r.truncated && !s.truncated ==> r.visited > c.budget
    ensures |r.out| >= |s.out|
    ensures c.capped && |s.out| <= SEARCH_MAX_RESULTS ==> |r.out| <= SEARCH_MAX_RESULTS
  {
    if es == [] then s
    else
      var e := es[0];
      var s1 := s.(visited := s.visited + 1);
      if s1.visited > c.budget then s1.(truncated := true)
      else if e.kind.Dir? then Scanned(c, es[1..], matches, s1.(todo := s1.todo + [e.path]))
      else if matches(e.name) && !(c.capped && |s1.out| >= SEARCH_MAX_RESULTS) then
        Scanned(c, es[1..], matches, s1.(out := s1.out + [e]))
      else Scanned(c, es[1..], matches, s1)
  }

  predicate Exhausted(c: Policy, s: Progress) {
    s.visited >= c.budget || |s.out| >= SEARCH_MAX_RESULTS
  }

  function NextDir(c: Policy, todo: seq<string>): string
    requires todo != []
  {
    if c.breadthFirst then todo[0] else todo[|todo| - 1]
  }

  function RestDirs(c: Policy, todo: seq<string>): seq<string>
    requires todo != []
  {
    if c.breadthFirst then todo[1..] else todo[..|todo| - 1]
  }

  /** One round of the outer loop on a directory that was just taken. */
  function Opened(c: Policy, ls: Lister, matches: Matcher, dir: string, s: Progress): Progress {
    if ls(dir).None? then s else Scanned(c, ls(dir).value, matches, s)
  }

  function Walked(c: Policy, ls: Lister, matches: Matcher, s: Progress): (r: Progress)
    ensures s.truncated ==> r.truncated
    ensures |r.out| >= |s.out| && r.visited >= s.visited
    ensures c.capped && |s.out| <= SEARCH_MAX_RESULTS ==> |r.out| <= SEARCH_MAX_RESULTS
    ensures s.visited <= c.budget + 1 ==> r.visited <= c.budget + 1
    ensures r.truncated && !s.truncated ==> Exhausted(c, r)
    decreases if s.visited <= c.budget then c.budget + 1 - s.visited else 0, |s.todo|
  {
    if s.todo == [] then s
    else if Exhausted(c, s) then s.(truncated := true)
    else
      var taken := s.(todo := RestDirs(c, s.todo));
      Walked(c, ls, matches, Opened(c, ls, matches, NextDir(c, s.todo), taken))
  }

  function Reversed(s: seq<string>): (r: seq<string>)
    ensures |r| == |s|
    ensures forall x :: x in r <==> x in s
  {
    if s == [] then [] else
      assert forall x :: x in s <==> x == s[0] || x in s[1..];
      Reversed(s[1..]) + [s[0]]
  }

  /** Roots are stacked so that the first is walked first; none means the share root. */
  function StartDirs(roots: seq<string>): seq<string> {
    if roots == [] then [""] else Reversed(roots)
  }

  function ScopeSearch(ls: Lister, roots: seq<string>, matches: Matcher): Progress {
    Walked(SCOPED, ls, matches, Progress(StartDirs(roots), [], 0, false))
  }

  // ---- The code ----

  method ScanListing(c: Policy, es: seq<Entry>, matches: Matcher, s: Progress) returns (r: Progress)
    ensures r == Scanned(c, es, matches, s)
  {
    r := s;
    var i := 0;
    assert es[0..] == es;
    while i < |es|
      invariant i <= |es|
      invariant Scanned(c, es[i..], matches, r) == Scanned(c, es, matches, s)
    {
      var e := es[i];
      assert es[i..][1..] == es[i + 1..];
      r := r.(visited := r.visited + 1);
      if r.visited > c.budget {
        r := r.(truncated := true);
        return;
      }
      if e.kind.Dir? {
        r := r.(todo := r.todo + [e.path]);
      } else if matches(e.name) && !(c.capped && |r.out| >= SEARCH_MAX_RESULTS) {
        r := r.(out := r.out + [e]);
      }
      i := i + 1;
    }
  }

  /** `search_scope`, for any listing source, even one whose directories loop. */
  method SearchScope(ls: Lister, roots: seq<string>, matches: Matcher)
    returns (out: seq<Entry>, truncated: bool, visited: nat)
    ensures var r := ScopeSearch(ls, roots, matches);
            out == r.out && truncated == r.truncated && visited == r.visited
    ensures |out| <= 200 && visited <= 20_001
  {
    var s := Progress(StartDirs(roots), [], 0, false);
    while s.todo != []
      invariant Walked(SCOPED, ls, matches, s) == ScopeSearch(ls, roots, matches)
      invariant |s.out| <= SEARCH_MAX_RESULTS && s.visited <= SEARCH_VISIT_BUDGET + 1
      decreases SEARCH_VISIT_BUDGET + 1 - s.visited, |s.todo|
    {
      if s.visited >= SEARCH_VISIT_BUDGET || |s.out| >= SEARCH_MAX_RESULTS {
        s := s.(truncated := true);
        break;
      }
      var dir := s.todo[|s.todo| - 1];
      s := s.(todo := s.todo[..|s.todo| - 1]);
      if ls(dir).None? { continue; }
      s := ScanListing(SCOPED, ls(dir).value, matches, s);
    }
    return s.out, s.truncated, s.visited;
  }

  /** The fallback reads the root listing once without a budget before the queue starts. */
  function FirstListing(es: seq<Entry>, matches: Matcher, s: Progress): (r: Progress)
    ensures r.truncated == s.truncated
  {
    if es == [] then s
    else
      var s1 := s.(visited := s.visited + 1);
      FirstListing(es[1..], matches,
                   if es[0].kind.Dir? then s1.(todo := s1.todo + [es[0].path])
                   else if matches(es[0].name) then s1.(out := s1.out + [es[0]])
                   else s1)
  }

  function FallbackSearch(ls: Lister, matches: Matcher): Option<Progress> {
    if ls("").None? then None
    else Some(Walked(FALLBACK, ls, matches,
                     FirstListing(ls("").value, matches, Progress([""], [], 0, false))))
  }

  /** `search_fallback`: None when the root cannot be listed. */
  method SearchFallback(ls: Lister, matches: Matcher) returns (r: Option<(seq<Entry>, bool)>)
    ensures var f := FallbackSearch(ls, matches);
            if f.None? then r.None? else r == Some((f.value.out, f.value.truncated))
  {
    if ls("").None? { return None; }
    var first := ls("").value;
    var s := Progress([""], [], 0, false);
    ghost var start := s;
    var i := 0;
    assert first[0..] == first;
    while i < |first|
      invariant i <= |first|
      invariant FirstListing(first[i..], matches, s) == FirstListing(first, matches, start)
    {
      var e := first[i];
      assert first[i..][1..] == first[i + 1..];
      s := s.(visited := s.visited + 1);
      if e.kind.Dir? {
        s := s.(todo := s.todo + [e.path]);
      } else if matches(e.name) {
        s := s.(out := s.out + [e]);
      }
      i := i + 1;
    }
    while s.todo != []
      invariant Some(Walked(FALLBACK, ls, matches, s)) == FallbackSearch(ls, matches)
      decreases if s.visited <= FALLBACK_VISIT_BUDGET then FALLBACK_VISIT_BUDGET + 1 - s.visited else 0, |s.todo|
    {
      if s.visited >= FALLBACK_VISIT_BUDGET || |s.out| >= SEARCH_MAX_RESULTS {
        s := s.(truncated := true);
        break;
      }
      var dir := s.todo[0];
      s := s.(todo := s.todo[1..]);
      if ls(dir).Some? { s := ScanListing(FALLBACK, ls(dir).value, matches, s); }
    }
    return Some((s.out, s.truncated));
  }

  // ---- The search handler ----

  predicate LexLess(a: string, b: string) {
    b != [] && (a == [] || a[0] < b[0] || (a[0] == b[0] && LexLess(a[1..], b[1..])))
  }

  function Inserted(p: string, sorted: seq<string>): (r: seq<string>)
    ensures forall x :: x in r <==> x == p || x in sorted
  {
    if sorted == [] then [p]
    else if LexLess(p, sorted[0]) then [p] + sorted
    else
      assert forall x :: x in sorted <==> x == sorted[0] || x in sorted[1..];
      [sorted[0]] + Inserted(p, sorted[1..])
  }

  /** `sort` followed by `dedup`. */
  function SortedDistinct(ps: seq<string>): (r: seq<string>)
    ensures forall x :: x in r <==> x in ps
  {
    if ps == [] then [] else
      assert forall x :: x in ps <==> x == ps[0] || x in ps[1..];
      var rest := SortedDistinct(ps[1..]);
      if ps[0] in rest then rest else Inserted(ps[0], rest)
  }

  /** Granted files cannot be listed, so they are matched by their own names. */
  function DirectHits(scope: seq<string>, isFile: string -> bool, matches: Matcher): seq<Entry> {
    if scope == [] then [] else
      DirectHit(scope[0], isFile, matches) + DirectHits(scope[1..], isFile, matches)
  }

  function SearchRoots(scope: seq<string>): seq<string> {
    if scope == [] then [""] else SortedDistinct(scope)
  }

  predicate Contains(s: string, part: string) {
    part <= s || (s != [] && Contains(s[1..], part))
  }

  /** That is: `part` is a slice of `s`. */
  lemma {:induction false} ContainsIff(s: string, part: string)
    ensures Contains(s, part) <==> exists i, j :: 0 <= i <= j <= |s| && s[i..j] == part
  {
    if part <= s { assert s[0..|part|] == part; }
    if s != [] {
      ContainsIff(s[1..], part);
      if i, j :| 0 <= i <= j <= |s| - 1 && s[1..][i..j] == part { assert s[i + 1..j + 1] == part; }
      if i, j :| 0 < i <= j <= |s| && s[i..j] == part { assert s[1..][i - 1..j - 1] == part; }
    }
  }

  /** Names that contain the query, both put in lower case by `lower`. */
  function MatcherFor(lower: string -> string, query: string): Matcher {
    name => Contains(lower(name), lower(query))
  }

  datatype SearchReply =
    | NoFileAccess
    | QueryTooShort
    | Found(query: string, truncated: bool, results: seq<Entry>)

  function SearchReplyTo(ls: Lister, isFile: string -> bool, lower: string -> string,
                         allowFiles: bool, scope: seq<string>, q: string): SearchReply
  {
    if !allowFiles then NoFileAccess
    else if |Trim(q)| < 2 then QueryTooShort
    else
      var matches := MatcherFor(lower, Trim(q));
      Found(Trim(q), false, DirectHits(scope, isFile, matches) + ScopeSearch(ls, SearchRoots(scope), matches).out)
  }

  /** GET /v1/search. The walk's `truncated` flag is cleared before answering. */
  method SearchHandler(ls: Lister, isFile: string -> bool, lower: string -> string,
                       allowFiles: bool, scope: seq<string>, q: string) returns (r: SearchReply)
    ensures r == SearchReplyTo(ls, isFile, lower, allowFiles, scope, q)
  {
    if !allowFiles { return NoFileAccess; }
    var query := Trim(q);
    if |query| < 2 { return QueryTooShort; }
    var roots, direct := [], [];
    if scope == [] {
      roots := [""];
    } else {
      roots, direct := SplitScope(scope, isFile, MatcherFor(lower, query));
    }
    TrimTwice(q);
    var found, truncated, visited := SearchScope(ls, roots, MatcherFor(lower, Trim(query)));
    if truncated { truncated := false; }
    return Found(query, truncated, direct + found);
  }

  /** A granted file whose own name matches. */
  function DirectHit(p: string, isFile: string -> bool, matches: Matcher): seq<Entry> {
    if isFile(p) && matches(BaseName(p)) then [Entry(BaseName(p), p, File)] else []
  }

  lemma {:induction false} DirectHitsAppend(scope: seq<string>, p: string, isFile: string -> bool, matches: Matcher)
    ensures DirectHits(scope + [p], isFile, matches) == DirectHits(scope, isFile, matches) + DirectHit(p, isFile, matches)
  {
    if scope == [] {
      assert [p][1..] == [];
      assert scope + [p] == [p];
    } else {
      assert (scope + [p])[1..] == scope[1..] + [p];
      DirectHitsAppend(scope[1..], p, isFile, matches);
    }
  }

  /** Walk targets and direct hits of a scoped grant. */
  method SplitScope(scope: seq<string>, isFile: string -> bool, matches: Matcher)
    returns (roots: seq<string>, direct: seq<Entry>)
    ensures roots == SortedDistinct(scope)
    ensures direct == DirectHits(scope, isFile, matches)
  {
    roots, direct := [], [];
    for i := 0 to |scope|
      invariant roots == scope[..i] && direct == DirectHits(scope[..i], isFile, matches)
    {
      var p := scope[i];
      assert scope[..i + 1] == scope[..i] + [p];
      DirectHitsAppend(scope[..i], p, isFile, matches);
      roots := roots + [p];
      if isFile(p) && matches(BaseName(p)) {
        direct := direct + [Entry(BaseName(p), p, File)];
      }
    }
    assert scope[..|scope|] == scope;
    roots := SortedDistinct(roots);
  }
}
