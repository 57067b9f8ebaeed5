/** Searching a grant, searching it through listings, and asking file by file
    all describe the same readable set. */
module SearchAgreement {
  import opened Text
  import opened Paths
  import opened ShareTree
  import opened Scope
  import opened Walks
  import opened Search
  import opened SearchLaw

  ghost predicate KnowsFiles(t: Tree, isFile: string -> bool) {
    forall p :: isFile(p) <==> IsFile(t, p)
  }

  /** The walk behind GET /v1/search. */
  ghost function GrantWalk(t: Tree, scope: seq<string>, matches: Matcher): Progress {
    ScopeSearch(ListTree(t), SearchRoots(scope), matches)
  }

  ghost predicate RanToEnd(r: Progress) {
    !r.truncated && |r.out| < 200
  }

  /** GET /v1/search answers with `file`. */
  ghost predicate SearchShows(t: Tree, isFile: string -> bool, scope: seq<string>, matches: Matcher, file: string) {
    exists e :: e in DirectHits(scope, isFile, matches) + GrantWalk(t, scope, matches).out && e.path == file
  }

  /** The fallback walk over the grantee's own listings answers with `file`. */
  ghost predicate FallbackShows(t: Tree, scope: seq<string>, matches: Matcher, file: string) {
    var r := FallbackSearch(ListFor(t, scope), matches);
    r.Some? && exists e :: e in r.value.out && e.path == file
  }

  /** The file may be downloaded and its name matches. */
  ghost predicate ReadableMatch(t: Tree, scope: seq<string>, matches: Matcher, file: string) {
    IsFile(t, file) && CanReadFile(scope, file) && matches(BaseName(file))
  }

  lemma {:induction false} DirectHitsMembers(scope: seq<string>, isFile: string -> bool, matches: Matcher, e: Entry)
    ensures e in DirectHits(scope, isFile, matches) <==>
            e.path in scope && isFile(e.path) && matches(BaseName(e.path)) && e == Entry(BaseName(e.path), e.path, File)
  {
    if scope != [] {
      DirectHitsMembers(scope[1..], isFile, matches, e);
      assert forall x :: x in scope <==> x == scope[0] || x in scope[1..];
    }
  }

  // ---- Reachability in the tree itself ----

  lemma {:induction false} TreeReaches(t: Tree, roots: seq<string>, r: string, d: string)
    requires WellFormed(t) && r in roots && d in t && (r == "" || AtOrUnder(d, r))
    ensures Reaches(ListTree(t), roots, d)
    decreases |d|
  {
    if d == r {
      ReachesRoot(ListTree(t), roots, d);
    } else {
      assert IsNode(t, d);
      var up, e :| IsEntry(t, up, e) && e.path == d;
      JoinInside(up, e.name);
      if r != "" { InsideJoin(up, e.name, r); }
      TreeReaches(t, roots, r, up);
      assert Lists(ListTree(t), up, e);
      ReachesStep(ListTree(t), roots, up, d);
    }
  }

  /** A descent never leaves the subtree it started in. */
  lemma {:induction false} DescentStaysBelow(t: Tree, roots: seq<string>, chain: seq<string>, i: nat)
    requires WellFormed(t) && Descent(ListTree(t), roots, chain) && i < |chain|
    ensures chain[0] == "" || AtOrUnder(chain[i], chain[0])
  {
    if i > 0 {
      DescentStaysBelow(t, roots, chain, i - 1);
      assert StepDown(ListTree(t), chain[i - 1], chain[i]);
      var e :| Lists(ListTree(t), chain[i - 1], e) && e.kind.Dir? && e.path == chain[i];
      assert IsEntry(t, chain[i - 1], e);
      JoinInside(chain[i - 1], e.name);
      if chain[0] != "" && chain[i - 1] != chain[0] { WithinTransitive(chain[i], chain[i - 1], chain[0]); }
    }
  }

  lemma HitIsBelowRoot(t: Tree, roots: seq<string>, e: Entry)
    requires WellFormed(t) && Finds(ListTree(t), roots, e)
    ensures exists r :: r in roots && (r == "" || Within(e.path, r))
    ensures RealName(e.name) && BaseName(e.path) == e.name && (e.kind.File? ==> IsFile(t, e.path))
  {
    var d :| Reaches(ListTree(t), roots, d) && Lists(ListTree(t), d, e);
    assert IsEntry(t, d, e);
    BaseNameOfJoin(d, e.name);
    JoinInside(d, e.name);
    var chain :| Descent(ListTree(t), roots, chain) && chain[|chain| - 1] == d;
    DescentStaysBelow(t, roots, chain, |chain| - 1);
    var r := chain[0];
    if r != "" && d != r { WithinTransitive(e.path, d, r); }
    assert r in roots && (r == "" || Within(e.path, r));
  }

  lemma FileIsHit(t: Tree, roots: seq<string>, r: string, matches: Matcher, file: string) returns (e: Entry)
    requires WellFormed(t) && IsFile(t, file) && matches(BaseName(file))
    requires r in roots && (r == "" || Within(file, r))
    ensures IsHit(ListTree(t), roots, matches, e) && e.path == file
  {
    var d;
    d, e :| IsEntry(t, d, e) && e.path == file && e.kind.File?;
    BaseNameOfJoin(d, e.name);
    if r != "" { InsideJoin(d, e.name, r); }
    TreeReaches(t, roots, r, d);
    assert Lists(ListTree(t), d, e);
  }

  // ---- The three views agree ----

  lemma SearchFindsReadable(t: Tree, isFile: string -> bool, scope: seq<string>, matches: Matcher, file: string)
    requires WellFormed(t) && KnowsFiles(t, isFile) && RanToEnd(GrantWalk(t, scope, matches))
    requires ReadableMatch(t, scope, matches, file)
    ensures SearchShows(t, isFile, scope, matches, file)
  {
    var roots := SearchRoots(scope);
    if scope != [] && file in scope {
      var e := Entry(BaseName(file), file, File);
      DirectHitsMembers(scope, isFile, matches, e);
    } else {
      var r: string;
      if scope == [] { r := ""; } else { r :| r in scope && Within(file, r); }
      var e := FileIsHit(t, roots, r, matches, file);
      ScopeSearchIsExact(ListTree(t), roots, matches, e);
    }
  }

  lemma SearchFindsOnlyReadable(t: Tree, isFile: string -> bool, scope: seq<string>, matches: Matcher, file: string)
    requires WellFormed(t) && KnowsFiles(t, isFile) && "" !in scope
    requires SearchShows(t, isFile, scope, matches, file)
    ensures ReadableMatch(t, scope, matches, file)
  {
    var roots := SearchRoots(scope);
    var e :| e in DirectHits(scope, isFile, matches) + GrantWalk(t, scope, matches).out && e.path == file;
    DirectHitsMembers(scope, isFile, matches, e);
    if e !in DirectHits(scope, isFile, matches) {
      ScopeSearchIsExact(ListTree(t), roots, matches, e);
      HitIsBelowRoot(t, roots, e);
    }
  }

  lemma FallbackFindsReadable(t: Tree, scope: seq<string>, matches: Matcher, file: string)
    requires WellFormed(t)
    ensures FallbackShows(t, scope, matches, file) ==> ReadableMatch(t, scope, matches, file)
    ensures ReadableMatch(t, scope, matches, file) && !FallbackSearch(ListFor(t, scope), matches).value.truncated
            ==> FallbackShows(t, scope, matches, file)
  {
    var ls := ListFor(t, scope);
    var r := FallbackSearch(ls, matches).value;
    BrowsingIsExact(t, scope, file);
    if FallbackShows(t, scope, matches, file) {
      var e :| e in r.out && e.path == file;
      FallbackIsExact(ls, matches, e);
      NameOfFound(t, scope, e);
    }
    if ReadableMatch(t, scope, matches, file) && !r.truncated {
      var e :| Finds(ls, [""], e) && e.kind.File? && e.path == file;
      NameOfFound(t, scope, e);
      FallbackIsExact(ls, matches, e);
    }
  }

  lemma NameOfFound(t: Tree, scope: seq<string>, e: Entry)
    requires WellFormed(t) && Finds(ListFor(t, scope), [""], e)
    ensures BaseName(e.path) == e.name
  {
    var d :| Reaches(ListFor(t, scope), [""], d) && Lists(ListFor(t, scope), d, e);
    assert IsEntry(t, d, e);
    BaseNameOfJoin(d, e.name);
  }

  /** Search agrees with browsing: walking the granted roots, walking breadth
      first through filtered listings, and checking files one by one give the
      same set, for every tree and every scope without an empty entry. */
  lemma SearchAgreesWithBrowsing(t: Tree, isFile: string -> bool, scope: seq<string>, matches: Matcher, file: string)
    requires WellFormed(t) && KnowsFiles(t, isFile) && "" !in scope
    requires RanToEnd(GrantWalk(t, scope, matches))
    requires !FallbackSearch(ListFor(t, scope), matches).value.truncated
    ensures SearchShows(t, isFile, scope, matches, file) <==> ReadableMatch(t, scope, matches, file)
    ensures FallbackShows(t, scope, matches, file) <==> ReadableMatch(t, scope, matches, file)
  {
    if SearchShows(t, isFile, scope, matches, file) {
      SearchFindsOnlyReadable(t, isFile, scope, matches, file);
    }
    if ReadableMatch(t, scope, matches, file) {
      SearchFindsReadable(t, isFile, scope, matches, file);
    }
    FallbackFindsReadable(t, scope, matches, file);
  }

  /** The name holds the query as a slice, letter case aside. */
  ghost predicate NameHolds(lower: string -> string, name: string, query: string) {
    exists i, j :: 0 <= i <= j <= |lower(name)| && lower(name)[i..j] == lower(query)
  }

  /** What the owner's handler answers when its walk ran to the end: exactly the
      files of the share that the grantee may download and whose names hold the
      trimmed query, each under its own name. */
  lemma HandlerIsExact(t: Tree, isFile: string -> bool, lower: string -> string, scope: seq<string>, q: string, file: string)
    requires WellFormed(t) && KnowsFiles(t, isFile) && "" !in scope && |Trim(q)| >= 2
    requires RanToEnd(GrantWalk(t, scope, MatcherFor(lower, Trim(q))))
    ensures var r := SearchReplyTo(ListTree(t), isFile, lower, true, scope, q);
            && r.Found? && r.query == Trim(q) && !r.truncated
            && (forall e :: e in r.results ==> e.kind.File? && e.name == BaseName(e.path))
            && ((exists e :: e in r.results && e.path == file) <==>
                IsFile(t, file) && CanReadFile(scope, file) && NameHolds(lower, BaseName(file), Trim(q)))
  {
    var matches := MatcherFor(lower, Trim(q));
    ContainsIff(lower(BaseName(file)), lower(Trim(q)));
    assert matches(BaseName(file)) <==> NameHolds(lower, BaseName(file), Trim(q));
    forall e | e in SearchReplyTo(ListTree(t), isFile, lower, true, scope, q).results
      ensures e.kind.File? && e.name == BaseName(e.path)
    {
      ResultIsNamed(t, isFile, scope, matches, e);
    }
    if SearchShows(t, isFile, scope, matches, file) { SearchFindsOnlyReadable(t, isFile, scope, matches, file); }
    if ReadableMatch(t, scope, matches, file) { SearchFindsReadable(t, isFile, scope, matches, file); }
  }

  lemma ResultIsNamed(t: Tree, isFile: string -> bool, scope: seq<string>, matches: Matcher, e: Entry)
    requires WellFormed(t) && e in DirectHits(scope, isFile, matches) + GrantWalk(t, scope, matches).out
    ensures e.kind.File? && e.name == BaseName(e.path)
  {
    DirectHitsMembers(scope, isFile, matches, e);
    if e !in DirectHits(scope, isFile, matches) {
      var roots := SearchRoots(scope);
      assert scope != [] ==> scope[0] in roots;
      ScopeSearchIsExact(ListTree(t), roots, matches, e);
      HitIsBelowRoot(t, roots, e);
    }
  }

  // ---- The order of the fallback's results ----

  /** How many folders down a path lies. */
  function Depth(path: string): nat {
    if path == "" then 0 else Slashes(path) + 1
  }

  function Slashes(s: string): nat {
    if s == "" then 0 else Slashes(s[..|s| - 1]) + if s[|s| - 1] == '/' then 1 else 0
  }

  lemma {:induction false} SlashesOf(a: string, name: string)
    requires '/' !in name
    ensures Slashes(a + name) == Slashes(a)
  {
    if name == "" {
      assert a + name == a;
    } else {
      var front := name[..|name| - 1];
      assert (a + name)[..|a + name| - 1] == a + front && (a + name)[|a + name| - 1] == name[|name| - 1];
      assert name[|name| - 1] in name;
      SlashesOf(a, front);
    }
  }

  lemma DepthOfJoin(dir: string, name: string)
    requires RealName(name)
    ensures Depth(Join(dir, name)) == Depth(dir) + 1
  {
    if dir == "" {
      SlashesOf("", name);
      assert "" + name == name;
    } else {
      assert (dir + "/")[..|dir|] == dir;
      SlashesOf(dir + "/", name);
    }
  }

  /** Through its own listings a grantee finds shallow files before deeper ones. */
  lemma FallbackShowsShallowFirst(t: Tree, scope: seq<string>, matches: Matcher)
    requires WellFormed(t)
    ensures ShallowFirst(FallbackSearch(ListFor(t, scope), matches).value.out, Depth)
  {
    var ls := ListFor(t, scope);
    forall d, e | Lists(ls, d, e) ensures Depth(e.path) == Depth(d) + 1 {
      assert IsEntry(t, d, e);
      DepthOfJoin(d, e.name);
    }
    FallbackIsShallowFirst(ls, matches, Depth);
  }

  // ---- The order of the roots ----

  lemma LongerPrefix(a: string, b: string, k: nat)
    requires a != [] && b != [] && a[0] == b[0] && k < |a| && k < |b| && a[1..][..k] == b[1..][..k]
    ensures a[..k + 1] == b[..k + 1]
  {
    assert a[..k + 1] == [a[0]] + a[1..][..k] && b[..k + 1] == [b[0]] + b[1..][..k];
  }

  lemma ShorterPrefix(a: string, b: string, k: nat)
    requires 0 < k <= |a| && k <= |b| && a[..k] == b[..k]
    ensures a[1..][..k - 1] == b[1..][..k - 1]
  {
    assert a[1..][..k - 1] == a[..k][1..] && b[1..][..k - 1] == b[..k][1..];
  }

  /** The first difference decides; a prefix comes first. */
  lemma {:induction false} LexLessIff(a: string, b: string)
    ensures LexLess(a, b) <==>
            exists k :: 0 <= k <= |a| && k < |b| && a[..k] == b[..k] && (k == |a| || a[k] < b[k])
  {
    if a != [] && b != [] && a[0] == b[0] {
      LexLessIff(a[1..], b[1..]);
      if k :| 0 <= k <= |a| - 1 && k < |b| - 1 && a[1..][..k] == b[1..][..k] && (k == |a| - 1 || a[1..][k] < b[1..][k]) {
        LongerPrefix(a, b, k);
      }
      if k :| 0 <= k <= |a| && k < |b| && a[..k] == b[..k] && (k == |a| || a[k] < b[k]) {
        if k > 0 { ShorterPrefix(a, b, k); }
      }
    } else if b != [] && (a == [] || a[0] < b[0]) {
      assert a[..0] == b[..0];
    }
  }

  lemma {:induction false} LexOrder(a: string, b: string, c: string)
    ensures LexLess(a, b) && LexLess(b, c) ==> LexLess(a, c)
    ensures a != b ==> LexLess(a, b) || LexLess(b, a)
    ensures !LexLess(a, a)
    decreases |a|
  {
    if a != [] {
      LexOrder(a[1..], if b == [] then b else b[1..], if c == [] then c else c[1..]);
      if b != [] && a[0] == b[0] && a[1..] == b[1..] { assert a == b; }
    }
  }

  ghost predicate Sorted(ps: seq<string>) {
    forall i, j :: 0 <= i < j < |ps| ==> LexLess(ps[i], ps[j])
  }

  lemma {:induction false} InsertedSorted(p: string, sorted: seq<string>)
    requires Sorted(sorted) && p !in sorted
    ensures Sorted(Inserted(p, sorted))
  {
    if sorted != [] {
      LexOrder(p, sorted[0], "");
      if LexLess(p, sorted[0]) {
        forall j | 0 <= j < |sorted| ensures LexLess(p, sorted[j]) { LexOrder(p, sorted[0], sorted[j]); }
      } else {
        InsertedSorted(p, sorted[1..]);
        forall x | x in Inserted(p, sorted[1..]) ensures LexLess(sorted[0], x) {
          if x != p { var j :| 0 <= j < |sorted[1..]| && sorted[1..][j] == x; assert x == sorted[j + 1]; }
        }
      }
    }
  }

  /** The roots are walked in ascending order, each once. */
  lemma {:induction false} RootsAreSorted(ps: seq<string>)
    ensures Sorted(SortedDistinct(ps)) && forall x :: x in SortedDistinct(ps) <==> x in ps
  {
    if ps != [] {
      RootsAreSorted(ps[1..]);
      if ps[0] !in SortedDistinct(ps[1..]) { InsertedSorted(ps[0], SortedDistinct(ps[1..])); }
    }
  }

  /** Only grants that allow files are searched, and only for two characters or more. */
  lemma HandlerRefusesIff(ls: Lister, isFile: string -> bool, lower: string -> string, allowFiles: bool, scope: seq<string>, q: string)
    ensures var r := SearchReplyTo(ls, isFile, lower, allowFiles, scope, q);
            && (r == NoFileAccess <==> !allowFiles)
            && (r == QueryTooShort <==> allowFiles && |Trim(q)| < 2)
  {
  }

  // ---- An empty scope entry ----

  /** The share holding one file at its root. */
  function OneFile(name: string): Tree {
    map["" := [Entry(name, name, File)]]
  }

  lemma OneFileIsWellFormed(name: string)
    requires RealName(name)
    ensures WellFormed(OneFile(name)) && IsFile(OneFile(name), name)
  {
    var t, e := OneFile(name), Entry(name, name, File);
    assert t[""] == [e] && IsEntry(t, "", e);
    assert forall d, x :: IsEntry(t, d, x) ==> d == "" && x == e;
  }

  function Longer(scope: seq<string>): (name: string)
    ensures RealName(name) && |name| >= 2
    ensures forall p :: p in scope ==> |name| > |p|
  {
    if scope == [] then "xx" else
      assert forall p :: p in scope <==> p == scope[0] || p in scope[1..];
      Longer(scope[1..]) + seq(|scope[0]|, i => 'x')
  }

  predicate Distinct(ps: seq<string>) {
    forall i, j :: 0 <= i < j < |ps| ==> ps[i] != ps[j]
  }

  lemma {:induction false} InsertedDistinct(p: string, sorted: seq<string>)
    requires Distinct(sorted) && p !in sorted
    ensures Distinct(Inserted(p, sorted))
  {
    if sorted != [] && !LexLess(p, sorted[0]) {
      InsertedDistinct(p, sorted[1..]);
      assert sorted[0] !in Inserted(p, sorted[1..]);
    }
  }

  lemma {:induction false} SortedDistinctIsDistinct(ps: seq<string>)
    ensures Distinct(SortedDistinct(ps))
  {
    if ps != [] {
      SortedDistinctIsDistinct(ps[1..]);
      if ps[0] !in SortedDistinct(ps[1..]) { InsertedDistinct(ps[0], SortedDistinct(ps[1..])); }
    }
  }

  lemma {:induction false} ReversedDistinct(ps: seq<string>)
    requires Distinct(ps)
    ensures Distinct(Reversed(ps))
  {
    if ps != [] {
      ReversedDistinct(ps[1..]);
      assert ps[0] !in ps[1..];
    }
  }

  /** Walking a one-file share visits at most that file, so it always runs to the end. */
  lemma {:induction false} OneFileRunsToEnd(name: string, matches: Matcher, s: Progress)
    requires RealName(name) && !s.truncated && Distinct(s.todo) && |s.out| <= s.visited
    requires s.visited + (if "" in s.todo then 1 else 0) <= 1
    ensures RanToEnd(Walked(SCOPED, ListTree(OneFile(name)), matches, s))
    decreases |s.todo|
  {
    if s.todo != [] {
      var t := OneFile(name);
      var dir := s.todo[|s.todo| - 1];
      var taken := s.(todo := s.todo[..|s.todo| - 1]);
      if dir == "" {
        assert "" !in taken.todo;
        assert t[""][1..] == [];
      }
      var next := Opened(SCOPED, ListTree(t), matches, dir, taken);
      assert Walked(SCOPED, ListTree(t), matches, s) == Walked(SCOPED, ListTree(t), matches, next);
      OneFileRunsToEnd(name, matches, next);
    }
  }

  lemma OneFileWalkRunsToEnd(scope: seq<string>, name: string, matches: Matcher)
    requires RealName(name) && scope != []
    ensures RanToEnd(GrantWalk(OneFile(name), scope, matches))
  {
    var roots := SearchRoots(scope);
    SortedDistinctIsDistinct(scope);
    ReversedDistinct(roots);
    var s := Progress(StartDirs(roots), [], 0, false);
    assert StartDirs(roots) == Reversed(roots) by { assert scope[0] in roots; }
    OneFileRunsToEnd(name, matches, s);
  }

  /** The entry "" makes the search walk the whole share. */
  lemma EmptyEntryWalksEverything(t: Tree, isFile: string -> bool, scope: seq<string>, matches: Matcher, file: string)
    requires WellFormed(t) && "" in scope && RanToEnd(GrantWalk(t, scope, matches))
    requires IsFile(t, file) && matches(BaseName(file))
    ensures SearchShows(t, isFile, scope, matches, file)
  {
    var roots := SearchRoots(scope);
    var e := FileIsHit(t, roots, "", matches, file);
    ScopeSearchIsExact(ListTree(t), roots, matches, e);
  }

  lemma LongerIsUnread(scope: seq<string>)
    requires scope != []
    ensures !CanReadFile(scope, Longer(scope))
  {
    var name := Longer(scope);
    forall p | p in scope ensures name != p && !Within(name, p) { assert |name| > |p|; }
  }

  lemma OneFileIsShown(name: string, scope: seq<string>, matches: Matcher, isFile: string -> bool)
    requires RealName(name) && "" in scope && matches(name)
    ensures RanToEnd(GrantWalk(OneFile(name), scope, matches))
    ensures SearchShows(OneFile(name), isFile, scope, matches, name)
  {
    OneFileIsWellFormed(name);
    OneFileWalkRunsToEnd(scope, name, matches);
    BaseNameOfJoin("", name);
    EmptyEntryWalksEverything(OneFile(name), isFile, scope, matches, name);
  }

  /** The guard is exact: a scope without "" is searched correctly in every
      share, and for every scope holding "" there is a share in which the
      search shows a file that may not be read. */
  lemma EmptyEntryLeaksIntoSearch(scope: seq<string>, matches: Matcher, isFile: string -> bool) returns (t: Tree, file: string)
    requires "" in scope
    requires matches(Longer(scope)) && KnowsFiles(OneFile(Longer(scope)), isFile)
    ensures WellFormed(t) && KnowsFiles(t, isFile) && RanToEnd(GrantWalk(t, scope, matches))
    ensures SearchShows(t, isFile, scope, matches, file) && !CanReadFile(scope, file) && |file| >= 2
  {
    file := Longer(scope);
    t := OneFile(file);
    LongerIsUnread(scope);
    OneFileIsWellFormed(file);
    OneFileIsShown(file, scope, matches, isFile);
  }
}
