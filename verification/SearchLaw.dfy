/** What a search finds: everything reachable when it runs to the end, and the
    same files that browsing shows. */
module SearchLaw {
  import opened Options
  import opened ShareTree
  import opened Walks
  import opened Search

  predicate Matching(e: Entry, matches: Matcher) {
    e.kind.File? && matches(e.name)
  }

  ghost predicate IsHit(ls: Lister, roots: seq<string>, matches: Matcher, e: Entry) {
    Finds(ls, roots, e) && Matching(e, matches)
  }

  /** Nothing was cut off by the result limit. */
  predicate Uncut(c: Policy, s: Progress) {
    !c.capped || |s.out| < SEARCH_MAX_RESULTS
  }

  // ---- One listing ----

  /** One entry read within the budget. */
  function ReadOne(c: Policy, e: Entry, matches: Matcher, s: Progress): Progress {
    var s1 := s.(visited := s.visited + 1);
    if e.kind.Dir? then s1.(todo := s1.todo + [e.path])
    else if matches(e.name) && !(c.capped && |s1.out| >= SEARCH_MAX_RESULTS) then s1.(out := s1.out + [e])
    else s1
  }

  lemma ScanOne(c: Policy, es: seq<Entry>, matches: Matcher, s: Progress)
    requires es != [] && s.visited < c.budget
    ensures Scanned(c, es, matches, s) == Scanned(c, es[1..], matches, ReadOne(c, es[0], matches, s))
  {
  }

  lemma ReadMembers(c: Policy, e: Entry, matches: Matcher, s: Progress)
    ensures var n := ReadOne(c, e, matches, s);
            && (forall x :: x in s.out ==> x in n.out)
            && (forall d :: d in s.todo ==> d in n.todo)
            && (forall x :: x in n.out ==> x in s.out || (x == e && Matching(e, matches)))
            && (forall d :: d in n.todo ==> d in s.todo || (d == e.path && e.kind.Dir?))
            && (e.kind.Dir? ==> e.path in n.todo)
  {
  }

  lemma {:induction false} ScanIsSound(c: Policy, es: seq<Entry>, matches: Matcher, s: Progress)
    ensures var r := Scanned(c, es, matches, s);
            && (forall e :: e in r.out ==> e in s.out || (e in es && Matching(e, matches)))
            && (forall d :: d in r.todo ==> d in s.todo || exists e :: e in es && e.kind.Dir? && e.path == d)
  {
    if es != [] && s.visited < c.budget {
      ScanOne(c, es, matches, s);
      ReadMembers(c, es[0], matches, s);
      ScanIsSound(c, es[1..], matches, ReadOne(c, es[0], matches, s));
    }
  }

  lemma {:induction false} ScanKeeps(c: Policy, es: seq<Entry>, matches: Matcher, s: Progress)
    ensures var r := Scanned(c, es, matches, s);
            && (forall d :: d in s.todo ==> d in r.todo)
            && (forall e :: e in s.out ==> e in r.out)
  {
    if es != [] && s.visited < c.budget {
      ScanOne(c, es, matches, s);
      ReadMembers(c, es[0], matches, s);
      ScanKeeps(c, es[1..], matches, ReadOne(c, es[0], matches, s));
    }
  }

  /** A listing read to its end left no directory and no hit behind. */
  lemma {:induction false} ScanIsComplete(c: Policy, es: seq<Entry>, matches: Matcher, s: Progress, e: Entry)
    requires e in es
    requires !Scanned(c, es, matches, s).truncated && Uncut(c, Scanned(c, es, matches, s))
    ensures e.kind.Dir? ==> e.path in Scanned(c, es, matches, s).todo
    ensures Matching(e, matches) ==> e in Scanned(c, es, matches, s).out
  {
    var next := ReadOne(c, es[0], matches, s);
    assert s.visited < c.budget;
    ScanOne(c, es, matches, s);
    if e == es[0] {
      ScanKeeps(c, es[1..], matches, next);
    } else {
      ScanIsComplete(c, es[1..], matches, next, e);
    }
  }

  // ---- The whole walk ----

  ghost predicate SoundSoFar(ls: Lister, roots: seq<string>, matches: Matcher, s: Progress) {
    && (forall d :: d in s.todo ==> Reaches(ls, roots, d))
    && (forall e :: e in s.out ==> IsHit(ls, roots, matches, e))
  }

  lemma OpenIsSound(c: Policy, ls: Lister, roots: seq<string>, matches: Matcher, dir: string, s: Progress)
    requires SoundSoFar(ls, roots, matches, s) && Reaches(ls, roots, dir)
    ensures SoundSoFar(ls, roots, matches, Opened(c, ls, matches, dir, s))
  {
    if ls(dir).Some? {
      var es := ls(dir).value;
      ScanIsSound(c, es, matches, s);
      var r := Scanned(c, es, matches, s);
      forall e | e in r.out ensures IsHit(ls, roots, matches, e) {
        if e !in s.out { assert Lists(ls, dir, e); }
      }
      forall d | d in r.todo ensures Reaches(ls, roots, d) {
        if d !in s.todo {
          var e :| e in es && e.kind.Dir? && e.path == d;
          assert Lists(ls, dir, e);
          ReachesStep(ls, roots, dir, d);
        }
      }
    }
  }

  /** Every result is a matching file listed somewhere below the roots. */
  lemma {:induction false} WalkIsSound(c: Policy, ls: Lister, roots: seq<string>, matches: Matcher, s: Progress, e: Entry)
    requires SoundSoFar(ls, roots, matches, s)
    requires e in Walked(c, ls, matches, s).out
    ensures IsHit(ls, roots, matches, e)
    decreases if s.visited <= c.budget then c.budget + 1 - s.visited else 0, |s.todo|
  {
    if s.todo != [] && !Exhausted(c, s) {
      var taken := s.(todo := RestDirs(c, s.todo));
      var dir := NextDir(c, s.todo);
      OpenIsSound(c, ls, roots, matches, dir, taken);
      WalkIsSound(c, ls, roots, matches, Opened(c, ls, matches, dir, taken), e);
    }
  }

  /** `done` directories have been listed: what they hold is found or still to do. */
  ghost predicate CompleteSoFar(ls: Lister, roots: seq<string>, matches: Matcher, s: Progress, done: set<string>) {
    && (forall r :: r in roots ==> r in done || r in s.todo)
    && (forall d, k :: d in done && StepDown(ls, d, k) ==> k in done || k in s.todo)
    && (forall d, e :: d in done && Lists(ls, d, e) && Matching(e, matches) ==> e in s.out)
  }

  lemma OpenIsComplete(c: Policy, ls: Lister, roots: seq<string>, matches: Matcher, s: Progress, done: set<string>)
    requires s.todo != [] && CompleteSoFar(ls, roots, matches, s, done)
    requires var r := Opened(c, ls, matches, NextDir(c, s.todo), s.(todo := RestDirs(c, s.todo)));
             !r.truncated && Uncut(c, r)
    ensures var dir := NextDir(c, s.todo);
            CompleteSoFar(ls, roots, matches,
                          Opened(c, ls, matches, dir, s.(todo := RestDirs(c, s.todo))), done + {dir})
  {
    var dir, taken := NextDir(c, s.todo), s.(todo := RestDirs(c, s.todo));
    assert forall d :: d in s.todo ==> d == dir || d in taken.todo;
    if ls(dir).Some? {
      var es := ls(dir).value;
      var r := Scanned(c, es, matches, taken);
      ScanKeeps(c, es, matches, taken);
      forall k | StepDown(ls, dir, k) ensures k in r.todo {
        var e :| Lists(ls, dir, e) && e.kind.Dir? && e.path == k;
        ScanIsComplete(c, es, matches, taken, e);
      }
      forall e | Lists(ls, dir, e) && Matching(e, matches) ensures e in r.out {
        ScanIsComplete(c, es, matches, taken, e);
      }
    }
  }

  /** A walk that was neither truncated nor cut has found every matching file
      reachable from its roots. */
  lemma {:induction false} WalkIsComplete(
      c: Policy, ls: Lister, roots: seq<string>, matches: Matcher, s: Progress, done: set<string>, e: Entry)
    requires CompleteSoFar(ls, roots, matches, s, done)
    requires !Walked(c, ls, matches, s).truncated && Uncut(c, Walked(c, ls, matches, s))
    requires IsHit(ls, roots, matches, e)
    ensures e in Walked(c, ls, matches, s).out
    decreases if s.visited <= c.budget then c.budget + 1 - s.visited else 0, |s.todo|
  {
    if s.todo == [] {
      assert Closed(ls, roots, done);
      var d :| Reaches(ls, roots, d) && Lists(ls, d, e);
      ClosedHoldsReachable(ls, roots, done, d);
    } else {
      var dir := NextDir(c, s.todo);
      OpenIsComplete(c, ls, roots, matches, s, done);
      WalkIsComplete(c, ls, roots, matches,
                     Opened(c, ls, matches, dir, s.(todo := RestDirs(c, s.todo))), done + {dir}, e);
    }
  }

  /** `search_scope` over any listing source: its hits are exactly the matching
      files reachable from its roots, whenever it was not truncated and stayed
      under the result limit; what it returns is always among them. */
  lemma ScopeSearchIsExact(ls: Lister, roots: seq<string>, matches: Matcher, e: Entry)
    ensures var r := ScopeSearch(ls, roots, matches);
            var from := if roots == [] then [""] else roots;
            && (e in r.out ==> IsHit(ls, from, matches, e))
            && (!r.truncated && |r.out| < 200 && IsHit(ls, from, matches, e) ==> e in r.out)
            && (r.truncated ==> r.visited >= 20_000 || |r.out| == 200)
  {
    var from := if roots == [] then [""] else roots;
    var s := Progress(StartDirs(roots), [], 0, false);
    var r := Walked(SCOPED, ls, matches, s);
    forall d | d in s.todo ensures Reaches(ls, from, d) { ReachesRoot(ls, from, d); }
    if e in r.out { WalkIsSound(SCOPED, ls, from, matches, s, e); }
    if !r.truncated && |r.out| < SEARCH_MAX_RESULTS && IsHit(ls, from, matches, e) {
      WalkIsComplete(SCOPED, ls, from, matches, s, {}, e);
    }
  }

  // ---- The result limit ----

  /** The same walk without dropping hits inside a listing. */
  const UNCAPPED := Policy(SEARCH_VISIT_BUDGET, false, false)

  function UncappedSearch(ls: Lister, roots: seq<string>, matches: Matcher): Progress {
    Walked(UNCAPPED, ls, matches, Progress(StartDirs(roots), [], 0, false))
  }

  /** The first 200 of the hits. */
  function Cut(s: Progress): Progress {
    s.(out := FirstResults(s.out))
  }

  function FirstResults(out: seq<Entry>): seq<Entry> {
    if |out| <= SEARCH_MAX_RESULTS then out else out[..SEARCH_MAX_RESULTS]
  }

  lemma CutOneMore(out: seq<Entry>, e: Entry)
    ensures FirstResults(out + [e]) ==
            if |FirstResults(out)| < SEARCH_MAX_RESULTS then FirstResults(out) + [e] else FirstResults(out)
  {
    if |out| >= SEARCH_MAX_RESULTS { assert (out + [e])[..SEARCH_MAX_RESULTS] == out[..SEARCH_MAX_RESULTS]; }
  }

  lemma ReadCommutesWithCut(e: Entry, matches: Matcher, s: Progress)
    ensures ReadOne(SCOPED, e, matches, Cut(s)) == Cut(ReadOne(UNCAPPED, e, matches, s))
  {
    CutOneMore(s.out, e);
  }

  lemma {:induction false} ScanCommutesWithCut(es: seq<Entry>, matches: Matcher, s: Progress)
    ensures Scanned(SCOPED, es, matches, Cut(s)) == Cut(Scanned(UNCAPPED, es, matches, s))
  {
    if es != [] && s.visited < SEARCH_VISIT_BUDGET {
      ScanOne(UNCAPPED, es, matches, s);
      ScanOne(SCOPED, es, matches, Cut(s));
      ReadCommutesWithCut(es[0], matches, s);
      ScanCommutesWithCut(es[1..], matches, ReadOne(UNCAPPED, es[0], matches, s));
    }
  }

  lemma {:induction false} WalkCommutesWithCut(ls: Lister, matches: Matcher, s: Progress)
    ensures Walked(SCOPED, ls, matches, Cut(s)) == Cut(Walked(UNCAPPED, ls, matches, s))
    decreases if s.visited <= SEARCH_VISIT_BUDGET then SEARCH_VISIT_BUDGET + 1 - s.visited else 0, |s.todo|
  {
    if s.todo != [] && !Exhausted(UNCAPPED, s) {
      var taken := s.(todo := RestDirs(UNCAPPED, s.todo));
      var dir := NextDir(UNCAPPED, s.todo);
      if ls(dir).Some? { ScanCommutesWithCut(ls(dir).value, matches, taken); }
      assert Opened(SCOPED, ls, matches, dir, Cut(taken)) == Cut(Opened(UNCAPPED, ls, matches, dir, taken));
      WalkCommutesWithCut(ls, matches, Opened(UNCAPPED, ls, matches, dir, taken));
    }
  }

  /** What the result limit does, for every listing source: the answer is the
      uncapped walk cut to 200 hits with the same `truncated`, so nothing is cut
      exactly when there are at most 200; and an untruncated uncapped walk holds
      exactly the matching files reachable from the roots. */
  lemma ResultLimitIsExact(ls: Lister, roots: seq<string>, matches: Matcher)
    ensures var r, u := ScopeSearch(ls, roots, matches), UncappedSearch(ls, roots, matches);
            var from := if roots == [] then [""] else roots;
            && r.truncated == u.truncated && r.visited == u.visited && r.out == Cut(u).out
            && (r.out == u.out <==> |u.out| <= 200)
            && (!r.truncated ==> forall e :: e in u.out <==> IsHit(ls, from, matches, e))
  {
    var s := Progress(StartDirs(roots), [], 0, false);
    var u := Walked(UNCAPPED, ls, matches, s);
    var from := if roots == [] then [""] else roots;
    assert Cut(s) == s;
    WalkCommutesWithCut(ls, matches, s);
    if !u.truncated {
      forall d | d in s.todo ensures Reaches(ls, from, d) { ReachesRoot(ls, from, d); }
      forall e ensures e in u.out <==> IsHit(ls, from, matches, e) {
        if e in u.out { WalkIsSound(UNCAPPED, ls, from, matches, s, e); }
        if IsHit(ls, from, matches, e) { WalkIsComplete(UNCAPPED, ls, from, matches, s, {}, e); }
      }
    }
  }

  /** Every hit the limit dropped is also among the kept or the direct ones. */
  ghost predicate DropsOnlyRepeats(u: Progress, direct: seq<Entry>) {
    forall i :: SEARCH_MAX_RESULTS <= i < |u.out| ==> u.out[i] in u.out[..SEARCH_MAX_RESULTS] || u.out[i] in direct
  }

  lemma CutKeepsAllIff(u: Progress, direct: seq<Entry>)
    ensures (forall e :: e in u.out ==> e in direct + Cut(u).out) <==> DropsOnlyRepeats(u, direct)
  {
    assert forall i :: 0 <= i < |u.out| ==> u.out[i] in u.out;
    assert forall e :: e in direct + Cut(u).out <==> e in direct || e in Cut(u).out;
    if DropsOnlyRepeats(u, direct) {
      forall e | e in u.out ensures e in direct + Cut(u).out {
        var i :| 0 <= i < |u.out| && u.out[i] == e;
        if i < |Cut(u).out| { assert Cut(u).out[i] == e; }
      }
    }
  }

  // ---- A folder with more hits than the limit ----

  /** One folder and nothing below it. */
  function Flat(es: seq<Entry>): Lister {
    d => if d == "" then Some(es) else None
  }

  lemma {:induction false} FlatScan(es: seq<Entry>, matches: Matcher, s: Progress)
    requires (forall e :: e in es ==> Matching(e, matches)) && s.visited + |es| <= SEARCH_VISIT_BUDGET
    ensures Scanned(UNCAPPED, es, matches, s) == s.(visited := s.visited + |es|, out := s.out + es)
  {
    if es == [] {
      assert s.out + [] == s.out;
    } else {
      assert Matching(es[0], matches);
      ScanOne(UNCAPPED, es, matches, s);
      FlatScan(es[1..], matches, ReadOne(UNCAPPED, es[0], matches, s));
      assert s.out + [es[0]] + es[1..] == s.out + es;
    }
  }

  /** A folder of matching files within the visit budget: the first 200 are found
      and truncation is not reported. */
  lemma FlatFolderIsCut(es: seq<Entry>, matches: Matcher)
    requires (forall e :: e in es ==> Matching(e, matches)) && |es| <= SEARCH_VISIT_BUDGET
    ensures var r := ScopeSearch(Flat(es), [""], matches);
            !r.truncated && r.out == FirstResults(es)
  {
    ResultLimitIsExact(Flat(es), [""], matches);
    var start := Progress([], [], 0, false);
    assert StartDirs([""]) == [""];
    FlatScan(es, matches, start);
    assert [] + es == es;
    assert UncappedSearch(Flat(es), [""], matches)
           == Walked(UNCAPPED, Flat(es), matches, Opened(UNCAPPED, Flat(es), matches, "", start));
  }

  /** So every file after the 200th of such a folder is lost without a word. */
  lemma LimitIsSilent(es: seq<Entry>, matches: Matcher, i: nat)
    requires (forall e :: e in es ==> Matching(e, matches)) && 200 <= i < |es| <= 20_000
    requires forall j, k :: 0 <= j < k < |es| ==> es[j] != es[k]
    ensures var r := ScopeSearch(Flat(es), [""], matches);
            !r.truncated && IsHit(Flat(es), [""], matches, es[i]) && es[i] !in r.out
  {
    FlatFolderIsCut(es, matches);
    ReachesRoot(Flat(es), [""], "");
    assert es[i] in es && Lists(Flat(es), "", es[i]);
  }

  /** The handler answers `truncated: false` whatever happened. That is right, its
      walk having run to the end and no hit being missing, iff the walk without the
      cap runs to the end and drops only hits that are in the answer anyway. */
  lemma FalseFlagIsRightIff(ls: Lister, isFile: string -> bool, scope: seq<string>, matches: Matcher)
    ensures var roots, direct := SearchRoots(scope), DirectHits(scope, isFile, matches);
            var r, u := ScopeSearch(ls, roots, matches), UncappedSearch(ls, roots, matches);
            !r.truncated && (forall e :: IsHit(ls, roots, matches, e) ==> e in direct + r.out)
            <==> !u.truncated && DropsOnlyRepeats(u, direct)
  {
    var roots := SearchRoots(scope);
    assert scope != [] ==> scope[0] in roots;
    ResultLimitIsExact(ls, roots, matches);
    CutKeepsAllIff(UncappedSearch(ls, roots, matches), DirectHits(scope, isFile, matches));
  }

  // ---- The fallback ----

  lemma {:induction false} FirstIsSound(es: seq<Entry>, matches: Matcher, s: Progress)
    ensures var r := FirstListing(es, matches, s);
            && (forall e :: e in r.out ==> e in s.out || (e in es && Matching(e, matches)))
            && (forall d :: d in r.todo ==> d in s.todo || exists e :: e in es && e.kind.Dir? && e.path == d)
            && (forall d :: d in s.todo ==> d in r.todo)
  {
    if es != [] {
      var h, s1 := es[0], s.(visited := s.visited + 1);
      if h.kind.Dir? {
        assert forall d :: d in s.todo + [h.path] <==> d in s.todo || d == h.path;
        FirstIsSound(es[1..], matches, s1.(todo := s.todo + [h.path]));
      } else if matches(h.name) {
        assert forall x :: x in s.out + [h] <==> x in s.out || x == h;
        FirstIsSound(es[1..], matches, s1.(out := s.out + [h]));
      } else {
        FirstIsSound(es[1..], matches, s1);
      }
    }
  }

  lemma FallbackIsExact(ls: Lister, matches: Matcher, e: Entry)
    requires ls("").Some?
    ensures var r := FallbackSearch(ls, matches).value;
            && (e in r.out ==> IsHit(ls, [""], matches, e))
            && (!r.truncated && IsHit(ls, [""], matches, e) ==> e in r.out)
  {
    var es := ls("").value;
    var s := FirstListing(es, matches, Progress([""], [], 0, false));
    FirstIsSound(es, matches, Progress([""], [], 0, false));
    ReachesRoot(ls, [""], "");
    forall x | x in s.out ensures IsHit(ls, [""], matches, x) { assert Lists(ls, "", x); }
    forall d | d in s.todo ensures Reaches(ls, [""], d) {
      if d != "" {
        var k :| k in es && k.kind.Dir? && k.path == d;
        assert Lists(ls, "", k);
        ReachesStep(ls, [""], "", d);
      }
    }
    var r := Walked(FALLBACK, ls, matches, s);
    if e in r.out { WalkIsSound(FALLBACK, ls, [""], matches, s, e); }
    if !r.truncated && IsHit(ls, [""], matches, e) {
      WalkIsComplete(FALLBACK, ls, [""], matches, s, {}, e);
    }
  }

  lemma FallbackTruncatesAt(ls: Lister, matches: Matcher)
    requires ls("").Some?
    ensures var r := FallbackSearch(ls, matches).value;
            r.truncated ==> r.visited >= 1500 || |r.out| >= 200
  {
  }

  /** With folders left to open, the walks stop exactly at 200 results or when 20,000
      entries (1,500 for the fallback) have been visited. */
  lemma WalkStopsIff(ls: Lister, matches: Matcher, s: Progress)
    requires s.todo != [] && !s.truncated
    ensures s.visited >= 20_000 || |s.out| >= 200 ==> Walked(SCOPED, ls, matches, s) == s.(truncated := true)
    ensures s.visited < 20_000 && |s.out| < 200 ==>
            var last := |s.todo| - 1;
            Walked(SCOPED, ls, matches, s) ==
            Walked(SCOPED, ls, matches, Opened(SCOPED, ls, matches, s.todo[last], s.(todo := s.todo[..last])))
    ensures s.visited >= 1_500 || |s.out| >= 200 ==> Walked(FALLBACK, ls, matches, s) == s.(truncated := true)
    ensures s.visited < 1_500 && |s.out| < 200 ==>
            Walked(FALLBACK, ls, matches, s) ==
            Walked(FALLBACK, ls, matches, Opened(FALLBACK, ls, matches, s.todo[0], s.(todo := s.todo[1..])))
  {
  }

  // ---- The fallback finds shallow files first ----

  /** `depth` counts the levels of what `ls` lists: an entry is one level below its folder. */
  ghost predicate Layered(ls: Lister, depth: string -> nat) {
    depth("") == 0 && forall d, e :: Lists(ls, d, e) ==> depth(e.path) == depth(d) + 1
  }

  /** Folders wait in order of their depth, all within one level of `k`; results are
      in order and no deeper than the next level. */
  ghost predicate Level(s: Progress, depth: string -> nat, k: nat) {
    && (forall i :: 0 <= i < |s.todo| ==> k <= depth(s.todo[i]) <= k + 1)
    && (forall i, j :: 0 <= i <= j < |s.todo| ==> depth(s.todo[i]) <= depth(s.todo[j]))
    && (forall i :: 0 <= i < |s.out| ==> depth(s.out[i].path) <= k + 1)
    && ShallowFirst(s.out, depth)
  }

  ghost predicate ShallowFirst(out: seq<Entry>, depth: string -> nat) {
    forall i, j :: 0 <= i <= j < |out| ==> depth(out[i].path) <= depth(out[j].path)
  }

  lemma ReadKeepsLevel(c: Policy, e: Entry, matches: Matcher, s: Progress, depth: string -> nat, k: nat)
    requires Level(s, depth, k) && depth(e.path) == k + 1
    ensures Level(ReadOne(c, e, matches, s), depth, k)
  {
  }

  lemma {:induction false} ScanKeepsLevel(c: Policy, es: seq<Entry>, matches: Matcher, s: Progress, depth: string -> nat, k: nat)
    requires Level(s, depth, k) && forall e :: e in es ==> depth(e.path) == k + 1
    ensures Level(Scanned(c, es, matches, s), depth, k)
  {
    if es != [] && s.visited < c.budget {
      ScanOne(c, es, matches, s);
      ReadKeepsLevel(c, es[0], matches, s, depth, k);
      ScanKeepsLevel(c, es[1..], matches, ReadOne(c, es[0], matches, s), depth, k);
    }
  }

  lemma {:induction false} FirstKeepsLevel(es: seq<Entry>, matches: Matcher, s: Progress, depth: string -> nat)
    requires Level(s, depth, 0) && forall e :: e in es ==> depth(e.path) == 1
    ensures Level(FirstListing(es, matches, s), depth, 0)
  {
    if es != [] {
      var next := ReadOne(UNCAPPED, es[0], matches, s);
      ReadKeepsLevel(UNCAPPED, es[0], matches, s, depth, 0);
      assert FirstListing(es, matches, s) == FirstListing(es[1..], matches, next);
      FirstKeepsLevel(es[1..], matches, next, depth);
    }
  }

  lemma OpenKeepsLevel(ls: Lister, matches: Matcher, s: Progress, depth: string -> nat, k: nat)
    requires Layered(ls, depth) && Level(s, depth, k) && s.todo != []
    ensures Level(Opened(FALLBACK, ls, matches, s.todo[0], s.(todo := s.todo[1..])), depth, depth(s.todo[0]))
  {
    var dir, taken := s.todo[0], s.(todo := s.todo[1..]);
    assert Level(taken, depth, depth(dir));
    if ls(dir).Some? {
      forall e | e in ls(dir).value ensures depth(e.path) == depth(dir) + 1 { assert Lists(ls, dir, e); }
      ScanKeepsLevel(FALLBACK, ls(dir).value, matches, taken, depth, depth(dir));
    }
  }

  lemma {:induction false} WalkKeepsOrder(ls: Lister, matches: Matcher, s: Progress, depth: string -> nat, k: nat)
    requires Layered(ls, depth) && Level(s, depth, k)
    ensures ShallowFirst(Walked(FALLBACK, ls, matches, s).out, depth)
    decreases if s.visited <= FALLBACK.budget then FALLBACK.budget + 1 - s.visited else 0, |s.todo|
  {
    if s.todo != [] && !Exhausted(FALLBACK, s) {
      OpenKeepsLevel(ls, matches, s, depth, k);
      WalkKeepsOrder(ls, matches, Opened(FALLBACK, ls, matches, s.todo[0], s.(todo := s.todo[1..])), depth, depth(s.todo[0]));
    }
  }

  /** Breadth first: the fallback never shows a file before one that lies less deep. */
  lemma FallbackIsShallowFirst(ls: Lister, matches: Matcher, depth: string -> nat)
    requires Layered(ls, depth) && ls("").Some?
    ensures ShallowFirst(FallbackSearch(ls, matches).value.out, depth)
  {
    var es, start := ls("").value, Progress([""], [], 0, false);
    forall e | e in es ensures depth(e.path) == 1 { assert Lists(ls, "", e); }
    FirstKeepsLevel(es, matches, start, depth);
    WalkKeepsOrder(ls, matches, FirstListing(es, matches, start), depth, 0);
  }
}
