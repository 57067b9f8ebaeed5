/** Sharing one item changes exactly that item's subtree, for every grantee. */
module ShareItemLaw {
  import opened Options
  import opened Paths
  import opened ShareTree
  import opened Scope
  import opened Unshare
  import opened UnshareLaw
  import opened Grants
  import opened ShareItem

  /** `list` reads from the tree, and may fail anywhere. */
  ghost predicate ReadsFrom(t: Tree, list: Lister) {
    forall d :: list(d).Some? ==> d in t && list(d).value == t[d]
  }

  /** Every directory above `path` can be listed. */
  ghost predicate ListsChain(path: string, list: Lister) {
    forall d :: OnChain(path, d) ==> list(d).Some?
  }

  lemma TreeBuildsPaths(t: Tree, list: Lister)
    requires WellFormed(t) && ReadsFrom(t, list)
    ensures BuildsPaths(list)
  {
    forall d, e | list(d).Some? && e in list(d).value
      ensures RealName(e.name) && e.path == Join(d, e.name)
    {
      assert IsEntry(t, d, e);
    }
  }

  lemma FetchedIsSound(t: Tree, path: string, list: Lister)
    requires WellFormed(t) && ReadsFrom(t, list)
    ensures BuildsPaths(list) && Sound(t, Lookup(Fetched(path, list)))
  {
    TreeBuildsPaths(t, list);
    FetchedDescends(path, list);
    var children := Lookup(Fetched(path, list));
    forall d, k | children(d).Some? && k in children(d).value ensures IsChild(t, d, k) {
      var e :| list(d).Some? && e in list(d).value && e.path == k;
      assert IsEntry(t, d, e);
    }
  }

  /** The walk asks for the root and for the directories above the item. All of
      them were enumerated, except when the path ends in a slash: then its last
      ancestor was missed. */
  lemma ChainIsEnumeratedIff(path: string)
    ensures (forall d :: OnChain(path, d) ==> d in ChainDirs(path))
            <==> !(|path| >= 2 && path[|path| - 1] == '/')
  {
    if |path| >= 2 && path[|path| - 1] == '/' {
      MissedByTrailingSlash(path);
    } else {
      forall d | OnChain(path, d) ensures d in ChainDirs(path) {
        if d != "" {
          assert path[|d|] == '/' && d == path[..|d|];
        }
      }
    }
  }

  lemma MissedByTrailingSlash(path: string)
    requires |path| >= 2 && path[|path| - 1] == '/'
    ensures var d := path[..|path| - 1]; Within(path, d) && d !in ChainDirs(path)
  {
    var d := path[..|path| - 1];
    forall i | 0 <= i < |path| && path[i] == '/' && i + 1 < |path| ensures path[..i] != d {
      assert |path[..i]| == i;
    }
  }

  /** Every directory above both the item and `file`, from `dir` down, was listed. */
  ghost predicate ListedDown(list: Lister, path: string, dir: string, file: string) {
    forall d :: OnChain(path, d) && OnChain(file, d) && (dir == "" || AtOrUnder(d, dir)) ==> list(d).Some?
  }

  lemma FetchedAnswers(t: Tree, path: string, list: Lister)
    requires WellFormed(t) && ReadsFrom(t, list) && IsNode(t, path)
    ensures BuildsPaths(list) && Sound(t, Lookup(Fetched(path, list))) && Answers(path, Lookup(Fetched(path, list)))
    ensures forall d :: OnChain(path, d) ==> Lookup(Fetched(path, list))(d) == Some(KidsOutside(list, d, path))
  {
    FetchedIsSound(t, path, list);
    NodeIsClean(t, path);
    ChainIsEnumeratedIff(path);
  }

  /** Nothing lies between a directory and its child. */
  lemma NoDirBetween(dir: string, name: string, d: string)
    requires RealName(name) && d != "" && (dir == "" || Within(d, dir))
    ensures !Within(Join(dir, name), d)
  {
    if Within(Join(dir, name), d) {
      InsideJoin(dir, name, d);
      assert false;
    }
  }

  /** A file outside the item survives the walk if its way down was listed. */
  lemma {:induction false} ListedFileSurvives(t: Tree, dir: string, path: string, list: Lister, file: string)
    requires WellFormed(t) && ReadsFrom(t, list) && IsNode(t, path) && OnChain(path, dir)
    requires IsFile(t, file) && OnChain(file, dir) && !AtOrUnder(file, path) && ListedDown(list, path, dir, file)
    requires Descends(Lookup(Fetched(path, list))) && Survivors(dir, path, Lookup(Fetched(path, list))).Some?
    ensures Covered(Survivors(dir, path, Lookup(Fetched(path, list))).value, file)
    decreases |path| - |dir|
  {
    var children := Lookup(Fetched(path, list));
    FetchedAnswers(t, path, list);
    assert IsNode(t, file) && list(dir).Some?;
    var e := StepTowards(t, file, dir);
    var k := e.path;
    if AtOrUnder(k, path) && k != path && file != k { WithinTransitive(file, k, path); }
    var kids := KidsOutside(list, dir, path);
    assert e in list(dir).value && k in kids;
    var x := k;
    if Within(path, k) {
      if k == file { NothingUnderFile(t, file, path); }
      JoinInside(dir, e.name);
      forall d | OnChain(path, d) && OnChain(file, d) && AtOrUnder(d, k) ensures list(d).Some? {
        if dir != "" && d != k { WithinTransitive(d, k, dir); }
      }
      SurvivorsExist(k, path, children);
      ListedFileSurvives(t, k, path, list, file);
      x :| x in Survivors(k, path, children).value && AtOrUnder(file, x);
    }
    assert Keeps(SurvivorsOfOne(dir, k, path, children), x);
    SurvivorsMembers(dir, kids, path, children, x);
  }

  /** The child of `dir` that a survivor comes from. */
  lemma SurvivorsChild(t: Tree, dir: string, path: string, list: Lister, x: string) returns (name: string)
    requires WellFormed(t) && ReadsFrom(t, list) && IsNode(t, path) && OnChain(path, dir)
    requires Descends(Lookup(Fetched(path, list))) && Survivors(dir, path, Lookup(Fetched(path, list))).Some?
    requires x in Survivors(dir, path, Lookup(Fetched(path, list))).value
    ensures list(dir).Some? && RealName(name) && |Join(dir, name)| > |dir|
    ensures Keeps(SurvivorsOfOne(dir, Join(dir, name), path, Lookup(Fetched(path, list))), x)
  {
    var children := Lookup(Fetched(path, list));
    FetchedAnswers(t, path, list);
    var kids := KidsOutside(list, dir, path);
    SurvivorsMembers(dir, kids, path, children, x);
    var k :| k in kids && Keeps(SurvivorsOfOne(dir, k, path, children), x);
    var e :| e in list(dir).value && e.path == k;
    assert IsEntry(t, dir, e);
    JoinInside(dir, e.name);
    name := e.name;
  }

  /** Below a child off the item's branch, no folder but `dir` is above both. */
  lemma OnlyDirIsShared(dir: string, name: string, path: string, file: string, d: string)
    requires RealName(name) && !AtOrUnder(path, Join(dir, name)) && AtOrUnder(file, Join(dir, name))
    requires OnChain(path, d) && OnChain(file, d) && (dir == "" || AtOrUnder(d, dir))
    ensures d == dir
  {
    var k := Join(dir, name);
    if d != dir {
      NoDirBetween(dir, name, d);
      AncestorsAreComparable(file, d, k);
      if d != k { WithinTransitive(path, d, k); }
      assert false;
    }
  }

  /** Below a child on the item's branch, every other folder above both is at or under it. */
  lemma SharedIsBelowChild(dir: string, name: string, path: string, file: string, d: string)
    requires RealName(name) && Within(file, Join(dir, name)) && d != dir
    requires OnChain(path, d) && OnChain(file, d) && (dir == "" || AtOrUnder(d, dir))
    ensures AtOrUnder(d, Join(dir, name))
  {
    NoDirBetween(dir, name, d);
    AncestorsAreComparable(file, d, Join(dir, name));
  }

  /** And only then. */
  lemma {:induction false} SurvivingFileWasListed(
      t: Tree, dir: string, path: string, list: Lister, file: string, x: string, d: string)
    requires WellFormed(t) && ReadsFrom(t, list) && IsNode(t, path) && OnChain(path, dir)
    requires Descends(Lookup(Fetched(path, list))) && Survivors(dir, path, Lookup(Fetched(path, list))).Some?
    requires x in Survivors(dir, path, Lookup(Fetched(path, list))).value && AtOrUnder(file, x)
    requires OnChain(path, d) && OnChain(file, d) && (dir == "" || AtOrUnder(d, dir))
    ensures list(d).Some?
    decreases |path| - |dir|
  {
    var children := Lookup(Fetched(path, list));
    var name := SurvivorsChild(t, dir, path, list, x);
    var k := Join(dir, name);
    if d != dir {
      if Within(path, k) {
        NodeNotRoot(t, path);
        FetchedIsSound(t, path, list);
        SurvivorsAreSound(t, k, path, children, x, file);
        SharedIsBelowChild(dir, name, path, file, d);
        SurvivingFileWasListed(t, k, path, list, file, x, d);
      } else {
        OnlyDirIsShared(dir, name, path, file, d);
      }
    }
  }

  lemma WalkKeepsIff(t: Tree, dir: string, path: string, list: Lister, file: string)
    requires WellFormed(t) && ReadsFrom(t, list) && IsNode(t, path) && OnChain(path, dir)
    requires IsFile(t, file) && OnChain(file, dir) && !AtOrUnder(file, path)
    requires Descends(Lookup(Fetched(path, list))) && Survivors(dir, path, Lookup(Fetched(path, list))).Some?
    ensures Covered(Survivors(dir, path, Lookup(Fetched(path, list))).value, file) <==> ListedDown(list, path, dir, file)
  {
    var out := Survivors(dir, path, Lookup(Fetched(path, list))).value;
    if Covered(out, file) {
      var x :| x in out && AtOrUnder(file, x);
      forall d | OnChain(path, d) && OnChain(file, d) && (dir == "" || AtOrUnder(d, dir)) ensures list(d).Some? {
        SurvivingFileWasListed(t, dir, path, list, file, x, d);
      }
    }
    if ListedDown(list, path, dir, file) { ListedFileSurvives(t, dir, path, list, file); }
  }

  /** Selecting a grantee adds exactly the item's subtree to what it may read. */
  lemma SelectionIsExact(g: Grant, path: string, selected: seq<string>, list: Lister, file: string)
    requires BuildsPaths(list) && g.fingerprint in selected
    ensures CanReadFile(Rescoped(g, path, selected, list), file) <==>
            CanReadFile(g.paths, file) || AtOrUnder(file, path)
  {
    if g.paths != [] {
      if Covered(g.paths, path) {
        var p :| p in g.paths && AtOrUnder(path, p);
        if Within(file, path) && path != p { WithinTransitive(file, path, p); }
      } else {
        assert path in g.paths + [path];
        assert forall p :: p in g.paths ==> p in g.paths + [path];
      }
    }
  }

  /** What one entry of a deselected scope still covers. */
  ghost predicate EntryKeeps(p: string, path: string, list: Lister, file: string) {
    && AtOrUnder(file, p) && p != path
    && (Within(path, p) ==> !AtOrUnder(file, path) && ListedDown(list, path, p, file))
  }

  /** What a deselected grantee may read afterwards, whichever listings fail. */
  ghost predicate StaysReadable(paths: seq<string>, path: string, list: Lister, file: string) {
    if paths == [] then !AtOrUnder(file, path) && ListedDown(list, path, "", file)
    else exists p :: p in paths && EntryKeeps(p, path, list, file)
  }

  lemma EntryKeepsIff(t: Tree, p: string, path: string, list: Lister, file: string)
    requires WellFormed(t) && ReadsFrom(t, list) && IsNode(t, path) && IsFile(t, file)
    requires Descends(Lookup(Fetched(path, list)))
    requires RewrittenOne(p, path, Lookup(Fetched(path, list))).Some?
    ensures Covered(RewrittenOne(p, path, Lookup(Fetched(path, list))).value, file) <==> EntryKeeps(p, path, list, file)
  {
    var children := Lookup(Fetched(path, list));
    var out := RewrittenOne(p, path, children).value;
    if Within(path, p) {
      FetchedAnswers(t, path, list);
      NodeNotRoot(t, path);
      if x :| x in out && AtOrUnder(file, x) { SurvivorsAreSound(t, p, path, children, x, file); }
      if p == file {
        assert IsNode(t, file);
        NothingUnderFile(t, file, path);
      } else if AtOrUnder(file, p) && !AtOrUnder(file, path) {
        WalkKeepsIff(t, p, path, list, file);
      }
    } else if p != path {
      assert out == [p];
    }
  }

  lemma RewrittenKeepsIff(t: Tree, paths: seq<string>, path: string, list: Lister, file: string)
    requires WellFormed(t) && ReadsFrom(t, list) && IsNode(t, path) && IsFile(t, file)
    requires Descends(Lookup(Fetched(path, list))) && Rewritten(paths, path, Lookup(Fetched(path, list))).Some?
    ensures Covered(Rewritten(paths, path, Lookup(Fetched(path, list))).value, file) <==>
            exists p :: p in paths && EntryKeeps(p, path, list, file)
  {
    var children := Lookup(Fetched(path, list));
    var out := Rewritten(paths, path, children).value;
    RewrittenMembers(paths, path, children, "");
    forall p | p in paths
      ensures Covered(RewrittenOne(p, path, children).value, file) <==> EntryKeeps(p, path, list, file)
    {
      EntryKeepsIff(t, p, path, list, file);
    }
    if x :| x in out && AtOrUnder(file, x) {
      RewrittenMembers(paths, path, children, x);
      var p :| p in paths && Keeps(RewrittenOne(p, path, children), x);
      assert Covered(RewrittenOne(p, path, children).value, file);
    }
    if p :| p in paths && EntryKeeps(p, path, list, file) {
      var x :| x in RewrittenOne(p, path, children).value && AtOrUnder(file, x);
      RewrittenMembers(paths, path, children, x);
      assert Keeps(RewrittenOne(p, path, children), x);
    }
  }

  lemma FullScopeKeepsIff(t: Tree, path: string, list: Lister, file: string)
    requires WellFormed(t) && ReadsFrom(t, list) && IsNode(t, path) && IsFile(t, file)
    requires Descends(Lookup(Fetched(path, list))) && Survivors("", path, Lookup(Fetched(path, list))).Some?
    ensures Covered(Survivors("", path, Lookup(Fetched(path, list))).value, file) <==> StaysReadable([], path, list, file)
  {
    var children := Lookup(Fetched(path, list));
    if AtOrUnder(file, path) {
      if x :| x in Survivors("", path, children).value && AtOrUnder(file, x) {
        NodeNotRoot(t, path);
        FetchedIsSound(t, path, list);
        SurvivorsAreSound(t, "", path, children, x, file);
      }
    } else {
      WalkKeepsIff(t, "", path, list, file);
    }
  }

  /** The rewritten scope, with the sentinel standing for the empty list. */
  lemma SentinelReadsNothing(t: Tree, out: seq<string>, file: string)
    requires WellFormed(t) && IsNode(t, file)
    ensures CanReadFile(NeverEmpty(out), file) <==> Covered(out, file)
  {
    NoAccessCoversNothing(t, file);
  }

  lemma CoveredScopeKeepsIff(t: Tree, paths: seq<string>, path: string, list: Lister, file: string, out: seq<string>)
    requires WellFormed(t) && ReadsFrom(t, list) && IsNode(t, path) && IsFile(t, file) && paths != []
    requires Descends(Lookup(Fetched(path, list))) && Rewritten(paths, path, Lookup(Fetched(path, list))) == Some(out)
    ensures CanReadFile(NeverEmpty(out), file) <==> StaysReadable(paths, path, list, file)
  {
    RewrittenKeepsIff(t, paths, path, list, file);
    assert IsNode(t, file);
    SentinelReadsNothing(t, out, file);
  }

  lemma AfterUncoveredScope(paths: seq<string>, path: string, list: Lister, file: string)
    requires paths != [] && !Covered(paths, path)
    ensures CanReadFile(paths, file) <==> StaysReadable(paths, path, list, file)
  {
    assert forall p :: p in paths ==> (EntryKeeps(p, path, list, file) <==> AtOrUnder(file, p));
  }

  /** Unsharing with any listings failing, exactly: a failed listing reads as an
      empty folder, so a file outside the item stays readable iff every folder
      above both of them that the walk expands was listed. */
  lemma DeselectionIsExact(t: Tree, g: Grant, path: string, selected: seq<string>, list: Lister, file: string)
    requires WellFormed(t) && ReadsFrom(t, list) && BuildsPaths(list)
    requires IsNode(t, path) && IsFile(t, file) && g.fingerprint !in selected
    ensures CanReadFile(Rescoped(g, path, selected, list), file) <==> StaysReadable(g.paths, path, list, file)
    ensures Rescoped(g, path, selected, list) != []
  {
    var children := Lookup(Fetched(path, list));
    FetchedAnswers(t, path, list);
    SubtractedNoneIff(g.paths, path, children);
    assert IsNode(t, file);
    if g.paths == [] {
      FullScopeKeepsIff(t, path, list, file);
      SentinelReadsNothing(t, Survivors("", path, children).value, file);
    } else if Covered(g.paths, path) {
      RewrittenExists(g.paths, path, children);
      CoveredScopeKeepsIff(t, g.paths, path, list, file, Rewritten(g.paths, path, children).value);
    } else {
      AfterUncoveredScope(g.paths, path, list, file);
    }
  }

  /** Share-item is exact and framed when the listings succeed: a selected grantee
      gains the item's subtree, a deselected one follows the law of unsharing, and
      no file outside the subtree changes hands for anyone. */
  lemma ShareItemIsExact(t: Tree, g: Grant, path: string, selected: seq<string>, list: Lister, file: string)
    requires WellFormed(t) && ReadsFrom(t, list) && BuildsPaths(list)
    requires IsNode(t, path) && ListsChain(path, list) && IsFile(t, file)
    ensures CanReadFile(Rescoped(g, path, selected, list), file) <==>
            if g.fingerprint in selected then CanReadFile(g.paths, file) || AtOrUnder(file, path)
            else (CanReadFile(g.paths, file) && !AtOrUnder(file, path)) || ListedInside(g.paths, path, file)
    ensures !AtOrUnder(file, path) ==>
            (CanReadFile(Rescoped(g, path, selected, list), file) <==> CanReadFile(g.paths, file))
    ensures g.fingerprint !in selected ==> Rescoped(g, path, selected, list) != []
  {
    if g.fingerprint in selected {
      SelectionIsExact(g, path, selected, list, file);
    } else {
      DeselectionIsExact(t, g, path, selected, list, file);
      forall p | p in g.paths
        ensures EntryKeeps(p, path, list, file) <==>
                AtOrUnder(file, p) && (!AtOrUnder(file, path) || Within(p, path))
      {
        if AtOrUnder(file, p) && AtOrUnder(file, path) { AncestorsAreComparable(file, path, p); }
      }
      if p :| p in g.paths && Within(p, path) && AtOrUnder(file, p) {
        if file != p { WithinTransitive(file, p, path); }
      }
    }
  }

  /** When listings fail a deselected grantee may lose more than the item, but
      gains nothing and keeps no way to it that was not listed inside it. */
  lemma FailedListingsNeverWiden(t: Tree, g: Grant, path: string, selected: seq<string>, list: Lister, file: string)
    requires WellFormed(t) && ReadsFrom(t, list) && BuildsPaths(list)
    requires IsNode(t, path) && IsFile(t, file) && g.fingerprint !in selected
    requires CanReadFile(Rescoped(g, path, selected, list), file)
    ensures (CanReadFile(g.paths, file) && !AtOrUnder(file, path)) || ListedInside(g.paths, path, file)
  {
    DeselectionIsExact(t, g, path, selected, list, file);
    if g.paths != [] {
      var p :| p in g.paths && EntryKeeps(p, path, list, file);
      if AtOrUnder(file, path) { AncestorsAreComparable(file, path, p); }
    }
  }

  /** A share with files a and b: failing to list it while unsharing a takes b as well. */
  lemma SiblingIsLost(g: Grant, selected: seq<string>)
    requires g.fingerprint !in selected && g.paths == []
    ensures var t := map["" := [Entry("a", "a", File), Entry("b", "b", File)]];
            var list: Lister := d => None;
            && WellFormed(t) && IsNode(t, "a") && IsFile(t, "b") && ReadsFrom(t, list) && BuildsPaths(list)
            && CanReadFile(g.paths, "b") && !CanReadFile(Rescoped(g, "a", selected, list), "b")
  {
    var a, b := Entry("a", "a", File), Entry("b", "b", File);
    var t: Tree := map["" := [a, b]];
    assert IsEntry(t, "", a) && IsEntry(t, "", b);
    assert forall d, e :: IsEntry(t, d, e) ==> d == "" && (e == a || e == b);
    var list: Lister := d => None;
    DeselectionIsExact(t, g, "a", selected, list, "b");
    assert OnChain("a", "") && OnChain("b", "");
  }

  // ---- A trailing slash on the request ----

  /** Above `node` the walk always finds the next directory to descend into. */
  lemma SlashStep(t: Tree, dir: string, node: string, list: Lister) returns (k: string)
    requires WellFormed(t) && ReadsFrom(t, list) && IsNode(t, node) && ListsChain(node, list)
    requires dir == "" || Within(node, dir)
    ensures k in KidsOutside(list, dir, node + "/") && Within(node + "/", k) && |dir| < |k| <= |node|
  {
    var path := node + "/";
    var e := StepTowards(t, node, dir);
    JoinInside(dir, e.name);
    k := e.path;
    assert path[..|k|] == node[..|k|] == k;
    assert e in list(dir).value;
  }

  lemma BelowSlashed(node: string, dir: string)
    requires OnChain(node + "/", dir) && dir != node
    ensures OnChain(node, dir)
  {
    var path := node + "/";
    if dir != "" {
      assert dir == path[..|dir|] == node[..|dir|];
      assert path[|dir|] == node[|dir|];
    }
  }

  lemma {:induction false} TrailingSlashStopsWalk(t: Tree, dir: string, node: string, list: Lister)
    requires WellFormed(t) && ReadsFrom(t, list) && BuildsPaths(list)
    requires IsNode(t, node) && ListsChain(node, list) && OnChain(node + "/", dir)
    requires Descends(Lookup(Fetched(node + "/", list)))
    ensures Survivors(dir, node + "/", Lookup(Fetched(node + "/", list))).None?
    decreases |node| - |dir|
  {
    var path := node + "/";
    var children := Lookup(Fetched(path, list));
    NodeNotRoot(t, node);
    if dir == node {
      MissedByTrailingSlash(path);
      assert path[..|path| - 1] == node;
    } else if children(dir).Some? {
      BelowSlashed(node, dir);
      var k := SlashStep(t, dir, node, list);
      TrailingSlashStopsWalk(t, k, node, list);
      SurvivorsMembers(dir, children(dir).value, path, children, "");
      assert SurvivorsOfOne(dir, k, path, children).None?;
    }
  }

  /** Unsharing "folder/" instead of "folder" changes a scope only by dropping
      that very spelling from it, and only if no folder above is granted; in
      every other case nothing is unshared. */
  lemma TrailingSlashUnsharesNothing(t: Tree, g: Grant, node: string, selected: seq<string>, list: Lister)
    requires WellFormed(t) && ReadsFrom(t, list) && BuildsPaths(list)
    requires IsNode(t, node) && ListsChain(node, list) && g.fingerprint !in selected
    ensures Rescoped(g, node + "/", selected, list) != g.paths <==>
            node + "/" in g.paths && forall p :: p in g.paths ==> !Within(node + "/", p)
  {
    var path := node + "/";
    FetchedDescends(path, list);
    var children := Lookup(Fetched(path, list));
    if g.paths == [] {
      TrailingSlashStopsWalk(t, "", node, list);
    } else if p :| p in g.paths && Within(path, p) {
      TrailingSlashStopsWalk(t, p, node, list);
      RewrittenMembers(g.paths, path, children, "");
      assert RewrittenOne(p, path, children).None?;
    } else {
      SpellingIsDropped(g.paths, path, children);
    }
  }

  /** Where no folder above is granted, only the exact spelling can be dropped. */
  lemma SpellingIsDropped(paths: seq<string>, path: string, children: Children)
    requires Descends(children) && paths != [] && forall p :: p in paths ==> !Within(path, p)
    requires path != "" && path[|path| - 1] == '/'
    ensures After(paths, path, children) != paths <==> path in paths
  {
    RewrittenMembers(paths, path, children, path);
    var r := Rewritten(paths, path, children);
    assert r.Some? && path !in r.value;
    assert path != NO_ACCESS;
  }
}
