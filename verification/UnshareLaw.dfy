/** What unsharing one item does to the readable files, for every tree, scope and item. */
module UnshareLaw {
  import opened Options
  import opened Paths
  import opened ShareTree
  import opened Scope
  import opened Unshare

  ghost predicate IsChild(t: Tree, d: string, k: string) {
    exists e :: IsEntry(t, d, e) && e.path == k
  }

  /** Only real children are reported, but listings may be missing or incomplete. */
  ghost predicate Sound(t: Tree, children: Children) {
    && Descends(children)
    && forall d, k :: children(d).Some? && k in children(d).value ==> IsChild(t, d, k)
  }

  /** The root and every directory above `removed`: what the walk descends through. */
  predicate OnChain(removed: string, d: string) {
    d == "" || Within(removed, d)
  }

  /** Every directory above `removed` can be asked for its children. */
  ghost predicate Answers(removed: string, children: Children) {
    forall d :: OnChain(removed, d) ==> children(d).Some?
  }

  /** Every directory on the way down to `removed` reports all of its children
      except possibly the removed branch. */
  ghost predicate Complete(t: Tree, removed: string, children: Children) {
    && Answers(removed, children)
    && (forall d, e :: OnChain(removed, d) && IsEntry(t, d, e) && !AtOrUnder(e.path, removed) ==>
          children(d).Some? && e.path in children(d).value)
  }

  /** `file` is covered by an entry the owner listed strictly inside `removed`. */
  ghost predicate ListedInside(paths: seq<string>, removed: string, file: string) {
    exists p :: p in paths && Within(p, removed) && AtOrUnder(file, p)
  }

  /** The scope the grant ends up with. */
  ghost function After(paths: seq<string>, removed: string, children: Children): seq<string>
    requires Descends(children)
  {
    var next := Subtracted(paths, removed, children);
    if next.None? then paths else next.value
  }

  // ---- Membership in the collected lists ----

  ghost predicate Keeps(part: Option<seq<string>>, x: string) {
    part.Some? && x in part.value
  }

  lemma {:induction false} SurvivorsMembers(
      dir: string, kids: seq<string>, removed: string, children: Children, x: string)
    requires Descends(children) && forall k :: k in kids ==> |k| > |dir|
    ensures SurvivorsOf(dir, kids, removed, children).None? <==>
            exists k :: k in kids && SurvivorsOfOne(dir, k, removed, children).None?
    ensures Keeps(SurvivorsOf(dir, kids, removed, children), x) ==>
            exists k :: k in kids && Keeps(SurvivorsOfOne(dir, k, removed, children), x)
    ensures SurvivorsOf(dir, kids, removed, children).Some? ==>
            forall k :: k in kids && Keeps(SurvivorsOfOne(dir, k, removed, children), x) ==>
              Keeps(SurvivorsOf(dir, kids, removed, children), x)
  {
    if kids != [] {
      var head, tail := kids[0], kids[1..];
      SurvivorsMembers(dir, tail, removed, children, x);
      assert forall k :: k in kids <==> k == head || k in tail;
      var one := SurvivorsOfOne(dir, head, removed, children);
      var rest := SurvivorsOf(dir, tail, removed, children);
      var r := SurvivorsOf(dir, kids, removed, children);
      assert r == Glue(one, rest);
      assert r.Some? ==> (Keeps(r, x) <==> Keeps(one, x) || Keeps(rest, x));
    }
  }

  lemma {:induction false} RewrittenMembers(
      paths: seq<string>, removed: string, children: Children, x: string)
    requires Descends(children)
    ensures var r := Rewritten(paths, removed, children);
            && (r.None? <==> exists p :: p in paths && RewrittenOne(p, removed, children).None?)
            && (r.Some? ==>
                  (x in r.value <==> exists p :: p in paths && Keeps(RewrittenOne(p, removed, children), x)))
  {
    if paths != [] {
      RewrittenMembers(paths[1..], removed, children, x);
      assert forall p :: p in paths <==> p == paths[0] || p in paths[1..];
    }
  }

  // ---- The walk ----

  /** A child of a directory above `removed` that is neither `removed` nor above it
      shares nothing with the removed branch. */
  lemma SiblingIsSound(dir: string, name: string, removed: string, file: string)
    requires name != "" && '/' !in name && removed != "" && OnChain(removed, dir)
    requires !AtOrUnder(removed, Join(dir, name)) && AtOrUnder(file, Join(dir, name))
    ensures dir == "" || Within(file, dir)
    ensures !AtOrUnder(file, removed)
  {
    var k := Join(dir, name);
    JoinInside(dir, name);
    if dir != "" && file != k { WithinTransitive(file, k, dir); }
    if AtOrUnder(file, removed) {
      AncestorsAreComparable(file, removed, k);
      InsideJoin(dir, name, removed);
      assert false;
    }
  }

  /** A survivor lies inside `dir` and reaches nothing at or under `removed`. */
  lemma {:induction false} SurvivorsAreSound(
      t: Tree, dir: string, removed: string, children: Children, x: string, file: string)
    requires WellFormed(t) && Sound(t, children) && removed != "" && OnChain(removed, dir)
    requires Survivors(dir, removed, children).Some?
    requires x in Survivors(dir, removed, children).value && AtOrUnder(file, x)
    ensures dir == "" || Within(file, dir)
    ensures !AtOrUnder(file, removed)
    decreases |removed| - |dir|
  {
    var kids := children(dir).value;
    SurvivorsMembers(dir, kids, removed, children, x);
    var k :| k in kids && Keeps(SurvivorsOfOne(dir, k, removed, children), x);
    var e :| IsEntry(t, dir, e) && e.path == k;
    JoinInside(dir, e.name);
    if Within(removed, k) {
      SurvivorsAreSound(t, k, removed, children, x, file);
      if dir != "" { WithinTransitive(file, k, dir); }
    } else {
      SiblingIsSound(dir, e.name, removed, file);
    }
  }

  lemma {:induction false} SurvivorsExist(dir: string, removed: string, children: Children)
    requires Descends(children) && Answers(removed, children) && OnChain(removed, dir)
    ensures Survivors(dir, removed, children).Some?
    decreases |removed| - |dir|
  {
    var kids := children(dir).value;
    SurvivorsMembers(dir, kids, removed, children, "");
    forall k | k in kids ensures SurvivorsOfOne(dir, k, removed, children).Some? {
      if Within(removed, k) { SurvivorsExist(k, removed, children); }
    }
  }

  /** Every file below `dir` and outside the removed branch is kept by some survivor. */
  lemma {:induction false} SurvivorsAreComplete(
      t: Tree, dir: string, removed: string, children: Children, file: string)
    requires WellFormed(t) && Sound(t, children) && Complete(t, removed, children)
    requires IsNode(t, removed) && OnChain(removed, dir)
    requires IsFile(t, file) && (dir == "" || Within(file, dir)) && !AtOrUnder(file, removed)
    requires Survivors(dir, removed, children).Some?
    ensures Covered(Survivors(dir, removed, children).value, file)
    decreases |removed| - |dir|
  {
    var kids := children(dir).value;
    assert IsNode(t, file);
    var e := StepTowards(t, file, dir);
    var k := e.path;
    if AtOrUnder(k, removed) && k != removed && file != k { WithinTransitive(file, k, removed); }
    assert !AtOrUnder(k, removed);
    assert k in kids;
    SurvivorsExist(dir, removed, children);
    SurvivorsMembers(dir, kids, removed, children, k);
    if Within(removed, k) {
      if k == file { NothingUnderFile(t, file, removed); }
      SurvivorsExist(k, removed, children);
      SurvivorsAreComplete(t, k, removed, children, file);
      var x :| x in Survivors(k, removed, children).value && AtOrUnder(file, x);
      SurvivorsMembers(dir, kids, removed, children, x);
      assert Keeps(SurvivorsOfOne(dir, k, removed, children), x);
    } else {
      assert Keeps(SurvivorsOfOne(dir, k, removed, children), k);
    }
  }

  // ---- The whole scope ----

  lemma NoAccessCoversNothing(t: Tree, file: string)
    requires WellFormed(t) && IsNode(t, file)
    ensures !CanReadFile([NO_ACCESS], file)
  {
    NodeIsClean(t, file);
    assert file[0] in file && NO_ACCESS[0] == '\0';
  }

  /** An untouched scope did not cover the item, so the law holds of it as it stands. */
  lemma UncoveredLaw(paths: seq<string>, removed: string, file: string)
    requires paths != [] && !Covered(paths, removed)
    ensures Covered(paths, file) <==>
            (Covered(paths, file) && !AtOrUnder(file, removed)) || ListedInside(paths, removed, file)
  {
    if Covered(paths, file) && AtOrUnder(file, removed) {
      var p :| p in paths && AtOrUnder(file, p);
      AncestorsAreComparable(file, removed, p);
      assert ListedInside(paths, removed, file);
    }
  }

  lemma RewrittenIsSound(t: Tree, paths: seq<string>, removed: string, children: Children, file: string)
    requires WellFormed(t) && Sound(t, children) && removed != ""
    requires Rewritten(paths, removed, children).Some?
    requires Covered(Rewritten(paths, removed, children).value, file)
    ensures (Covered(paths, file) && !AtOrUnder(file, removed)) || ListedInside(paths, removed, file)
  {
    var out := Rewritten(paths, removed, children).value;
    var x :| x in out && AtOrUnder(file, x);
    RewrittenMembers(paths, removed, children, x);
    var p :| p in paths && Keeps(RewrittenOne(p, removed, children), x);
    if Within(removed, p) {
      SurvivorsAreSound(t, p, removed, children, x, file);
      assert AtOrUnder(file, p);
    } else if AtOrUnder(file, removed) {
      AncestorsAreComparable(file, removed, p);
    }
  }

  lemma RewrittenExists(paths: seq<string>, removed: string, children: Children)
    requires Descends(children) && Answers(removed, children)
    ensures Rewritten(paths, removed, children).Some?
  {
    RewrittenMembers(paths, removed, children, "");
    forall p | p in paths ensures RewrittenOne(p, removed, children).Some? {
      if Within(removed, p) { SurvivorsExist(p, removed, children); }
    }
  }

  /** With every directory answering, the scope is left alone exactly when it
      did not cover the item. */
  lemma SubtractedNoneIff(paths: seq<string>, removed: string, children: Children)
    requires Descends(children) && Answers(removed, children)
    ensures Subtracted(paths, removed, children).None? <==> paths != [] && !Covered(paths, removed)
    ensures Subtracted(paths, removed, children) != Some([])
  {
    if paths == [] { SurvivorsExist("", removed, children); } else { RewrittenExists(paths, removed, children); }
  }

  lemma RewrittenIsComplete(t: Tree, paths: seq<string>, removed: string, children: Children, file: string)
    requires WellFormed(t) && Sound(t, children) && Complete(t, removed, children)
    requires IsNode(t, removed) && IsFile(t, file)
    requires (Covered(paths, file) && !AtOrUnder(file, removed)) || ListedInside(paths, removed, file)
    requires Rewritten(paths, removed, children).Some?
    ensures Covered(Rewritten(paths, removed, children).value, file)
  {
    var p :| p in paths && AtOrUnder(file, p) && (Within(p, removed) || !AtOrUnder(file, removed));
    var x := p;
    if Within(removed, p) {
      if p == file {
        assert IsNode(t, file);
        NothingUnderFile(t, file, removed);
      }
      SurvivorsExist(p, removed, children);
      SurvivorsAreComplete(t, p, removed, children, file);
      x :| x in Survivors(p, removed, children).value && AtOrUnder(file, x);
    }
    assert Keeps(RewrittenOne(p, removed, children), x);
    RewrittenMembers(paths, removed, children, x);
  }

  /** Unsharing never widens a scope, whatever listings were missing or cut short. */
  lemma UnshareNeverWidens(t: Tree, paths: seq<string>, removed: string, children: Children, file: string)
    requires WellFormed(t) && Sound(t, children) && removed != "" && IsFile(t, file)
    requires Subtracted(paths, removed, children).Some?
    ensures var next := Subtracted(paths, removed, children).value;
            && next != []
            && (CanReadFile(next, file) ==>
                  (CanReadFile(paths, file) && !AtOrUnder(file, removed)) || ListedInside(paths, removed, file))
  {
    var next := Subtracted(paths, removed, children).value;
    assert IsNode(t, file);
    NoAccessCoversNothing(t, file);
    if CanReadFile(next, file) {
      if paths == [] {
        var x :| x in next && AtOrUnder(file, x);
        SurvivorsAreSound(t, "", removed, children, x, file);
      } else {
        assert Covered(Rewritten(paths, removed, children).value, file);
        RewrittenIsSound(t, paths, removed, children, file);
      }
    }
  }

  lemma CoveredLaw(t: Tree, paths: seq<string>, removed: string, children: Children, file: string)
    requires WellFormed(t) && IsNode(t, removed) && removed != "" && IsFile(t, file)
    requires Sound(t, children) && Complete(t, removed, children) && Covered(paths, removed)
    requires Subtracted(paths, removed, children).Some?
    ensures CanReadFile(After(paths, removed, children), file) <==>
            (CanReadFile(paths, file) && !AtOrUnder(file, removed)) || ListedInside(paths, removed, file)
  {
    UnshareNeverWidens(t, paths, removed, children, file);
    if (CanReadFile(paths, file) && !AtOrUnder(file, removed)) || ListedInside(paths, removed, file) {
      RewrittenIsComplete(t, paths, removed, children, file);
    }
  }

  /** The exact law of unsharing. */
  lemma UnshareIsExact(t: Tree, paths: seq<string>, removed: string, children: Children, file: string)
    requires WellFormed(t) && IsNode(t, removed) && IsFile(t, file)
    requires Sound(t, children) && Complete(t, removed, children)
    ensures Subtracted(paths, removed, children).None? <==> paths != [] && !Covered(paths, removed)
    ensures Subtracted(paths, removed, children) != Some([])
    ensures CanReadFile(After(paths, removed, children), file) <==>
            (CanReadFile(paths, file) && !AtOrUnder(file, removed)) || ListedInside(paths, removed, file)
  {
    NodeNotRoot(t, removed);
    assert IsNode(t, file);
    NoAccessCoversNothing(t, file);
    SubtractedNoneIff(paths, removed, children);
    if paths == [] {
      UnshareNeverWidens(t, paths, removed, children, file);
      if !AtOrUnder(file, removed) { SurvivorsAreComplete(t, "", removed, children, file); }
    } else if !Covered(paths, removed) {
      UncoveredLaw(paths, removed, file);
    } else {
      CoveredLaw(t, paths, removed, children, file);
    }
  }

  /** The item disappears completely exactly when no scope entry listed strictly
      inside it still holds a file. */
  lemma UnshareHidesItemIff(t: Tree, paths: seq<string>, removed: string, children: Children)
    requires WellFormed(t) && IsNode(t, removed) && Sound(t, children) && Complete(t, removed, children)
    ensures (forall file :: IsFile(t, file) && AtOrUnder(file, removed) ==>
               !CanReadFile(After(paths, removed, children), file))
            <==> (forall p, file :: p in paths && Within(p, removed) && IsFile(t, file) ==> !AtOrUnder(file, p))
  {
    forall file | IsFile(t, file)
      ensures CanReadFile(After(paths, removed, children), file) && AtOrUnder(file, removed)
              <==> ListedInside(paths, removed, file)
    {
      UnshareIsExact(t, paths, removed, children, file);
      if p :| p in paths && Within(p, removed) && AtOrUnder(file, p) {
        if file != p { WithinTransitive(file, p, removed); }
      }
    }
  }
}
