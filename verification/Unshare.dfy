/** Taking one item out of a grant's scope (`subtract_from_scope`). */
module Unshare {
  import opened Options
  import opened Paths
  import opened Scope

  /** The scope that covers nothing; no real path contains NUL. */
  const NO_ACCESS := "\0none"

  /** Where the walk gets surviving children from; None when unavailable. */
  type Children = string -> Option<seq<string>>

  /** Children are reported by paths longer than their directory's. */
  ghost predicate Descends(children: Children) {
    forall d, k :: children(d).Some? && k in children(d).value ==> |k| > |d|
  }

  // ---- What the two loops compute ----

  /** Both parts in order, or None when either is missing. */
  function Glue(a: Option<seq<string>>, b: Option<seq<string>>): Option<seq<string>> {
    if a.None? || b.None? then None else Some(a.value + b.value)
  }

  lemma GlueLaws(a: seq<string>, b: Option<seq<string>>, c: Option<seq<string>>)
    ensures Glue(Some([]), c) == c && Glue(Some(a), Some([])) == Some(a)
    ensures Glue(Some(a), Glue(b, c)) == Glue(Glue(Some(a), b), c)
  {
    if c.Some? {
      assert [] + c.value == c.value;
      if b.Some? { assert a + (b.value + c.value) == (a + b.value) + c.value; }
    }
    assert a + [] == a;
  }

  /** Survivors below `dir` once `removed` is gone. */
  ghost function Survivors(dir: string, removed: string, children: Children): Option<seq<string>>
    requires Descends(children)
    decreases |removed| - |dir|, 1, 0
  {
    if children(dir).None? then None
    else SurvivorsOf(dir, children(dir).value, removed, children)
  }

  ghost function SurvivorsOf(
      dir: string, kids: seq<string>, removed: string, children: Children): Option<seq<string>>
    requires Descends(children)
    requires forall k :: k in kids ==> |k| > |dir|
    decreases |removed| - |dir|, 0, |kids|
  {
    if kids == [] then Some([])
    else Glue(SurvivorsOfOne(dir, kids[0], removed, children),
              SurvivorsOf(dir, kids[1..], removed, children))
  }

  ghost function SurvivorsOfOne(
      dir: string, k: string, removed: string, children: Children): Option<seq<string>>
    requires Descends(children) && |k| > |dir|
    decreases |removed| - |dir|, 0, 0
  {
    if k == removed then Some([])
    else if Within(removed, k) then Survivors(k, removed, children)
    else Some([k])
  }

  ghost function RewrittenOne(p: string, removed: string, children: Children): Option<seq<string>>
    requires Descends(children)
  {
    if p == removed then Some([])
    else if p != "" && Within(removed, p) then Survivors(p, removed, children)
    else Some([p])
  }

  /** The rewritten entries of a non-empty scope. */
  ghost function Rewritten(paths: seq<string>, removed: string, children: Children): Option<seq<string>>
    requires Descends(children)
  {
    if paths == [] then Some([])
    else Glue(RewrittenOne(paths[0], removed, children), Rewritten(paths[1..], removed, children))
  }

  /** The empty list would mean full access. */
  function NeverEmpty(out: seq<string>): seq<string> {
    if out == [] then [NO_ACCESS] else out
  }

  ghost function Subtracted(paths: seq<string>, removed: string, children: Children): Option<seq<string>>
    requires Descends(children)
  {
    var out := if paths == [] then Survivors("", removed, children)
               else if !Covered(paths, removed) then None
               else Rewritten(paths, removed, children);
    if out.None? then None else Some(NeverEmpty(out.value))
  }

  // ---- The code ----

  lemma SurvivorsNext(out: seq<string>, dir: string, kids: seq<string>, removed: string, children: Children)
    requires Descends(children) && kids != [] && forall k :: k in kids ==> |k| > |dir|
    ensures var one := SurvivorsOfOne(dir, kids[0], removed, children);
            Glue(Some(out), SurvivorsOf(dir, kids, removed, children)) ==
            if one.None? then None else Glue(Some(out + one.value), SurvivorsOf(dir, kids[1..], removed, children))
  {
    GlueLaws(out, SurvivorsOfOne(dir, kids[0], removed, children), SurvivorsOf(dir, kids[1..], removed, children));
  }

  method Walk(dir: string, removed: string, children: Children) returns (r: Option<seq<string>>)
    requires Descends(children)
    ensures r == Survivors(dir, removed, children)
    decreases |removed| - |dir|
  {
    if children(dir).None? { return None; }
    var kids := children(dir).value;
    var out := [];
    var i := 0;
    assert kids[0..] == kids;
    GlueLaws([], None, SurvivorsOf(dir, kids, removed, children));
    while i < |kids|
      invariant i <= |kids|
      invariant Glue(Some(out), SurvivorsOf(dir, kids[i..], removed, children))
                == SurvivorsOf(dir, kids, removed, children)
    {
      var k := kids[i];
      SurvivorsNext(out, dir, kids[i..], removed, children);
      assert kids[i..][0] == k && kids[i..][1..] == kids[i + 1..];
      if k == removed {
        assert out + [] == out;
      } else if Within(removed, k) {
        var below := Walk(k, removed, children);
        if below.None? { return None; }
        out := out + below.value;
      } else {
        out := out + [k];
      }
      i := i + 1;
    }
    GlueLaws(out, None, None);
    return Some(out);
  }

  lemma RewrittenNext(acc: seq<string>, paths: seq<string>, removed: string, children: Children)
    requires Descends(children) && paths != []
    ensures var one := RewrittenOne(paths[0], removed, children);
            Glue(Some(acc), Rewritten(paths, removed, children)) ==
            if one.None? then None else Glue(Some(acc + one.value), Rewritten(paths[1..], removed, children))
  {
    GlueLaws(acc, RewrittenOne(paths[0], removed, children), Rewritten(paths[1..], removed, children));
  }

  lemma CoveredOneMore(paths: seq<string>, i: nat, removed: string)
    requires i < |paths|
    ensures Covered(paths[..i + 1], removed) <==> Covered(paths[..i], removed) || AtOrUnder(removed, paths[i])
    ensures Covered(paths[..i + 1], removed) ==> Covered(paths, removed)
  {
    assert paths[..i + 1] == paths[..i] + [paths[i]];
  }

  /** The loop over a non-empty scope; `changed` reports whether it covered `removed`. */
  method RewriteEntries(paths: seq<string>, removed: string, children: Children)
    returns (out: Option<seq<string>>, changed: bool)
    requires Descends(children)
    ensures out == Rewritten(paths, removed, children)
    ensures out.Some? ==> changed == Covered(paths, removed)
    ensures out.None? ==> Covered(paths, removed)
  {
    var acc := [];
    changed := false;
    var i := 0;
    assert paths[0..] == paths;
    GlueLaws([], None, Rewritten(paths, removed, children));
    while i < |paths|
      invariant i <= |paths|
      invariant changed == Covered(paths[..i], removed)
      invariant Glue(Some(acc), Rewritten(paths[i..], removed, children))
                == Rewritten(paths, removed, children)
    {
      var p := paths[i];
      RewrittenNext(acc, paths[i..], removed, children);
      assert paths[i..][0] == p && paths[i..][1..] == paths[i + 1..];
      CoveredOneMore(paths, i, removed);
      if p == removed {
        changed := true;
        assert acc + [] == acc;
      } else if p != "" && Within(removed, p) {
        changed := true;
        var below := Walk(p, removed, children);
        if below.None? { return None, true; }
        acc := acc + below.value;
      } else {
        acc := acc + [p];
      }
      i := i + 1;
    }
    GlueLaws(acc, None, None);
    assert paths[..|paths|] == paths;
    return Some(acc), changed;
  }

  method SubtractFromScope(paths: seq<string>, removed: string, children: Children)
    returns (r: Option<seq<string>>)
    requires Descends(children)
    ensures r == Subtracted(paths, removed, children)
  {
    var out;
    if paths == [] {
      out := Walk("", removed, children);
    } else {
      var changed;
      out, changed := RewriteEntries(paths, removed, children);
      if !changed { return None; }
    }
    if out.None? { return None; }
    return Some(NeverEmpty(out.value));
  }
}
